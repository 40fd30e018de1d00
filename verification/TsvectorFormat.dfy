/**
 The text format of search vectors: what printing produces, what parsing reads, and exactly when
 the two agree. Which characters belong to words is a parameter; all that is asked of it is that
 the quote does not.
 */
module TsvectorFormat {
  import opened Strings
  import opened Wrappers
  import opened LexerBase
  import Decimal

  /** Each lexeme with its positions, and the weight of each position. */
  type Vector = map<string, map<int, char>>

  datatype Label = Label(position: int, weight: char)

  datatype ParseError =
    | MissingQuote | UnexpectedEOF | EmptyLexeme | UnexpectedCharacter | MissingPosition
    | NumberPanic  // the position does not fit its type

  predicate IsWeightLetter(c: char) { 'A' <= c <= 'D' }

  /** Weights are read in either case. */
  predicate IsWeight(c: char) { 'A' <= c <= 'D' || 'a' <= c <= 'd' }

  function ToUpper(c: char): (u: char)
    requires IsWeight(c)
    ensures IsWeightLetter(u) && (IsWeightLetter(c) ==> u == c)
  {
    if 'a' <= c then 'A' + (c - 'a') else c
  }

  // ---------- parsing ----------

  function ReadLexeme(word: char -> bool, s: string): (r: Result<(string, string), ParseError>)
    ensures r.Ok? ==> r.value.0 != "" && |r.value.1| < |s|
  {
    var k := Span(word, s);
    if k > 0 then Ok((s[..k], s[k..]))
    else if s == "" || s[0] != '\'' then Err(MissingQuote)
    else
      var q := QuotedBody(s[1..], '\'');
      if !q.closed then Err(UnexpectedEOF)
      else if q.text == "" then Err(EmptyLexeme)
      else Ok((q.text, q.rest))
  }

  function Spaces(s: string): nat { Span(IsChar(' '), s) }

  predicate ValidLabel(l: Label) { 0 <= l.position <= MAX_INT64 && IsWeightLetter(l.weight) }

  /** A position and, if there is one, its weight. */
  function ReadLabel(s: string): (r: Result<(Label, string), ParseError>)
    ensures r.Ok? ==> |r.value.1| < |s| && ValidLabel(r.value.0)
  {
    var n, s1 := NumberAt(s), s[Span(Decimal.IsDigit, s)..];
    if n.NoNumber? then Err(MissingPosition)
    else if n.TooLarge? then Err(NumberPanic)
    else if s1 != "" && IsWeight(s1[0]) then Ok((Label(n.n, ToUpper(s1[0])), s1[1..]))
    else Ok((Label(n.n, 'D'), s1))
  }

  /** The labels after a colon, and what follows them. */
  function ReadLabels(s: string): (r: Result<(seq<Label>, string), ParseError>)
    ensures r.Ok? ==> |r.value.1| < |s| && forall l :: l in r.value.0 ==> ValidLabel(l)
    decreases |s|
  {
    var first := ReadLabel(s);
    if first.Err? then Err(first.error)
    else
      var (l, s1) := first.value;
      if s1 != "" && s1[0] == ',' then
        var more := ReadLabels(s1[1..]);
        if more.Err? then more else Ok(([l] + more.value.0, more.value.1))
      else
        var end := AfterLabels(s1);
        if end.Err? then Err(end.error) else Ok(([l], end.value))
  }

  /** After the last label comes the end of the text, or spaces. */
  function AfterLabels(s: string): (r: Result<string, ParseError>)
    ensures r.Ok? ==> |r.value| <= |s|
  {
    if s != "" && Spaces(s) == 0 then Err(UnexpectedCharacter) else Ok(s[Spaces(s)..])
  }

  datatype Part = Part(lexeme: string, labels: seq<Label>, rest: string)

  /** What follows a lexeme: its labels, or the end of the part. */
  function ReadRest(w: string, s: string): (r: Result<Part, ParseError>)
    ensures r.Ok? ==> |r.value.rest| <= |s| && r.value.lexeme == w && forall l :: l in r.value.labels ==> ValidLabel(l)
  {
    if s != "" && s[0] == ':' then
      var labels := ReadLabels(s[1..]);
      if labels.Err? then Err(labels.error) else Ok(Part(w, labels.value.0, labels.value.1))
    else if s[Spaces(s)..] != "" && Spaces(s) == 0 then Err(UnexpectedCharacter)
    else Ok(Part(w, [], s[Spaces(s)..]))
  }

  function ReadPart(word: char -> bool, s: string): (r: Result<Part, ParseError>)
    ensures r.Ok? ==> |r.value.rest| < |s| && r.value.lexeme != "" && forall l :: l in r.value.labels ==> ValidLabel(l)
  {
    var lexeme := ReadLexeme(word, s);
    if lexeme.Err? then Err(lexeme.error) else ReadRest(lexeme.value.0, lexeme.value.1)
  }

  function PutLabels(m: map<int, char>, labels: seq<Label>): map<int, char>
    decreases |labels|
  {
    if labels == [] then m else PutLabels(m[labels[0].position := labels[0].weight], labels[1..])
  }

  function Put(v: Vector, lexeme: string, labels: seq<Label>): Vector {
    v[lexeme := PutLabels(if lexeme in v then v[lexeme] else map[], labels)]
  }

  function ParseParts(word: char -> bool, s: string, v: Vector): Result<Vector, ParseError>
    decreases |s|
  {
    if s == "" then Ok(v)
    else
      var part := ReadPart(word, s);
      if part.Err? then Err(part.error)
      else ParseParts(word, part.value.rest, Put(v, part.value.lexeme, part.value.labels))
  }

  function Parse(word: char -> bool, s: string): Result<Vector, ParseError> { ParseParts(word, TrimSpace(s), map[]) }

  // ---------- printing ----------

  type Entry = (string, seq<Label>)

  /** The default weight is left out. */
  function LabelText(l: Label): string { Decimal.Signed(l.position) + if l.weight == 'D' then "" else [l.weight] }

  /** The weight that the text of a label carries (section 8.11.1 of PostgreSQL's documentation): the
      letter at its end, or D when it ends in a digit. */
  function Carried(s: string): char { if s != "" && 'A' <= s[|s| - 1] <= 'D' then s[|s| - 1] else 'D' }

  /** A printed label is its position, then its weight, except that D is not written. */
  lemma LabelTextMeans(l: Label)
    requires l.position >= 0 && IsWeightLetter(l.weight)
    ensures Carried(LabelText(l)) == l.weight && (LabelText(l) == "" || LabelText(l)[|LabelText(l)| - 1] != 'D')
    ensures var digits := if l.weight == 'D' then LabelText(l) else LabelText(l)[..|LabelText(l)| - 1];
            digits != "" && Decimal.AllDigits(digits) && Decimal.Value(digits) == l.position
  {
    Decimal.DigitsRoundTrip(l.position);
    var digits := Decimal.Digits(l.position);
    assert Decimal.IsDigit(digits[|digits| - 1]) && digits + "" == digits;
    assert l.weight != 'D' ==> LabelText(l)[..|LabelText(l)| - 1] == digits;
  }

  /** A label that is read has the position its digits spell, and the weight that follows them or, if
      there is none, D. */
  lemma LabelReadMeans(digits: string, rest: string)
    requires digits != "" && Decimal.AllDigits(digits) && Decimal.Value(digits) <= MAX_INT64
    requires rest == "" || !Decimal.IsDigit(rest[0])
    ensures var n, r := Decimal.Value(digits), ReadLabel(digits + rest);
            if rest != "" && 'A' <= rest[0] <= 'D' then r == Ok((Label(n, rest[0]), rest[1..]))
            else if rest != "" && 'a' <= rest[0] <= 'd' then r == Ok((Label(n, rest[0] - 'a' + 'A'), rest[1..]))
            else r == Ok((Label(n, 'D'), rest))
  {
    SpanOf(Decimal.IsDigit, digits, rest);
    DropFront(digits, rest);
  }

  /** Labels at position zero are not printed. */
  function Shown(labels: seq<Label>): seq<Label> {
    if labels == [] then [] else (if labels[0].position == 0 then [] else [labels[0]]) + Shown(labels[1..])
  }

  function LabelTexts(labels: seq<Label>): seq<string> {
    seq(|labels|, i requires 0 <= i < |labels| => LabelText(labels[i]))
  }

  function LabelsText(labels: seq<Label>): string {
    if labels == [] then "" else ":" + Join(LabelTexts(labels), ",")
  }

  function Quoted(lexeme: string): string { "'" + Escape(lexeme, '\'') + "'" }

  function EntryText(e: Entry): string { Quoted(e.0) + LabelsText(Shown(e.1)) }

  function EntryTexts(entries: seq<Entry>): seq<string> {
    seq(|entries|, i requires 0 <= i < |entries| => EntryText(entries[i]))
  }

  function Render(entries: seq<Entry>): string { Join(EntryTexts(entries), " ") }

  // ---------- the order of printing ----------

  /** The labels of a lexeme in order of their positions; a lexeme without any has a single one at
      position zero. */
  ghost predicate ListsLabels(labels: seq<Label>, m: map<int, char>) {
    if m == map[] then labels == [Label(0, 'D')]
    else
      && (forall i, j :: 0 <= i < j < |labels| ==> labels[i].position < labels[j].position)
      && (forall l :: l in labels <==> l.position in m && m[l.position] == l.weight)
  }

  /** The entries of a vector in order of their lexemes. */
  ghost predicate Lists(entries: seq<Entry>, v: Vector) {
    && (forall i, j :: 0 <= i < j < |entries| ==> StrLess(entries[i].0, entries[j].0))
    && (forall e :: e in entries ==> e.0 in v && ListsLabels(e.1, v[e.0]))
    && (forall k :: k in v ==> exists i :: 0 <= i < |entries| && entries[i].0 == k)
  }

  // ---------- which vectors survive ----------

  predicate GoodLabels(m: map<int, char>, least: int) {
    forall p :: p in m ==> least <= p <= MAX_INT64 && IsWeightLetter(m[p])
  }

  /** Non-empty lexemes, weights A to D, and positions from `least` on. */
  predicate Good(v: Vector, least: int) {
    forall k :: k in v ==> k != "" && GoodLabels(v[k], least)
  }

  /** The vectors that printing and parsing preserve. */
  predicate WellFormed(v: Vector) { Good(v, 1) }

  function WithoutZero(m: map<int, char>): map<int, char> { map p | p in m && p != 0 :: m[p] }

  function DropZero(v: Vector): Vector { map k | k in v :: WithoutZero(v[k]) }

  // ---------- everything parsed is good ----------

  lemma {:induction false} PutLabelsGood(m: map<int, char>, labels: seq<Label>)
    requires GoodLabels(m, 0)
    requires forall l :: l in labels ==> ValidLabel(l)
    ensures GoodLabels(PutLabels(m, labels), 0)
    decreases |labels|
  {
    if labels != [] {
      assert labels[0] in labels;
      PutLabelsGood(m[labels[0].position := labels[0].weight], labels[1..]);
    }
  }

  lemma {:induction false} ParsedIsGood(word: char -> bool, s: string, v: Vector)
    requires Good(v, 0)
    ensures ParseParts(word, s, v).Ok? ==> Good(ParseParts(word, s, v).value, 0)
    decreases |s|
  {
    if s != "" {
      var part := ReadPart(word, s);
      if part.Ok? {
        var Part(w, labels, rest) := part.value;
        PutLabelsGood(if w in v then v[w] else map[], labels);
        ParsedIsGood(word, rest, Put(v, w, labels));
      }
    }
  }

  // ---------- what is printed reads back ----------

  predicate GoodLabel(l: Label) { ValidLabel(l) && l.position >= 1 }

  /** The end of a part: the end of the input, or one space before the next part. */
  predicate PartEnd(tail: string, more: string) {
    (tail == "" && more == "") || (tail == " " + more && more != "" && more[0] != ' ')
  }

  lemma SpacesAt(tail: string, more: string)
    requires PartEnd(tail, more)
    ensures tail[Spaces(tail)..] == more && (tail != "" ==> Spaces(tail) == 1)
  {
    if tail != "" {
      SpanOf(IsChar(' '), " ", more);
    }
  }

  lemma NumberReads(n: nat, after: string)
    requires n <= MAX_INT64 && (after == "" || !Decimal.IsDigit(after[0]))
    ensures var s := Decimal.Digits(n) + after;
            Span(Decimal.IsDigit, s) == |Decimal.Digits(n)| && NumberAt(s) == Number(n)
            && s[|Decimal.Digits(n)|..] == after
  {
    Decimal.DigitsRoundTrip(n);
    SpanOf(Decimal.IsDigit, Decimal.Digits(n), after);
    assert (Decimal.Digits(n) + after)[..|Decimal.Digits(n)|] == Decimal.Digits(n);
  }

  /** One label and what follows it: a comma, or the end of the part. */
  lemma LabelReads(l: Label, after: string)
    requires GoodLabel(l) && (after == "" || after[0] == ',' || after[0] == ' ')
    ensures ReadLabel(LabelText(l) + after) == Ok((l, after))
  {
    var w := if l.weight == 'D' then "" else [l.weight];
    Assoc(Decimal.Digits(l.position), w, after);
    NumberReads(l.position, w + after);
    if l.weight == 'D' {
      assert w + after == after;
    } else {
      DropFront(w, after);
      assert (w + after)[0] == l.weight;
    }
  }

  lemma LastLabelReads(l: Label, tail: string, more: string)
    requires GoodLabel(l) && PartEnd(tail, more)
    ensures ReadLabels(LabelText(l) + tail) == Ok(([l], more))
  {
    SpacesAt(tail, more);
    LabelReads(l, tail);
  }

  lemma NextLabelReads(l: Label, rest: string, labels: seq<Label>, more: string)
    requires GoodLabel(l) && ReadLabels(rest) == Ok((labels, more))
    ensures ReadLabels(LabelText(l) + ("," + rest)) == Ok(([l] + labels, more))
  {
    LabelReads(l, "," + rest);
    DropFront(",", rest);
    assert ("," + rest)[0] == ',';
  }

  lemma LabelTextsSplit(labels: seq<Label>, tail: string)
    requires labels != []
    ensures Join(LabelTexts(labels), ",") + tail ==
      if |labels| == 1 then LabelText(labels[0]) + tail
      else LabelText(labels[0]) + ("," + (Join(LabelTexts(labels[1..]), ",") + tail))
  {
    if |labels| > 1 {
      assert LabelTexts(labels)[1..] == LabelTexts(labels[1..]);
      Assoc4(LabelText(labels[0]), ",", Join(LabelTexts(labels[1..]), ","), tail);
    }
  }

  lemma {:induction false} LabelsRead(labels: seq<Label>, tail: string, more: string)
    requires labels != [] && (forall i :: 0 <= i < |labels| ==> GoodLabel(labels[i])) && PartEnd(tail, more)
    ensures ReadLabels(Join(LabelTexts(labels), ",") + tail) == Ok((labels, more))
  {
    LabelTextsSplit(labels, tail);
    assert labels == [labels[0]] + labels[1..];
    if |labels| == 1 {
      LastLabelReads(labels[0], tail, more);
      assert labels == [labels[0]];
    } else {
      LabelsRead(labels[1..], tail, more);
      NextLabelReads(labels[0], Join(LabelTexts(labels[1..]), ",") + tail, labels[1..], more);
    }
  }

  lemma LexemeReads(word: char -> bool, lexeme: string, after: string)
    requires !word('\'') && lexeme != "" && (after == "" || after[0] != '\'')
    ensures ReadLexeme(word, Quoted(lexeme) + after) == Ok((lexeme, after))
  {
    var s := Quoted(lexeme) + after;
    QuotedRoundTrip(lexeme, '\'', after);
    assert s[0] == '\'' && s[1..] == Escape(lexeme, '\'') + ['\''] + after;
  }

  lemma LabelledRestReads(w: string, text: string, labels: seq<Label>, more: string)
    requires ReadLabels(text) == Ok((labels, more))
    ensures ReadRest(w, ":" + text) == Ok(Part(w, labels, more))
  {
    DropFront(":", text);
    assert (":" + text)[0] == ':';
  }

  /** One printed entry reads back as its lexeme and the labels shown. */
  lemma PartReads(word: char -> bool, e: Entry, tail: string, more: string)
    requires !word('\'') && e.0 != "" && (forall l :: l in Shown(e.1) ==> GoodLabel(l)) && PartEnd(tail, more)
    ensures ReadPart(word, EntryText(e) + tail) == Ok(Part(e.0, Shown(e.1), more))
  {
    var labels := Shown(e.1);
    var after := LabelsText(labels) + tail;
    Assoc(Quoted(e.0), LabelsText(labels), tail);
    LexemeReads(word, e.0, after);
    if labels == [] {
      assert after == tail;
      SpacesAt(tail, more);
    } else {
      var text := Join(LabelTexts(labels), ",");
      LabelsRead(labels, tail, more);
      Assoc(":", text, tail);
      LabelledRestReads(e.0, text + tail, labels, more);
    }
  }

  function PutEntries(v: Vector, entries: seq<Entry>): Vector
    decreases |entries|
  {
    if entries == [] then v else PutEntries(Put(v, entries[0].0, Shown(entries[0].1)), entries[1..])
  }

  predicate PrintsGood(e: Entry) { e.0 != "" && forall l :: l in Shown(e.1) ==> GoodLabel(l) }

  lemma {:induction false} EntriesRead(word: char -> bool, entries: seq<Entry>, v: Vector)
    requires !word('\'') && forall e :: e in entries ==> PrintsGood(e)
    ensures ParseParts(word, Render(entries), v) == Ok(PutEntries(v, entries))
    decreases |entries|
  {
    if entries != [] {
      var e := entries[0];
      assert e in entries;
      EntriesRead(word, entries[1..], Put(v, e.0, Shown(e.1)));
      if |entries| == 1 {
        PartReads(word, e, "", "");
        assert EntryText(e) + "" == EntryText(e);
      } else {
        StartsQuoted(entries[1..]);
        PartReads(word, e, " " + Render(entries[1..]), Render(entries[1..]));
        RenderSplit(entries);
      }
    }
  }

  lemma RenderSplit(entries: seq<Entry>)
    requires |entries| > 1
    ensures Render(entries) == EntryText(entries[0]) + (" " + Render(entries[1..]))
  {
    assert EntryTexts(entries)[1..] == EntryTexts(entries[1..]);
    Assoc(EntryText(entries[0]), " ", Render(entries[1..]));
  }

  lemma StartsQuoted(entries: seq<Entry>)
    requires entries != []
    ensures Render(entries) != "" && Render(entries)[0] == '\''
  {
    assert EntryTexts(entries)[0] == EntryText(entries[0]);
  }

  // ---------- what the entries of a vector put together ----------

  /** Labels at distinct positions put exactly themselves, but for position zero. */
  lemma {:induction false} LabelsPut(m: map<int, char>, labels: seq<Label>)
    requires forall i, j :: 0 <= i < j < |labels| ==> labels[i].position != labels[j].position
    ensures var r := PutLabels(m, Shown(labels));
            && (forall l :: l in labels && l.position != 0 ==> l.position in r && r[l.position] == l.weight)
            && (forall p :: p in r && p !in m ==> p != 0 && exists l :: l in labels && l.position == p)
            && (forall p :: p in m && (forall l :: l in labels ==> l.position != p) ==> p in r && r[p] == m[p])
    decreases |labels|
  {
    if labels != [] {
      var l, rest := labels[0], labels[1..];
      assert labels == [l] + rest;
      var m' := if l.position == 0 then m else m[l.position := l.weight];
      LabelsPut(m', rest);
      ShownSplit(m, labels);
    }
  }

  lemma ShownSplit(m: map<int, char>, labels: seq<Label>)
    requires labels != []
    ensures var l := labels[0];
            PutLabels(m, Shown(labels)) ==
              PutLabels(if l.position == 0 then m else m[l.position := l.weight], Shown(labels[1..]))
  {
    var l := labels[0];
    if l.position != 0 {
      assert Shown(labels)[0] == l && Shown(labels)[1..] == Shown(labels[1..]);
    } else {
      assert Shown(labels) == Shown(labels[1..]);
    }
  }

  lemma LabelsPutAll(labels: seq<Label>, m: map<int, char>)
    requires ListsLabels(labels, m)
    ensures PutLabels(map[], Shown(labels)) == WithoutZero(m)
  {
    if m == map[] {
      assert Shown(labels) == [];
    } else {
      LabelsPut(map[], labels);
      var r := PutLabels(map[], Shown(labels));
      forall p | p in WithoutZero(m) ensures p in r && r[p] == m[p] {
        assert Label(p, m[p]) in labels;
      }
      forall p | p in r ensures p in WithoutZero(m) {
        var l :| l in labels && l.position == p;
      }
      assert r.Keys == WithoutZero(m).Keys;
    }
  }

  /** Entries of distinct lexemes put exactly themselves. */
  lemma {:induction false} EntriesPut(v: Vector, entries: seq<Entry>)
    requires forall i, j :: 0 <= i < j < |entries| ==> entries[i].0 != entries[j].0
    requires forall i :: 0 <= i < |entries| ==> entries[i].0 !in v
    ensures var r := PutEntries(v, entries);
            && (forall i :: 0 <= i < |entries| ==>
                  entries[i].0 in r && r[entries[i].0] == PutLabels(map[], Shown(entries[i].1)))
            && (forall k :: k in r && k !in v ==> exists i :: 0 <= i < |entries| && entries[i].0 == k)
            && (forall k :: k in v ==> k in r && r[k] == v[k])
    decreases |entries|
  {
    if entries != [] {
      var e, rest := entries[0], entries[1..];
      var v' := Put(v, e.0, Shown(e.1));
      EntriesPut(v', rest);
      forall i | 0 < i < |entries| ensures entries[i] == rest[i - 1] {
      }
    }
  }

  lemma ListedDistinct(entries: seq<Entry>, v: Vector)
    requires Lists(entries, v)
    ensures forall i, j :: 0 <= i < j < |entries| ==> entries[i].0 != entries[j].0
  {
    forall i, j | 0 <= i < j < |entries| ensures entries[i].0 != entries[j].0 {
      StrLessIrreflexive(entries[i].0);
    }
  }

  lemma EntriesPutAll(entries: seq<Entry>, v: Vector)
    requires Lists(entries, v)
    ensures PutEntries(map[], entries) == DropZero(v)
  {
    var r := PutEntries(map[], entries);
    forall k ensures (k in r <==> k in v) && (k in v ==> r[k] == WithoutZero(v[k])) {
      EntriesPutKey(entries, v, k);
    }
  }

  lemma EntriesPutKey(entries: seq<Entry>, v: Vector, k: string)
    requires Lists(entries, v)
    ensures var r := PutEntries(map[], entries);
            (k in r <==> k in v) && (k in v ==> r[k] == WithoutZero(v[k]))
  {
    ListedDistinct(entries, v);
    EntriesPut(map[], entries);
    if k in v {
      var i :| 0 <= i < |entries| && entries[i].0 == k;
      EntryPut(entries, v, i);
    } else {
      NotListed(entries, v, k);
    }
  }

  lemma NotListed(entries: seq<Entry>, v: Vector, k: string)
    requires Lists(entries, v) && k !in v
    ensures forall i :: 0 <= i < |entries| ==> entries[i].0 != k
  {
    forall i | 0 <= i < |entries| ensures entries[i].0 != k {
      assert entries[i] in entries;
    }
  }

  lemma EntryPut(entries: seq<Entry>, v: Vector, i: nat)
    requires i < |entries| && Lists(entries, v)
    ensures entries[i].0 in v && PutLabels(map[], Shown(entries[i].1)) == WithoutZero(v[entries[i].0])
  {
    assert entries[i] in entries;
    LabelsPutAll(entries[i].1, v[entries[i].0]);
  }

  // ---------- the round trip ----------

  /** Printing a good vector and parsing it gives the vector back without its labels at position
      zero. */
  lemma PrintedParses(word: char -> bool, v: Vector, entries: seq<Entry>)
    requires !word('\'') && Lists(entries, v) && Good(v, 0)
    ensures Parse(word, Render(entries)) == Ok(DropZero(v))
  {
    forall e | e in entries ensures PrintsGood(e) {
      ShownGood(e.1, v[e.0]);
    }
    EntriesRead(word, entries, map[]);
    EntriesPutAll(entries, v);
    RenderTrimmed(entries);
  }

  lemma ShownGood(labels: seq<Label>, m: map<int, char>)
    requires ListsLabels(labels, m) && GoodLabels(m, 0)
    ensures forall l :: l in Shown(labels) ==> GoodLabel(l)
  {
    ShownIn(labels);
  }

  lemma {:induction false} ShownIn(labels: seq<Label>)
    ensures forall l :: l in Shown(labels) ==> l in labels && l.position != 0
  {
    if labels != [] {
      ShownIn(labels[1..]);
    }
  }

  /** A printed vector neither begins nor ends with a space, so that trimming leaves it alone. */
  lemma {:induction false} RenderEnds(entries: seq<Entry>)
    requires entries != [] && forall e :: e in entries ==> PrintsGood(e)
    ensures var s := Render(entries); s != "" && !IsSpace(s[|s| - 1])
  {
    if |entries| == 1 {
      EntryEnds(entries[0]);
    } else {
      RenderEnds(entries[1..]);
      RenderSplit(entries);
    }
  }

  lemma EntryEnds(e: Entry)
    requires PrintsGood(e)
    ensures var s := EntryText(e); s != "" && !IsSpace(s[|s| - 1])
  {
    var labels := Shown(e.1);
    if labels == [] {
      assert EntryText(e) == Quoted(e.0);
    } else {
      LabelsEnd(labels);
    }
  }

  lemma {:induction false} LabelsEnd(labels: seq<Label>)
    requires labels != [] && forall l :: l in labels ==> GoodLabel(l)
    ensures var s := Join(LabelTexts(labels), ","); s != "" && !IsSpace(s[|s| - 1])
  {
    if |labels| == 1 {
      assert labels[0] in labels;
      Decimal.DigitsRoundTrip(labels[0].position);
    } else {
      LabelsEnd(labels[1..]);
      assert LabelTexts(labels)[1..] == LabelTexts(labels[1..]);
    }
  }

  lemma RenderTrimmed(entries: seq<Entry>)
    requires forall e :: e in entries ==> PrintsGood(e)
    ensures TrimSpace(Render(entries)) == Render(entries)
  {
    if entries != [] {
      StartsQuoted(entries);
      RenderEnds(entries);
    }
  }

  /** What is printed parses back to the same vector exactly when the vector is well-formed: its
      lexemes are not empty, its positions start at one, its weights are A to D. */
  lemma RoundTripExactly(word: char -> bool, v: Vector, entries: seq<Entry>)
    requires !word('\'') && Lists(entries, v)
    ensures Parse(word, Render(entries)) == Ok(v) <==> WellFormed(v)
  {
    if WellFormed(v) {
      PrintedParses(word, v, entries);
      NoZeroToDrop(v);
    }
    if Parse(word, Render(entries)) == Ok(v) {
      ParsedIsGood(word, TrimSpace(Render(entries)), map[]);
      PrintedParses(word, v, entries);
      NothingDropped(v);
    }
  }

  lemma NoZeroToDrop(v: Vector)
    requires WellFormed(v)
    ensures DropZero(v) == v
  {
    forall k | k in v ensures WithoutZero(v[k]) == v[k] {
    }
  }

  lemma NothingDropped(v: Vector)
    requires Good(v, 0) && DropZero(v) == v
    ensures WellFormed(v)
  {
    forall k | k in v ensures k != "" && GoodLabels(v[k], 1) {
      assert v[k] == WithoutZero(v[k]);
    }
  }
}
