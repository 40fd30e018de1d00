/**
 Search vectors as the program holds them: a table of lexemes, each with a table of labels of its
 own that is updated in place.
 */
module Tsvector {
  import opened Library
  import opened Strings
  import opened Wrappers
  import opened LexerBase
  import opened Tokenizer
  import opened TsvectorFormat
  import opened TsvectorPositions

  class LabelMap {
    ghost const lexeme: string      // the lexeme it belongs to
    var labels: map<int, char>

    constructor (ghost lexeme: string)
      ensures this.lexeme == lexeme && labels == map[]
    {
      this.lexeme := lexeme;
      labels := map[];
    }
  }

  // ---------- the order of printing ----------

  function ByKey(): (Entry, Entry) -> bool { (a: Entry, b: Entry) => StrLess(a.0, b.0) }

  function ByPosition(): (Label, Label) -> bool { (a: Label, b: Label) => a.position < b.position }

  lemma KeysOrder(entries: seq<Entry>)
    requires forall i, j :: 0 <= i < j < |entries| ==> entries[i].0 != entries[j].0
    ensures Orders(ByKey(), entries)
  {
    forall a, b, c | ByKey()(a, b) && ByKey()(b, c) ensures ByKey()(a, c) {
      StrLessTransitive(a.0, b.0, c.0);
    }
    forall i, j | 0 <= i < j < |entries| ensures ByKey()(entries[i], entries[j]) || ByKey()(entries[j], entries[i]) {
      StrLessTotal(entries[i].0, entries[j].0);
    }
  }

  /** The labels of one lexeme, in order. */
  method ListLabels(m: map<int, char>) returns (labels: seq<Label>)
    ensures ListsLabels(labels, m)
  {
    if |m| == 0 {
      return [Label(0, 'D')];
    }
    var ps := RangeKeys(m.Keys);
    var found: seq<Label> := [];
    for i := 0 to |ps|
      invariant |found| == i && forall j :: 0 <= j < i ==> found[j] == Label(ps[j], m[ps[j]])
    {
      found := found + [Label(ps[i], m[ps[i]])];
    }
    LabelsFound(m, ps, found);
    labels := Sort(found, ByPosition());
  }

  lemma LabelsFound(m: map<int, char>, ps: seq<int>, found: seq<Label>)
    requires m != map[] && Distinct(ps) && forall p :: p in ps <==> p in m
    requires |found| == |ps| && forall j :: 0 <= j < |ps| ==> ps[j] in m && found[j] == Label(ps[j], m[ps[j]])
    ensures ListsLabels(Sort(found, ByPosition()), m)
  {
    SortSorts(found, ByPosition());
    var labels := Sort(found, ByPosition());
    forall l ensures l in found <==> l.position in m && m[l.position] == l.weight {
      if l.position in m && m[l.position] == l.weight {
        var j :| 0 <= j < |ps| && ps[j] == l.position;
        assert found[j] == l;
      }
    }
    forall i, j | 0 <= i < j < |labels| ensures labels[i].position < labels[j].position {
      assert ByPosition()(labels[i], labels[j]);
    }
  }

  /** The part of a vector that the first `n` lexemes make. */
  ghost function FirstOf(v: Vector, ks: seq<string>, n: nat): Vector
    requires n <= |ks| && forall i :: 0 <= i < n ==> ks[i] in v
  {
    if n == 0 then map[] else FirstOf(v, ks, n - 1)[ks[n - 1] := v[ks[n - 1]]]
  }

  lemma {:induction false} FirstOfAll(v: Vector, ks: seq<string>, n: nat)
    requires n <= |ks| && forall i :: 0 <= i < n ==> ks[i] in v
    ensures forall k :: k in FirstOf(v, ks, n) <==> exists i :: 0 <= i < n && ks[i] == k
    ensures forall k :: k in FirstOf(v, ks, n) ==> FirstOf(v, ks, n)[k] == v[k]
  {
    if n != 0 {
      FirstOfAll(v, ks, n - 1);
    }
  }

  lemma AddStep(v: Vector, lexemes: seq<string>, i: nat, next: int, weight: char)
    requires i < |lexemes|
    ensures AddAt(v, lexemes[i..], next, weight) ==
            AddAt(PutOne(v, lexemes[i], next, weight), lexemes[i + 1..], next + 1, weight)
  {
    assert lexemes[i..][1..] == lexemes[i + 1..];
  }

  class Tsvector {
    var entries: map<string, LabelMap>

    /** No two lexemes share their labels: each table of labels belongs to its lexeme. */
    ghost predicate Valid()
      reads this
    {
      forall k :: k in entries ==> entries[k].lexeme == k
    }

    ghost function Value(): Vector
      reads this, entries.Values
    {
      map k | k in entries :: entries[k].labels
    }

    constructor ()
      ensures Valid() && Value() == map[] && entries == map[]
    {
      entries := map[];
    }

    /** Sets the weight of a position of a lexeme. */
    method PutLabel(lexeme: string, position: int, weight: char)
      requires Valid()
      modifies this, entries.Values
      ensures Valid() && Value() == PutOne(old(Value()), lexeme, position, weight)
      ensures fresh(entries.Values - old(entries.Values))
    {
      Ensure(lexeme);
      SetLabel(lexeme, position, weight);
    }

    method SetLabel(lexeme: string, position: int, weight: char)
      requires Valid() && lexeme in entries
      modifies entries[lexeme]
      ensures Valid() && entries == old(entries)
      ensures Value() == old(Value())[lexeme := old(Value())[lexeme][position := weight]]
    {
      var m := entries[lexeme];
      m.labels := m.labels[position := weight];
    }

    /** Makes sure that there are labels, perhaps none, for the lexeme. */
    method Ensure(lexeme: string)
      requires Valid()
      modifies this
      ensures Valid() && lexeme in entries
      ensures Value() == old(Value())[lexeme := if lexeme in old(Value()) then old(Value())[lexeme] else map[]]
      ensures fresh(entries.Values - old(entries.Values))
    {
      if lexeme !in entries {
        var m := new LabelMap(lexeme);
        entries := entries[lexeme := m];
      }
    }

    /** A copy that shares nothing with this vector. */
    method Copy() returns (c: Tsvector)
      requires Valid()
      ensures fresh(c) && fresh(c.entries.Values) && c.Valid() && c.Value() == Value()
    {
      c := new Tsvector();
      var ks := RangeKeys(entries.Keys);
      CopyAll(c, ks);
      FirstOfAll(Value(), ks, |ks|);
      assert c.Value() == Value();
    }

    /** Copies the labels of the given lexemes into an empty vector. */
    method CopyAll(c: Tsvector, ks: seq<string>)
      requires Valid() && c != this && c.entries == map[] && forall i :: 0 <= i < |ks| ==> ks[i] in entries
      modifies c
      ensures c.Valid() && fresh(c.entries.Values) && c.Value() == FirstOf(Value(), ks, |ks|)
    {
      ghost var v := Value();
      for i := 0 to |ks|
        invariant c.Valid() && fresh(c.entries.Values) && Value() == v
        invariant c.Value() == FirstOf(v, ks, i)
      {
        c.CopyLabels(ks[i], entries[ks[i]]);
      }
    }

    /** Gives a lexeme labels of its own that are those of another table. */
    method CopyLabels(lexeme: string, from: LabelMap)
      requires Valid()
      modifies this
      ensures Valid() && fresh(entries.Values - old(entries.Values))
      ensures Value() == old(Value())[lexeme := from.labels]
    {
      var m := new LabelMap(lexeme);
      m.labels := from.labels;
      entries := entries[lexeme := m];
    }

    /** The position after the greatest one, and one more if there is any. */
    method NextPosition() returns (next: int)
      requires Valid()
      ensures next == StartAfter(Top(Value()))
    {
      next := 1;
      var ks := RangeKeys(entries.Keys);
      ghost var v := Value();
      for i := 0 to |ks|
        invariant next >= 1
        invariant forall j :: 0 <= j < i ==> ks[j] in v && forall p :: p in v[ks[j]] ==> p < next
        invariant next == 1 || exists k :: k in v && next - 1 in v[k]
      {
        assert ks[i] in v && entries[ks[i]].labels == v[ks[i]];
        next := NextAfter(entries[ks[i]].labels, next);
      }
      TopIs(v, next - 1);
      if next > 1 {
        next := next + 1;
      }
    }

    /** Adds the lexemes of a text, with one weight, after everything there is. */
    method AddText(t: Tables, text: string, weight: char)
      requires Valid()
      modifies this, entries.Values
      ensures Valid() && fresh(entries.Values - old(entries.Values))
      ensures Value() == AddAt(old(Value()), TokenizeFlat(t, text), StartAfter(Top(old(Value()))), weight)
    {
      var next := NextPosition();
      var lexemes := TokenizeTextFlat(t, text);
      ghost var v, added := Value(), AddAt(Value(), lexemes, next, weight);
      for i := 0 to |lexemes|
        invariant Valid() && Value() == v && fresh(entries.Values - old(entries.Values))
        invariant AddAt(v, lexemes[i..], next, weight) == added
      {
        AddStep(v, lexemes, i, next, weight);
        PutLabel(lexemes[i], next, weight);
        v := PutOne(v, lexemes[i], next, weight);
        next := next + 1;
      }
    }

    /** Adding text to a copy leaves the original alone. */
    method CopyAndAdd(t: Tables, text: string, weight: char) returns (c: Tsvector)
      requires Valid()
      ensures Valid() && Value() == old(Value()) && entries == old(entries)
      ensures c.Valid() && c.Value() == AddAt(Value(), TokenizeFlat(t, text), StartAfter(Top(Value())), weight)
    {
      c := Copy();
      c.AddText(t, text, weight);
    }

    /** The text form: the entries in order of their lexemes. */
    method ToString() returns (s: string)
      requires Valid()
      ensures exists printed :: Lists(printed, Value()) && s == Render(printed)
    {
      var ks := RangeKeys(entries.Keys);
      var found: seq<Entry> := [];
      for i := 0 to |ks|
        invariant |found| == i
        invariant forall j :: 0 <= j < i ==> found[j].0 == ks[j] && ListsLabels(found[j].1, entries[ks[j]].labels)
      {
        var labels := ListLabels(entries[ks[i]].labels);
        found := found + [(ks[i], labels)];
      }
      EntriesFound(Value(), ks, found);
      var printed := Sort(found, ByKey());
      s := Join(EntryTexts(printed), " ");
      assert Lists(printed, Value()) && s == Render(printed);
    }
  }

  lemma EntriesFound(v: Vector, ks: seq<string>, found: seq<Entry>)
    requires Distinct(ks) && (forall k :: k in ks <==> k in v) && |found| == |ks|
    requires forall j :: 0 <= j < |ks| ==> found[j].0 == ks[j] && ListsLabels(found[j].1, v[ks[j]])
    ensures Lists(Sort(found, ByKey()), v)
  {
    KeysOrder(found);
    SortSorts(found, ByKey());
    SortedLists(found, Sort(found, ByKey()), v, ks);
  }

  lemma SortedLists(found: seq<Entry>, sorted: seq<Entry>, v: Vector, ks: seq<string>)
    requires Ordered(sorted, ByKey()) && forall e :: e in sorted <==> e in found
    requires (forall k :: k in ks <==> k in v) && |found| == |ks|
    requires forall j :: 0 <= j < |ks| ==> found[j].0 == ks[j] && ListsLabels(found[j].1, v[ks[j]])
    ensures Lists(sorted, v)
  {
    forall k | k in v ensures exists i :: 0 <= i < |sorted| && sorted[i].0 == k {
      var j :| 0 <= j < |ks| && ks[j] == k;
      assert found[j] in sorted;
    }
    forall i, j | 0 <= i < j < |sorted| ensures StrLess(sorted[i].0, sorted[j].0) {
      assert ByKey()(sorted[i], sorted[j]);
    }
  }

  /** The least number above `next` - 1 and all the positions. */
  method NextAfter(m: map<int, char>, next: int) returns (n: int)
    requires next >= 1
    ensures n >= next && (forall p :: p in m ==> p < n) && (n == next || n - 1 in m)
  {
    n := next;
    var ps := RangeKeys(m.Keys);
    for i := 0 to |ps|
      invariant n >= next && (forall j :: 0 <= j < i ==> ps[j] < n) && (n == next || n - 1 in m)
    {
      if ps[i] >= n {
        n := ps[i] + 1;
      }
    }
    forall p | p in m ensures p < n {
      assert p in ps;
    }
  }

  lemma TopIs(v: Vector, m: int)
    requires IsTop(v, m)
    ensures Top(v) == m
  {
    TopUnique(v, Top(v), m);
  }

  // ---------- parsing ----------

  method ReadLexemeFrom(t: Tables, l: Lexer) returns (r: Result<string, ParseError>)
    requires l.Valid()
    modifies l`pos, l`canUnread
    ensures l.Valid()
    ensures var spec := ReadLexeme(t.isWord, old(l.Rest()));
            if spec.Ok? then r == Ok(spec.value.0) && l.Rest() == spec.value.1 else r == Err(spec.error)
  {
    var unquoted := l.ReadWhile(t.isWord);
    if unquoted != "" {
      return Ok(unquoted);
    }
    var word := l.ReadQuotedString('\'');
    if word.None? {
      return Err(MissingQuote);
    }
    if !word.value.1 {
      return Err(UnexpectedEOF);
    }
    r := if word.value.0 == "" then Err(EmptyLexeme) else Ok(word.value.0);
  }

  method ReadLabelFrom(l: Lexer) returns (r: Result<Label, ParseError>)
    requires l.Valid()
    modifies l`pos, l`canUnread
    ensures l.Valid()
    ensures var spec := ReadLabel(old(l.Rest()));
            if spec.Ok? then r == Ok(spec.value.0) && l.Rest() == spec.value.1 else r == Err(spec.error)
  {
    var n := l.ReadInt();
    if n.NoNumber? {
      return Err(MissingPosition);
    }
    if n.TooLarge? {
      return Err(NumberPanic);
    }
    var read := Label(n.n, 'D');
    var w := l.ReadIf(IsWeight);
    if w.Some? {
      read := read.(weight := ToUpper(w.value));
    }
    r := Ok(read);
  }

  method ReadLabelsFrom(l: Lexer) returns (r: Result<seq<Label>, ParseError>)
    requires l.Valid()
    modifies l`pos, l`canUnread
    ensures l.Valid()
    ensures var spec := ReadLabels(old(l.Rest()));
            if spec.Ok? then r == Ok(spec.value.0) && l.Rest() == spec.value.1 else r == Err(spec.error)
    decreases |l.Rest()|
  {
    var first := ReadLabelFrom(l);
    if first.Err? {
      return Err(first.error);
    }
    var comma := l.ReadChar(',');
    if comma {
      var more := ReadLabelsFrom(l);
      r := if more.Err? then more else Ok([first.value] + more.value);
      return;
    }
    var error := ReadAfterLabels(l);
    r := if error.Some? then Err(error.value) else Ok([first.value]);
  }

  method ReadAfterLabels(l: Lexer) returns (error: Option<ParseError>)
    requires l.Valid()
    modifies l`pos, l`canUnread
    ensures l.Valid()
    ensures var spec := AfterLabels(old(l.Rest()));
            if spec.Ok? then error == None && l.Rest() == spec.value else error == Some(spec.error)
  {
    var eof := l.IsEOF();
    if !eof {
      var spaces := l.ReadWhile(IsChar(' '));
      if spaces == "" {
        return Some(UnexpectedCharacter);
      }
    }
    error := None;
  }

  method ReadTsvPart(t: Tables, l: Lexer) returns (r: Result<(string, seq<Label>), ParseError>)
    requires l.Valid()
    modifies l`pos, l`canUnread
    ensures l.Valid()
    ensures var spec := ReadPart(t.isWord, old(l.Rest()));
            if spec.Ok? then r == Ok((spec.value.lexeme, spec.value.labels)) && l.Rest() == spec.value.rest
            else r == Err(spec.error)
  {
    var lexeme := ReadLexemeFrom(t, l);
    if lexeme.Err? {
      return Err(lexeme.error);
    }
    var labels := ReadRestFrom(lexeme.value, l);
    r := if labels.Err? then Err(labels.error) else Ok((lexeme.value, labels.value));
  }

  method ReadRestFrom(ghost w: string, l: Lexer) returns (r: Result<seq<Label>, ParseError>)
    requires l.Valid()
    modifies l`pos, l`canUnread
    ensures l.Valid()
    ensures var spec := ReadRest(w, old(l.Rest()));
            if spec.Ok? then r == Ok(spec.value.labels) && l.Rest() == spec.value.rest else r == Err(spec.error)
  {
    var colon := l.ReadChar(':');
    if !colon {
      var spaces := l.ReadWhile(IsChar(' '));
      var eof := l.IsEOF();
      if !eof && |spaces| == 0 {
        return Err(UnexpectedCharacter);
      }
      return Ok([]);
    }
    r := ReadLabelsFrom(l);
  }

  /** Parses the text form; the vector is a new one. */
  method ParseTsvector(t: Tables, str: string) returns (r: Result<Tsvector, ParseError>)
    ensures r.Ok? ==> fresh(r.value) && r.value.Valid() && Parse(t.isWord, str) == Ok(r.value.Value())
    ensures r.Err? ==> Parse(t.isWord, str) == Err(r.error)
  {
    var l := new Lexer(TrimSpace(str));
    var tsv := new Tsvector();
    ghost var parsed := Parse(t.isWord, str);
    var eof := l.IsEOF();
    while !eof
      invariant l.Valid() && tsv.Valid() && fresh(l) && fresh(tsv) && fresh(tsv.entries.Values)
      invariant ParseParts(t.isWord, l.Rest(), tsv.Value()) == parsed
      invariant eof <==> l.Rest() == ""
      decreases |l.Rest()|
    {
      ghost var before := tsv.entries.Values;
      var error;
      error, eof := ParseOn(t, l, tsv, parsed);
      assert tsv.entries.Values <= before + (tsv.entries.Values - before);
      if error.Some? {
        return Err(error.value);
      }
    }
    r := Ok(tsv);
  }

  /** One more part of a text that parses to `parsed`, and whether it was the last one. */
  method ParseOn(t: Tables, l: Lexer, tsv: Tsvector, ghost parsed: Result<Vector, ParseError>)
    returns (error: Option<ParseError>, eof: bool)
    requires l.Valid() && tsv.Valid() && l.Rest() != ""
    requires ParseParts(t.isWord, l.Rest(), tsv.Value()) == parsed
    modifies l`pos, l`canUnread, tsv, tsv.entries.Values
    ensures l.Valid() && tsv.Valid() && fresh(tsv.entries.Values - old(tsv.entries.Values))
    ensures if error.Some? then parsed == Err(error.value)
            else |l.Rest()| < |old(l.Rest())| && ParseParts(t.isWord, l.Rest(), tsv.Value()) == parsed
    ensures error.None? ==> (eof <==> l.Rest() == "")
  {
    error := ParsePart(t, l, tsv, parsed);
    eof := false;
    if error.None? {
      eof := l.IsEOF();
    }
  }

  method ParsePart(t: Tables, l: Lexer, tsv: Tsvector, ghost parsed: Result<Vector, ParseError>)
    returns (error: Option<ParseError>)
    requires l.Valid() && tsv.Valid() && l.Rest() != ""
    requires ParseParts(t.isWord, l.Rest(), tsv.Value()) == parsed
    modifies l`pos, l`canUnread, tsv, tsv.entries.Values
    ensures l.Valid() && tsv.Valid() && fresh(tsv.entries.Values - old(tsv.entries.Values))
    ensures if error.Some? then parsed == Err(error.value)
            else |l.Rest()| < |old(l.Rest())| && ParseParts(t.isWord, l.Rest(), tsv.Value()) == parsed
  {
    ParseStep(t.isWord, l.Rest(), tsv.Value());
    error := ParseNext(t, l, tsv);
  }

  lemma ParseStep(word: char -> bool, s: string, v: Vector)
    requires s != ""
    ensures var part := ReadPart(word, s);
            ParseParts(word, s, v) ==
              if part.Err? then Err(part.error)
              else ParseParts(word, part.value.rest, Put(v, part.value.lexeme, part.value.labels))
  {
  }

  /** Reads the next part into the vector. */
  method ParseNext(t: Tables, l: Lexer, tsv: Tsvector) returns (error: Option<ParseError>)
    requires l.Valid() && tsv.Valid() && l.Rest() != ""
    modifies l`pos, l`canUnread, tsv, tsv.entries.Values
    ensures l.Valid() && tsv.Valid() && fresh(tsv.entries.Values - old(tsv.entries.Values))
    ensures var part := ReadPart(t.isWord, old(l.Rest()));
            if part.Err? then error == Some(part.error)
            else error == None && l.Rest() == part.value.rest
                 && tsv.Value() == Put(old(tsv.Value()), part.value.lexeme, part.value.labels)
  {
    var part := ReadTsvPart(t, l);
    if part.Err? {
      return Some(part.error);
    }
    PutPart(tsv, part.value.0, part.value.1);
    error := None;
  }

  method PutPart(tsv: Tsvector, lexeme: string, labels: seq<Label>)
    requires tsv.Valid()
    modifies tsv, tsv.entries.Values
    ensures tsv.Valid() && fresh(tsv.entries.Values - old(tsv.entries.Values))
    ensures tsv.Value() == Put(old(tsv.Value()), lexeme, labels)
  {
    ghost var end := Put(tsv.Value(), lexeme, labels);
    tsv.Ensure(lexeme);
    ghost var v := tsv.Value();
    for i := 0 to |labels|
      invariant tsv.Valid() && tsv.Value() == v && fresh(tsv.entries.Values - old(tsv.entries.Values))
      invariant lexeme in v && Put(v, lexeme, labels[i..]) == end
    {
      PutStep(v, lexeme, labels, i);
      tsv.PutLabel(lexeme, labels[i].position, labels[i].weight);
      v := PutOne(v, lexeme, labels[i].position, labels[i].weight);
    }
    PutNone(v, lexeme);
  }

  lemma PutStep(v: Vector, lexeme: string, labels: seq<Label>, i: nat)
    requires i < |labels| && lexeme in v
    ensures Put(PutOne(v, lexeme, labels[i].position, labels[i].weight), lexeme, labels[i + 1..])
            == Put(v, lexeme, labels[i..])
  {
    assert labels[i..][1..] == labels[i + 1..];
  }

  lemma PutNone(v: Vector, lexeme: string)
    requires lexeme in v
    ensures Put(v, lexeme, []) == v
  {
  }

  /** Printing a well-formed vector and parsing it gives the same vector, in objects of its own. */
  method PrintAndParse(t: Tables, v: Tsvector) returns (r: Result<Tsvector, ParseError>)
    requires v.Valid()
    ensures WellFormed(v.Value()) <==> r.Ok? && r.value.Value() == v.Value()
    ensures r.Ok? ==> r.value.Valid() && fresh(r.value)
  {
    var s := v.ToString();
    ghost var printed :| Lists(printed, v.Value()) && s == Render(printed);
    RoundTripExactly(t.isWord, v.Value(), printed);
    r := ParseTsvector(t, s);
  }
}
