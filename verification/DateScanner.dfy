/**
 Finding a date in a file name: the text is split into words and what stands between them, and a
 scan over the parts looks for three that make a date, joined by the same separator twice.

 The character class of words and the names of the months are parameters.
 */
module DateScanner {
  import opened Strings
  import opened LexerBase
  import Decimal

  datatype Date = Date(year: nat, month: nat, day: nat)

  const NIL := Date(0, 0, 0)

  /** Days of a month as the program counts them: every fourth year is a leap year. */
  function NumDaysInMonth(year: nat, month: nat): nat {
    if month in {1, 3, 5, 7, 8, 10, 12} then 31
    else if month in {4, 6, 9, 11} then 30
    else if month == 2 then if year % 4 == 0 then 29 else 28
    else 0
  }

  predicate IsValid(d: Date) {
    1000 <= d.year <= 9999 && 1 <= d.month <= 12 && 1 <= d.day <= NumDaysInMonth(d.year, d.month)
  }

  /** The dates of the Gregorian calendar. */
  predicate IsLeap(year: nat) { year % 4 == 0 && (year % 100 != 0 || year % 400 == 0) }

  predicate InCalendar(d: Date) {
    && 1 <= d.month <= 12 && 1 <= d.day
    && d.day <= if d.month == 2 then if IsLeap(d.year) then 29 else 28 else NumDaysInMonth(d.year, d.month)
  }

  /** A date with a four-digit year counts as valid when it is in the calendar, and exactly one kind of date counts
      although it is not: the 29th of February of a century that is no leap year. */
  lemma ValidExactly(d: Date)
    ensures IsValid(d) <==>
              && 1000 <= d.year <= 9999
              && (InCalendar(d) || (d.month == 2 && d.day == 29 && d.year % 100 == 0 && d.year % 400 != 0))
  {
    assert d.year % 100 == 0 ==> d.year % 4 == 0;
  }

  // ---------- parts ----------

  datatype Format = OneDigit | TwoDigits | FourDigits | StrMonth | WordChars | NonWordChars

  datatype Part = Part(date: Date, format: Format, literal: string)

  /** The number of a month by its name, in any case; zero for other words. No name is a number. */
  type Months = f: string -> nat | forall s :: f(s) <= 12 && (Decimal.AllDigits(s) ==> f(s) == 0)
    witness (s: string) => 0

  /** A number as a month, if it can be one, and as a day. */
  function AsMonth(n: nat): nat { if 1 <= n <= 12 then n else 0 }

  function AsDay(n: nat): nat { if 1 <= n <= 31 then n else 0 }

  function WordPart(months: Months, str: string): (p: Part)
    ensures p.literal == str && p.format != NonWordChars
  {
    if months(str) != 0 then Part(Date(0, months(str), 0), StrMonth, str)
    else if Decimal.AllDigits(str) && |str| in {1, 2, 4} then
      var n := Decimal.Value(str);
      if |str| == 1 then Part(Date(0, AsMonth(n), AsDay(n)), OneDigit, str)
      else if |str| == 2 then Part(Date(2000 + n, AsMonth(n), AsDay(n)), TwoDigits, str)
      else Part(Date(if 1000 <= n <= 9999 then n else 0, 0, 0), FourDigits, str)
    else Part(NIL, WordChars, str)
  }

  function NotWord(word: char -> bool): char -> bool { (c: char) => !word(c) }

  /** The length of the part at the start: a run of word characters, or of others. */
  function PartLength(word: char -> bool, s: string): (k: nat)
    requires s != ""
    ensures 1 <= k <= |s|
  {
    var k := Span(word, s);
    if k > 0 then k else Span(NotWord(word), s)
  }

  function FirstPart(word: char -> bool, months: Months, s: string): (p: Part)
    requires s != ""
    ensures p.literal == s[..PartLength(word, s)]
    ensures p.format == NonWordChars <==> !word(s[0])
  {
    var str := s[..PartLength(word, s)];
    if word(s[0]) then WordPart(months, str) else Part(NIL, NonWordChars, str)
  }

  function LexParts(word: char -> bool, months: Months, s: string): seq<Part>
    decreases |s|
  {
    if s == "" then [] else [FirstPart(word, months, s)] + LexParts(word, months, s[PartLength(word, s)..])
  }

  function Literals(parts: seq<Part>): string { if parts == [] then "" else parts[0].literal + Literals(parts[1..]) }

  /** The parts are the text, cut up. */
  lemma {:induction false} PartsAreTheText(word: char -> bool, months: Months, s: string)
    ensures Literals(LexParts(word, months, s)) == s
    decreases |s|
  {
    if s != "" {
      var k := PartLength(word, s);
      PartsAreTheText(word, months, s[k..]);
      LiteralsCut(s, k, FirstPart(word, months, s), LexParts(word, months, s[k..]));
    }
  }

  lemma LiteralsCut(s: string, k: nat, p: Part, rest: seq<Part>)
    requires k <= |s| && p.literal == s[..k] && Literals(rest) == s[k..]
    ensures Literals([p] + rest) == s
  {
    assert ([p] + rest)[1..] == rest;
    assert s[..k] + s[k..] == s;
  }

  /** What follows the first part starts with the other kind of character. */
  lemma OtherKindFollows(word: char -> bool, s: string)
    requires s != "" && PartLength(word, s) < |s|
    ensures word(s[PartLength(word, s)]) <==> !word(s[0])
  {
  }

  /** No part is empty; words and what stands between them alternate. */
  lemma {:induction false} PartsAlternate(word: char -> bool, months: Months, s: string, i: nat)
    requires i < |LexParts(word, months, s)|
    ensures var parts := LexParts(word, months, s);
            && parts[i].literal != ""
            && (i > 0 ==> (parts[i].format == NonWordChars <==> parts[i - 1].format != NonWordChars))
    decreases |s|
  {
    var k := PartLength(word, s);
    var rest := LexParts(word, months, s[k..]);
    assert LexParts(word, months, s) == [FirstPart(word, months, s)] + rest;
    if i > 0 {
      PartsAlternate(word, months, s[k..], i - 1);
      if i == 1 {
        OtherKindFollows(word, s);
        assert rest[0] == FirstPart(word, months, s[k..]);
      }
    }
  }

  // ---------- the scan ----------

  /** The first of year-month-day, day-month-year and month-day-year that is valid. */
  function FindFirstValidDate(a: Date, b: Date, c: Date): (d: Date)
    ensures d == NIL || IsValid(d)
    ensures d != NIL ==>
      || (d.year == a.year && d.month == b.month && d.day == c.day)
      || (d.year == c.year && d.month == b.month && d.day == a.day)
      || (d.year == c.year && d.month == a.month && d.day == b.day)
  {
    if a.year != 0 && b.month != 0 && c.day != 0 && IsValid(Date(a.year, b.month, c.day))
      then Date(a.year, b.month, c.day)
    else if a.day != 0 && b.month != 0 && c.year != 0 && IsValid(Date(c.year, b.month, a.day))
      then Date(c.year, b.month, a.day)
    else if a.month != 0 && b.day != 0 && c.year != 0 && IsValid(Date(c.year, a.month, b.day))
      then Date(c.year, a.month, b.day)
    else NIL
  }

  predicate IsSeparator(s: string) { |s| == 1 && s[0] in ".-/ " }

  predicate IsGap(p: Part) { p.format == NonWordChars }

  predicate EndsAt(parts: seq<Part>, i: nat)
    requires i < |parts|
  {
    i == |parts| - 1 || IsGap(parts[i + 1])
  }

  /** What the scan finds from part i on; `start` says whether a word starts there. */
  function Scan(parts: seq<Part>, i: nat, start: bool): Date
    decreases |parts| - i
  {
    if i + 4 >= |parts| then NIL
    else if !start || parts[i].date == NIL then Scan(parts, i + 1, IsGap(parts[i]))
    else
      var sep, second, sep2, third := parts[i + 1], parts[i + 2], parts[i + 3], parts[i + 4];
      if !IsGap(sep) then Scan(parts, i + 2, false)
      else if !IsSeparator(sep.literal) then Scan(parts, i + 2, true)
      else if second.date == NIL then Scan(parts, i + 3, IsGap(second))
      else if sep2.literal != sep.literal then Scan(parts, i + 4, IsGap(sep2))
      else if third.date == NIL || !EndsAt(parts, i + 4) then Scan(parts, i + 5, IsGap(third))
      else
        var d := FindFirstValidDate(parts[i].date, second.date, third.date);
        if d != NIL then d else Scan(parts, i + 5, false)
  }

  /** Parts j to j + 4 make the date: three dated parts, twice the same separator between them, and
      no word right after. */
  predicate MatchAt(parts: seq<Part>, j: nat, d: Date) {
    && j + 4 < |parts|
    && parts[j].date != NIL && parts[j + 2].date != NIL && parts[j + 4].date != NIL
    && IsGap(parts[j + 1]) && IsSeparator(parts[j + 1].literal) && parts[j + 3].literal == parts[j + 1].literal
    && EndsAt(parts, j + 4)
    && d != NIL && d == FindFirstValidDate(parts[j].date, parts[j + 2].date, parts[j + 4].date)
  }

  /** Whatever is found is a valid date that is there. */
  lemma {:induction false} FoundIsThere(parts: seq<Part>, i: nat, start: bool) returns (j: nat)
    requires Scan(parts, i, start) != NIL
    ensures j >= i && MatchAt(parts, j, Scan(parts, i, start)) && IsValid(Scan(parts, i, start))
    decreases |parts| - i
  {
    if !start || parts[i].date == NIL {
      j := FoundIsThere(parts, i + 1, IsGap(parts[i]));
    } else {
      var sep, second, sep2, third := parts[i + 1], parts[i + 2], parts[i + 3], parts[i + 4];
      if !IsGap(sep) {
        j := FoundIsThere(parts, i + 2, false);
      } else if !IsSeparator(sep.literal) {
        j := FoundIsThere(parts, i + 2, true);
      } else if second.date == NIL {
        j := FoundIsThere(parts, i + 3, IsGap(second));
      } else if sep2.literal != sep.literal {
        j := FoundIsThere(parts, i + 4, IsGap(sep2));
      } else if third.date == NIL || !EndsAt(parts, i + 4) {
        j := FoundIsThere(parts, i + 5, IsGap(third));
      } else if FindFirstValidDate(parts[i].date, second.date, third.date) != NIL {
        j := i;
      } else {
        j := FoundIsThere(parts, i + 5, false);
      }
    }
  }

  // ---------- which dates are found, exactly ----------

  /** Parts as a text gives them: words and gaps alternate, and gaps have no date. */
  predicate Alternate(parts: seq<Part>) {
    && (forall i :: 0 < i < |parts| ==> (IsGap(parts[i]) <==> !IsGap(parts[i - 1])))
    && (forall i :: 0 <= i < |parts| && IsGap(parts[i]) ==> parts[i].date == NIL)
  }

  lemma {:induction false} LexedAlternate(word: char -> bool, months: Months, s: string)
    ensures Alternate(LexParts(word, months, s))
    decreases |s|
  {
    var parts := LexParts(word, months, s);
    forall i | 0 < i < |parts| ensures IsGap(parts[i]) <==> !IsGap(parts[i - 1]) {
      PartsAlternate(word, months, s, i);
    }
    if s != "" {
      LexedAlternate(word, months, s[PartLength(word, s)..]);
      assert parts[1..] == LexParts(word, months, s[PartLength(word, s)..]);
    }
  }

  /** From a word, the next word at which the scan tries for a date: it passes over a second word
      that follows a separator, and over a third one that follows the same separator again. */
  function NextTry(parts: seq<Part>, i: nat): (n: nat)
    ensures n in {i + 2, i + 4, i + 6}
  {
    if i + 4 >= |parts| || parts[i].date == NIL || !IsSeparator(parts[i + 1].literal) then i + 2
    else if parts[i + 2].date == NIL || parts[i + 3].literal != parts[i + 1].literal then i + 4
    else i + 6
  }

  /** Trying from word i on, the scan comes to word j. */
  predicate LandsFrom(parts: seq<Part>, i: nat, j: nat)
    decreases j - i
  {
    i == j || (i < j && LandsFrom(parts, NextTry(parts, i), j))
  }

  /** The first word is the first or the second part. */
  function FirstWord(parts: seq<Part>): nat { if parts != [] && IsGap(parts[0]) then 1 else 0 }

  predicate Lands(parts: seq<Part>, j: nat) { LandsFrom(parts, FirstWord(parts), j) }

  lemma OneTry(parts: seq<Part>, i: nat)
    requires Alternate(parts) && i + 4 < |parts| && !IsGap(parts[i])
    ensures Scan(parts, i, true) == Scan(parts, NextTry(parts, i), true) || MatchAt(parts, i, Scan(parts, i, true))
    ensures (exists d :: MatchAt(parts, i, d)) ==> MatchAt(parts, i, Scan(parts, i, true))
  {
    assert IsGap(parts[i + 1]) && !IsGap(parts[i + 2]) && IsGap(parts[i + 3]) && !IsGap(parts[i + 4]);
    GapSkipped(parts, i + 1);
    GapSkipped(parts, i + 3);
    GapSkipped(parts, i + 5);
  }

  lemma GapSkipped(parts: seq<Part>, i: nat)
    requires Alternate(parts) && (i < |parts| ==> IsGap(parts[i]))
    ensures Scan(parts, i, false) == Scan(parts, i + 1, true) && Scan(parts, i, true) == Scan(parts, i + 1, true)
  {
  }

  lemma {:induction false} FoundFromExactly(parts: seq<Part>, i: nat)
    requires Alternate(parts) && (i < |parts| ==> !IsGap(parts[i]))
    ensures Scan(parts, i, true) != NIL <==> exists j, d :: LandsFrom(parts, i, j) && MatchAt(parts, j, d)
    decreases |parts| - i
  {
    if i + 4 >= |parts| {
      forall j, d | LandsFrom(parts, i, j) ensures !MatchAt(parts, j, d) {
      }
    } else {
      var n, r := NextTry(parts, i), Scan(parts, i, true);
      OneTry(parts, i);
      WordsAhead(parts, i, n);
      FoundFromExactly(parts, n);
      if MatchAt(parts, i, r) {
        assert LandsFrom(parts, i, i);
      } else if r != NIL {
        var j, d :| LandsFrom(parts, n, j) && MatchAt(parts, j, d);
        LandsAhead(parts, n, j);
        assert LandsFrom(parts, i, j);
      } else {
        forall j, d | LandsFrom(parts, i, j) ensures !MatchAt(parts, j, d) {
        }
      }
    }
  }

  lemma WordsAhead(parts: seq<Part>, i: nat, n: nat)
    requires Alternate(parts) && i < |parts| && !IsGap(parts[i]) && n in {i + 2, i + 4, i + 6}
    ensures n < |parts| ==> !IsGap(parts[n])
  {
    assert i + 2 < |parts| ==> IsGap(parts[i + 1]);
    assert i + 4 < |parts| ==> !IsGap(parts[i + 2]) && IsGap(parts[i + 3]);
    assert i + 6 < |parts| ==> !IsGap(parts[i + 4]) && IsGap(parts[i + 5]);
  }

  lemma LandsAhead(parts: seq<Part>, i: nat, j: nat)
    requires LandsFrom(parts, i, j)
    ensures i <= j
  {
  }

  /** A date is found exactly when the scan lands on some date that is there. */
  lemma FoundExactly(parts: seq<Part>)
    requires Alternate(parts)
    ensures Scan(parts, 0, true) != NIL <==> exists j, d :: Lands(parts, j) && MatchAt(parts, j, d)
  {
    if FirstWord(parts) == 1 {
      GapSkipped(parts, 0);
    }
    FoundFromExactly(parts, FirstWord(parts));
  }

  /** Nothing before word j can hide it: no word stands there, or it has no number or month in it,
      or it is not joined to word j by a separator. */
  predicate Unhidden(parts: seq<Part>, j: nat)
    requires j < |parts|
  {
    j < 2 || parts[j - 2].date == NIL || !IsSeparator(parts[j - 1].literal)
  }

  /** The scan lands on every word that nothing hides. */
  lemma {:induction false} UnhiddenLands(parts: seq<Part>, i: nat, j: nat)
    requires Alternate(parts) && i <= j < |parts| && !IsGap(parts[i]) && !IsGap(parts[j])
    requires j < i + 2 || Unhidden(parts, j)
    ensures LandsFrom(parts, i, j)
    decreases j - i
  {
    WordsApart(parts, i, j);
    if i < j {
      var n := NextTry(parts, i);
      WordsAhead(parts, i, n);
      UnhiddenLands(parts, n, j);
    }
  }

  /** Words are an even number of parts apart. */
  lemma {:induction false} WordsApart(parts: seq<Part>, i: nat, j: nat)
    requires Alternate(parts) && i <= j < |parts| && !IsGap(parts[i])
    ensures !IsGap(parts[j]) <==> (j - i) % 2 == 0
    decreases j - i
  {
    if i < j {
      WordsApart(parts, i, j - 1);
    }
  }

  /** A date that nothing hides is never missed, although an earlier one may be the one found. */
  lemma UnhiddenIsFound(parts: seq<Part>, j: nat, d: Date)
    requires Alternate(parts) && MatchAt(parts, j, d) && Unhidden(parts, j)
    ensures Lands(parts, j) && Scan(parts, 0, true) != NIL
  {
    assert !IsGap(parts[j]);
    UnhiddenLands(parts, FirstWord(parts), j);
    FoundExactly(parts);
  }

  // ---------- texts ----------

  /** Digits belong to words; the hyphen and the space do not. */
  ghost predicate Ordinary(word: char -> bool) {
    !word('-') && !word(' ') && forall c :: Decimal.IsDigit(c) ==> word(c)
  }

  /** A number at the start of a text, before a gap or the end, is the first part. */
  lemma NumberFirst(word: char -> bool, months: Months, number: string, rest: string)
    requires Ordinary(word) && number != "" && Decimal.AllDigits(number) && (rest == "" || !word(rest[0]))
    ensures LexParts(word, months, number + rest) == [WordPart(months, number)] + LexParts(word, months, rest)
  {
    SpanOf(word, number, rest);
    DropFront(number, rest);
    assert (number + rest)[0] == number[0] && Decimal.IsDigit(number[0]);
  }

  /** A single gap character before a number is the first part. */
  lemma GapFirst(word: char -> bool, months: Months, gap: char, rest: string)
    requires Ordinary(word) && !word(gap) && rest != "" && Decimal.IsDigit(rest[0])
    ensures LexParts(word, months, [gap] + rest) == [Part(NIL, NonWordChars, [gap])] + LexParts(word, months, rest)
  {
    SpanOf(NotWord(word), [gap], rest);
    DropFront([gap], rest);
    assert Span(word, [gap] + rest) == 0;
  }

  /** Three parts with hyphens in between. */
  function Dashed(a: Part, b: Part, c: Part): seq<Part> {
    var dash := Part(NIL, NonWordChars, "-");
    [a, dash, b, dash, c]
  }

  lemma DashedFrom(a: Part, b: Part, c: Part)
    ensures var dash := Part(NIL, NonWordChars, "-");
            [a] + ([dash] + ([b] + ([dash] + ([c] + [])))) == Dashed(a, b, c)
  {
  }

  /** A number with a hyphen and another number after it is the first part, the hyphen the second. */
  lemma NumberAndDash(word: char -> bool, months: Months, a: string, rest: string)
    requires Ordinary(word) && a != "" && Decimal.AllDigits(a) && rest != "" && Decimal.IsDigit(rest[0])
    ensures LexParts(word, months, a + ("-" + rest)) ==
              [WordPart(months, a)] + ([Part(NIL, NonWordChars, "-")] + LexParts(word, months, rest))
  {
    NumberFirst(word, months, a, "-" + rest);
    GapFirst(word, months, '-', rest);
  }

  lemma LastNumber(word: char -> bool, months: Months, c: string)
    requires Ordinary(word) && c != "" && Decimal.AllDigits(c)
    ensures LexParts(word, months, c) == [WordPart(months, c)] + []
  {
    NumberFirst(word, months, c, "");
    assert c + "" == c && LexParts(word, months, "") == [];
  }

  lemma ThreeNumbers(word: char -> bool, months: Months, a: string, b: string, c: string)
    requires Ordinary(word) && a != "" && b != "" && c != ""
    requires Decimal.AllDigits(a) && Decimal.AllDigits(b) && Decimal.AllDigits(c)
    ensures LexParts(word, months, a + ("-" + (b + ("-" + c)))) ==
              Dashed(WordPart(months, a), WordPart(months, b), WordPart(months, c))
  {
    NumberAndDash(word, months, a, b + ("-" + c));
    NumberAndDash(word, months, b, c);
    LastNumber(word, months, c);
    DashedFrom(WordPart(months, a), WordPart(months, b), WordPart(months, c));
  }

  function TwoDigitText(n: nat): string
    requires n < 100
  {
    [Decimal.DigitChar(n / 10), Decimal.DigitChar(n % 10)]
  }

  function YearText(y: nat): string
    requires y < 10000
  {
    TwoDigitText(y / 100) + TwoDigitText(y % 100)
  }

  function IsoText(d: Date): string
    requires IsValid(d)
  {
    YearText(d.year) + ("-" + (TwoDigitText(d.month) + ("-" + TwoDigitText(d.day))))
  }

  lemma TwoDigitsRead(n: nat)
    requires n < 100
    ensures Decimal.AllDigits(TwoDigitText(n)) && Decimal.Value(TwoDigitText(n)) == n
  {
    var s := TwoDigitText(n);
    assert s[..1] == [s[0]] && s[..1][..0] == "";
    assert Decimal.Value(s[..1]) == n / 10;
  }

  lemma YearReads(y: nat)
    requires 1000 <= y <= 9999
    ensures var s := YearText(y);
            |s| == 4 && Decimal.AllDigits(s) && Decimal.Value(s) == y
  {
    var front, back := TwoDigitText(y / 100), TwoDigitText(y % 100);
    var s := front + back;
    TwoDigitsRead(y / 100);
    TwoDigitsRead(y % 100);
    assert s[..3] == front + [back[0]] && s[..3][..2] == front;
    assert Decimal.Value(s[..3]) == y / 100 * 10 + y % 100 / 10;
  }

  lemma TwoDigitPart(months: Months, n: nat)
    requires n < 100
    ensures WordPart(months, TwoDigitText(n)) == Part(Date(2000 + n, AsMonth(n), AsDay(n)), TwoDigits, TwoDigitText(n))
  {
    TwoDigitsRead(n);
  }

  lemma YearPart(months: Months, y: nat)
    requires 1000 <= y <= 9999
    ensures WordPart(months, YearText(y)) == Part(Date(y, 0, 0), FourDigits, YearText(y))
  {
    YearReads(y);
  }

  /** The parts of an ISO text. */
  function IsoParts(d: Date): seq<Part>
    requires IsValid(d)
  {
    Dashed(
      Part(Date(d.year, 0, 0), FourDigits, YearText(d.year)),
      Part(Date(2000 + d.month, d.month, AsDay(d.month)), TwoDigits, TwoDigitText(d.month)),
      Part(Date(2000 + d.day, AsMonth(d.day), d.day), TwoDigits, TwoDigitText(d.day)))
  }

  lemma IsoLexed(word: char -> bool, months: Months, d: Date)
    requires Ordinary(word) && IsValid(d)
    ensures LexParts(word, months, IsoText(d)) == IsoParts(d)
  {
    YearReads(d.year);
    YearPart(months, d.year);
    TwoDigitsRead(d.month);
    TwoDigitPart(months, d.month);
    TwoDigitsRead(d.day);
    TwoDigitPart(months, d.day);
    ThreeNumbers(word, months, YearText(d.year), TwoDigitText(d.month), TwoDigitText(d.day));
  }

  lemma IsoStarts(d: Date)
    requires IsValid(d)
    ensures IsoText(d) != "" && Decimal.IsDigit(IsoText(d)[0])
  {
    YearReads(d.year);
    assert IsoText(d)[0] == YearText(d.year)[0];
  }

  lemma IsoMatches(d: Date)
    requires IsValid(d)
    ensures MatchAt(IsoParts(d), 0, d)
  {
    assert IsoParts(d)[1].literal == "-" == IsoParts(d)[3].literal;
  }

  /** Every valid date is read back from its ISO text. */
  lemma IsoDateIsFound(word: char -> bool, months: Months, d: Date)
    requires Ordinary(word) && IsValid(d)
    ensures Scan(LexParts(word, months, IsoText(d)), 0, true) == d
  {
    IsoLexed(word, months, d);
    IsoMatches(d);
  }

  lemma DayMonthYearLexed(word: char -> bool, months: Months, a: nat, b: nat, y: nat)
    requires Ordinary(word) && 1 <= a <= 31 && 1 <= b <= 31 && 1000 <= y <= 9999
    ensures LexParts(word, months, TwoDigitText(a) + ("-" + (TwoDigitText(b) + ("-" + YearText(y))))) ==
              Dashed(Part(Date(2000 + a, AsMonth(a), a), TwoDigits, TwoDigitText(a)),
                     Part(Date(2000 + b, AsMonth(b), b), TwoDigits, TwoDigitText(b)),
                     Part(Date(y, 0, 0), FourDigits, YearText(y)))
  {
    YearReads(y);
    YearPart(months, y);
    TwoDigitsRead(a);
    TwoDigitPart(months, a);
    TwoDigitsRead(b);
    TwoDigitPart(months, b);
    ThreeNumbers(word, months, TwoDigitText(a), TwoDigitText(b), YearText(y));
  }

  lemma DashedScan(a: Part, b: Part, c: Part)
    requires a.date != NIL && b.date != NIL && c.date != NIL && a.format != NonWordChars && b.format != NonWordChars
    requires c.format != NonWordChars && FindFirstValidDate(a.date, b.date, c.date) != NIL
    ensures Scan(Dashed(a, b, c), 0, true) == FindFirstValidDate(a.date, b.date, c.date)
  {
    assert Dashed(a, b, c)[1].literal == "-" == Dashed(a, b, c)[3].literal;
  }

  /** Every valid date is read back from its text with the day first, then the month. */
  lemma DayFirstIsFound(word: char -> bool, months: Months, d: Date)
    requires Ordinary(word) && IsValid(d)
    ensures var s := TwoDigitText(d.day) + ("-" + (TwoDigitText(d.month) + ("-" + YearText(d.year))));
            Scan(LexParts(word, months, s), 0, true) == d
  {
    DayMonthYearLexed(word, months, d.day, d.month, d.year);
    DashedScan(Part(Date(2000 + d.day, AsMonth(d.day), d.day), TwoDigits, TwoDigitText(d.day)),
               Part(Date(2000 + d.month, AsMonth(d.month), d.month), TwoDigits, TwoDigitText(d.month)),
               Part(Date(d.year, 0, 0), FourDigits, YearText(d.year)));
  }

  /** Day-month-year is preferred to month-day-year. */
  lemma DayIsPreferred(d: Date)
    requires IsValid(d)
    ensures FindFirstValidDate(Date(2000 + d.month, AsMonth(d.month), d.month),
                               Date(2000 + d.day, AsMonth(d.day), d.day), Date(d.year, 0, 0)) ==
              if d.day <= 12 then Date(d.year, d.day, d.month) else d
  {
  }

  /** With the month first a valid date is read back only when its day cannot be a month, or is the
      same number; otherwise the two are exchanged. */
  lemma MonthFirstIsFoundExactly(word: char -> bool, months: Months, d: Date)
    requires Ordinary(word) && IsValid(d)
    ensures var s := TwoDigitText(d.month) + ("-" + (TwoDigitText(d.day) + ("-" + YearText(d.year))));
            && (Scan(LexParts(word, months, s), 0, true) == d <==> d.day > 12 || d.day == d.month)
            && (d.day <= 12 ==> Scan(LexParts(word, months, s), 0, true) == Date(d.year, d.day, d.month))
  {
    DayMonthYearLexed(word, months, d.month, d.day, d.year);
    DayIsPreferred(d);
    DashedScan(Part(Date(2000 + d.month, AsMonth(d.month), d.month), TwoDigits, TwoDigitText(d.month)),
               Part(Date(2000 + d.day, AsMonth(d.day), d.day), TwoDigits, TwoDigitText(d.day)),
               Part(Date(d.year, 0, 0), FourDigits, YearText(d.year)));
  }

  lemma SevenPart(months: Months)
    ensures Decimal.AllDigits("7") && WordPart(months, "7") == Part(Date(0, 7, 7), OneDigit, "7")
  {
    assert "7"[..0] == "";
    assert Decimal.Value("7") == 7;
  }

  lemma SevenLexed(word: char -> bool, months: Months, d: Date)
    requires Ordinary(word) && IsValid(d)
    ensures LexParts(word, months, "7" + (" " + IsoText(d))) ==
              [Part(Date(0, 7, 7), OneDigit, "7")] + ([Part(NIL, NonWordChars, " ")] + IsoParts(d))
  {
    IsoLexed(word, months, d);
    IsoStarts(d);
    GapFirst(word, months, ' ', IsoText(d));
    SevenPart(months);
    NumberFirst(word, months, "7", " " + IsoText(d));
  }

  function AfterSeven(d: Date): seq<Part>
    requires IsValid(d)
  {
    [Part(Date(0, 7, 7), OneDigit, "7")] + ([Part(NIL, NonWordChars, " ")] + IsoParts(d))
  }

  lemma SevenHides(d: Date)
    requires IsValid(d)
    ensures MatchAt(AfterSeven(d), 2, d) && !Lands(AfterSeven(d), 2) && Scan(AfterSeven(d), 0, true) == NIL
  {
    var parts := AfterSeven(d);
    IsoMatches(d);
    assert parts[2..] == IsoParts(d);
    forall i | 0 <= i < 5 ensures parts[i + 2] == IsoParts(d)[i] {
    }
    assert NextTry(parts, 0) == 4;
    assert Scan(parts, 0, true) == Scan(parts, 4, true) == NIL;
  }

  /** Not every date is found: in a text such as 7 2020-01-02 the number before the date hides it,
      whatever the date is. */
  lemma DateCanBeMissed(word: char -> bool, months: Months, d: Date)
    requires Ordinary(word) && IsValid(d)
    ensures var parts := LexParts(word, months, "7" + (" " + IsoText(d)));
            MatchAt(parts, 2, d) && !Lands(parts, 2) && Scan(parts, 0, true) == NIL
  {
    SevenLexed(word, months, d);
    SevenHides(d);
  }

  // ---------- as the program does it ----------

  method LexDatePart(word: char -> bool, months: Months, l: Lexer) returns (p: Part)
    requires l.Valid() && l.Rest() != ""
    modifies l`pos, l`canUnread
    ensures l.Valid() && p == FirstPart(word, months, old(l.Rest()))
    ensures l.Rest() == old(l.Rest())[PartLength(word, old(l.Rest()))..]
  {
    var str := l.ReadWhile(word);
    if str == "" {
      str := l.ReadWhile(NotWord(word));
      return Part(NIL, NonWordChars, str);
    }
    p := WordPart(months, str);
  }

  method LexDateParts(word: char -> bool, months: Months, str: string) returns (parts: seq<Part>)
    ensures parts == LexParts(word, months, str)
  {
    var l := new Lexer(str);
    parts := [];
    var eof := l.IsEOF();
    while !eof
      invariant l.Valid() && fresh(l) && (eof <==> l.Rest() == "")
      invariant parts + LexParts(word, months, l.Rest()) == LexParts(word, months, str)
      decreases |l.Rest()|
    {
      var p := LexDatePart(word, months, l);
      Assoc(parts, [p], LexParts(word, months, l.Rest()));
      parts := parts + [p];
      eof := l.IsEOF();
    }
  }

  /** The scan jumps over the parts it has looked at, and never past the end. */
  method ParseDate(word: char -> bool, months: Months, str: string) returns (date: Date)
    ensures date == Scan(LexParts(word, months, str), 0, true)
    ensures date == NIL || IsValid(date)
    ensures var parts := LexParts(word, months, str);
            && (date != NIL ==> exists j :: MatchAt(parts, j, date))
            && (date != NIL <==> exists j, d :: Lands(parts, j) && MatchAt(parts, j, d))
            && (forall j, d :: MatchAt(parts, j, d) && Unhidden(parts, j) ==> date != NIL)
  {
    var parts := LexDateParts(word, months, str);
    LexedAlternate(word, months, str);
    FoundExactly(parts);
    forall j, d | MatchAt(parts, j, d) && Unhidden(parts, j) ensures Scan(parts, 0, true) != NIL {
      UnhiddenIsFound(parts, j, d);
    }
    if Scan(parts, 0, true) != NIL {
      var j := FoundIsThere(parts, 0, true);
    }
    date := ScanParts(parts);
  }

  method ScanParts(parts: seq<Part>) returns (date: Date)
    ensures date == Scan(parts, 0, true)
  {
    var i: nat, start := 0, true;
    while i < |parts| - 4
      invariant Scan(parts, i, start) == Scan(parts, 0, true)
      decreases |parts| - i
    {
      var part1 := parts[i];
      if !start {
        if IsGap(part1) {
          start := true;
        }
        i := i + 1;
        continue;
      }
      if part1.date == NIL {
        start := IsGap(part1);
        i := i + 1;
        continue;
      }
      i := i + 1;
      var sep := parts[i];
      if !IsGap(sep) {
        start := false;
      } else if !IsSeparator(sep.literal) {
        start := true;
      } else {
        i := i + 1;
        var part2 := parts[i];
        if part2.date == NIL {
          start := IsGap(part2);
        } else {
          i := i + 1;
          var sep2 := parts[i];
          if sep2.literal != sep.literal {
            start := IsGap(sep2);
          } else {
            i := i + 1;
            var part3 := parts[i];
            if part3.date != NIL && (i == |parts| - 1 || IsGap(parts[i + 1])) {
              date := FindFirstValidDate(part1.date, part2.date, part3.date);
              if date != NIL {
                return;
              }
              start := false;
            } else {
              start := IsGap(part3);
            }
          }
        }
      }
      i := i + 1;
    }
    date := NIL;
  }
}
