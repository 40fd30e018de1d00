/**
 The names of rotated log files: a base name, a date, and a sequence number when there is more than
 one file for a day.

 Which strings are dates is a parameter; all that is asked is that a date has no dot in it.
 */
module LogNames {
  import opened Strings
  import opened Wrappers
  import opened LexerBase
  import Decimal

  type Dates = f: string -> bool | forall s :: f(s) ==> '.' !in s witness (s: string) => false

  const SUFFIX := ".log"

  /** What a file name says. The source panics on one name that is too short for its prefix and its
      suffix. */
  datatype Parsed = Foreign | Panics | Backup(date: string, seqNo: int)

  predicate HasPrefix(s: string, p: string) { |s| >= |p| && s[..|p|] == p }

  predicate HasSuffix(s: string, p: string) { |s| >= |p| && s[|s| - |p|..] == p }

  /** The position of the last occurrence of a character, or -1. */
  function LastIndex(s: string, c: char): (i: int)
    ensures -1 <= i < |s| && (i >= 0 ==> s[i] == c) && forall j :: i < j < |s| ==> s[j] != c
  {
    if s == "" then -1 else if s[|s| - 1] == c then |s| - 1 else LastIndex(s[..|s| - 1], c)
  }

  /** strconv.Atoi: digits with an optional sign, if the number fits. */
  function Atoi(s: string): Option<int> {
    var signed := s != "" && (s[0] == '-' || s[0] == '+');
    var digits := if signed then s[1..] else s;
    if digits == "" || !Decimal.AllDigits(digits) then None
    else
      var n: int := Decimal.Value(digits);
      var v := if signed && s[0] == '-' then -n else n;
      if -MAX_INT64 - 1 <= v <= MAX_INT64 then Some(v) else None
  }

  /** The date and the number between the prefix and the suffix. */
  function ParseMiddle(dates: Dates, rest: string): Parsed {
    var i := LastIndex(rest, '.');
    if i < 0 then if dates(rest) then Backup(rest, 0) else Foreign
    else
      var n := Atoi(rest[i + 1..]);
      if n.None? || n.value <= 0 || !dates(rest[..i]) then Foreign else Backup(rest[..i], n.value)
  }

  function ParseBackupName(dates: Dates, base: string, name: string): (p: Parsed)
    ensures p.Backup? ==> 0 <= p.seqNo <= MAX_INT64 && dates(p.date)
  {
    if !HasPrefix(name, base + ".") || !HasSuffix(name, SUFFIX) then Foreign
    else if |name| < |base| + 1 + |SUFFIX| then Panics
    else ParseMiddle(dates, name[|base| + 1..][..|name| - |base| - 1 - |SUFFIX|])
  }

  function PlainName(base: string, date: string): string { base + "." + date + SUFFIX }

  function SeqName(base: string, date: string, n: int): string {
    base + "." + (date + "." + Decimal.Signed(n)) + SUFFIX
  }

  /** The next number; the greatest one wraps around. */
  function NextSeq(n: int): int { if n == MAX_INT64 then -MAX_INT64 - 1 else n + 1 }

  /** Parsing panics on exactly one name: the base name with the suffix, where the dot of the one
      is also the dot of the other. */
  lemma ParsePanicsExactly(dates: Dates, base: string, name: string)
    ensures ParseBackupName(dates, base, name).Panics? <==> name == base + SUFFIX
  {
    if name == base + SUFFIX {
      assert name[..|base| + 1] == base + "." && name[|name| - 4..] == SUFFIX;
    }
    if HasPrefix(name, base + ".") && HasSuffix(name, SUFFIX) && |name| < |base| + 5 {
      assert name[|base|] == (base + ".")[|base|] == '.';
      assert name[|base|] == name[|name| - 4..][|base| + 4 - |name|] == SUFFIX[|base| + 4 - |name|];
      assert |name| == |base| + 4;
      assert name == name[..|base|] + name[|base|..];
      assert name[..|base| + 1][..|base|] == base;
    }
  }

  lemma MiddleOf(dates: Dates, base: string, rest: string)
    ensures ParseBackupName(dates, base, base + "." + rest + SUFFIX) == ParseMiddle(dates, rest)
  {
    var name := base + "." + rest + SUFFIX;
    assert name[..|base| + 1] == base + ".";
    assert name[|name| - 4..] == SUFFIX;
    assert name[|base| + 1..][..|rest|] == rest;
  }

  lemma {:induction false} LastIndexOf(a: string, c: char, b: string)
    requires c !in b
    ensures LastIndex(a + [c] + b, c) == |a|
  {
    var s := a + [c] + b;
    if b == "" {
      assert s == a + [c] && s[|s| - 1] == c;
    } else {
      assert b[|b| - 1] in b && s[..|s| - 1] == a + [c] + b[..|b| - 1];
      LastIndexOf(a, c, b[..|b| - 1]);
    }
  }

  lemma DigitsParse(n: nat)
    requires n <= MAX_INT64
    ensures Atoi(Decimal.Digits(n)) == Some(n) && '.' !in Decimal.Digits(n)
  {
    Decimal.DigitsRoundTrip(n);
    assert Decimal.IsDigit(Decimal.Digits(n)[0]);
  }

  /** The names the rotator makes parse back to what they were made from. */
  lemma SeqNameParses(dates: Dates, base: string, date: string, n: int)
    requires dates(date) && 1 <= n <= MAX_INT64
    ensures ParseBackupName(dates, base, SeqName(base, date, n)) == Backup(date, n)
  {
    var rest := date + "." + Decimal.Digits(n);
    MiddleOf(dates, base, rest);
    DigitsParse(n);
    LastIndexOf(date, '.', Decimal.Digits(n));
    assert rest[|date| + 1..] == Decimal.Digits(n) && rest[..|date|] == date;
  }

  lemma PlainNameParses(dates: Dates, base: string, date: string)
    requires dates(date)
    ensures ParseBackupName(dates, base, PlainName(base, date)) == Backup(date, 0)
  {
    MiddleOf(dates, base, date);
  }
}
