/** Functions on strings and lists that the components share. */
module Strings {
  /** Lists joined with a separator, as strings.Join does with strings. */
  function Join<T>(xs: seq<seq<T>>, sep: seq<T>): seq<T> {
    if xs == [] then [] else if |xs| == 1 then xs[0] else xs[0] + sep + Join(xs[1..], sep)
  }

  lemma {:induction false} JoinAppend<T>(xs: seq<seq<T>>, x: seq<T>, sep: seq<T>)
    ensures Join(xs + [x], sep) == if xs == [] then x else Join(xs, sep) + sep + x
  {
    if xs == [] {
      assert xs + [x] == [x];
    } else {
      assert (xs + [x])[1..] == xs[1..] + [x];
      JoinAppend(xs[1..], x, sep);
      assert |xs| > 1 ==> Join(xs, sep) + sep + x == xs[0] + sep + (Join(xs[1..], sep) + sep + x);
    }
  }

  lemma Assoc<T>(a: seq<T>, b: seq<T>, c: seq<T>)
    ensures a + b + c == a + (b + c)
  {
  }

  lemma Assoc4<T>(a: seq<T>, b: seq<T>, c: seq<T>, d: seq<T>)
    ensures a + b + c + d == a + (b + (c + d))
  {
  }

  lemma DropFront<T>(a: seq<T>, b: seq<T>)
    ensures (a + b)[|a|..] == b && (a + b)[..|a|] == a
  {
  }

  lemma TakeOne<T>(a: seq<T>, b: seq<T>)
    requires b != []
    ensures a + b == a + [b[0]] + b[1..]
  {
  }

  /** The length of the longest prefix whose characters satisfy `p`. */
  function Span(p: char -> bool, s: string): (k: nat)
    ensures k <= |s| && (forall i :: 0 <= i < k ==> p(s[i])) && (k < |s| ==> !p(s[k]))
  {
    if s == "" || !p(s[0]) then 0 else 1 + Span(p, s[1..])
  }

  lemma {:induction false} SpanOf(p: char -> bool, front: string, rest: string)
    requires (forall i :: 0 <= i < |front| ==> p(front[i])) && (rest == "" || !p(rest[0]))
    ensures Span(p, front + rest) == |front|
  {
    if front == "" {
      assert front + rest == rest;
    } else {
      assert (front + rest)[1..] == front[1..] + rest;
      SpanOf(p, front[1..], rest);
    }
  }

  /** Replaces every occurrence of one character. */
  function Replace(s: string, c: char, sub: string): string {
    if s == "" then "" else (if s[0] == c then sub else [s[0]]) + Replace(s[1..], c, sub)
  }

  lemma {:induction false} ReplaceRemoves(s: string, c: char, sub: string)
    requires c !in sub
    ensures c !in Replace(s, c, sub)
    ensures forall d :: d !in s && d !in sub ==> d !in Replace(s, c, sub)
  {
    if s != "" {
      ReplaceRemoves(s[1..], c, sub);
    }
  }

  /** The white space characters of Unicode. */
  predicate IsSpace(c: char) {
    var n := c as int;
    || 9 <= n <= 13 || n == 0x20 || n == 0x85 || n == 0xA0 || n == 0x1680 || 0x2000 <= n <= 0x200A
    || n == 0x2028 || n == 0x2029 || n == 0x202F || n == 0x205F || n == 0x3000
  }

  function TrimLeft(s: string): string { if s != "" && IsSpace(s[0]) then TrimLeft(s[1..]) else s }

  function TrimRight(s: string): string {
    if s != "" && IsSpace(s[|s| - 1]) then TrimRight(s[..|s| - 1]) else s
  }

  /** strings.TrimSpace. */
  function TrimSpace(s: string): string { TrimRight(TrimLeft(s)) }

  lemma {:induction false} TrimLeftKeeps(s: string)
    ensures forall c :: c in TrimLeft(s) ==> c in s
  {
    if s != "" && IsSpace(s[0]) {
      TrimLeftKeeps(s[1..]);
    }
  }

  lemma {:induction false} TrimRightKeeps(s: string)
    ensures forall c :: c in TrimRight(s) ==> c in s
  {
    if s != "" && IsSpace(s[|s| - 1]) {
      TrimRightKeeps(s[..|s| - 1]);
    }
  }

  /** Trimming adds no characters. */
  lemma TrimKeeps(s: string)
    ensures forall c :: c in TrimSpace(s) ==> c in s
  {
    TrimLeftKeeps(s);
    TrimRightKeeps(TrimLeft(s));
  }

  // ---------- the order of strings ----------

  predicate StrLess(a: string, b: string) {
    b != "" && (a == "" || a[0] < b[0] || (a[0] == b[0] && StrLess(a[1..], b[1..])))
  }

  lemma {:induction false} StrLessIrreflexive(a: string)
    ensures !StrLess(a, a)
  {
    if a != "" {
      StrLessIrreflexive(a[1..]);
    }
  }

  lemma {:induction false} StrLessTotal(a: string, b: string)
    requires a != b
    ensures StrLess(a, b) || StrLess(b, a)
  {
    if a != "" && b != "" && a[0] == b[0] {
      assert a == [a[0]] + a[1..] && b == [b[0]] + b[1..];
      StrLessTotal(a[1..], b[1..]);
    }
  }

  lemma {:induction false} StrLessTransitive(a: string, b: string, c: string)
    requires StrLess(a, b) && StrLess(b, c)
    ensures StrLess(a, c)
  {
    if a != "" && a[0] == b[0] && b[0] == c[0] {
      StrLessTransitive(a[1..], b[1..], c[1..]);
    }
  }
}
