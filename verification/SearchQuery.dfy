/**
 The placeholders of the torrent search queries.

 A template says what a piece of SQL means: literal text with the values themselves in place. A
 clause is what the source builds: text with numbered placeholders, beside one argument list.
 */
module SearchQuery {
  import opened Strings

  datatype Value = Str(s: string) | Num(n: int)

  /** The expressions over a row of the joined tables that clauses compare: the columns of those names,
      the release year extracted from the content's date, the number of files or 0, and the number of
      seeders or leechers or -1. */
  datatype Column =
    | InfoHash | ContentType | ReleaseYear | CreatedAt | UpdatedAt | Size | FilesCount | Seeders | Leechers | Name

  /** The fixed SQL fragments around the placeholders. */
  datatype Sql =
    | TsvMatches | AsTsquery | In(column: Column) | Comma | Close | ExistsFile | CloseExists | Or | Open
    | AnyLanguage | CloseBracket | RefsIn | CreatedBy | AsTimestamp | Where | And
    | OrderBy | RankOf | RankDir(desc: bool) | By(column: Column, desc: bool) | TieBreak(desc: bool) | Limit | Offset

  datatype Bound = Lit(s: Sql) | Val(v: Value)
  type Template = seq<Bound>

  datatype Piece = Text(s: Sql) | Param(n: int)
  type Clause = seq<Piece>

  /** The values of a template, in order. */
  function Values(t: Template): seq<Value> {
    if t == [] then []
    else (if t[0].Val? then [t[0].v] else []) + Values(t[1..])
  }

  /** The clause that numbers a template's values from `n` on. */
  function Number(t: Template, n: nat): Clause {
    if t == [] then []
    else if t[0].Val? then [Param(n)] + Number(t[1..], n + 1)
    else [Text(t[0].s)] + Number(t[1..], n)
  }

  /** Every placeholder of the clause has an argument. */
  ghost predicate InRange(c: Clause, args: seq<Value>) {
    forall p :: p in c && p.Param? ==> 1 <= p.n <= |args|
  }

  /** What a clause means together with its arguments: placeholder n is argument n - 1. */
  function Instantiate(c: Clause, args: seq<Value>): Template
    requires InRange(c, args)
  {
    if c == [] then []
    else
      assert c[0] in c;
      [if c[0].Param? then Val(args[c[0].n - 1]) else Lit(c[0].s)] + Instantiate(c[1..], args)
  }

  function ValuesAll(ts: seq<Template>): seq<Value> {
    if ts == [] then [] else Values(ts[0]) + ValuesAll(ts[1..])
  }

  function NumberAll(ts: seq<Template>, n: nat): seq<Clause> {
    if ts == [] then [] else [Number(ts[0], n)] + NumberAll(ts[1..], n + |Values(ts[0])|)
  }

  // ---------- numbering ----------

  lemma {:induction false} NumberConcat(a: Template, b: Template, n: nat)
    ensures Values(a + b) == Values(a) + Values(b)
    ensures Number(a + b, n) == Number(a, n) + Number(b, n + |Values(a)|)
  {
    if a == [] {
      assert a + b == b;
    } else {
      assert (a + b)[1..] == a[1..] + b;
      NumberConcat(a[1..], b, if a[0].Val? then n + 1 else n);
    }
  }

  lemma {:induction false} ValuesAllConcat(a: seq<Template>, b: seq<Template>)
    ensures ValuesAll(a + b) == ValuesAll(a) + ValuesAll(b)
  {
    if a == [] {
      assert a + b == b;
    } else {
      assert (a + b)[1..] == a[1..] + b;
      ValuesAllConcat(a[1..], b);
    }
  }

  lemma {:induction false} NumberAllLength(ts: seq<Template>, n: nat)
    ensures |NumberAll(ts, n)| == |ts|
  {
    if ts != [] {
      NumberAllLength(ts[1..], n + |Values(ts[0])|);
    }
  }

  lemma {:induction false} NumberAllConcat(a: seq<Template>, b: seq<Template>, n: nat)
    ensures NumberAll(a + b, n) == NumberAll(a, n) + NumberAll(b, n + |ValuesAll(a)|)
  {
    if a == [] {
      assert a + b == b;
    } else {
      assert (a + b)[1..] == a[1..] + b && (a + b)[0] == a[0];
      var m := n + |Values(a[0])|;
      NumberAllConcat(a[1..], b, m);
      assert NumberAll(a + b, n) == [Number(a[0], n)] + NumberAll(a[1..] + b, m);
    }
  }

  lemma {:induction false} NumberJoin(ts: seq<Template>, sep: Sql, n: nat)
    ensures Values(Join(ts, [Lit(sep)])) == ValuesAll(ts)
    ensures Number(Join(ts, [Lit(sep)]), n) == Join(NumberAll(ts, n), [Text(sep)])
    ensures |NumberAll(ts, n)| == |ts|
  {
    if ts != [] {
      var m := n + |Values(ts[0])|;
      NumberJoin(ts[1..], sep, m);
      if |ts| > 1 {
        NumberSeparated(ts[0], sep, Join(ts[1..], [Lit(sep)]), n);
        assert NumberAll(ts, n)[0] == Number(ts[0], n) && NumberAll(ts, n)[1..] == NumberAll(ts[1..], m);
      }
    }
  }

  lemma NumberSeparated(a: Template, sep: Sql, b: Template, n: nat)
    ensures Values(a + [Lit(sep)] + b) == Values(a) + Values(b)
    ensures Number(a + [Lit(sep)] + b, n) == Number(a, n) + [Text(sep)] + Number(b, n + |Values(a)|)
  {
    TextNumbers(sep, n + |Values(a)|);
    NumberConcat(a, [Lit(sep)], n);
    NumberConcat(a + [Lit(sep)], b, n);
  }

  lemma TextNumbers(s: Sql, n: nat)
    ensures Number([Lit(s)], n) == [Text(s)] && Values([Lit(s)]) == []
  {
    var t: Template := [Lit(s)];
    assert t[1..] == [];
    assert Number(t[1..], n) == [] && Values(t[1..]) == [];
    assert [Text(s)] + [] == [Text(s)];
  }

  lemma InstantiateCons(p: Piece, rest: Clause, args: seq<Value>)
    requires InRange(rest, args) && (p.Param? ==> 1 <= p.n <= |args|)
    ensures InRange([p] + rest, args)
    ensures Instantiate([p] + rest, args)
         == [if p.Param? then Val(args[p.n - 1]) else Lit(p.s)] + Instantiate(rest, args)
  {
    assert ([p] + rest)[1..] == rest;
  }

  /** `c` means `t` under `args`. */
  ghost predicate Means(c: Clause, args: seq<Value>, t: Template) {
    InRange(c, args) && Instantiate(c, args) == t
  }

  /** Numbering from n on and then looking the arguments up gives the template back, if that is
      where its values stand among the arguments. */
  lemma {:induction false} NumberMeans(t: Template, args: seq<Value>, n: nat)
    requires 1 <= n && n - 1 + |Values(t)| <= |args| && args[n - 1..][..|Values(t)|] == Values(t)
    ensures Means(Number(t, n), args, t)
  {
    if t != [] {
      assert t == [t[0]] + t[1..];
      if t[0].Val? {
        assert args[n..][..|Values(t[1..])|] == args[n - 1..][..|Values(t)|][1..];
        NumberMeans(t[1..], args, n + 1);
        MeansVal(t[0].v, t[1..], args, n);
      } else {
        NumberMeans(t[1..], args, n);
        MeansLit(t[0].s, t[1..], args, n);
      }
    }
  }

  lemma MeansVal(v: Value, rest: Template, args: seq<Value>, n: nat)
    requires 1 <= n <= |args| && args[n - 1] == v
    requires Means(Number(rest, n + 1), args, rest)
    ensures Means(Number([Val(v)] + rest, n), args, [Val(v)] + rest)
  {
    assert ([Val(v)] + rest)[1..] == rest;
    MeansCons(Param(n), Val(v), Number(rest, n + 1), args, rest);
  }

  lemma MeansLit(s: Sql, rest: Template, args: seq<Value>, n: nat)
    requires Means(Number(rest, n), args, rest)
    ensures Means(Number([Lit(s)] + rest, n), args, [Lit(s)] + rest)
  {
    assert ([Lit(s)] + rest)[1..] == rest;
    MeansCons(Text(s), Lit(s), Number(rest, n), args, rest);
  }

  lemma MeansCons(p: Piece, bound: Bound, rest: Clause, args: seq<Value>, t: Template)
    requires Means(rest, args, t)
    requires if p.Param? then 1 <= p.n <= |args| && bound == Val(args[p.n - 1]) else bound == Lit(p.s)
    ensures Means([p] + rest, args, [bound] + t)
  {
    InstantiateCons(p, rest, args);
  }

  // ---------- dropping a clause and renumbering the others ----------

  /** The rewriting of placeholders: those above `start` move down by `count`. */
  function Shift(c: Clause, start: nat, count: nat): Clause {
    if c == [] then []
    else
      [if c[0].Param? && c[0].n > start then Param(c[0].n - count) else c[0]] + Shift(c[1..], start, count)
  }

  function ShiftAll(cs: seq<Clause>, start: nat, count: nat): seq<Clause> {
    if cs == [] then [] else [Shift(cs[0], start, count)] + ShiftAll(cs[1..], start, count)
  }

  lemma {:induction false} ShiftBelow(t: Template, n: nat, start: nat, count: nat)
    requires n + |Values(t)| <= start + 1
    ensures Shift(Number(t, n), start, count) == Number(t, n)
  {
    if t != [] {
      ShiftBelow(t[1..], if t[0].Val? then n + 1 else n, start, count);
      assert Number(t, n)[1..] == Number(t[1..], if t[0].Val? then n + 1 else n);
    }
  }

  lemma {:induction false} ShiftAbove(t: Template, n: nat, start: nat, count: nat)
    requires n > start && n >= count
    ensures Shift(Number(t, n), start, count) == Number(t, n - count)
  {
    if t != [] {
      ShiftAbove(t[1..], if t[0].Val? then n + 1 else n, start, count);
      assert Number(t, n)[1..] == Number(t[1..], if t[0].Val? then n + 1 else n);
    }
  }

  lemma {:induction false} ShiftAllBelow(ts: seq<Template>, n: nat, start: nat, count: nat)
    requires n + |ValuesAll(ts)| <= start + 1
    ensures ShiftAll(NumberAll(ts, n), start, count) == NumberAll(ts, n)
  {
    if ts != [] {
      ShiftBelow(ts[0], n, start, count);
      ShiftAllBelow(ts[1..], n + |Values(ts[0])|, start, count);
    }
  }

  lemma {:induction false} ShiftAllAbove(ts: seq<Template>, n: nat, start: nat, count: nat)
    requires n > start && n >= count
    ensures ShiftAll(NumberAll(ts, n), start, count) == NumberAll(ts, n - count)
  {
    if ts != [] {
      ShiftAbove(ts[0], n, start, count);
      ShiftAllAbove(ts[1..], n + |Values(ts[0])|, start, count);
    }
  }

  lemma {:induction false} ShiftAllConcat(a: seq<Clause>, b: seq<Clause>, start: nat, count: nat)
    ensures ShiftAll(a + b, start, count) == ShiftAll(a, start, count) + ShiftAll(b, start, count)
  {
    if a == [] {
      assert a + b == b;
    } else {
      assert (a + b)[1..] == a[1..] + b;
      ShiftAllConcat(a[1..], b, start, count);
    }
  }

  /** Where a list of templates splits, so do its clauses and its values. */
  lemma SplitAt(before: seq<Template>, dropped: Template, after: seq<Template>)
    ensures var start, count := |ValuesAll(before)| + 1, |Values(dropped)|;
            && NumberAll(before + [dropped] + after, 1)
                 == NumberAll(before, 1) + [Number(dropped, start)] + NumberAll(after, start + count)
            && ValuesAll(before + [dropped] + after) == ValuesAll(before) + Values(dropped) + ValuesAll(after)
            && |NumberAll(before, 1)| == |before|
  {
    ValuesAllConcat(before + [dropped], after);
    ValuesAllConcat(before, [dropped]);
    NumberAllConcat(before + [dropped], after, 1);
    NumberAllConcat(before, [dropped], 1);
    NumberAllLength(before, 1);
    assert ValuesAll([dropped]) == Values(dropped);
    assert NumberAll([dropped], |ValuesAll(before)| + 1) == [Number(dropped, |ValuesAll(before)| + 1)];
  }

  lemma RemoveMiddle<T>(a: seq<T>, x: T, b: seq<T>)
    ensures (a + [x] + b)[..|a|] + (a + [x] + b)[|a| + 1..] == a + b
  {
  }

  lemma DropClauseText(before: seq<Template>, dropped: Template, after: seq<Template>, where: seq<Clause>)
    requires Values(dropped) != [] && where == NumberAll(before + [dropped] + after, 1)
    ensures |before| < |where|
    ensures ShiftAll(where[..|before|] + where[|before| + 1..], |ValuesAll(before)| + 1, |Values(dropped)|)
         == NumberAll(before + after, 1)
  {
    var start, count := |ValuesAll(before)| + 1, |Values(dropped)|;
    SplitAt(before, dropped, after);
    RemoveMiddle(NumberAll(before, 1), Number(dropped, start), NumberAll(after, start + count));
    ShiftAround(before, after, count);
  }

  lemma ShiftAround(before: seq<Template>, after: seq<Template>, count: nat)
    requires count > 0
    ensures var start := |ValuesAll(before)| + 1;
            ShiftAll(NumberAll(before, 1) + NumberAll(after, start + count), start, count)
              == NumberAll(before + after, 1)
  {
    var start := |ValuesAll(before)| + 1;
    ShiftAllConcat(NumberAll(before, 1), NumberAll(after, start + count), start, count);
    ShiftAllBelow(before, 1, start, count);
    ShiftAllAbove(after, start + count, start, count);
    NumberAllConcat(before, after, 1);
  }

  lemma DropClauseArgs(before: seq<Template>, dropped: Template, after: seq<Template>, args: seq<Value>)
    requires args == ValuesAll(before + [dropped] + after)
    ensures |ValuesAll(before)| + |Values(dropped)| <= |args|
    ensures args[..|ValuesAll(before)|] + args[|ValuesAll(before)| + |Values(dropped)|..] == ValuesAll(before + after)
  {
    SplitAt(before, dropped, after);
    ValuesAllConcat(before, after);
  }

  /** Clause i of a numbered list means template i. */
  lemma {:induction false} NumberAllMeans(ts: seq<Template>, args: seq<Value>, n: nat, i: nat)
    requires i < |ts|
    requires 1 <= n && n - 1 + |ValuesAll(ts)| <= |args| && args[n - 1..][..|ValuesAll(ts)|] == ValuesAll(ts)
    ensures |NumberAll(ts, n)| == |ts| && Means(NumberAll(ts, n)[i], args, ts[i])
  {
    NumberAllLength(ts, n);
    var first, rest := |Values(ts[0])|, |ValuesAll(ts[1..])|;
    if i == 0 {
      assert args[n - 1..][..first] == args[n - 1..][..first + rest][..first];
      NumberMeans(ts[0], args, n);
    } else {
      assert args[n + first - 1..][..rest] == args[n - 1..][..first + rest][first..];
      NumberAllMeans(ts[1..], args, n + first, i - 1);
    }
  }

  /** Every clause that is kept means, renumbered and under the shorter argument list, exactly
      what it meant before under the full one. */
  lemma KeptClauseKeepsMeaning(before: seq<Template>, dropped: Template, after: seq<Template>, i: nat)
    requires Values(dropped) != [] && i < |before + after|
    ensures var full, k, start := before + [dropped] + after, |before|, |ValuesAll(before)| + 1;
            var where, args := NumberAll(full, 1), ValuesAll(full);
            && |where| == |full| && start - 1 + |Values(dropped)| <= |args|
            && var kept := ShiftAll(where[..k] + where[k + 1..], start, |Values(dropped)|);
               var keptArgs := args[..start - 1] + args[start - 1 + |Values(dropped)|..];
               var j := if i < k then i else i + 1;
               && |kept| == |before + after|
               && Means(where[j], args, (before + after)[i])
               && Means(kept[i], keptArgs, (before + after)[i])
  {
    var full := before + [dropped] + after;
    DropClauseText(before, dropped, after, NumberAll(full, 1));
    DropClauseArgs(before, dropped, after, ValuesAll(full));
    NumberAllLength(full, 1);
    var j := if i < |before| then i else i + 1;
    assert full[j] == (before + after)[i];
    ClauseMeans(full, j);
    ClauseMeans(before + after, i);
  }

  lemma ClauseMeans(ts: seq<Template>, i: nat)
    requires i < |ts|
    ensures |NumberAll(ts, 1)| == |ts| && Means(NumberAll(ts, 1)[i], ValuesAll(ts), ts[i])
  {
    assert ValuesAll(ts)[0..][..|ValuesAll(ts)|] == ValuesAll(ts);
    NumberAllMeans(ts, ValuesAll(ts), 1, i);
  }
}
