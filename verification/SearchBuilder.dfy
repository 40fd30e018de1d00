/** Building the torrent search queries: the where clauses, the facet clauses derived from them
    by dropping the content type filter, and the page, count and has-next queries. */
module SearchBuilder {
  import opened Strings
  import opened Wrappers
  import opened SearchQuery
  import opened SearchFilters
  import opened SearchMeaning

  // ---------- the builder ----------

  lemma {:induction false} SinglesNumber(vs: seq<Value>, n: nat)
    ensures ValuesAll(Singles(vs)) == vs && NumberAll(Singles(vs), n) == ParamsFrom(n, |vs|)
  {
    if vs != [] {
      SinglesNumber(vs[1..], n + 1);
      SingleValue(vs[0], n);
      assert Singles(vs)[0] == [Val(vs[0])] && Singles(vs)[1..] == Singles(vs[1..]);
      assert ParamsFrom(n, |vs|) == [[Param(n)]] + ParamsFrom(n + 1, |vs| - 1);
    }
  }

  lemma SingleValue(v: Value, n: nat)
    ensures Values([Val(v)]) == [v] && Number([Val(v)], n) == [Param(n)]
  {
    var t: Template := [Val(v)];
    assert t[1..] == [];
  }

  /** A bracketed list of values, numbered. */
  lemma ListedNumbers(open: Sql, vs: seq<Value>, close: Sql, n: nat)
    ensures var t := [Lit(open)] + Listed(vs) + [Lit(close)];
            && Values(t) == vs
            && Number(t, n) == [Text(open)] + Join(ParamsFrom(n, |vs|), [Text(Comma)]) + [Text(close)]
  {
    SinglesNumber(vs, n);
    NumberJoin(Singles(vs), Comma, n);
    Bracketed(open, Listed(vs), close, n);
  }

  lemma Bracketed(open: Sql, inner: Template, close: Sql, n: nat)
    ensures Values([Lit(open)] + inner + [Lit(close)]) == Values(inner)
    ensures Number([Lit(open)] + inner + [Lit(close)], n) == [Text(open)] + Number(inner, n) + [Text(close)]
  {
    NumberConcat([Lit(open)] + inner, [Lit(close)], n);
    NumberConcat([Lit(open)], inner, n);
    assert Number([Lit(open)], n) == [Text(open)] && Values([Lit(open)]) == [];
    assert Number([Lit(close)], n + |Values(inner)|) == [Text(close)] && Values([Lit(close)]) == [];
  }

  class Builder {
    var where: seq<Clause>
    var args: seq<Value>
    var argIdx: int

    /** `ts` are the filters added so far; the next placeholder is always one past the arguments. */
    ghost predicate Holds(ts: seq<Template>)
      reads this
    {
      where == NumberAll(ts, 1) && args == ValuesAll(ts) && argIdx == |args| + 1
    }

    constructor ()
      ensures Holds([])
    {
      where, args, argIdx := [], [], 1;
    }

    /** Placeholders for a list of values, which become arguments. */
    method Placeholders(items: seq<Value>) returns (ps: seq<Clause>)
      modifies this`args, this`argIdx
      ensures ps == ParamsFrom(old(argIdx), |items|)
      ensures args == old(args) + items && argIdx == old(argIdx) + |items|
    {
      ps := [];
      for i := 0 to |items|
        invariant |ps| == i && forall k :: 0 <= k < i ==> ps[k] == [Param(old(argIdx) + k)]
        invariant args == old(args) + items[..i] && argIdx == old(argIdx) + i
      {
        ps := ps + [[Param(argIdx)]];
        args := args + [items[i]];
        argIdx := argIdx + 1;
      }
    }

    /** A bracketed list of placeholders. */
    method ListedClause(open: Sql, items: seq<Value>, close: Sql) returns (c: Clause)
      requires argIdx == |args| + 1
      modifies this`args, this`argIdx
      ensures c == Number([Lit(open)] + Listed(items) + [Lit(close)], old(argIdx))
      ensures Values([Lit(open)] + Listed(items) + [Lit(close)]) == items
      ensures args == old(args) + items && argIdx == |args| + 1
    {
      ListedNumbers(open, items, close, argIdx);
      var ps := Placeholders(items);
      c := [Text(open)] + Join(ps, [Text(Comma)]) + [Text(close)];
    }

    /** A filter that is one bracketed list of values. */
    method AddListed(open: Sql, items: seq<Value>, close: Sql, ghost ts: seq<Template>)
      requires Holds(ts)
      modifies this
      ensures Holds(ts + [[Lit(open)] + Listed(items) + [Lit(close)]])
    {
      AddTemplate(ts, [Lit(open)] + Listed(items) + [Lit(close)]);
      var c := ListedClause(open, items, close);
      where := where + [c];
    }

    /** appendINClause. */
    method AppendIn(col: Column, items: seq<Value>, ghost ts: seq<Template>)
      requires Holds(ts)
      modifies this
      ensures Holds(ts + When(items != [], InTpl(col, items)))
    {
      if |items| == 0 {
        assert ts + When(items != [], InTpl(col, items)) == ts;
        return;
      }
      AddListed(In(col), items, Close, ts);
    }
  
    method AlternativeClauses(exts: seq<string>) returns (cs: seq<Clause>)
      requires argIdx == |args| + 1
      modifies this`args, this`argIdx
      ensures cs == NumberAll(Alternative(exts), old(argIdx)) && |cs| == |Alternative(exts)|
      ensures args == old(args) + ValuesAll(Alternative(exts)) && argIdx == |args| + 1
    {
      if |exts| == 0 {
        return [];
      }
      AddTemplateFrom([], ExtTpl(exts), argIdx);
      assert [] + [ExtTpl(exts)] == Alternative(exts);
      var c := ListedClause(ExistsFile, Strs(exts), CloseExists);
      cs := [c];
    }

    /** The alternatives of the file type filter, numbered one after the other. */
    method ExtClauses(fileTypes: seq<seq<string>>) returns (cs: seq<Clause>)
      requires argIdx == |args| + 1
      modifies this`args, this`argIdx
      ensures cs == NumberAll(ExtTpls(fileTypes), old(argIdx)) && |cs| == |ExtTpls(fileTypes)|
      ensures args == old(args) + ValuesAll(ExtTpls(fileTypes)) && argIdx == |args| + 1
    {
      cs := [];
      for i := 0 to |fileTypes|
        invariant cs == NumberAll(ExtTpls(fileTypes[..i]), old(argIdx))
        invariant args == old(args) + ValuesAll(ExtTpls(fileTypes[..i])) && argIdx == |args| + 1
      {
        ghost var done := ExtTpls(fileTypes[..i]);
        ExtTplsStep(fileTypes, i);
        cs := AddAlternative(fileTypes[i], cs, done, old(argIdx), old(args));
      }
      assert fileTypes[..|fileTypes|] == fileTypes;
      NumberAllLength(ExtTpls(fileTypes), old(argIdx));
    }

    /** The clauses so far and those of one more file type. */
    method AddAlternative(exts: seq<string>, cs: seq<Clause>, ghost done: seq<Template>, ghost n0: nat,
                          ghost args0: seq<Value>)
      returns (cs': seq<Clause>)
      requires argIdx == |args| + 1 && n0 == |args0| + 1
      requires cs == NumberAll(done, n0) && args == args0 + ValuesAll(done)
      modifies this`args, this`argIdx
      ensures cs' == NumberAll(done + Alternative(exts), n0) && args == args0 + ValuesAll(done + Alternative(exts))
      ensures argIdx == |args| + 1
    {
      NumberAllConcat(done, Alternative(exts), n0);
      ValuesAllConcat(done, Alternative(exts));
      var alternative := AlternativeClauses(exts);
      cs' := cs + alternative;
    }

    method AddFileTypes(fileTypes: seq<seq<string>>, ghost ts: seq<Template>)
      requires Holds(ts)
      modifies this
      ensures Holds(ts + When(ExtTpls(fileTypes) != [], FileTpl(fileTypes)))
    {
      ghost var n0, alternatives := argIdx, ExtTpls(fileTypes);
      var extClauses := ExtClauses(fileTypes);
      if |extClauses| > 0 {
        NumberJoin(alternatives, Or, n0);
        Bracketed(Open, Join(alternatives, [Lit(Or)]), Close, n0);
        AddTemplate(ts, FileTpl(fileTypes));
        where := where + [[Text(Open)] + Join(extClauses, [Text(Or)]) + [Text(Close)]];
      } else {
        assert ts + When(false, FileTpl(fileTypes)) == ts;
      }
    }

    method RefClauses(refs: seq<ContentRef>) returns (cs: seq<Clause>)
      requires argIdx == |args| + 1
      modifies this`args, this`argIdx
      ensures cs == NumberAll(RefTpls(refs), old(argIdx))
      ensures args == old(args) + ValuesAll(RefTpls(refs)) && argIdx == |args| + 1
    {
      cs := [];
      for i := 0 to |refs|
        invariant cs == NumberAll(RefTpls(refs[..i]), old(argIdx))
        invariant args == old(args) + ValuesAll(RefTpls(refs[..i])) && argIdx == |args| + 1
      {
        RefTplsStep(refs, i);
        AddTemplateFrom(RefTpls(refs[..i]), RefTpl(refs[i]), old(argIdx));
        RefNumbers(refs[i], argIdx);
        cs := cs +
          [[Text(Open), Param(argIdx), Text(Comma), Param(argIdx + 1), Text(Comma), Param(argIdx + 2), Text(Close)]];
        args := args + [Str(refs[i].kind), Str(refs[i].source), Str(refs[i].id)];
        argIdx := argIdx + 3;
      }
      assert refs[..|refs|] == refs;
    }

    method AddRefs(refs: seq<ContentRef>, ghost ts: seq<Template>)
      requires Holds(ts)
      modifies this
      ensures Holds(ts + When(refs != [], RefsTpl(refs)))
    {
      if |refs| == 0 {
        assert ts + When(refs != [], RefsTpl(refs)) == ts;
        return;
      }
      ghost var n0 := argIdx;
      var parts := RefClauses(refs);
      NumberJoin(RefTpls(refs), Comma, n0);
      Bracketed(RefsIn, Join(RefTpls(refs), [Lit(Comma)]), Close, n0);
      AddTemplate(ts, RefsTpl(refs));
      where := where + [[Text(RefsIn)] + Join(parts, [Text(Comma)]) + [Text(Close)]];
    }

    /** A filter with a single value between two texts. */
    method AddSingle(open: Sql, v: Value, close: Sql, ghost ts: seq<Template>)
      requires Holds(ts)
      modifies this
      ensures Holds(ts + [[Lit(open), Val(v), Lit(close)]])
    {
      AddTemplate(ts, [Lit(open), Val(v), Lit(close)]);
      SingleNumbers(open, v, close, argIdx);
      where := where + [[Text(open), Param(argIdx), Text(close)]];
      args := args + [v];
      argIdx := argIdx + 1;
    }

    /** The where clauses of a search. `start` is the number of the first content type
        placeholder and `k` the position of that clause, if there is one. */
    method Build(p: Search) returns (k: nat, start: int)
      requires Holds([])
      modifies this
      ensures Holds(Filters(p)) && Asks(WhereClause(where), args, p, false, None, None)
      ensures p.contentTypes != [] ==> k == |BeforeTypes(p)| && start == |ValuesAll(BeforeTypes(p))| + 1
    {
      k, start := 0, 0;
      AddOptional(p.hasQuery, TsvMatches, Str(p.tsquery), AsTsquery, []);
      ghost var ts := When(p.hasQuery, QueryTpl(p.tsquery));
      assert [] + ts == ts;
      AppendIn(InfoHash, Strs(p.infoHashes), ts);
      ts := BeforeTypes(p);
      if |p.contentTypes| > 0 {
        NumberAllLength(ts, 1);
        k, start := |where|, argIdx;
      }
      AppendIn(ContentType, Strs(p.contentTypes), ts);
      assert Strs(p.contentTypes) != [] <==> p.contentTypes != [];
      AddRest(p, ts + When(p.contentTypes != [], TypesTpl(p)));
      WhereNumbers(Filters(p));
      NumberedMeans(WhereTpl(Filters(p)));
      CountAsks(WhereClause(where), args, p);
    }

    method AddRest(p: Search, ghost ts: seq<Template>)
      requires Holds(ts)
      modifies this
      ensures Holds(ts + AfterTypes(p))
    {
      ghost var t1 := When(ExtTpls(p.fileTypes) != [], FileTpl(p.fileTypes));
      ghost var t2 := When(p.languages != [], LanguageTpl(p.languages));
      AddFileTypes(p.fileTypes, ts);
      AddLanguages(p.languages, ts + t1);
      assert Nums(p.releaseYears) != [] <==> p.releaseYears != [];
      AppendIn(ReleaseYear, Nums(p.releaseYears), ts + t1 + t2);
      ghost var t3 := When(p.releaseYears != [], InTpl(ReleaseYear, Nums(p.releaseYears)));
      AddLast(p, ts + t1 + t2 + t3);
      Regroup(ts, t1, t2, t3, LastFilters(p));
    }

    method AddLast(p: Search, ghost ts: seq<Template>)
      requires Holds(ts)
      modifies this
      ensures Holds(ts + LastFilters(p))
    {
      ghost var t4 := When(p.contentRefs != [], RefsTpl(p.contentRefs));
      AddRefs(p.contentRefs, ts);
      AddOptional(p.barrier != "", CreatedBy, Str(p.barrier), AsTimestamp, ts + t4);
      assert ts + t4 + When(p.barrier != "", BarrierTpl(p.barrier)) == ts + LastFilters(p);
    }

    method AddLanguages(languages: seq<string>, ghost ts: seq<Template>)
      requires Holds(ts)
      modifies this
      ensures Holds(ts + When(languages != [], LanguageTpl(languages)))
    {
      if |languages| > 0 {
        AddListed(AnyLanguage, Strs(languages), CloseBracket, ts);
      } else {
        assert ts + When(languages != [], LanguageTpl(languages)) == ts;
      }
    }

    method AddOptional(c: bool, open: Sql, v: Value, close: Sql, ghost ts: seq<Template>)
      requires Holds(ts)
      modifies this
      ensures Holds(ts + When(c, [Lit(open), Val(v), Lit(close)]))
    {
      if c {
        AddSingle(open, v, close, ts);
      } else {
        assert ts + When(c, [Lit(open), Val(v), Lit(close)]) == ts;
      }
    }
  }

  lemma ExtTplsStep(fileTypes: seq<seq<string>>, i: nat)
    requires i < |fileTypes|
    ensures ExtTpls(fileTypes[..i + 1]) == ExtTpls(fileTypes[..i]) + Alternative(fileTypes[i])
  {
    ExtTplsConcat(fileTypes[..i], [fileTypes[i]]);
    assert fileTypes[..i + 1] == fileTypes[..i] + [fileTypes[i]];
  }

  lemma {:induction false} ExtTplsConcat(a: seq<seq<string>>, b: seq<seq<string>>)
    ensures ExtTpls(a + b) == ExtTpls(a) + ExtTpls(b)
  {
    if a == [] {
      assert a + b == b;
    } else {
      assert (a + b)[1..] == a[1..] + b;
      ExtTplsConcat(a[1..], b);
    }
  }

  lemma RefTplsStep(refs: seq<ContentRef>, i: nat)
    requires i < |refs|
    ensures RefTpls(refs[..i + 1]) == RefTpls(refs[..i]) + [RefTpl(refs[i])]
  {
    RefTplsConcat(refs[..i], [refs[i]]);
    assert refs[..i + 1] == refs[..i] + [refs[i]];
  }

  lemma {:induction false} RefTplsConcat(a: seq<ContentRef>, b: seq<ContentRef>)
    ensures RefTpls(a + b) == RefTpls(a) + RefTpls(b)
  {
    if a == [] {
      assert a + b == b;
    } else {
      assert (a + b)[1..] == a[1..] + b;
      RefTplsConcat(a[1..], b);
    }
  }

  lemma SingleNumbers(open: Sql, v: Value, close: Sql, n: nat)
    ensures var t := [Lit(open), Val(v), Lit(close)];
            Values(t) == [v] && Number(t, n) == [Text(open), Param(n), Text(close)]
  {
    assert [Lit(open), Val(v), Lit(close)] == [Lit(open)] + [Val(v)] + [Lit(close)];
    assert Values([Val(v)]) == [v] && Number([Val(v)], n) == [Param(n)];
    Bracketed(open, [Val(v)], close, n);
  }

  lemma Regroup<T>(ts: seq<T>, a: seq<T>, b: seq<T>, c: seq<T>, d: seq<T>)
    ensures ts + a + b + c + d == ts + (a + b + c + d)
  {
  }

  lemma PairNumbers(v: Value, close: Sql, n: nat)
    ensures Values([Val(v), Lit(close)]) == [v] && Number([Val(v), Lit(close)], n) == [Param(n), Text(close)]
  {
    assert [Val(v), Lit(close)] == [Val(v)] + [Lit(close)];
    NumberConcat([Val(v)], [Lit(close)], n);
    assert Values([Val(v)]) == [v] && Number([Val(v)], n) == [Param(n)];
    assert Values([Lit(close)]) == [] && Number([Lit(close)], n + 1) == [Text(close)];
  }

  lemma RefNumbers(r: ContentRef, n: nat)
    ensures Values(RefTpl(r)) == [Str(r.kind), Str(r.source), Str(r.id)]
    ensures Number(RefTpl(r), n) ==
      [Text(Open), Param(n), Text(Comma), Param(n + 1), Text(Comma), Param(n + 2), Text(Close)]
  {
    var a, b, c :=
      [Lit(Open), Val(Str(r.kind)), Lit(Comma)], [Val(Str(r.source)), Lit(Comma)], [Val(Str(r.id)), Lit(Close)];
    assert RefTpl(r) == a + b + c;
    SingleNumbers(Open, Str(r.kind), Comma, n);
    PairNumbers(Str(r.source), Comma, n + 1);
    PairNumbers(Str(r.id), Close, n + 2);
    NumberConcat(a, b, n);
    NumberConcat(a + b, c, n);
  }

  lemma AddTemplateFrom(ts: seq<Template>, t: Template, n: nat)
    ensures NumberAll(ts + [t], n) == NumberAll(ts, n) + [Number(t, n + |ValuesAll(ts)|)]
    ensures ValuesAll(ts + [t]) == ValuesAll(ts) + Values(t)
  {
    NumberAllConcat(ts, [t], n);
    ValuesAllConcat(ts, [t]);
    assert ValuesAll([t]) == Values(t);
    assert NumberAll([t], n + |ValuesAll(ts)|) == [Number(t, n + |ValuesAll(ts)|)];
  }

  lemma AddTemplate(ts: seq<Template>, t: Template)
    ensures NumberAll(ts + [t], 1) == NumberAll(ts, 1) + [Number(t, |ValuesAll(ts)| + 1)]
    ensures ValuesAll(ts + [t]) == ValuesAll(ts) + Values(t)
  {
    AddTemplateFrom(ts, t, 1);
  }

  // ---------- facets: the same search without its content type filter ----------

  /** The facet clauses and arguments are, literally, those of the same filters without the
      dropped one. `count` is the number of its values; nothing is dropped when it is zero. */
  method FacetWhere(count: nat, where: seq<Clause>, args: seq<Value>, k: nat, start: int,
      ghost before: seq<Template>, ghost dropped: Template, ghost after: seq<Template>)
    returns (facetWhere: seq<Clause>, facetArgs: seq<Value>)
    requires count == 0 ==> where == NumberAll(before + after, 1) && args == ValuesAll(before + after)
    requires count > 0 ==>
      && where == NumberAll(before + [dropped] + after, 1) && args == ValuesAll(before + [dropped] + after)
      && |Values(dropped)| == count && k == |before| && start == |ValuesAll(before)| + 1
    ensures facetWhere == NumberAll(before + after, 1) && facetArgs == ValuesAll(before + after)
  {
    facetWhere, facetArgs := where, args;
    if count > 0 {
      DropClauseText(before, dropped, after, where);
      DropClauseArgs(before, dropped, after, args);
      facetWhere := ShiftClauses(where[..k] + where[k + 1..], start, count);
      facetArgs := args[..start - 1] + args[start - 1 + count..];
    }
  }

  /** Rewrites the clauses one after the other. */
  method ShiftClauses(kept: seq<Clause>, start: nat, count: nat) returns (shifted: seq<Clause>)
    ensures shifted == ShiftAll(kept, start, count)
  {
    shifted := kept;
    for i := 0 to |kept|
      invariant |shifted| == |kept| && shifted[i..] == kept[i..]
      invariant shifted[..i] == ShiftAll(kept[..i], start, count)
    {
      ShiftAllConcat(kept[..i], [kept[i]], start, count);
      assert kept[..i + 1] == kept[..i] + [kept[i]];
      assert ShiftAll([kept[i]], start, count) == [Shift(kept[i], start, count)];
      shifted := shifted[i := Shift(shifted[i], start, count)];
      assert shifted[..i + 1] == shifted[..i] + [shifted[i]];
    }
    assert kept[..|kept|] == kept && shifted[..|kept|] == shifted;
  }

  lemma FiltersAround(p: Search)
    ensures p.contentTypes != [] ==> Filters(p) == BeforeTypes(p) + [TypesTpl(p)] + AfterTypes(p)
    ensures p.contentTypes == [] ==> Filters(p) == BeforeTypes(p) + AfterTypes(p)
    ensures Filters(p.(contentTypes := [])) == BeforeTypes(p) + AfterTypes(p)
  {
    var q := p.(contentTypes := []);
    assert BeforeTypes(q) == BeforeTypes(p) && AfterTypes(q) == AfterTypes(p);
    assert Filters(q) == BeforeTypes(p) + [] + AfterTypes(p);
    assert BeforeTypes(p) + [] == BeforeTypes(p);
  }

  lemma TypesValues(p: Search)
    ensures |Values(TypesTpl(p))| == |p.contentTypes|
  {
    ListedNumbers(In(ContentType), Strs(p.contentTypes), Close, 1);
  }

  // ---------- the page, count and has-next queries ----------

  function WhereClause(cs: seq<Clause>): Clause {
    if cs == [] then [] else [Text(Where)] + Join(cs, [Text(And)])
  }

  datatype Queries = Queries(
    query: Clause, args: seq<Value>,
    countQuery: Clause, countArgs: seq<Value>,
    hasNextQuery: Clause, hasNextArgs: seq<Value>)

  /** The order by clause; the arguments it needs follow those given. */
  method BuildOrderBy(p: Search, args: seq<Value>) returns (c: Clause, args': seq<Value>)
    ensures c == Number(OrderTpl(p), |args| + 1) && args' == args + Values(OrderTpl(p))
  {
    var keys: seq<Clause>;
    keys, args' := BuildKeys(p, args);
    ghost var ts := KeyTpls(p, p.orderBy);
    NumberJoin(ts, Comma, |args| + 1);
    if |keys| == 0 {
      c, args' := BuildDefaultOrder(p, args);
    } else {
      LeadNumbers(OrderBy, Join(ts, [Lit(Comma)]), |args| + 1);
      c := [Text(OrderBy)] + Join(keys, [Text(Comma)]);
    }
  }

  method BuildKeys(p: Search, args: seq<Value>) returns (clauses: seq<Clause>, args': seq<Value>)
    ensures clauses == NumberAll(KeyTpls(p, p.orderBy), |args| + 1)
    ensures args' == args + ValuesAll(KeyTpls(p, p.orderBy))
  {
    clauses, args' := [], args;
    ghost var done: seq<Template> := [];
    for i := 0 to |p.orderBy|
      invariant done + KeyTpls(p, p.orderBy[i..]) == KeyTpls(p, p.orderBy)
      invariant clauses == NumberAll(done, |args| + 1) && args' == args + ValuesAll(done)
    {
      var key := p.orderBy[i];
      KeysStep(p, done, i);
      var piece, more := BuildKey(p, key, i == |p.orderBy| - 1, |args'| + 1);
      clauses, args' := AppendKey(piece, more, args, clauses, args', done, TiedKeyTpl(p, key, i == |p.orderBy| - 1));
      done := done + Kept(TiedKeyTpl(p, key, i == |p.orderBy| - 1));
    }
    assert done == KeyTpls(p, p.orderBy);
  }

  lemma KeysStep(p: Search, done: seq<Template>, i: nat)
    requires i < |p.orderBy|
    ensures done + Kept(TiedKeyTpl(p, p.orderBy[i], i == |p.orderBy| - 1)) + KeyTpls(p, p.orderBy[i + 1..])
         == done + KeyTpls(p, p.orderBy[i..])
  {
    assert p.orderBy[i..][0] == p.orderBy[i] && p.orderBy[i..][1..] == p.orderBy[i + 1..];
  }

  /** Appends one sort key, unless it is empty. */
  method AppendKey(piece: Clause, more: seq<Value>, args: seq<Value>, clauses: seq<Clause>, argsNow: seq<Value>,
      ghost done: seq<Template>, ghost t: Template)
    returns (clauses': seq<Clause>, args': seq<Value>)
    requires clauses == NumberAll(done, |args| + 1) && argsNow == args + ValuesAll(done)
    requires piece == Number(t, |argsNow| + 1) && more == Values(t) && (piece == [] <==> t == [])
    ensures clauses' == NumberAll(done + Kept(t), |args| + 1) && args' == args + ValuesAll(done + Kept(t))
  {
    clauses', args' := clauses, argsNow;
    if piece != [] {
      AddTemplateFrom(done, t, |args| + 1);
      clauses', args' := clauses + [piece], argsNow + more;
    } else {
      assert done + Kept(t) == done;
    }
  }

  method BuildKey(p: Search, key: SortKey, last: bool, n: nat) returns (c: Clause, more: seq<Value>)
    ensures c == Number(TiedKeyTpl(p, key, last), n) && more == Values(TiedKeyTpl(p, key, last))
    ensures c == [] <==> TiedKeyTpl(p, key, last) == []
  {
    c, more := BareKey(p, key, n);
    if c != [] && last {
      TieBreakNumbers(KeyTpl(p, key), key.desc, n);
      c := c + [Text(TieBreak(key.desc))];
    } else {
      assert KeyTpl(p, key) + [] == KeyTpl(p, key);
    }
  }

  method BareKey(p: Search, key: SortKey, n: nat) returns (c: Clause, more: seq<Value>)
    ensures c == Number(KeyTpl(p, key), n) && more == Values(KeyTpl(p, key))
    ensures c == [] <==> KeyTpl(p, key) == []
  {
    match key.field
    case Relevance =>
      if p.hasQuery {
        SingleNumbers(RankOf, Str(p.tsquery), RankDir(key.desc), n);
        c, more := [Text(RankOf), Param(n), Text(RankDir(key.desc))], [Str(p.tsquery)];
      } else {
        TextNumbers(By(CreatedAt, key.desc), n);
        c, more := [Text(By(CreatedAt, key.desc))], [];
      }
    case Unknown =>
      c, more := [], [];
    case field =>
      TextNumbers(By(SortColumn(field), key.desc), n);
      c, more := [Text(By(SortColumn(field), key.desc))], [];
  }

  lemma LeadNumbers(s: Sql, rest: Template, n: nat)
    ensures Number([Lit(s)] + rest, n) == [Text(s)] + Number(rest, n) && Values([Lit(s)] + rest) == Values(rest)
  {
    TextNumbers(s, n);
    NumberConcat([Lit(s)], rest, n);
  }

  method BuildDefaultOrder(p: Search, args: seq<Value>) returns (c: Clause, args': seq<Value>)
    ensures var t := [Lit(OrderBy)] + (DefaultOrder(p) + [Lit(TieBreak(true))]);
            c == Number(t, |args| + 1) && args' == args + Values(t)
  {
    var n := |args| + 1;
    TieBreakNumbers(DefaultOrder(p), true, n);
    LeadNumbers(OrderBy, DefaultOrder(p) + [Lit(TieBreak(true))], n);
    if p.hasQuery {
      SingleNumbers(RankOf, Str(p.tsquery), RankDir(true), n);
      c := [Text(OrderBy), Text(RankOf), Param(n), Text(RankDir(true)), Text(TieBreak(true))];
      args' := args + [Str(p.tsquery)];
    } else {
      TextNumbers(By(CreatedAt, true), n);
      c := [Text(OrderBy), Text(By(CreatedAt, true)), Text(TieBreak(true))];
      args' := args;
    }
  }

  lemma TieBreakNumbers(t: Template, desc: bool, n: nat)
    ensures Number(t + [Lit(TieBreak(desc))], n) == Number(t, n) + [Text(TieBreak(desc))]
    ensures Values(t + [Lit(TieBreak(desc))]) == Values(t)
  {
    TextNumbers(TieBreak(desc), n + |Values(t)|);
    NumberConcat(t, [Lit(TieBreak(desc))], n);
  }

  lemma WhereNumbers(ts: seq<Template>)
    ensures Number(WhereTpl(ts), 1) == WhereClause(NumberAll(ts, 1)) && Values(WhereTpl(ts)) == ValuesAll(ts)
  {
    NumberAllLength(ts, 1);
    if ts != [] {
      NumberJoin(ts, And, 1);
      LeadNumbers(Where, Join(ts, [Lit(And)]), 1);
    }
  }

  /** A query that is a numbered template, with that template's values, means the template. */
  lemma NumberedMeans(t: Template)
    ensures Means(Number(t, 1), Values(t), t)
  {
    assert Values(t)[0..][..|Values(t)|] == Values(t);
    NumberMeans(t, Values(t), 1);
  }

  /** In each of the three queries every placeholder stands for the value it is meant to. */
  method BuildQueries(p: Search, where: seq<Clause>, args: seq<Value>) returns (q: Queries)
    requires where == NumberAll(Filters(p), 1) && args == ValuesAll(Filters(p))
    ensures Means(q.query, q.args, PageTpl(p))
    ensures Means(q.countQuery, q.countArgs, WhereTpl(Filters(p)))
    ensures Means(q.hasNextQuery, q.hasNextArgs, HasNextTpl(p, AddInt32(ClampInt32(p.offset), PageLimit(p))))
  {
    var limit, offset := PageLimit(p), ClampInt32(p.offset);
    WhereNumbers(Filters(p));
    var order, args2 := BuildOrderBy(p, args);
    var argIdx := |args2| + 1;
    var query := WhereClause(where) + order + [Text(Limit), Param(argIdx), Text(Offset), Param(argIdx + 1)];
    var allArgs := args2 + [Num(limit), Num(offset)];
    var hasNext := WhereClause(where) + order + [Text(Offset), Param(argIdx)];
    var hasNextArgs := allArgs[..|allArgs| - 2] + [Num(AddInt32(offset, limit))];
    assert allArgs[..|allArgs| - 2] == args2;
    assert allArgs[..|args|] == args by {
      assert args2[..|args|] == args;
    }
    PageTailNumbers(limit, offset, argIdx);
    QueryMeans(Filters(p), OrderTpl(p), PageTail(limit, offset), argIdx);
    TailNumbers(Offset, Num(AddInt32(offset, limit)), argIdx);
    QueryMeans(Filters(p), OrderTpl(p), [Lit(Offset), Val(Num(AddInt32(offset, limit)))], argIdx);
    NumberedMeans(WhereTpl(Filters(p)));
    q := Queries(query, allArgs, WhereClause(where), allArgs[..|args|], hasNext, hasNextArgs);
  }

  /** A query ends in placeholders that follow those of its filters and its order. */
  lemma QueryMeans(ts: seq<Template>, order: Template, tail: Template, n: nat)
    requires n == |ValuesAll(ts) + Values(order)| + 1
    ensures Means(WhereClause(NumberAll(ts, 1)) + Number(order, |ValuesAll(ts)| + 1) + Number(tail, n),
                  ValuesAll(ts) + Values(order) + Values(tail),
                  WhereTpl(ts) + order + tail)
  {
    WhereNumbers(ts);
    NumberThree(WhereTpl(ts), order, tail);
    NumberedMeans(WhereTpl(ts) + order + tail);
  }

  lemma NumberThree(a: Template, b: Template, c: Template)
    ensures var n := |Values(a) + Values(b)| + 1;
            Number(a + b + c, 1) == Number(a, 1) + Number(b, |Values(a)| + 1) + Number(c, n)
    ensures Values(a + b + c) == Values(a) + Values(b) + Values(c)
  {
    NumberConcat(a + b, c, 1);
    NumberConcat(a, b, 1);
  }

  lemma TailNumbers(s: Sql, v: Value, n: nat)
    ensures Number([Lit(s), Val(v)], n) == [Text(s), Param(n)] && Values([Lit(s), Val(v)]) == [v]
  {
    var t: Template := [Val(v)];
    assert t[1..] == [] && Number(t, n) == [Param(n)] && Values(t) == [v];
    LeadNumbers(s, [Val(v)], n);
    assert [Lit(s)] + [Val(v)] == [Lit(s), Val(v)];
  }

  lemma PageTailNumbers(limit: int, offset: int, n: nat)
    ensures var t := PageTail(limit, offset);
            && Number(t, n) == [Text(Limit), Param(n), Text(Offset), Param(n + 1)]
            && Values(t) == [Num(limit), Num(offset)]
  {
    var a, b := [Lit(Limit), Val(Num(limit))], [Lit(Offset), Val(Num(offset))];
    TailNumbers(Limit, Num(limit), n);
    TailNumbers(Offset, Num(offset), n + 1);
    NumberConcat(a, b, n);
    assert a + b == PageTail(limit, offset);
  }

  /** The has-next query skips exactly one page beyond the offset unless the 32-bit sum wraps
      around; then it asks for a negative offset. */
  lemma HasNextSkipsOnePageExactly(p: Search)
    ensures AddInt32(ClampInt32(p.offset), PageLimit(p)) == ClampInt32(p.offset) + PageLimit(p) <==>
              ClampInt32(p.offset) + PageLimit(p) <= MAX_INT32
    ensures ClampInt32(p.offset) + PageLimit(p) > MAX_INT32 ==>
              AddInt32(ClampInt32(p.offset), PageLimit(p)) < 0
  {
  }

  /** A whole search: the page, count and has-next queries and the facet clauses. The queries find
      the rows that the search wants, in the order it wants them, and skip and limit them as asked;
      the facets are over the rows of the same search without its content types. */
  method PrepareSearch(p: Search) returns (q: Queries, facetWhere: Clause, facetArgs: seq<Value>)
    ensures var limit := if p.limit == 0 then 10 else if p.limit > MAX_INT32 then MAX_INT32 else p.limit;
            var offset := if p.offset > MAX_INT32 then MAX_INT32 else p.offset;
            && Asks(q.query, q.args, p, true, Some(limit), Some(offset))
            && Asks(q.countQuery, q.countArgs, p, false, None, None)
            && Asks(q.hasNextQuery, q.hasNextArgs, p, true, None, Some(AddInt32(offset, limit)))
            && Asks(facetWhere, facetArgs, p.(contentTypes := []), false, None, None)
  {
    var b := new Builder();
    var k, start := b.Build(p);
    q := BuildQueries(p, b.where, b.args);
    QueriesAsk(q, p);
    facetWhere, facetArgs := PrepareFacets(p, b.where, b.args, k, start);
  }

  lemma QueriesAsk(q: Queries, p: Search)
    requires Means(q.query, q.args, PageTpl(p))
    requires Means(q.countQuery, q.countArgs, WhereTpl(Filters(p)))
    requires Means(q.hasNextQuery, q.hasNextArgs, HasNextTpl(p, AddInt32(ClampInt32(p.offset), PageLimit(p))))
    ensures var limit := if p.limit == 0 then 10 else if p.limit > MAX_INT32 then MAX_INT32 else p.limit;
            var offset := if p.offset > MAX_INT32 then MAX_INT32 else p.offset;
            && Asks(q.query, q.args, p, true, Some(limit), Some(offset))
            && Asks(q.countQuery, q.countArgs, p, false, None, None)
            && Asks(q.hasNextQuery, q.hasNextArgs, p, true, None, Some(AddInt32(offset, limit)))
  {
    PageAsks(q.query, q.args, p);
    CountAsks(q.countQuery, q.countArgs, p);
    HasNextAsks(q.hasNextQuery, q.hasNextArgs, p, AddInt32(ClampInt32(p.offset), PageLimit(p)));
  }

  method PrepareFacets(p: Search, where: seq<Clause>, args: seq<Value>, k: nat, start: int)
    returns (facetWhere: Clause, facetArgs: seq<Value>)
    requires where == NumberAll(Filters(p), 1) && args == ValuesAll(Filters(p))
    requires p.contentTypes != [] ==> k == |BeforeTypes(p)| && start == |ValuesAll(BeforeTypes(p))| + 1
    ensures Means(facetWhere, facetArgs, WhereTpl(Filters(p.(contentTypes := []))))
    ensures Asks(facetWhere, facetArgs, p.(contentTypes := []), false, None, None)
  {
    FiltersAround(p);
    TypesValues(p);
    var clauses: seq<Clause>;
    clauses, facetArgs := FacetWhere(|p.contentTypes|, where, args, k, start, BeforeTypes(p), TypesTpl(p),
      AfterTypes(p));
    WhereNumbers(Filters(p.(contentTypes := [])));
    NumberedMeans(WhereTpl(Filters(p.(contentTypes := []))));
    facetWhere := WhereClause(clauses);
    CountAsks(facetWhere, facetArgs, p.(contentTypes := []));
  }
}
