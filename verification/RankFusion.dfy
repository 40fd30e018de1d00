/**
 Merging a keyword ranking and a vector ranking into one by reciprocal rank fusion, with content
 type counts, a filter and one page of the result.

 Scores are real numbers.
 */
module RankFusion {
  import opened Library
  import opened Wrappers

  /** A hit; its content type is empty when its document has none or cannot be read. */
  datatype Hit = Hit(id: string, contentType: string)

  datatype Entry = Entry(hit: Hit, score: real)

  datatype Merged = Merged(hits: seq<Hit>, total: nat, counts: map<string, nat>)

  const BM25_OFFSET: nat := 30
  const KNN_OFFSET: nat := 60

  /** The part of a ranking that is merged. */
  function Window(hits: seq<Hit>, size: int): seq<Hit> {
    if size <= 0 then [] else if |hits| <= size then hits else hits[..size]
  }

  /** What rank i (from zero) is worth. */
  function Worth(i: nat, offset: nat): real { 3.0 / (i + 1 + offset) as real }

  /** The sum over the ranks that a document has in a ranking. */
  function RankSum(hits: seq<Hit>, id: string, offset: nat): real {
    if hits == [] then 0.0
    else RankSum(hits[..|hits| - 1], id, offset) + if hits[|hits| - 1].id == id then Worth(|hits| - 1, offset) else 0.0
  }

  function Score(a: seq<Hit>, b: seq<Hit>, id: string): real {
    RankSum(a, id, BM25_OFFSET) + RankSum(b, id, KNN_OFFSET)
  }

  function Ids(hits: seq<Hit>): set<string> { set h | h in hits :: h.id }

  /** The first hit of a document. */
  function FirstHit(hits: seq<Hit>, id: string): (r: Option<Hit>)
    ensures r.Some? <==> id in Ids(hits)
    ensures r.Some? ==> r.value in hits && r.value.id == id
  {
    if hits == [] then None
    else if FirstHit(hits[..|hits| - 1], id).Some? then FirstHit(hits[..|hits| - 1], id)
    else if hits[|hits| - 1].id == id then Some(hits[|hits| - 1])
    else None
  }

  /** A score is positive exactly for the documents in the window of one of the rankings. */
  lemma {:induction false} RankSumPositive(hits: seq<Hit>, id: string, offset: nat)
    ensures RankSum(hits, id, offset) >= 0.0
    ensures RankSum(hits, id, offset) > 0.0 <==> id in Ids(hits)
  {
    if hits != [] {
      RankSumPositive(hits[..|hits| - 1], id, offset);
      assert hits == hits[..|hits| - 1] + [hits[|hits| - 1]];
      assert Ids(hits) == Ids(hits[..|hits| - 1]) + {hits[|hits| - 1].id};
    }
  }

  // ---------- the tables ----------

  /** The tables hold the scores and the first hits of the documents seen so far. */
  ghost predicate Tables(scores: map<string, real>, best: map<string, Hit>, a: seq<Hit>, b: seq<Hit>) {
    ScoreTable(scores, a, b) && BestTable(best, a + b)
  }

  ghost predicate ScoreTable(scores: map<string, real>, a: seq<Hit>, b: seq<Hit>) {
    scores.Keys == Ids(a + b) && forall id :: id in scores ==> scores[id] == Score(a, b, id)
  }

  ghost predicate BestTable(best: map<string, Hit>, hits: seq<Hit>) {
    best.Keys == Ids(hits) && forall id :: id in best ==> FirstHit(hits, id) == Some(best[id])
  }

  lemma AppendHit(hits: seq<Hit>, h: Hit, id: string, offset: nat)
    ensures Ids(hits + [h]) == Ids(hits) + {h.id}
    ensures RankSum(hits + [h], id, offset) ==
            RankSum(hits, id, offset) + if h.id == id then Worth(|hits|, offset) else 0.0
    ensures FirstHit(hits + [h], id) == if FirstHit(hits, id).Some? then FirstHit(hits, id)
            else if h.id == id then Some(h) else None
  {
    assert (hits + [h])[..|hits|] == hits;
  }

  lemma UnseenScore(a: seq<Hit>, b: seq<Hit>, id: string)
    requires id !in Ids(a + b)
    ensures Score(a, b, id) == 0.0
  {
    RankSumPositive(a, id, BM25_OFFSET);
    RankSumPositive(b, id, KNN_OFFSET);
    assert forall h :: h in a || h in b ==> h in a + b;
  }

  /** One more hit, of either ranking. */
  ghost predicate Extends(a: seq<Hit>, b: seq<Hit>, h: Hit, a': seq<Hit>, b': seq<Hit>, worth: real) {
    || (a' == a + [h] && b == b' == [] && worth == Worth(|a|, BM25_OFFSET))
    || (a' == a && b' == b + [h] && worth == Worth(|b|, KNN_OFFSET))
  }

  lemma ExtendsIds(a: seq<Hit>, b: seq<Hit>, h: Hit, a': seq<Hit>, b': seq<Hit>, worth: real)
    requires Extends(a, b, h, a', b', worth)
    ensures Ids(a' + b') == Ids(a + b) + {h.id}
  {
    assert a' + b' == (a + b) + [h];
    AppendHit(a + b, h, h.id, 0);
  }

  lemma ExtendsScore(a: seq<Hit>, b: seq<Hit>, h: Hit, a': seq<Hit>, b': seq<Hit>, worth: real, id: string)
    requires Extends(a, b, h, a', b', worth)
    ensures Score(a', b', id) == Score(a, b, id) + if id == h.id then worth else 0.0
  {
    if a' == a + [h] && b == b' == [] && worth == Worth(|a|, BM25_OFFSET) {
      AppendHit(a, h, id, BM25_OFFSET);
    } else {
      AppendHit(b, h, id, KNN_OFFSET);
    }
  }

  function Raised(scores: map<string, real>, id: string, worth: real): map<string, real> {
    scores[id := (if id in scores then scores[id] else 0.0) + worth]
  }

  lemma ScoreStep(scores: map<string, real>, a: seq<Hit>, b: seq<Hit>, h: Hit, a': seq<Hit>, b': seq<Hit>, worth: real)
    requires ScoreTable(scores, a, b) && Extends(a, b, h, a', b', worth)
    ensures ScoreTable(Raised(scores, h.id, worth), a', b')
  {
    var scores' := Raised(scores, h.id, worth);
    ExtendsIds(a, b, h, a', b', worth);
    assert scores'.Keys == scores.Keys + {h.id};
    forall id | id in scores' ensures scores'[id] == Score(a', b', id) {
      ExtendsScore(a, b, h, a', b', worth, id);
      if id !in scores {
        UnseenScore(a, b, id);
      }
    }
  }

  lemma BestStep(best: map<string, Hit>, hits: seq<Hit>, h: Hit)
    requires BestTable(best, hits)
    ensures BestTable(if h.id in best then best else best[h.id := h], hits + [h])
  {
    var best' := if h.id in best then best else best[h.id := h];
    AppendHit(hits, h, h.id, 0);
    assert best'.Keys == best.Keys + {h.id};
    forall id | id in best' ensures FirstHit(hits + [h], id) == Some(best'[id]) {
      AppendHit(hits, h, id, 0);
      if id !in best {
        assert FirstHit(hits, id).None?;
      }
    }
  }

  lemma TablesStep(scores: map<string, real>, best: map<string, Hit>, a: seq<Hit>, b: seq<Hit>, h: Hit,
      a': seq<Hit>, b': seq<Hit>, worth: real)
    requires Tables(scores, best, a, b) && Extends(a, b, h, a', b', worth)
    ensures Tables(Raised(scores, h.id, worth), if h.id in best then best else best[h.id := h], a', b')
  {
    ScoreStep(scores, a, b, h, a', b', worth);
    BestStep(best, a + b, h);
    assert a' + b' == (a + b) + [h];
  }

  // ---------- order, filter and page ----------

  function DocumentOf(e: Entry): string { e.hit.id }

  function ByScore(): (Entry, Entry) -> bool { (x: Entry, y: Entry) => x.score > y.score }

  predicate Passes(h: Hit, filter: seq<string>) { filter == [] || h.contentType in filter }

  function Kept(entries: seq<Entry>, filter: seq<string>): (r: seq<Entry>)
    ensures forall e :: e in r <==> e in entries && Passes(e.hit, filter)
  {
    if entries == [] then []
    else
      var last := entries[|entries| - 1];
      assert entries == entries[..|entries| - 1] + [last];
      Kept(entries[..|entries| - 1], filter) + if Passes(last.hit, filter) then [last] else []
  }

  /** Documents are listed once, in an order in which no later one has a higher score. */
  predicate Ranked(entries: seq<Entry>) {
    && (forall i, j :: 0 <= i < j < |entries| ==> entries[i].hit.id != entries[j].hit.id)
    && (forall i, j :: 0 <= i < j < |entries| ==> entries[i].score >= entries[j].score)
  }

  /** Everything in the first list stands before `last`. */
  ghost predicate Before(xs: seq<Entry>, last: Entry) {
    forall e :: e in xs ==> e.hit.id != last.hit.id && e.score >= last.score
  }

  lemma RankedAppend(xs: seq<Entry>, last: Entry)
    requires Ranked(xs) && Before(xs, last)
    ensures Ranked(xs + [last])
  {
    assert forall i :: 0 <= i < |xs| ==> xs[i] in xs;
  }

  lemma {:induction false} KeptRanked(entries: seq<Entry>, filter: seq<string>)
    requires Ranked(entries)
    ensures Ranked(Kept(entries, filter))
  {
    if entries != [] {
      var front, last := entries[..|entries| - 1], entries[|entries| - 1];
      KeptRanked(front, filter);
      forall e | e in front ensures e.hit.id != last.hit.id && e.score >= last.score {
        var k :| 0 <= k < |front| && front[k] == e;
        assert entries[k] == e;
      }
      RankedAppend(Kept(front, filter), last);
      assert Kept(front, filter) + [] == Kept(front, filter);
    }
  }

  /** A slice of a list, cut off at its end. */
  function Page(xs: seq<Entry>, offset: nat, limit: nat): seq<Entry> {
    if offset >= |xs| then [] else if offset + limit > |xs| then xs[offset..] else xs[offset..offset + limit]
  }

  /** The entries of the documents, each with its first hit and its score. */
  ghost predicate EntriesOf(entries: seq<Entry>, a: seq<Hit>, b: seq<Hit>) {
    && (forall e :: e in entries ==> FirstHit(a + b, e.hit.id) == Some(e.hit) && e.score == Score(a, b, e.hit.id))
    && (forall id :: id in Ids(a + b) ==> exists e :: e in entries && e.hit.id == id)
  }

  /** Every document with its first hit. */
  function BestOf(hits: seq<Hit>): map<string, Hit> { map id | id in Ids(hits) :: FirstHit(hits, id).value }

  /** The documents with a given content type, by their first hits. */
  function OfType(best: map<string, Hit>, ids: set<string>, ct: string): set<string> {
    set id | id in ids && id in best && best[id].contentType == ct
  }

  ghost predicate Counts(counts: map<string, nat>, best: map<string, Hit>, ids: set<string>) {
    && "" !in counts
    && forall ct :: ct != "" ==> (if ct in counts then counts[ct] else 0) == |OfType(best, ids, ct)|
  }

  lemma CountsStep(counts: map<string, nat>, best: map<string, Hit>, ids: set<string>, k: string)
    requires Counts(counts, best, ids) && k in best && k !in ids
    ensures var ct := best[k].contentType;
            Counts(if ct == "" then counts else counts[ct := (if ct in counts then counts[ct] else 0) + 1],
                   best, ids + {k})
  {
    var ct := best[k].contentType;
    forall c | c != "" ensures |OfType(best, ids + {k}, c)| == |OfType(best, ids, c)| + if c == ct then 1 else 0 {
      OneMoreOfType(best, ids, k, c);
    }
  }

  lemma OneMoreOfType(best: map<string, Hit>, ids: set<string>, k: string, c: string)
    requires k in best && k !in ids
    ensures |OfType(best, ids + {k}, c)| == |OfType(best, ids, c)| + if c == best[k].contentType then 1 else 0
  {
    if c == best[k].contentType {
      assert OfType(best, ids + {k}, c) == OfType(best, ids, c) + {k};
    } else {
      assert OfType(best, ids + {k}, c) == OfType(best, ids, c);
    }
  }

  // ---------- the merge ----------

  lemma NextHit(hits: seq<Hit>, i: nat, offset: nat, x: seq<Hit>, y: seq<Hit>, first: bool)
    requires i < |hits| && (if first then x else y) == hits[..i] && (first ==> y == [])
    requires offset == if first then BM25_OFFSET else KNN_OFFSET
    ensures Extends(x, y, hits[i], if first then hits[..i + 1] else x, if first then [] else hits[..i + 1],
                    Worth(i, offset))
  {
    assert hits[..i + 1] == hits[..i] + [hits[i]];
  }

  method MergeRanking(hits: seq<Hit>, windowSize: int, offset: nat, scores: map<string, real>, best: map<string, Hit>,
      ghost a: seq<Hit>, ghost first: bool)
    returns (scores': map<string, real>, best': map<string, Hit>)
    requires Tables(scores, best, a, [])
    requires if first then a == [] && offset == BM25_OFFSET else offset == KNN_OFFSET
    ensures if first then Tables(scores', best', Window(hits, windowSize), [])
            else Tables(scores', best', a, Window(hits, windowSize))
  {
    scores', best' := scores, best;
    var i := 0;
    ghost var x: seq<Hit>, y: seq<Hit> := a, [];
    while i < |hits|
      invariant 0 <= i <= |hits| && (i == 0 || i <= windowSize)
      invariant Tables(scores', best', x, y) && (if first then x else y) == hits[..i]
                && (if first then y == [] else x == a)
    {
      if i >= windowSize {
        break;
      }
      var hit := hits[i];
      var worth := Worth(i, offset);
      ghost var x', y' := if first then hits[..i + 1] else x, if first then [] else hits[..i + 1];
      NextHit(hits, i, offset, x, y, first);
      TablesStep(scores', best', x, y, hit, x', y', worth);
      x, y := x', y';
      scores' := Raised(scores', hit.id, worth);
      if hit.id !in best' {
        best' := best'[hit.id := hit];
      }
      i := i + 1;
    }
    assert hits[..i] == Window(hits, windowSize);
  }

  method CountTypes(best: map<string, Hit>) returns (counts: map<string, nat>)
    ensures Counts(counts, best, best.Keys)
  {
    counts := map[];
    var ks := RangeKeys(best.Keys);
    ghost var done: set<string> := {};
    assert forall ct :: OfType(best, {}, ct) == {};
    for i := 0 to |ks|
      invariant Counts(counts, best, done) && forall k :: k in done <==> k in ks[..i]
    {
      assert ks[..i + 1] == ks[..i] + [ks[i]];
      assert ks[i] !in ks[..i];
      CountsStep(counts, best, done, ks[i]);
      var ct := best[ks[i]].contentType;
      if ct != "" {
        var n := if ct in counts then counts[ct] else 0;
        counts := counts[ct := n + 1];
      }
      done := done + {ks[i]};
    }
    assert done == best.Keys by {
      assert ks[..|ks|] == ks;
    }
  }

  method RankEntries(scores: map<string, real>, best: map<string, Hit>, ghost a: seq<Hit>, ghost b: seq<Hit>)
    returns (entries: seq<Entry>)
    requires Tables(scores, best, a, b)
    ensures Ranked(entries) && EntriesOf(entries, a, b)
  {
    var ks := RangeKeys(scores.Keys);
    var found: seq<Entry> := [];
    for i := 0 to |ks|
      invariant |found| == i && forall j :: 0 <= j < i ==> found[j] == Entry(best[ks[j]], scores[ks[j]])
    {
      found := found + [Entry(best[ks[i]], scores[ks[i]])];
    }
    entries := Sort(found, ByScore());
    SortedIsRanked(ks, found, scores, best, a, b);
  }

  lemma SortedIsRanked(ks: seq<string>, found: seq<Entry>, scores: map<string, real>, best: map<string, Hit>,
                       a: seq<Hit>, b: seq<Hit>)
    requires Tables(scores, best, a, b) && Distinct(ks) && (forall k :: k in ks <==> k in scores) && |found| == |ks|
    requires forall j :: 0 <= j < |ks| ==> ks[j] in scores && found[j] == Entry(best[ks[j]], scores[ks[j]])
    ensures Ranked(Sort(found, ByScore())) && EntriesOf(Sort(found, ByScore()), a, b)
  {
    var entries := Sort(found, ByScore());
    assert IsWeakOrder(ByScore());
    SortSortsWeakly(found, ByScore());
    SameElements(found, entries);
    PermutedKeys(found, entries, DocumentOf);
    forall i, j | 0 <= i < j < |entries| ensures entries[i].score >= entries[j].score {
      assert !ByScore()(entries[j], entries[i]);
    }
    FoundEntries(ks, found, scores, best, a, b);
  }

  lemma FoundEntries(ks: seq<string>, found: seq<Entry>, scores: map<string, real>, best: map<string, Hit>,
                     a: seq<Hit>, b: seq<Hit>)
    requires Tables(scores, best, a, b) && (forall k :: k in ks <==> k in scores) && |found| == |ks|
    requires forall j :: 0 <= j < |ks| ==> ks[j] in scores && found[j] == Entry(best[ks[j]], scores[ks[j]])
    ensures EntriesOf(found, a, b)
  {
    forall e | e in found ensures FirstHit(a + b, e.hit.id) == Some(e.hit) && e.score == Score(a, b, e.hit.id) {
      var j :| 0 <= j < |found| && found[j] == e;
      assert FirstHit(a + b, ks[j]) == Some(best[ks[j]]);
    }
    forall id | id in Ids(a + b) ensures exists e :: e in found && e.hit.id == id {
      var j :| 0 <= j < |ks| && ks[j] == id;
      assert FirstHit(a + b, ks[j]) == Some(best[ks[j]]) && found[j] in found;
    }
  }

  method FilterEntries(entries: seq<Entry>, filter: seq<string>) returns (kept: seq<Entry>)
    ensures kept == Kept(entries, filter)
  {
    kept := [];
    for i := 0 to |entries|
      invariant kept == Kept(entries[..i], filter)
    {
      assert entries[..i + 1][..i] == entries[..i];
      if Passes(entries[i].hit, filter) {
        kept := kept + [entries[i]];
      }
    }
    assert entries[..|entries|] == entries;
  }

  // ---------- what the merge means ----------

  ghost predicate NoRepeats(hits: seq<Hit>) { forall i, j :: 0 <= i < j < |hits| ==> hits[i].id != hits[j].id }

  /** A hit before which none has the same document. */
  ghost predicate IsFirst(hits: seq<Hit>, h: Hit) {
    exists k :: 0 <= k < |hits| && hits[k] == h && forall m :: 0 <= m < k ==> hits[m].id != h.id
  }

  lemma {:induction false} FirstAt(hits: seq<Hit>, id: string) returns (k: nat)
    requires id in Ids(hits)
    ensures k < |hits| && FirstHit(hits, id) == Some(hits[k]) && hits[k].id == id
    ensures forall m :: 0 <= m < k ==> hits[m].id != id
  {
    var n := |hits| - 1;
    if id in Ids(hits[..n]) {
      k := FirstAt(hits[..n], id);
    } else {
      k := n;
      assert hits == hits[..n] + [hits[n]];
      forall m | 0 <= m < n ensures hits[m].id != id {
        assert hits[..n][m] in hits[..n];
      }
    }
  }

  lemma FirstHitIsFirst(hits: seq<Hit>, h: Hit)
    ensures FirstHit(hits, h.id) == Some(h) <==> IsFirst(hits, h)
  {
    if h.id in Ids(hits) {
      var k := FirstAt(hits, h.id);
      if IsFirst(hits, h) {
        var i :| 0 <= i < |hits| && hits[i] == h && forall m :: 0 <= m < i ==> hits[m].id != h.id;
        assert i == k;
      }
    }
  }

  /** In a ranking without repetitions a document is worth what its one rank is. */
  lemma {:induction false} RankSumAt(hits: seq<Hit>, i: nat, offset: nat)
    requires NoRepeats(hits) && i < |hits|
    ensures RankSum(hits, hits[i].id, offset) == 3.0 / (i + 1 + offset) as real
  {
    var n := |hits| - 1;
    if i == n {
      RankSumPositive(hits[..n], hits[n].id, offset);
      forall h | h in hits[..n] ensures h.id != hits[n].id {
        var m :| 0 <= m < n && hits[..n][m] == h;
        assert hits[m] == h;
      }
    } else {
      RankSumAt(hits[..n], i, offset);
    }
  }

  lemma RankSumAbsent(hits: seq<Hit>, id: string, offset: nat)
    requires id !in Ids(hits)
    ensures RankSum(hits, id, offset) == 0.0
  {
    RankSumPositive(hits, id, offset);
  }

  /** The score of a document: 3 / (i + 31) for rank i, from zero, of the keyword ranking, and
      3 / (j + 61) for rank j of the vector ranking. */
  ghost predicate Scored(a: seq<Hit>, b: seq<Hit>, id: string, score: real) {
    && (forall i, j :: 0 <= i < |a| && 0 <= j < |b| && a[i].id == id && b[j].id == id ==>
          score == 3.0 / (i + 31) as real + 3.0 / (j + 61) as real)
    && (forall i :: 0 <= i < |a| && a[i].id == id && id !in Ids(b) ==> score == 3.0 / (i + 31) as real)
    && (forall j :: 0 <= j < |b| && b[j].id == id && id !in Ids(a) ==> score == 3.0 / (j + 61) as real)
  }

  lemma ScoreIs(a: seq<Hit>, b: seq<Hit>, id: string)
    requires NoRepeats(a) && NoRepeats(b)
    ensures Scored(a, b, id, Score(a, b, id))
  {
    forall i | 0 <= i < |a| && a[i].id == id ensures RankSum(a, id, BM25_OFFSET) == 3.0 / (i + 31) as real {
      RankSumAt(a, i, BM25_OFFSET);
    }
    forall j | 0 <= j < |b| && b[j].id == id ensures RankSum(b, id, KNN_OFFSET) == 3.0 / (j + 61) as real {
      RankSumAt(b, j, KNN_OFFSET);
    }
    if id !in Ids(a) {
      RankSumAbsent(a, id, BM25_OFFSET);
    }
    if id !in Ids(b) {
      RankSumAbsent(b, id, KNN_OFFSET);
    }
  }

  /** Wherever `y` is ranked, `x` is ranked before it. */
  ghost predicate Ahead(hits: seq<Hit>, x: string, y: string) {
    forall j :: 0 <= j < |hits| && hits[j].id == y ==> exists i :: 0 <= i < j && hits[i].id == x
  }

  lemma AheadSum(hits: seq<Hit>, x: string, y: string, offset: nat)
    requires NoRepeats(hits) && Ahead(hits, x, y)
    ensures RankSum(hits, x, offset) >= RankSum(hits, y, offset)
    ensures y in Ids(hits) ==> RankSum(hits, x, offset) > RankSum(hits, y, offset)
  {
    RankSumPositive(hits, x, offset);
    if h :| h in hits && h.id == y {
      var j :| 0 <= j < |hits| && hits[j] == h;
      var i :| 0 <= i < j && hits[i].id == x;
      RankSumAt(hits, i, offset);
      RankSumAt(hits, j, offset);
      LaterIsLess(i + 1 + offset, j + 1 + offset);
    } else {
      RankSumAbsent(hits, y, offset);
    }
  }

  lemma ProductGrows(x: real, y: real, m: real)
    requires x <= y && m > 0.0
    ensures x * m <= y * m
  {
  }

  lemma QuotientShrinks(x: real, y: real, m: real, d: real)
    requires m > 0.0 && d > 0.0 && y > 0.0 && x * m == y * (m + d)
    ensures x > y
  {
    assert y * (m + d) == y * m + y * d && y * d > 0.0;
    if x <= y {
      ProductGrows(x, y, m);
    }
  }

  lemma LaterIsLess(m: nat, n: nat)
    requires 0 < m < n
    ensures 3.0 / m as real > 3.0 / n as real
  {
    var x, y, d := 3.0 / m as real, 3.0 / n as real, (n - m) as real;
    assert x * m as real == 3.0 && y * (m as real + d) == 3.0;
    QuotientShrinks(x, y, m as real, d);
  }

  /** The order of the documents in a merged ranking, by their ranks alone: one that is ranked before
      another wherever that one is ranked comes first; and of two that are in one ranking each, the
      one of the keyword ranking, unless its rank is more than 30 beyond the other's. */
  ghost predicate OrderedByRanks(a: seq<Hit>, b: seq<Hit>, ranked: seq<Entry>) {
    && (forall m, n :: 0 <= m < |ranked| && 0 <= n < |ranked| ==>
          Ahead(a, ranked[m].hit.id, ranked[n].hit.id) && Ahead(b, ranked[m].hit.id, ranked[n].hit.id) ==> m < n)
    && (forall m, n, i, j :: 0 <= m < |ranked| && 0 <= n < |ranked| && i != j + 30 ==>
          OnlyAt(a, b, i, ranked[m].hit.id) && OnlyAt(b, a, j, ranked[n].hit.id) ==> (m < n <==> i < j + 30))
  }

  /** Document `id` is at rank `i` of the one ranking and not in the other. */
  ghost predicate OnlyAt(hits: seq<Hit>, others: seq<Hit>, i: int, id: string) {
    0 <= i < |hits| && hits[i].id == id && id !in Ids(others)
  }

  lemma RankedByRanks(a: seq<Hit>, b: seq<Hit>, ranked: seq<Entry>)
    requires NoRepeats(a) && NoRepeats(b) && Ranked(ranked)
    requires forall e :: e in ranked ==> e.hit.id in Ids(a + b) && e.score == Score(a, b, e.hit.id)
    ensures OrderedByRanks(a, b, ranked)
  {
    forall m, n | 0 <= m < |ranked| && 0 <= n < |ranked|
        && Ahead(a, ranked[m].hit.id, ranked[n].hit.id) && Ahead(b, ranked[m].hit.id, ranked[n].hit.id)
      ensures m < n
    {
      var x, y := ranked[m], ranked[n];
      assert x in ranked && y in ranked;
      AheadSum(a, x.hit.id, y.hit.id, BM25_OFFSET);
      AheadSum(b, x.hit.id, y.hit.id, KNN_OFFSET);
      assert y.hit.id in Ids(a) || y.hit.id in Ids(b);
      assert x.score > y.score;
    }
    forall m, n, i, j | 0 <= m < |ranked| && 0 <= n < |ranked| && OnlyAt(a, b, i, ranked[m].hit.id)
        && OnlyAt(b, a, j, ranked[n].hit.id) && i != j + 30
      ensures m < n <==> i < j + 30
    {
      assert ranked[m] in ranked && ranked[n] in ranked;
      RankSumAt(a, i, BM25_OFFSET);
      RankSumAbsent(b, a[i].id, KNN_OFFSET);
      RankSumAt(b, j, KNN_OFFSET);
      RankSumAbsent(a, b[j].id, BM25_OFFSET);
      if i < j + 30 {
        LaterIsLess(i + 31, j + 61);
      } else {
        LaterIsLess(j + 61, i + 31);
      }
    }
  }

  /** Each type counts the documents whose first hit has it. */
  ghost predicate TypesCounted(counts: map<string, nat>, hits: seq<Hit>) {
    && "" !in counts
    && forall ct :: ct != "" ==>
         (if ct in counts then counts[ct] else 0) ==
           |set h | h in hits && IsFirst(hits, h) && h.contentType == ct :: h.id|
  }

  lemma CountsMean(counts: map<string, nat>, hits: seq<Hit>)
    requires Counts(counts, BestOf(hits), Ids(hits))
    ensures TypesCounted(counts, hits)
  {
    forall ct ensures OfType(BestOf(hits), Ids(hits), ct)
                   == set h | h in hits && IsFirst(hits, h) && h.contentType == ct :: h.id {
      forall id ensures id in OfType(BestOf(hits), Ids(hits), ct) <==>
                        exists h :: h in hits && IsFirst(hits, h) && h.contentType == ct && h.id == id {
        if id in Ids(hits) {
          FirstHitIsFirst(hits, FirstHit(hits, id).value);
        }
        forall h | h in hits && IsFirst(hits, h) && h.id == id ensures FirstHit(hits, id) == Some(h) {
          FirstHitIsFirst(hits, h);
        }
      }
    }
  }

  /** `ranked` is the fused ranking of two windows: every document of them whose first hit has one of
      the types asked for, once, by non-increasing score, and so by rank. */
  ghost predicate Fused(ranked: seq<Entry>, a: seq<Hit>, b: seq<Hit>, filter: seq<string>) {
    && (forall m, n :: 0 <= m < n < |ranked| ==>
          ranked[m].hit.id != ranked[n].hit.id && ranked[m].score >= ranked[n].score)
    && (forall h :: (exists e :: e in ranked && e.hit == h) <==>
          h in a + b && IsFirst(a + b, h) && (filter == [] || h.contentType in filter))
    && (NoRepeats(a) && NoRepeats(b) ==>
          OrderedByRanks(a, b, ranked) && forall e :: e in ranked ==> Scored(a, b, e.hit.id, e.score))
  }

  lemma FusedIs(ranked: seq<Entry>, a: seq<Hit>, b: seq<Hit>, filter: seq<string>)
    requires Ranked(ranked)
    requires forall e :: e in ranked ==>
               FirstHit(a + b, e.hit.id) == Some(e.hit) && e.score == Score(a, b, e.hit.id) && Passes(e.hit, filter)
    requires forall id :: id in Ids(a + b) && Passes(FirstHit(a + b, id).value, filter) ==>
               exists e :: e in ranked && e.hit.id == id
    ensures Fused(ranked, a, b, filter)
  {
    forall h ensures (exists e :: e in ranked && e.hit == h) <==>
                       h in a + b && IsFirst(a + b, h) && (filter == [] || h.contentType in filter) {
      FirstHitIsFirst(a + b, h);
    }
    if NoRepeats(a) && NoRepeats(b) {
      RankedByRanks(a, b, ranked);
      forall e | e in ranked ensures Scored(a, b, e.hit.id, e.score) {
        ScoreIs(a, b, e.hit.id);
      }
    }
  }

  /** A page of a ranking, with its total. */
  predicate IsPage(r: Merged, ranked: seq<Entry>, limit: nat, offset: nat) {
    && r.total == |ranked|
    && |r.hits| == (if |ranked| <= offset then 0 else if |ranked| - offset < limit then |ranked| - offset else limit)
    && forall i :: 0 <= i < |r.hits| ==> r.hits[i] == ranked[offset + i].hit
  }

  /** One page of the fused ranking. */
  method RrfMerge(bm25: seq<Hit>, knn: seq<Hit>, windowSize: int, limit: nat, offset: nat, filter: seq<string>)
    returns (r: Merged)
    ensures var size := if windowSize < 0 then 0 else windowSize;
            var a := if |bm25| <= size then bm25 else bm25[..size];
            var b := if |knn| <= size then knn else knn[..size];
            && TypesCounted(r.counts, a + b)
            && exists ranked :: Fused(ranked, a, b, filter) && IsPage(r, ranked, limit, offset)
  {
    ghost var a, b := Window(bm25, windowSize), Window(knn, windowSize);
    var scores, best := MergeRanking(bm25, windowSize, BM25_OFFSET, map[], map[], [], true);
    scores, best := MergeRanking(knn, windowSize, KNN_OFFSET, scores, best, a, false);
    assert best == BestOf(a + b);
    var counts := CountTypes(best);
    CountsMean(counts, a + b);
    var entries := RankEntries(scores, best, a, b);
    KeptRanked(entries, filter);
    var kept := FilterEntries(entries, filter);
    FusedIs(kept, a, b, filter);
    var hits := PageHits(kept, offset, limit);
    r := Merged(hits, |kept|, counts);
    assert IsPage(r, kept, limit, offset);
  }

  method PageHits(entries: seq<Entry>, offset: nat, limit: nat) returns (hits: seq<Hit>)
    ensures |hits| == |Page(entries, offset, limit)|
    ensures forall i :: 0 <= i < |hits| ==> hits[i] == Page(entries, offset, limit)[i].hit
  {
    hits := [];
    if offset >= |entries| {
      return;
    }
    var end := offset + limit;
    if end > |entries| {
      end := |entries|;
    }
    for i := offset to end
      invariant |hits| == i - offset && forall j :: 0 <= j < |hits| ==> hits[j] == entries[offset + j].hit
    {
      hits := hits + [entries[i].hit];
    }
  }
}
