/**
 The torrent retry queue as a protocol: failures are counted per torrent and stage, due entries
 are listed and dispatched one after the other under a lease, and entries are touched, removed and
 evicted meanwhile. A dispatcher that stops, a mark that is lost and a delete that fails are steps
 like the others.

 An entry carries the history of what happened to it since it was created; the source keeps none.
 When an entry becomes due is left open, so any scan may list any entry.
 */
module RetryProtocol {
  import opened Wrappers

  datatype Stage = Classify | Enrich

  datatype Key = Key(hash: nat, stage: Stage)

  /** A row of the retry table: the failure count, and whether a dispatch lease is set. */
  datatype Row = Row(count: int, leased: bool)

  datatype Event =
    | Failed
    | Touched
    | Listed
    | Published(count: int, recorded: bool)  // recorded: the mark reached the table

  datatype Entry = Entry(row: Row, history: seq<Event>)

  /** What is known of one key: its entry, and the row the running scan listed and has yet to handle. */
  datatype Slot = Slot(entry: Option<Entry>, pending: Option<Row>)

  type System = map<Key, Slot>

  datatype Step =
    | Fail(k: Key)
    | Touch(hash: nat)
    | Delete(hash: nat)
    | Clear
    | List(keys: set<Key>)
    | Dispatch(k: Key, marked: bool)
    | Evict(k: Key, deleted: bool)
    | Abandon                       // the dispatcher stops in the middle of a scan

  /** The count a dispatch is recorded with: an entry that is still leased lost the outcome of its
      last dispatch, which counts as a failure. */
  function Attempt(r: Row): int { if r.leased then r.count + 1 else r.count }

  /** A negative limit means that there is none. */
  predicate Exceeds(count: int, max: int) { max >= 0 && count > max }

  function At(s: System, k: Key): Slot { if k in s then s[k] else Slot(None, None) }

  predicate Enabled(s: System, step: Step, max: int) {
    match step
    case List(keys) => (forall k :: k in s ==> s[k].pending.None?) && forall k :: k in keys ==> At(s, k).entry.Some?
    case Dispatch(k, _) => At(s, k).pending.Some? && !Exceeds(Attempt(At(s, k).pending.value), max)
    case Evict(k, _) => At(s, k).pending.Some? && Exceeds(Attempt(At(s, k).pending.value), max)
    case _ => true
  }

  function Fails(e: Option<Entry>): Entry {
    match e
    case None => Entry(Row(1, false), [])
    case Some(e) => Entry(Row(e.row.count + 1, false), e.history + [Failed])
  }

  function Noted(e: Entry, row: Row, event: Event): Option<Entry> { Some(Entry(row, e.history + [event])) }

  /** A dispatch whose mark is lost leaves the row alone; so does one whose row is gone. */
  function Dispatched(x: Slot, marked: bool): Slot
    requires x.pending.Some?
  {
    var count := Attempt(x.pending.value);
    if x.entry.None? then x.(pending := None)
    else Slot(Noted(x.entry.value, if marked then Row(count, true) else x.entry.value.row, Published(count, marked)),
      None)
  }

  /** What a step does to one key. */
  function Local(x: Slot, k: Key, step: Step): Slot {
    match step
    case Fail(k') => if k' == k then x.(entry := Some(Fails(x.entry))) else x
    case Touch(h) =>
      if h == k.hash && x.entry.Some?
      then x.(entry := Noted(x.entry.value, x.entry.value.row.(leased := false), Touched))
      else x
    case Delete(h) => if h == k.hash then x.(entry := None) else x
    case Clear => x.(entry := None)
    case List(keys) =>
      if k in keys && x.entry.Some?
      then Slot(Noted(x.entry.value, x.entry.value.row, Listed), Some(x.entry.value.row))
      else x
    case Dispatch(k', marked) => if k' == k && x.pending.Some? then Dispatched(x, marked) else x
    case Evict(k', deleted) =>
      Slot(if deleted && k'.hash == k.hash then None else x.entry, if k' == k then None else x.pending)
    case Abandon => x.(pending := None)
  }

  function KeysOf(step: Step): set<Key> { if step.Fail? then {step.k} else {} }

  function Apply(s: System, step: Step): System {
    map k | k in s.Keys + KeysOf(step) :: Local(At(s, k), k, step)
  }

  function ApplyAll(s: System, steps: seq<Step>): System
    decreases |steps|
  {
    if steps == [] then s else ApplyAll(Apply(s, steps[0]), steps[1..])
  }

  ghost predicate AllEnabled(s: System, steps: seq<Step>, max: int)
    decreases |steps|
  {
    steps == [] || (Enabled(s, steps[0], max) && AllEnabled(Apply(s, steps[0]), steps[1..], max))
  }

  lemma {:induction false} RunsConcat(s: System, a: seq<Step>, b: seq<Step>, max: int)
    ensures ApplyAll(s, a + b) == ApplyAll(ApplyAll(s, a), b)
    ensures AllEnabled(s, a + b, max) <==> AllEnabled(s, a, max) && AllEnabled(ApplyAll(s, a), b, max)
    decreases |a|
  {
    if a == [] {
      assert a + b == b;
    } else {
      assert (a + b)[1..] == a[1..] + b;
      RunsConcat(Apply(s, a[0]), a[1..], b, max);
    }
  }

  // ---------- what a history says ----------

  /** The row an entry must have after its history. */
  function RowOf(h: seq<Event>): Row {
    if h == [] then Row(1, false)
    else
      var r := RowOf(h[..|h| - 1]);
      match h[|h| - 1]
      case Failed => Row(r.count + 1, false)
      case Touched => r.(leased := false)
      case Listed => r
      case Published(count, recorded) => if recorded then Row(count, true) else r
  }

  /** The row as the scan that has not handled it yet listed it. */
  function Snapshot(h: seq<Event>): Option<Row> {
    if h == [] then None
    else
      match h[|h| - 1]
      case Listed => Some(RowOf(h[..|h| - 1]))
      case Published(_, _) => None
      case _ => Snapshot(h[..|h| - 1])
  }

  /** No scan has listed the entry since it was created. */
  predicate Unseen(h: seq<Event>) {
    h == [] || (!h[|h| - 1].Listed? && !h[|h| - 1].Published? && Unseen(h[..|h| - 1]))
  }

  /** Every dispatch is within the budget and has the count of the row as it was listed. Only an
      entry that was removed and created again under a running scan is dispatched unseen. */
  predicate Genuine(h: seq<Event>, max: int) {
    h == [] ||
    var p, e := h[..|h| - 1], h[|h| - 1];
    && Genuine(p, max)
    && (e.Published? ==>
          && 1 <= e.count && !Exceeds(e.count, max)
          && (if Snapshot(p).Some? then e.count == Attempt(Snapshot(p).value) else Unseen(p)))
  }

  predicate SlotOk(x: Slot, max: int) {
    && (x.pending.Some? ==> x.pending.value.count >= 1)
    && (x.entry.Some? ==>
          var h := x.entry.value.history;
          && Genuine(h, max)
          && x.entry.value.row == RowOf(h)
          && RowOf(h).count >= 1
          && (x.pending.Some? ==> if Snapshot(h).Some? then Snapshot(h) == x.pending else Unseen(h)))
  }

  predicate Ok(s: System, max: int) { forall k :: k in s ==> SlotOk(s[k], max) }

  lemma Appended(h: seq<Event>, e: Event)
    ensures (h + [e])[..|h + [e]| - 1] == h && (h + [e])[|h + [e]| - 1] == e
  {
  }

  lemma LocalKeepsOk(x: Slot, k: Key, step: Step, max: int)
    requires SlotOk(x, max)
    requires step.List? ==> x.pending.None?
    requires step.Dispatch? && step.k == k ==> x.pending.Some? && !Exceeds(Attempt(x.pending.value), max)
    ensures SlotOk(Local(x, k, step), max)
  {
    if x.entry.Some? {
      var h := x.entry.value.history;
      Appended(h, Failed);
      Appended(h, Touched);
      Appended(h, Listed);
      if step.Dispatch? && x.pending.Some? {
        Appended(h, Published(Attempt(x.pending.value), step.marked));
      }
    }
  }

  lemma StepKeepsOk(s: System, step: Step, max: int)
    requires Ok(s, max) && Enabled(s, step, max)
    ensures Ok(Apply(s, step), max)
  {
    forall k | k in Apply(s, step) ensures SlotOk(Apply(s, step)[k], max) {
      LocalKeepsOk(At(s, k), k, step, max);
    }
  }

  /** Every reachable state is Ok. */
  lemma {:induction false} RunKeepsOk(s: System, steps: seq<Step>, max: int)
    requires Ok(s, max) && AllEnabled(s, steps, max)
    ensures Ok(ApplyAll(s, steps), max)
    decreases |steps|
  {
    if steps != [] {
      StepKeepsOk(s, steps[0], max);
      RunKeepsOk(Apply(s, steps[0]), steps[1..], max);
    }
  }

  /** The states that runs from the empty queue lead to. */
  ghost predicate Reached(s: System, max: int) {
    exists steps :: AllEnabled(map[], steps, max) && ApplyAll(map[], steps) == s
  }

  lemma EmptyReached(max: int)
    ensures Reached(map[], max)
  {
    assert AllEnabled(map[], [], max) && ApplyAll(map[], []) == map[];
  }

  lemma ReachedStep(s: System, step: Step, max: int)
    requires Reached(s, max) && Enabled(s, step, max)
    ensures Reached(Apply(s, step), max)
  {
    var steps :| AllEnabled(map[], steps, max) && ApplyAll(map[], steps) == s;
    RunsConcat(map[], steps, [step], max);
    Single(s, step, max);
    assert AllEnabled(map[], steps + [step], max);
  }

  lemma ReachedOk(s: System, max: int)
    requires Reached(s, max)
    ensures Ok(s, max)
  {
    var steps :| AllEnabled(map[], steps, max) && ApplyAll(map[], steps) == s;
    RunKeepsOk(map[], steps, max);
  }

  // ---------- the budget ----------

  predicate IsRecorded(e: Event) { e.Published? && e.recorded }

  function Recorded(h: seq<Event>): nat {
    if h == [] then 0 else Recorded(h[..|h| - 1]) + if IsRecorded(h[|h| - 1]) then 1 else 0
  }

  function Touches(h: seq<Event>): nat {
    if h == [] then 0 else Touches(h[..|h| - 1]) + if h[|h| - 1].Touched? then 1 else 0
  }

  function Failures(h: seq<Event>): nat {
    if h == [] then 0 else Failures(h[..|h| - 1]) + if h[|h| - 1].Failed? then 1 else 0
  }

  /** The count of the last recorded dispatch. */
  function Last(h: seq<Event>): int {
    if h == [] then 0 else if IsRecorded(h[|h| - 1]) then h[|h| - 1].count else Last(h[..|h| - 1])
  }

  /** Whether the entry was touched since the last recorded dispatch. */
  predicate TouchedSince(h: seq<Event>) {
    h != [] && !IsRecorded(h[|h| - 1]) && (h[|h| - 1].Touched? || TouchedSince(h[..|h| - 1]))
  }

  /** The least count the next dispatch can have. */
  function Least(h: seq<Event>): int {
    if Last(h) >= 1 && TouchedSince(h) then Last(h) else Last(h) + 1
  }

  lemma {:induction false} HistoryBounds(h: seq<Event>, max: int)
    requires Genuine(h, max)
    ensures RowOf(h).count >= 1 && RowOf(h).count >= Last(h) >= 0
    ensures Attempt(RowOf(h)) >= Least(h)
    ensures Snapshot(h).Some? ==> Attempt(Snapshot(h).value) >= Least(h)
    ensures Unseen(h) ==> Last(h) == 0 && Recorded(h) == 0
    ensures Recorded(h) + 1 <= Least(h) + Touches(h)
    ensures max >= 0 ==> Last(h) <= max
  {
    if h != [] {
      HistoryBounds(h[..|h| - 1], max);
    }
  }

  /** After a recorded dispatch, the next one has at least its count, and more unless the entry
      was touched in between. */
  lemma {:induction false} CountsGrow(h: seq<Event>, max: int, i: nat)
    requires Genuine(h, max) && i < |h| && IsRecorded(h[i])
    ensures Last(h) >= h[i].count && Least(h) >= h[i].count
    ensures (forall m :: i < m < |h| ==> !h[m].Touched?) ==> Least(h) > h[i].count
  {
    var p := h[..|h| - 1];
    HistoryBounds(p, max);
    HistoryBounds(h, max);
    if i < |h| - 1 {
      assert h[i] == p[i];
      CountsGrow(p, max, i);
      if forall m :: i < m < |h| ==> !h[m].Touched? {
        assert forall m :: i < m < |p| ==> p[m] == h[m];
      }
    }
  }

  lemma {:induction false} GenuinePrefix(h: seq<Event>, max: int, j: nat)
    requires Genuine(h, max) && j <= |h|
    ensures Genuine(h[..j], max)
  {
    if j < |h| {
      var p := h[..|h| - 1];
      GenuinePrefix(p, max, j);
      assert p[..j] == h[..j];
    } else {
      assert h[..j] == h;
    }
  }

  lemma DispatchAtLeast(h: seq<Event>, max: int, j: nat)
    requires Genuine(h, max) && j < |h| && h[j].Published?
    ensures Genuine(h[..j], max) && h[j].count >= Least(h[..j]) && !Exceeds(h[j].count, max)
  {
    GenuinePrefix(h, max, j + 1);
    GenuinePrefix(h, max, j);
    assert h[..j + 1][..j] == h[..j];
    HistoryBounds(h[..j], max);
  }

  /** The counts of recorded dispatches never fall, and two of them are equal only if the entry
      was touched in between. */
  lemma CountsIncrease(h: seq<Event>, max: int, i: nat, j: nat)
    requires Genuine(h, max) && i < j < |h| && IsRecorded(h[i]) && IsRecorded(h[j])
    ensures h[i].count <= h[j].count
    ensures h[i].count == h[j].count ==> exists m :: i < m < j && h[m].Touched?
  {
    DispatchAtLeast(h, max, j);
    assert h[..j][i] == h[i];
    CountsGrow(h[..j], max, i);
    if forall m :: i < m < j ==> !h[m].Touched? {
      assert forall m :: i < m < |h[..j]| ==> h[..j][m] == h[m];
    }
  }

  /** In every run, the recorded dispatches of an entry have counts that never fall and never
      exceed the limit, that repeat only across a touch, and there are at most as many of them as
      the limit and the touches allow. */
  lemma BudgetHolds(s: System, max: int, k: Key)
    requires Reached(s, max) && At(s, k).entry.Some?
    ensures var h := At(s, k).entry.value.history;
            && (max >= 0 ==> Recorded(h) <= max + Touches(h))
            && (forall j :: 0 <= j < |h| && h[j].Published? ==> !Exceeds(h[j].count, max))
            && (forall i, j :: 0 <= i < j < |h| && IsRecorded(h[i]) && IsRecorded(h[j]) ==>
                  && h[i].count <= h[j].count
                  && (h[i].count == h[j].count ==> exists m :: i < m < j && h[m].Touched?))
  {
    ReachedOk(s, max);
    var h := At(s, k).entry.value.history;
    HistoryBounds(h, max);
    forall j | 0 <= j < |h| && h[j].Published? ensures !Exceeds(h[j].count, max) {
      DispatchAtLeast(h, max, j);
    }
    forall i, j | 0 <= i < j < |h| && IsRecorded(h[i]) && IsRecorded(h[j])
      ensures h[i].count <= h[j].count && (h[i].count == h[j].count ==> exists m :: i < m < j && h[m].Touched?)
    {
      CountsIncrease(h, max, i, j);
    }
  }

  // ---------- what a dispatch counts, exactly ----------

  /** The row after a recorded dispatch at `i`, as long as no other is recorded. */
  lemma {:induction false} RowAfter(h: seq<Event>, i: nat)
    requires i < |h| && IsRecorded(h[i]) && forall m :: i < m < |h| ==> !IsRecorded(h[m])
    ensures var between := h[i + 1..];
            RowOf(h) == Row(h[i].count + Failures(between), Failures(between) == 0 && Touches(between) == 0)
  {
    if i < |h| - 1 {
      var p := h[..|h| - 1];
      RowAfter(p, i);
      assert h[i + 1..][..|h[i + 1..]| - 1] == p[i + 1..];
    }
  }

  lemma {:induction false} SnapshotAt(h: seq<Event>, l: nat)
    requires l < |h| && h[l].Listed? && forall m :: l < m < |h| ==> !h[m].Listed? && !h[m].Published?
    ensures Snapshot(h) == Some(RowOf(h[..l]))
  {
    if l < |h| - 1 {
      var p := h[..|h| - 1];
      SnapshotAt(p, l);
      assert p[..l] == h[..l];
    }
  }

  /** Between two consecutive recorded dispatches the count grows by exactly the failures reported
      before the entry was listed; with none reported it grows by one, for the lost outcome, unless
      the entry was touched. A failure that arrives after the listing is not counted. */
  lemma DispatchCountsExactly(h: seq<Event>, max: int, i: nat, l: nat, j: nat)
    requires Genuine(h, max) && i < l < j < |h| && IsRecorded(h[i]) && h[l].Listed? && IsRecorded(h[j])
    requires forall m :: i < m < j ==> !IsRecorded(h[m])
    requires forall m :: l < m < j ==> !h[m].Listed? && !h[m].Published?
    ensures var between := h[i + 1..l];
            h[j].count ==
              h[i].count + (if Failures(between) == 0 && Touches(between) == 0 then 1 else Failures(between))
  {
    GenuinePrefix(h, max, j + 1);
    assert h[..j + 1][..j] == h[..j];
    SnapshotAt(h[..j], l);
    assert h[..j][..l] == h[..l];
    RowAfter(h[..l], i);
    assert h[..l][i + 1..] == h[i + 1..l];
  }

  // ---------- runs that show the exceptions ----------

  /** A run whose steps concern a single key is a run of its slot. */
  lemma Solo(k: Key, x: Slot, step: Step, max: int)
    requires step.Fail? ==> step.k == k
    ensures Apply(map[k := x], step) == map[k := Local(x, k, step)]
    ensures (step.Dispatch? && step.k == k) ==>
              (Enabled(map[k := x], step, max) <==> x.pending.Some? && !Exceeds(Attempt(x.pending.value), max))
    ensures step == List({k}) ==> (Enabled(map[k := x], step, max) <==> x.pending.None? && x.entry.Some?)
    ensures step.Fail? || step.Touch? ==> Enabled(map[k := x], step, max)
  {
    var s: System := map[k := x];
    assert At(s, k) == x && k in s;
    assert s.Keys + KeysOf(step) == {k};
  }

  /** The first failure of an entry, from the empty queue. */
  lemma FirstFailure(k: Key)
    ensures Apply(map[], Fail(k)) == map[k := Slot(Some(Entry(Row(1, false), [])), None)]
  {
    var s: System := map[];
    assert s.Keys + KeysOf(Fail(k)) == {k};
  }

  /** A scan that lists one entry and dispatches it. */
  lemma ScanOnce(k: Key, e: Entry, marked: bool, max: int)
    requires !Exceeds(Attempt(e.row), max)
    ensures var s := map[k := Slot(Some(e), None)];
            var n := Attempt(e.row);
            && AllEnabled(s, [List({k}), Dispatch(k, marked)], max)
            && ApplyAll(s, [List({k}), Dispatch(k, marked)]) ==
                 map[k := Slot(Some(Entry(if marked then Row(n, true) else e.row,
                                          e.history + [Listed, Published(n, marked)])), None)]
  {
    var x := Slot(Some(e), None);
    var y := Local(x, k, List({k}));
    Solo(k, x, List({k}), max);
    Single(map[k := x], List({k}), max);
    Solo(k, y, Dispatch(k, marked), max);
    Single(map[k := y], Dispatch(k, marked), max);
    RunsConcat(map[k := x], [List({k})], [Dispatch(k, marked)], max);
    assert [List({k})] + [Dispatch(k, marked)] == [List({k}), Dispatch(k, marked)];
    assert e.history + [Listed] + [Published(Attempt(e.row), marked)]
           == e.history + [Listed, Published(Attempt(e.row), marked)];
  }

  /** Touching an entry between two dispatches lets both have the same count, so the limit alone
      does not bound them. */
  lemma TouchLetsACountRepeat(k: Key)
    ensures var steps := [Fail(k)] + [List({k}), Dispatch(k, true)] + [Touch(k.hash)] + [List({k}), Dispatch(k, true)];
            && AllEnabled(map[], steps, 1)
            && At(ApplyAll(map[], steps), k).entry ==
                 Some(Entry(Row(1, true), [Listed, Published(1, true), Touched, Listed, Published(1, true)]))
  {
    var scan := [List({k}), Dispatch(k, true)];
    var e0 := Entry(Row(1, false), []);
    var e1 := Entry(Row(1, true), [Listed, Published(1, true)]);
    var e2 := Entry(Row(1, false), [Listed, Published(1, true), Touched]);
    FirstFailure(k);
    Single(map[], Fail(k), 1);
    ScanOnce(k, e0, true, 1);
    assert e0.history + [Listed, Published(1, true)] == e1.history;
    RunsConcat(map[], [Fail(k)], scan, 1);
    Solo(k, Slot(Some(e1), None), Touch(k.hash), 1);
    Single(map[k := Slot(Some(e1), None)], Touch(k.hash), 1);
    assert e1.history + [Touched] == e2.history;
    RunsConcat(map[], [Fail(k)] + scan, [Touch(k.hash)], 1);
    ScanOnce(k, e2, true, 1);
    assert e2.history + [Listed, Published(1, true)]
           == [Listed, Published(1, true), Touched, Listed, Published(1, true)];
    RunsConcat(map[], [Fail(k)] + scan + [Touch(k.hash)], scan, 1);
  }

  lemma Single(s: System, step: Step, max: int)
    ensures ApplyAll(s, [step]) == Apply(s, step)
    ensures AllEnabled(s, [step], max) <==> Enabled(s, step, max)
  {
    assert [step][1..] == [];
  }

  /** A failure reported between the listing of an entry and its mark is forgotten: after two
      failures the count is still one. */
  lemma FailureDuringScanIsForgotten(k: Key, max: int)
    requires !Exceeds(1, max)
    ensures var steps := [Fail(k)] + [List({k})] + [Fail(k)] + [Dispatch(k, true)];
            && AllEnabled(map[], steps, max)
            && At(ApplyAll(map[], steps), k).entry == Some(Entry(Row(1, true), [Listed, Failed, Published(1, true)]))
  {
    var x0 := Slot(Some(Entry(Row(1, false), [])), None);
    var x1 := Slot(Some(Entry(Row(1, false), [Listed])), Some(Row(1, false)));
    var x2 := Slot(Some(Entry(Row(2, false), [Listed, Failed])), Some(Row(1, false)));
    FirstFailure(k);
    Single(map[], Fail(k), max);
    Solo(k, x0, List({k}), max);
    Single(map[k := x0], List({k}), max);
    assert [] + [Listed] == [Listed];
    RunsConcat(map[], [Fail(k)], [List({k})], max);
    Solo(k, x1, Fail(k), max);
    Single(map[k := x1], Fail(k), max);
    assert [Listed] + [Failed] == [Listed, Failed];
    RunsConcat(map[], [Fail(k)] + [List({k})], [Fail(k)], max);
    Solo(k, x2, Dispatch(k, true), max);
    Single(map[k := x2], Dispatch(k, true), max);
    assert [Listed, Failed] + [Published(1, true)] == [Listed, Failed, Published(1, true)];
    RunsConcat(map[], [Fail(k)] + [List({k})] + [Fail(k)], [Dispatch(k, true)], max);
  }

  function UnmarkedScans(k: Key, n: nat): seq<Step> {
    if n == 0 then [Fail(k)] else UnmarkedScans(k, n - 1) + [List({k}), Dispatch(k, false)]
  }

  function UnmarkedHistory(n: nat): (h: seq<Event>)
    ensures |h| == 2 * n && forall i :: 0 <= i < n ==> h[2 * i + 1] == Published(1, false)
  {
    if n == 0 then [] else UnmarkedHistory(n - 1) + [Listed, Published(1, false)]
  }

  /** Dispatches whose mark is lost are not bounded: the same entry can be published any number of
      times with the same count. */
  lemma {:induction false} LostMarksRepeat(k: Key, max: int, n: nat)
    requires !Exceeds(1, max)
    ensures AllEnabled(map[], UnmarkedScans(k, n), max)
    ensures ApplyAll(map[], UnmarkedScans(k, n)) == map[k := Slot(Some(Entry(Row(1, false), UnmarkedHistory(n))), None)]
  {
    if n == 0 {
      FirstFailure(k);
      Single(map[], Fail(k), max);
    } else {
      LostMarksRepeat(k, max, n - 1);
      ScanOnce(k, Entry(Row(1, false), UnmarkedHistory(n - 1)), false, max);
      RunsConcat(map[], UnmarkedScans(k, n - 1), [List({k}), Dispatch(k, false)], max);
    }
  }
}
