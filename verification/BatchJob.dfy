/** The job slot, the progress object, and the tracker that starts and runs a paging job. */
module BatchJob {
  import opened Wrappers
  import opened BatchTypes

  class Controller {
    var active: set<string>

    constructor ()
      ensures active == {}
    {
      active := {};
    }

    /** Reserves the single job slot, whoever asks. */
    method TryAcquire(name: string) returns (ok: bool)
      modifies this
      ensures ok == (old(active) == {})
      ensures active == if ok then {name} else old(active)
    {
      if |active| > 0 {
        return false;
      }
      active := active + {name};
      ok := true;
    }

    method Release(name: string)
      modifies this
      ensures active == old(active) - {name}
    {
      active := active - {name};
    }

    method Paused() returns (paused: bool)
      ensures paused == (active != {})
    {
      paused := |active| > 0;
    }
  }

  class BatchProgress {
    var total: int
    var count: int
    var done: bool
    var running: bool
    var resumable: bool
    var configChanged: bool
    var failed: bool
    var barrier: Option<int>
    var cursor: Option<Row>
    var fingerprint: string

    ghost function View(): Progress
      reads this
    {
      Progress(total, count, done, running, resumable, configChanged, failed, barrier, cursor, fingerprint)
    }

    constructor (v: Progress)
      ensures View() == v
    {
      total, count, done, running, resumable := v.total, v.count, v.done, v.running, v.resumable;
      configChanged, failed, barrier, cursor, fingerprint :=
        v.configChanged, v.failed, v.barrier, v.cursor, v.fingerprint;
    }

    predicate MayResume()
      reads this
      ensures MayResume() == CanResume(View())
    {
      !done && barrier.Some?
    }

    method MarkFailed()
      modifies this`done, this`running, this`failed
      ensures View() == Fail(old(View())) && failed && !running && !done
      ensures barrier == old(barrier) && cursor == old(cursor) && count == old(count) && total == old(total)
    {
      done, running, failed := false, false, true;
    }

    method Advance(rows: seq<Row>, processed: int)
      requires rows != []
      modifies this`count, this`cursor
      ensures View() == FinishPage(old(View()), rows, processed)
    {
      count := count + processed;
      cursor := Some(rows[|rows| - 1]);
    }

    method MarkDone()
      modifies this`done, this`resumable
      ensures View() == Complete(old(View()))
    {
      done, resumable := true, false;
    }

    method State() returns (s: Saved)
      ensures s == SaveOf(View())
    {
      s := Saved(barrier, cursor, total, count, done, fingerprint);
    }
  }

  datatype Outcome = Processed(n: int) | Failure

  /** What surrounds a run: the torrent table and the queries on it, the batch function, the
      context and the state store. Between any two calls rows may be deleted, and rows younger
      than the clock may appear. The flags record what went wrong so far. */
  class World {
    var table: set<Row>
    var now: int
    var saved: Option<Saved>
    ghost var handled: set<(int, Row)>
    ghost var offered: seq<Row>   // rows handed to the batch function, in order
    ghost var smooth: bool        // nothing failed and nothing was cancelled
    ghost var intact: bool        // no row was deleted
    ghost var full: bool          // the batch function counted every row of its pages

    /** Other transactions commit. */
    method Drift()
      modifies this`table, this`intact
      ensures Drifted(old(table), now, table)
      ensures intact == (old(intact) && old(table) <= table)
    {
      var t: set<Row> := *;
      if forall r :: r in t ==> r in table || r.createdAt >= now {
        intact := intact && table <= t;
        table := t;
      }
    }

    method Fails() returns (b: bool)
      modifies this`smooth
      ensures smooth == (old(smooth) && !b)
    {
      b := *;
      smooth := smooth && !b;
    }

    /** CountTorrentsBefore. */
    method Count(barrier: int) returns (total: Option<nat>)
      modifies this`smooth
      ensures smooth == (old(smooth) && total.Some?)
      ensures total.Some? ==> total.value == |Within(table, barrier)|
    {
      var fails := Fails();
      total := if fails then None else Some(|Within(table, barrier)|);
    }

    /** ListTorrentsPageAfter. */
    method ListPage(barrier: int, cursor: Row, n: nat) returns (rows: Option<seq<Row>>)
      modifies this`smooth
      ensures smooth == (old(smooth) && rows.Some?)
      ensures rows.Some? ==> IsPage(table, barrier, cursor, n, rows.value)
    {
      var fails := Fails();
      PageExists(table, barrier, cursor, n);
      rows := if fails then None else Some(FirstRows(Above(table, barrier, cursor), n));
    }

    /** The batch function: it returns a count, returns an error, or panics. */
    method Process(barrier: int, rows: seq<Row>) returns (o: Outcome)
      modifies this`smooth, this`full, this`handled, this`offered
      ensures offered == old(offered) + rows
      ensures smooth == (old(smooth) && o.Processed?)
      ensures full ==> old(full) && (o.Processed? ==> o.n == |rows|)
      ensures handled == if o.Processed? then old(handled) + (set r | r in rows :: (barrier, r)) else old(handled)
    {
      offered := offered + rows;
      var fails := Fails();
      if fails {
        return Failure;
      }
      var n: int := *;
      full := full && n == |rows|;
      handled := handled + set r | r in rows :: (barrier, r);
      o := Processed(n);
    }

    /** Persists the state, or loses it. */
    method Save(s: Saved)
      modifies this`saved
      ensures saved == Some(s) || saved == old(saved)
    {
      var lost: bool := *;
      if !lost {
        saved := Some(s);
      }
    }
  }

  function Within(table: set<Row>, barrier: int): set<Row> {
    set r | r in table && r.createdAt <= barrier
  }

  /** The rows a job has behind it: above the epoch cursor and not above its own. */
  function Behind(table: set<Row>, barrier: int, cursor: Row): set<Row> {
    set r | r in table && r.createdAt <= barrier && Less(EPOCH, r) && !Less(cursor, r)
  }

  /** Neither the progress record nor what was persisted claims more than was done. */
  ghost predicate AllHonest(w: World, p: Progress)
    reads w
  {
    && Honest(w.table, w.now, p.barrier, p.cursor, p.done, w.handled)
    && (w.saved.Some? ==>
          Honest(w.table, w.now, w.saved.value.barrier, w.saved.value.cursor, w.saved.value.done, w.handled))
  }

  /** The progress counter is the number of rows the job has behind it. */
  ghost predicate CountsRight(table: set<Row>, b: int, cursor: Option<Row>, count: int) {
    count == |Behind(table, b, CursorOf(cursor))|
  }

  ghost predicate Counted(table: set<Row>, barrier: Option<int>, cursor: Option<Row>, count: int) {
    barrier.Some? ==> CountsRight(table, barrier.value, cursor, count)
  }

  /** As long as no row was deleted and every page was counted in full, the counters of the progress
      record and of what was persisted are right. */
  ghost predicate AllCounted(w: World, p: Progress)
    reads w
  {
    w.intact && w.full ==>
      && Counted(w.table, p.barrier, p.cursor, p.count)
      && (w.saved.Some? ==> Counted(w.table, w.saved.value.barrier, w.saved.value.cursor, w.saved.value.count))
  }

  /** Neither covers nor counts too much. */
  ghost predicate AllRight(w: World, p: Progress)
    reads w
  {
    AllHonest(w, p) && AllCounted(w, p)
  }

  /** Saving and loading keeps everything a run needs to go on, whether the configuration changed or not. */
  lemma SavedComesBack(p: Progress, fingerprint: string)
    ensures var q := LoadOf(SaveOf(p), fingerprint);
            && q.barrier == p.barrier && q.cursor == p.cursor && q.count == p.count && q.total == p.total
            && q.done == p.done && q.fingerprint == p.fingerprint && !q.running && !q.failed
            && (CanResume(q) <==> CanResume(p)) && (q.configChanged <==> p.fingerprint != fingerprint)
  {
  }

  /** What a crash leaves behind is as good as what was in memory. */
  lemma LoadedIsRight(w: World, p: Progress, fingerprint: string)
    requires AllRight(w, p) && w.saved.Some?
    ensures AllRight(w, LoadOf(w.saved.value, fingerprint))
  {
  }

  /** What other transactions may do to the table while the clock shows `now`. */
  ghost predicate Drifted(table: set<Row>, now: int, table': set<Row>) {
    forall r :: r in table' ==> r in table || r.createdAt >= now
  }

  lemma DriftShrinks(table: set<Row>, now: int, table': set<Row>, barrier: int, cursor: Row)
    requires barrier < now && Drifted(table, now, table')
    ensures Above(table', barrier, cursor) <= Above(table, barrier, cursor)
  {
  }

  /** Without deletions, what lies within an old barrier does not change. */
  lemma DriftKeepsWithin(table: set<Row>, now: int, table': set<Row>, barrier: int)
    requires barrier < now && table <= table' && Drifted(table, now, table')
    ensures Within(table', barrier) == Within(table, barrier)
    ensures forall c :: Above(table', barrier, c) == Above(table, barrier, c)
    ensures forall c :: Behind(table', barrier, c) == Behind(table, barrier, c)
  {
  }

  /** A page is what the cursor moves over. */
  lemma PageMovesCursor(table: set<Row>, barrier: int, cursor: Row, rows: seq<Row>)
    requires IsPage(table, barrier, cursor, PAGE_SIZE, rows) && rows != []
    ensures var last := rows[|rows| - 1];
            && last in Above(table, barrier, cursor) && Less(cursor, last)
            && (forall r :: r in Above(table, barrier, cursor) <==> r in rows || r in Above(table, barrier, last))
            && (forall r :: r in rows ==> r !in Above(table, barrier, last))
            && Above(table, barrier, last) < Above(table, barrier, cursor)
            && (|rows| < PAGE_SIZE ==> Above(table, barrier, last) == {})
  {
    var last := rows[|rows| - 1];
    assert last in rows;
    forall r | r in rows ensures r == last || Less(r, last) {
      var i :| 0 <= i < |rows| && rows[i] == r;
    }
    forall r | r in Above(table, barrier, last) ensures r in Above(table, barrier, cursor) && r !in rows {
    }
    forall r | r in Above(table, barrier, cursor) && r !in rows ensures r in Above(table, barrier, last) {
    }
    assert last !in Above(table, barrier, last);
  }

  lemma {:induction false} SortedCardinality(rows: seq<Row>)
    requires Sorted(rows)
    ensures |set r | r in rows| == |rows|
  {
    if rows != [] {
      var front, last := rows[..|rows| - 1], rows[|rows| - 1];
      SortedCardinality(front);
      assert (set r | r in rows) == (set r | r in front) + {last};
      assert last !in front;
    }
  }

  /** The counter moves with the cursor when the batch function counts every row. */
  lemma PageMovesCount(table: set<Row>, barrier: int, cursor: Row, rows: seq<Row>)
    requires IsPage(table, barrier, cursor, PAGE_SIZE, rows) && rows != [] && !Less(cursor, EPOCH)
    ensures |Behind(table, barrier, rows[|rows| - 1])| == |Behind(table, barrier, cursor)| + |rows|
  {
    PageMovesCursor(table, barrier, cursor, rows);
    SortedCardinality(rows);
    var page := set r | r in rows;
    var last := rows[|rows| - 1];
    assert Behind(table, barrier, last) == Behind(table, barrier, cursor) + page by {
      forall r ensures r in Behind(table, barrier, last) <==> r in Behind(table, barrier, cursor) || r in page {
        if r in page {
          assert r in rows;
        }
        if r in Behind(table, barrier, last) && Less(cursor, r) {
          assert r in Above(table, barrier, cursor);
        }
      }
    }
    assert Behind(table, barrier, cursor) !! page;
  }

  /** No row within the barrier lies at or below the epoch cursor: all are from after the epoch, or
      from that very instant with a hash. */
  ghost predicate NoneBelowEpoch(table: set<Row>, b: int) {
    forall r :: r in table && r.createdAt <= b ==> r.createdAt > 0 || (r.createdAt == 0 && r.hash > 0)
  }

  /** The counter reaches the total exactly when no row within the barrier lies at or below the
      epoch cursor: those rows are counted but never listed. */
  lemma CountReachesTotalExactly(table: set<Row>, barrier: int)
    ensures |Above(table, barrier, EPOCH)| == |Within(table, barrier)| <==>
            NoneBelowEpoch(table, barrier)
  {
    var below := Within(table, barrier) - Above(table, barrier, EPOCH);
    assert Within(table, barrier) == Above(table, barrier, EPOCH) + below;
    assert |Within(table, barrier)| == |Above(table, barrier, EPOCH)| + |below|;
    forall r ensures r in below <==> r in table && r.createdAt <= barrier && !Less(EPOCH, r) {
    }
    if below != {} {
      var r :| r in below;
    }
  }

  datatype PageEnd = More | Last | Broken

  /** The run is in the loop: it has a barrier in the past and is not finished. */
  ghost predicate UnderWay(p: BatchProgress, w: World, b: int)
    reads p, w
  {
    p.barrier == Some(b) && b < w.now && !p.done && p.running && AllRight(w, p.View())
  }

  /** The failure path: the record is marked, then persisted. */
  method Break(p: BatchProgress, w: World)
    requires AllRight(w, p.View())
    modifies p`done, p`running, p`failed, w`saved
    ensures p.View() == Fail(old(p.View())) && AllRight(w, p.View())
  {
    p.MarkFailed();
    var s := p.State();
    w.Save(s);
  }

  lemma FinishedPageIsHonest(table: set<Row>, now: int, b: int, cursor: Option<Row>, rows: seq<Row>,
                             handled: set<(int, Row)>, handled': set<(int, Row)>)
    requires Honest(table, now, Some(b), cursor, false, handled) && rows != []
    requires IsPage(table, b, CursorOf(cursor), PAGE_SIZE, rows)
    requires handled' == handled + set r | r in rows :: (b, r)
    ensures Honest(table, now, Some(b), Some(rows[|rows| - 1]), false, handled')
  {
    PageMovesCursor(table, b, CursorOf(cursor), rows);
    var last := rows[|rows| - 1];
    forall r | r in table && r.createdAt <= b && Less(EPOCH, r) && !Less(last, r) ensures (b, r) in handled' {
      if Less(CursorOf(cursor), r) {
        assert r in Above(table, b, CursorOf(cursor));
        assert r !in Above(table, b, last);
        assert r in rows;
      }
    }
  }

  /** What one turn of the loop does to the cursor: `page` was handed out, and nothing above the
      old cursor got lost between the page and the new cursor. */
  ghost predicate Stepped(table0: set<Row>, table2: set<Row>, b: int, cursor: Option<Row>, cursor': Option<Row>,
                          end: PageEnd, page: seq<Row>)
  {
    var c, c' := CursorOf(cursor), CursorOf(cursor');
    && (forall r :: r in table2 && r.createdAt <= b ==> r in table0)
    && Sorted(page)
    && (forall r :: r in page ==> Less(c, r) && r.createdAt <= b)
    && (end.Broken? ==> cursor' == cursor)
    && (!end.Broken? ==> cursor' == if page == [] then cursor else Some(page[|page| - 1]))
    && (!end.Broken? ==> forall r :: r in Above(table2, b, c) ==> r in page || r in Above(table2, b, c'))
    && (end.Last? ==> Above(table2, b, c') == {})
    && (end.More? ==> Above(table2, b, c') < Above(table0, b, c))
  }

  /** What a turn leaves alone when no row is deleted during it. */
  ghost predicate Kept(table0: set<Row>, table2: set<Row>, b: int, page: seq<Row>) {
    Within(table2, b) == Within(table0, b) && forall r :: r in page ==> r in table2
  }

  /** A finished page of `table1`, once the table has drifted on to `table2`. */
  lemma TurnProgress(table0: set<Row>, table1: set<Row>, table2: set<Row>, now: int, b: int, cursor: Option<Row>,
                     page: seq<Row>)
    requires b < now && Drifted(table0, now, table1) && Drifted(table1, now, table2)
    requires IsPage(table1, b, CursorOf(cursor), PAGE_SIZE, page) && page != []
    ensures Stepped(table0, table2, b, cursor, Some(page[|page| - 1]), if |page| < PAGE_SIZE then Last else More, page)
  {
    var c, last := CursorOf(cursor), page[|page| - 1];
    PageMovesCursor(table1, b, c, page);
    DriftShrinks(table0, now, table1, b, c);
    DriftShrinks(table1, now, table2, b, c);
    DriftShrinks(table1, now, table2, b, last);
    forall r | r in Above(table2, b, c) && r !in page ensures r in Above(table2, b, last) {
      assert r in Above(table1, b, c);
    }
  }

  /** The counter after a finished page that was counted in full. */
  lemma FinishedPageCounts(table: set<Row>, b: int, cursor: Option<Row>, count: int, rows: seq<Row>)
    requires !Less(CursorOf(cursor), EPOCH) && CountsRight(table, b, cursor, count)
    requires IsPage(table, b, CursorOf(cursor), PAGE_SIZE, rows) && rows != []
    ensures CountsRight(table, b, Some(rows[|rows| - 1]), count + |rows|)
  {
    PageMovesCount(table, b, CursorOf(cursor), rows);
  }

  lemma HonestAfterDrift(table: set<Row>, now: int, table': set<Row>,
                         barrier: Option<int>, cursor: Option<Row>, done: bool, handled: set<(int, Row)>)
    requires Honest(table, now, barrier, cursor, done, handled) && Drifted(table, now, table')
    ensures Honest(table', now, barrier, cursor, done, handled)
  {
  }

  lemma CountedAfterDrift(table: set<Row>, now: int, table': set<Row>, barrier: Option<int>, cursor: Option<Row>,
                          count: int)
    requires table <= table' && Drifted(table, now, table') && (barrier.Some? ==> barrier.value < now)
    requires Counted(table, barrier, cursor, count)
    ensures Counted(table', barrier, cursor, count)
  {
    if barrier.Some? {
      DriftKeepsWithin(table, now, table', barrier.value);
      assert Behind(table', barrier.value, CursorOf(cursor)) == Behind(table, barrier.value, CursorOf(cursor));
    }
  }

  /** Other transactions commit, and everything stays right. */
  method DriftOn(w: World, ghost p: Progress)
    requires AllRight(w, p)
    modifies w`table, w`intact
    ensures AllRight(w, p)
    ensures Drifted(old(w.table), w.now, w.table)
    ensures w.intact == (old(w.intact) && old(w.table) <= w.table)
  {
    ghost var table0 := w.table;
    w.Drift();
    HonestAfterDrift(table0, w.now, w.table, p.barrier, p.cursor, p.done, w.handled);
    if w.saved.Some? {
      HonestAfterDrift(table0, w.now, w.table, w.saved.value.barrier, w.saved.value.cursor, w.saved.value.done,
        w.handled);
    }
    if w.intact && w.full {
      CountedAfterDrift(table0, w.now, w.table, p.barrier, p.cursor, p.count);
      if w.saved.Some? {
        CountedAfterDrift(table0, w.now, w.table, w.saved.value.barrier, w.saved.value.cursor, w.saved.value.count);
      }
    }
  }

  /** Drift, then the next page. Nothing has been handed out yet. */
  method FetchPage(p: BatchProgress, w: World, b: int) returns (rows: Option<seq<Row>>)
    requires UnderWay(p, w, b)
    modifies w`table, w`smooth, w`intact
    ensures UnderWay(p, w, b)
    ensures Drifted(old(w.table), w.now, w.table)
    ensures w.intact == (old(w.intact) && old(w.table) <= w.table)
    ensures w.smooth ==> old(w.smooth) && rows.Some?
    ensures rows.Some? ==> IsPage(w.table, b, CursorOf(p.cursor), PAGE_SIZE, rows.value)
  {
    var canceled := w.Fails();
    DriftOn(w, p.View());
    if canceled {
      return None;
    }
    rows := w.ListPage(b, CursorOf(p.cursor), PAGE_SIZE);
  }

  /** One turn of the paging loop. */
  method Turn(p: BatchProgress, w: World, b: int) returns (end: PageEnd, ghost page: seq<Row>)
    requires UnderWay(p, w, b)
    modifies p`count, p`cursor, p`done, p`running, p`failed, w`table, w`saved, w`handled, w`offered, w`smooth,
             w`intact, w`full
    ensures AllRight(w, p.View())
    ensures if end.Broken? then !p.done && !p.running && p.failed else UnderWay(p, w, b)
    ensures w.offered == old(w.offered) + page
    ensures Stepped(old(w.table), w.table, b, old(p.cursor), p.cursor, end, page)
    ensures w.smooth ==> old(w.smooth) && !end.Broken?
    ensures w.full ==> old(w.full)
    ensures w.intact ==> old(w.intact) && Kept(old(w.table), w.table, b, page)
  {
    ghost var table0, cursor0 := w.table, p.cursor;
    ghost var handled0 := w.handled;
    var rows := FetchPage(p, w, b);
    ghost var table1 := w.table;
    page := if rows.Some? then rows.value else [];
    if w.intact {
      PageKept(table0, table1, w.now, b, cursor0, page);
    }
    if rows.None? || rows.value == [] {
      end := if rows.None? then Broken else Last;
      if rows.None? {
        Break(p, w);
      }
      return;
    }
    var o := w.Process(b, rows.value);
    if o.Failure? {
      Break(p, w);
      return Broken, page;
    }
    FinishPageOf(p, w, b, rows.value, o.n, handled0);
    TurnProgress(table0, table1, w.table, w.now, b, cursor0, page);
    if w.intact {
      PageKept(table1, w.table, w.now, b, cursor0, []);
      DriftKeepsWithin(table1, w.now, w.table, b);
    }
    end := if |rows.value| < PAGE_SIZE then Last else More;
  }

  lemma PageKept(table0: set<Row>, table1: set<Row>, now: int, b: int, cursor: Option<Row>, page: seq<Row>)
    requires b < now && Drifted(table0, now, table1) && table0 <= table1
    requires page == [] || IsPage(table1, b, CursorOf(cursor), PAGE_SIZE, page)
    ensures Kept(table0, table1, b, page)
  {
    DriftKeepsWithin(table0, now, table1, b);
  }

  lemma HonestGrows(table: set<Row>, now: int, barrier: Option<int>, cursor: Option<Row>, done: bool,
                    handled: set<(int, Row)>, handled': set<(int, Row)>)
    requires Honest(table, now, barrier, cursor, done, handled) && handled <= handled'
    ensures Honest(table, now, barrier, cursor, done, handled')
  {
  }

  /** The record moves past a finished page and is persisted, while the table drifts on. */
  method FinishPageOf(p: BatchProgress, w: World, b: int, rows: seq<Row>, n: int, ghost before: set<(int, Row)>)
    requires p.barrier == Some(b) && b < w.now && !p.done && p.running
    requires rows != [] && IsPage(w.table, b, CursorOf(p.cursor), PAGE_SIZE, rows)
    requires Honest(w.table, w.now, p.barrier, p.cursor, p.done, before)
    requires w.saved.Some? ==>
      Honest(w.table, w.now, w.saved.value.barrier, w.saved.value.cursor, w.saved.value.done, before)
    requires AllCounted(w, p.View()) && (w.full ==> n == |rows|)
    requires w.handled == before + set r | r in rows :: (b, r)
    modifies p`count, p`cursor, w`table, w`intact, w`saved
    ensures UnderWay(p, w, b)
    ensures p.View() == FinishPage(old(p.View()), rows, n)
    ensures Drifted(old(w.table), w.now, w.table)
    ensures w.intact == (old(w.intact) && old(w.table) <= w.table)
  {
    FinishedPageIsHonest(w.table, w.now, b, p.cursor, rows, before, w.handled);
    if w.saved.Some? {
      HonestGrows(w.table, w.now, w.saved.value.barrier, w.saved.value.cursor, w.saved.value.done, before, w.handled);
    }
    if w.intact && w.full {
      FinishedPageCounts(w.table, b, p.cursor, p.count, rows);
    }
    p.Advance(rows, n);
    DriftOn(w, p.View());
    var s := p.State();
    w.Save(s);
  }

  /** What a whole run did so far: `extra` are the rows it handed out, from cursor `c0` on. */
  ghost predicate RanTo(table: set<Row>, b: int, c0: Row, cursor: Option<Row>, extra: seq<Row>) {
    && Sorted(extra)
    && (forall r :: r in extra ==> Less(c0, r) && !Less(CursorOf(cursor), r) && r.createdAt <= b)
    && (forall r :: r in Above(table, b, c0) ==> r in extra || r in Above(table, b, CursorOf(cursor)))
    && !Less(CursorOf(cursor), c0)
  }

  /** The rows a run handed out, in strict key order and each above the cursor it started from. As
      long as nothing was deleted they are all still in the table. */
  ghost predicate HandedOut(table: set<Row>, b: int, c0: Row, extra: seq<Row>, intact: bool) {
    && Sorted(extra)
    && (forall r :: r in extra ==> Less(c0, r) && r.createdAt <= b)
    && (intact ==> forall r :: r in extra ==> r in table)
  }

  /** A run that finished handed out every row above its first cursor, and none lies above its last. */
  ghost predicate Completed(table: set<Row>, b: int, c0: Row, cursor: Option<Row>, extra: seq<Row>) {
    && (forall r :: r in Above(table, b, c0) ==> r in extra)
    && Above(table, b, CursorOf(cursor)) == {}
  }

  lemma SortedJoin(xs: seq<Row>, ys: seq<Row>, mid: Row)
    requires Sorted(xs) && Sorted(ys)
    requires (forall r :: r in xs ==> !Less(mid, r)) && (forall r :: r in ys ==> Less(mid, r))
    ensures Sorted(xs + ys)
  {
    forall i, j | 0 <= i < j < |xs + ys| ensures Less((xs + ys)[i], (xs + ys)[j]) {
      if i < |xs| <= j {
        assert xs[i] in xs && ys[j - |xs|] in ys;
      }
    }
  }

  lemma TurnExtendsRun(table0: set<Row>, table2: set<Row>, b: int, c0: Row, cursor: Option<Row>, cursor': Option<Row>,
                       end: PageEnd, extra: seq<Row>, page: seq<Row>)
    requires RanTo(table0, b, c0, cursor, extra) && Stepped(table0, table2, b, cursor, cursor', end, page)
    ensures Sorted(extra + page)
    ensures forall r :: r in extra + page ==> Less(c0, r) && r.createdAt <= b
    ensures !end.Broken? ==> RanTo(table2, b, c0, cursor', extra + page)
  {
    SortedJoin(extra, page, CursorOf(cursor));
    forall r | r in page ensures !end.Broken? ==> !Less(CursorOf(cursor'), r) {
      var i :| 0 <= i < |page| && page[i] == r;
    }
    if page != [] {
      assert page[|page| - 1] in page;
    }
    forall r | !end.Broken? && r in Above(table2, b, c0)
      ensures r in extra + page || r in Above(table2, b, CursorOf(cursor'))
    {
      assert r in Above(table0, b, c0);
      if r !in extra {
        assert r in Above(table2, b, CursorOf(cursor));
      }
    }
  }

  /** Sets or picks up the barrier and counts the rows within it. */
  method Begin(p: BatchProgress, w: World) returns (ok: bool, b: int, ghost counted: bool)
    requires p.running && !p.done && AllRight(w, p.View())
    modifies p`barrier, p`total, p`count, p`cursor, p`done, p`running, p`failed, w`now, w`saved, w`smooth, w`table,
             w`intact
    ensures AllRight(w, p.View())
    ensures if ok then UnderWay(p, w, b) else !p.done && !p.running && p.failed && !w.smooth
    ensures b == if old(p.barrier).Some? then old(p.barrier).value else old(w.now)
    ensures p.barrier == Some(b)
    ensures p.cursor == if old(p.barrier).Some? then old(p.cursor) else None
    ensures p.count == if old(p.barrier).Some? then old(p.count) else 0
    ensures w.smooth ==> old(w.smooth) && counted
    ensures counted ==> p.total == |Within(w.table, b)|
    ensures !counted && old(p.barrier).Some? ==> p.total == old(p.total)
    ensures w.intact ==> old(w.intact) && Within(w.table, b) == Within(old(w.table), b)
  {
    var resuming := p.barrier.Some?;
    ghost var table0 := w.table;
    if resuming {
      b := p.barrier.value;
    } else {
      b := w.now;
      p.barrier, p.total, p.count, p.cursor := Some(w.now), 0, 0, None;
      w.now := w.now + 1;
      assert Behind(w.table, b, EPOCH) == {};
    }
    DriftOn(w, p.View());
    if w.intact {
      DriftKeepsWithin(table0, w.now, w.table, b);
    }
    var total := w.Count(b);
    ok, counted := true, total.Some?;
    if total.Some? {
      p.total := total.value;
    } else if !resuming {
      Break(p, w);
      ok := false;
    }
  }

  /** The loop: it ends because each finished page leaves strictly fewer rows above the cursor. */
  method Loop(p: BatchProgress, w: World, b: int) returns (finished: bool, ghost extra: seq<Row>)
    requires UnderWay(p, w, b)
    modifies p`count, p`cursor, p`done, p`running, p`failed, w`table, w`saved, w`handled, w`offered, w`smooth,
             w`intact, w`full
    ensures AllRight(w, p.View())
    ensures if finished then UnderWay(p, w, b) else !p.done && !p.running && p.failed && !w.smooth
    ensures w.offered == old(w.offered) + extra
    ensures HandedOut(w.table, b, CursorOf(old(p.cursor)), extra, w.intact)
    ensures finished ==> Completed(w.table, b, CursorOf(old(p.cursor)), p.cursor, extra)
    ensures w.smooth ==> old(w.smooth)
    ensures w.full ==> old(w.full)
    ensures w.intact ==> old(w.intact) && Within(old(w.table), b) == Within(w.table, b)
  {
    extra := [];
    ghost var c0 := CursorOf(p.cursor);
    while true
      invariant UnderWay(p, w, b)
      invariant w.offered == old(w.offered) + extra
      invariant RanTo(w.table, b, c0, p.cursor, extra)
      invariant w.smooth ==> old(w.smooth)
      invariant w.full ==> old(w.full)
      invariant w.intact ==> old(w.intact) && Kept(old(w.table), w.table, b, extra)
      decreases Above(w.table, b, CursorOf(p.cursor))
    {
      ghost var table1, cursor1 := w.table, p.cursor;
      var end, page := Turn(p, w, b);
      TurnExtendsRun(table1, w.table, b, c0, cursor1, p.cursor, end, extra, page);
      KeptJoin(old(w.table), table1, w.table, b, extra, page);
      extra := extra + page;
      if end.Broken? {
        return false, extra;
      }
      if end.Last? {
        return true, extra;
      }
    }
  }

  lemma KeptJoin(table0: set<Row>, table1: set<Row>, table2: set<Row>, b: int, extra: seq<Row>, page: seq<Row>)
    requires forall r :: r in extra ==> r.createdAt <= b
    ensures Kept(table0, table1, b, extra) && Kept(table1, table2, b, page) ==> Kept(table0, table2, b, extra + page)
  {
    if Kept(table0, table1, b, extra) && Kept(table1, table2, b, page) {
      forall r | r in extra ensures r in table2 {
        assert r in Within(table1, b);
      }
    }
  }

  /** The end of the loop: the record is done, then persisted. */
  method Finish(p: BatchProgress, w: World, b: int)
    requires UnderWay(p, w, b) && Above(w.table, b, CursorOf(p.cursor)) == {}
    modifies p`done, p`resumable, w`saved
    ensures AllRight(w, p.View()) && p.done && !p.resumable
    ensures w.intact && w.full && p.total == |Within(w.table, b)| ==>
              (p.count == p.total <==> NoneBelowEpoch(w.table, b))
  {
    NothingAboveIsCovered(w, p.View(), b);
    if w.intact && w.full && p.total == |Within(w.table, b)| {
      CleanRunReachesTotalExactly(w.table, b, p.cursor, p.count, p.total);
    }
    p.MarkDone();
    var s := p.State();
    w.Save(s);
  }

  /** The whole run, up to and including the release of the job slot. `extra` are the rows it
      handed to the batch function; `counted` says whether the rows within the barrier could be
      counted. */
  method Run(p: BatchProgress, w: World, ctrl: Controller, job: string)
    returns (ghost extra: seq<Row>, ghost counted: bool)
    requires p.running && !p.done && AllRight(w, p.View())
    modifies p, w, ctrl
    ensures ctrl.active == old(ctrl.active) - {job}
    // whatever happened, neither the record nor the persisted state claims or counts too much
    ensures AllRight(w, p.View())
    ensures p.barrier == Some(if old(p.barrier).Some? then old(p.barrier).value else old(w.now))
    ensures if p.done then !p.resumable else p.failed && !p.running && CanResume(p.View())
    ensures w.smooth ==> p.done && counted
    // the rows handed out are in strict key order, so none is handed out twice, and they lie
    // above the cursor the run started from; a finished run left none of those out
    ensures w.offered == old(w.offered) + extra
    ensures var c0 := if old(p.barrier).Some? then CursorOf(old(p.cursor)) else EPOCH;
            && HandedOut(w.table, p.barrier.value, c0, extra, w.intact)
            && (p.done ==> Completed(w.table, p.barrier.value, c0, p.cursor, extra))
    ensures forall i, j :: 0 <= i < j < |extra| ==>
              extra[i].createdAt < extra[j].createdAt
              || (extra[i].createdAt == extra[j].createdAt && extra[i].hash < extra[j].hash)
    // a fresh run that is done handed out every row from after the epoch
    ensures old(p.barrier).None? && p.done ==>
              forall r :: r in w.table && 0 < r.createdAt <= p.barrier.value ==> r in extra
    // the counter at the end of any run, fresh or resumed, as long as nothing was ever deleted and
    // the batch function counted every row
    ensures p.done && counted && w.intact && w.full ==>
              (p.count == p.total <==> NoneBelowEpoch(w.table, p.barrier.value))
  {
    extra := [];
    var ok, b;
    ok, b, counted := Begin(p, w);
    if ok {
      extra := PageOn(p, w, b, counted);
    }
    ctrl.Release(job);
  }

  /** The loop and, if it comes to its end, the end of the run. */
  method PageOn(p: BatchProgress, w: World, b: int, ghost counted: bool) returns (ghost extra: seq<Row>)
    requires UnderWay(p, w, b) && (counted ==> p.total == |Within(w.table, b)|)
    modifies p, w
    ensures AllRight(w, p.View()) && p.barrier == Some(b)
    ensures if p.done then !p.resumable else p.failed && !p.running && CanResume(p.View())
    ensures w.smooth ==> old(w.smooth) && p.done
    ensures w.intact ==> old(w.intact)
    ensures w.offered == old(w.offered) + extra
    ensures HandedOut(w.table, b, CursorOf(old(p.cursor)), extra, w.intact)
    ensures p.done ==> Completed(w.table, b, CursorOf(old(p.cursor)), p.cursor, extra)
    ensures p.done && counted && w.intact && w.full ==> (p.count == p.total <==> NoneBelowEpoch(w.table, b))
  {
    var finished;
    finished, extra := Loop(p, w, b);
    if finished {
      Finish(p, w, b);
    }
  }

  /** At the end of a run the counter, if it is right, is at the total exactly when no row within
      the barrier lies at or below the epoch cursor. */
  lemma CleanRunReachesTotalExactly(table: set<Row>, b: int, cursor: Option<Row>, count: int, total: int)
    requires Above(table, b, CursorOf(cursor)) == {} && !Less(CursorOf(cursor), EPOCH)
    requires CountsRight(table, b, cursor, count) && total == |Within(table, b)|
    ensures count == total <==> NoneBelowEpoch(table, b)
  {
    assert Behind(table, b, CursorOf(cursor)) == Above(table, b, EPOCH) by {
      forall r | r in Above(table, b, EPOCH) ensures r in Behind(table, b, CursorOf(cursor)) {
        assert r !in Above(table, b, CursorOf(cursor));
      }
    }
    CountReachesTotalExactly(table, b);
  }

  lemma NothingAboveIsCovered(w: World, p: Progress, b: int)
    requires AllHonest(w, p) && p.barrier == Some(b) && Above(w.table, b, CursorOf(p.cursor)) == {}
    ensures AllHonest(w, Complete(p))
  {
    forall r | r in w.table && r.createdAt <= b && Less(EPOCH, r) ensures (b, r) in w.handled {
      assert r !in Above(w.table, b, CursorOf(p.cursor));
    }
  }

  datatype StartError = AlreadyRunning | SlotTaken | PrepareFailed

  class BatchTracker {
    var progress: BatchProgress?
    const ctrl: Controller
    const job: string

    constructor (ctrl: Controller, job: string)
      ensures this.ctrl == ctrl && this.job == job && progress == null
    {
      this.ctrl := ctrl;
      this.job := job;
      progress := null;
    }

    /** Restores what was persisted, once, at startup. */
    method Load(saved: Option<Saved>, fingerprint: string)
      modifies this
      ensures saved.None? ==> progress == old(progress)
      ensures saved.Some? ==> progress != null && fresh(progress) && progress.View() == LoadOf(saved.value, fingerprint)
      // it goes on where it was, can be resumed unless it was done, and a changed configuration shows
      ensures saved.Some? ==>
        && progress.barrier == saved.value.barrier && progress.cursor == saved.value.cursor
        && progress.count == saved.value.count && progress.total == saved.value.total
        && progress.done == saved.value.done && !progress.running && !progress.failed
        && progress.configChanged == (saved.value.fingerprint != fingerprint)
        && (CanResume(progress.View()) <==> !saved.value.done && saved.value.barrier.Some?)
    {
      if saved.Some? {
        progress := new BatchProgress(LoadOf(saved.value, fingerprint));
      }
    }

    /** Takes the job slot and readies a progress record, resumed or fresh, for Run. `prepared`
        says whether PrepareFresh succeeds when it is called. On every error the slot is left as
        it was. */
    method Start(fingerprint: string, forceFresh: bool, prepared: bool) returns (r: Result<BatchProgress, StartError>)
      modifies this, ctrl, progress
      ensures ctrl.active == if r.Ok? then {job} else old(ctrl.active)
      ensures r.Err? ==> progress == old(progress) && (progress != null ==> progress.View() == old(progress.View()))
      ensures r.Err? <==>
        || (old(progress) != null && old(progress.running) && !old(progress.done))
        || old(ctrl.active) != {}
        || (!prepared && (forceFresh || old(progress) == null || !CanResume(old(progress.View()))))
      ensures r.Ok? ==> r.value == progress && progress.running && !progress.done && !progress.failed
      ensures r.Ok? && !forceFresh && old(progress) != null && CanResume(old(progress.View())) ==>
        && progress == old(progress)
        && progress.View() == old(progress.View()).(
             running := true, failed := false, configChanged := old(progress.fingerprint) != fingerprint)
      ensures r.Ok? && (forceFresh || old(progress) == null || !CanResume(old(progress.View()))) ==>
        fresh(progress) && progress.View() == Fresh(fingerprint).(running := true)
    {
      if progress != null && progress.running && !progress.done {
        return Err(AlreadyRunning);
      }
      var acquired := ctrl.TryAcquire(job);
      if !acquired {
        return Err(SlotTaken);
      }
      if !forceFresh && progress != null && progress.MayResume() {
        progress.configChanged := progress.fingerprint != fingerprint;
      } else {
        if !prepared {
          ctrl.Release(job);
          return Err(PrepareFailed);
        }
        progress := new BatchProgress(Fresh(fingerprint));
      }
      progress.running, progress.failed := true, false;
      r := Ok(progress);
    }
  }
}
