/** The torrent table as the batch jobs see it, the keyset pages they read from it, and the
    progress record of a job with the transitions its methods make. */
module BatchTypes {
  import opened Wrappers

  /** A row's sort key. Info hashes are hex strings of one length, compared as the numbers they
      spell; `hash` is that number plus one, so that 0 stands for the empty string. */
  datatype Row = Row(createdAt: int, hash: nat)

  const PAGE_SIZE: nat := 50

  /** Pagination starts above the Unix epoch with an empty hash. */
  const EPOCH := Row(0, 0)

  predicate Less(a: Row, b: Row) {
    a.createdAt < b.createdAt || (a.createdAt == b.createdAt && a.hash < b.hash)
  }

  ghost predicate Sorted(rows: seq<Row>) {
    forall i, j :: 0 <= i < j < |rows| ==> Less(rows[i], rows[j])
  }

  /** The rows a job with this barrier still has in front of it. */
  function Above(table: set<Row>, barrier: int, cursor: Row): set<Row> {
    set r | r in table && r.createdAt <= barrier && Less(cursor, r)
  }

  /** ListTorrentsPageAfter: the first `n` rows above the cursor and within the barrier. */
  ghost predicate IsPage(table: set<Row>, barrier: int, cursor: Row, n: nat, rows: seq<Row>) {
    && Sorted(rows) && |rows| <= n
    && (forall r :: r in rows ==> r in Above(table, barrier, cursor))
    && (forall r :: r in Above(table, barrier, cursor) && r !in rows ==>
          |rows| == n && forall q :: q in rows ==> Less(q, r))
  }

  predicate IsLeast(s: set<Row>, m: Row) {
    m in s && forall r :: r in s ==> r == m || Less(m, r)
  }

  /** The smallest row of a set. */
  function Least(s: set<Row>): (m: Row)
    requires s != {}
    ensures IsLeast(s, m)
  {
    LeastExists(s);
    var m :| IsLeast(s, m);
    m
  }

  lemma LeastJoin(rest: set<Row>, m: Row, x: Row)
    requires IsLeast(rest, m)
    ensures IsLeast(rest + {x}, if Less(x, m) then x else m)
  {
  }

  lemma {:induction false} LeastExists(s: set<Row>)
    requires s != {}
    ensures exists m :: IsLeast(s, m)
    decreases |s|
  {
    var x :| x in s;
    var rest := s - {x};
    assert rest + {x} == s;
    if rest == {} {
      assert IsLeast(s, x);
    } else {
      LeastExists(rest);
      var m :| IsLeast(rest, m);
      LeastJoin(rest, m, x);
    }
  }

  /** The first `n` rows of a set, in order. */
  function FirstRows(s: set<Row>, n: nat): seq<Row> {
    if n == 0 || s == {} then [] else [Least(s)] + FirstRows(s - {Least(s)}, n - 1)
  }

  lemma {:induction false} FirstRowsFacts(s: set<Row>, n: nat)
    ensures var rows := FirstRows(s, n);
            && Sorted(rows) && |rows| <= n
            && (forall r :: r in rows ==> r in s)
            && (forall r :: r in s && r !in rows ==> |rows| == n && forall q :: q in rows ==> Less(q, r))
  {
    if n > 0 && s != {} {
      FirstRowsFacts(s - {Least(s)}, n - 1);
    }
  }

  /** The query has an answer for every table, barrier and cursor. */
  lemma PageExists(table: set<Row>, barrier: int, cursor: Row, n: nat)
    ensures IsPage(table, barrier, cursor, n, FirstRows(Above(table, barrier, cursor), n))
  {
    FirstRowsFacts(Above(table, barrier, cursor), n);
  }

  // ---------- progress ----------

  datatype Progress = Progress(
    total: int,
    count: int,
    done: bool,
    running: bool,
    resumable: bool,
    configChanged: bool,
    failed: bool,            // an error message is set
    barrier: Option<int>,
    cursor: Option<Row>,     // the last row of the last finished page
    fingerprint: string)

  /** What is persisted. A missing time and the zero time are the same thing. */
  datatype Saved = Saved(
    barrier: Option<int>, cursor: Option<Row>, total: int, count: int, done: bool, fingerprint: string)

  /** cursorParam: an empty cursor becomes the epoch. */
  function CursorOf(cursor: Option<Row>): Row {
    if cursor.Some? then cursor.value else EPOCH
  }

  function Fresh(fingerprint: string): Progress {
    Progress(0, 0, false, false, true, false, false, None, None, fingerprint)
  }

  predicate CanResume(p: Progress) { !p.done && p.barrier.Some? }

  function Fail(p: Progress): Progress { p.(done := false, running := false, failed := true) }

  function SetBarrier(p: Progress, now: int): Progress {
    p.(barrier := Some(now), total := 0, count := 0, cursor := None)
  }

  function FinishPage(p: Progress, rows: seq<Row>, processed: int): Progress
    requires rows != []
  {
    p.(count := p.count + processed, cursor := Some(rows[|rows| - 1]))
  }

  function Complete(p: Progress): Progress { p.(done := true, resumable := false) }

  function SaveOf(p: Progress): Saved {
    Saved(p.barrier, p.cursor, p.total, p.count, p.done, p.fingerprint)
  }

  function LoadOf(s: Saved, fingerprint: string): Progress {
    Progress(s.total, s.count, s.done, false, !s.done && s.barrier.Some?, s.fingerprint != fingerprint, false,
             s.barrier, s.cursor, s.fingerprint)
  }

  // ---------- what a job has covered ----------

  /** Every remaining row within the barrier and up to the cursor was in a page that the job
      finished, in the run with this barrier. */
  ghost predicate CoveredTo(table: set<Row>, barrier: int, cursor: Row, handled: set<(int, Row)>) {
    forall r :: r in table && r.createdAt <= barrier && Less(EPOCH, r) && !Less(cursor, r) ==> (barrier, r) in handled
  }

  ghost predicate Covered(table: set<Row>, barrier: int, handled: set<(int, Row)>) {
    forall r :: r in table && r.createdAt <= barrier && Less(EPOCH, r) ==> (barrier, r) in handled
  }

  /** A progress record, in memory or persisted, that does not claim more than was done. */
  ghost predicate Honest(table: set<Row>, now: int, barrier: Option<int>, cursor: Option<Row>, done: bool,
                         handled: set<(int, Row)>) {
    && (barrier.Some? ==> barrier.value < now && CoveredTo(table, barrier.value, CursorOf(cursor), handled))
    && (done ==> barrier.Some? && Covered(table, barrier.value, handled))
    && (cursor.Some? ==> !Less(cursor.value, EPOCH))
  }
}
