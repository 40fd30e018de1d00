/**
 The maintenance jobs as a protocol: any number of trackers that share one job slot, run
 goroutines that page through the torrent table, rows that are inserted and deleted meanwhile,
 page and save failures, panics, cancellation, crashes, and reloading from the persisted state.

 A tracker's progress object is its `cell`; after Discard the tracker no longer refers to it, but
 a goroutine that is still finishing does.
 */
module JobProtocol {
  import opened Wrappers
  import opened BatchTypes

  /** Where the holder of the job slot stands. */
  datatype Pc =
    | Preparing(fingerprint: string)  // the slot is taken, PrepareFresh runs
    | Entered
    | Counting(resuming: bool)
    | Looping
    | Running(rows: seq<Row>)         // the page is with the batch function
    | PageSave(short: bool)
    | FailSave
    | FinalSave
    | Exiting

  datatype Proc = Proc(tracker: nat, pc: Pc)

  datatype Tracker = Tracker(
    job: string,
    attached: bool,
    cell: Progress,
    store: Option<Saved>,
    handled: set<(int, Row)>)   // rows of pages for which the batch function returned nil, by barrier

  datatype System = System(
    table: set<Row>,
    now: int,
    active: set<string>,         // the controller's active jobs
    trackers: map<nat, Tracker>,
    procs: map<nat, Proc>)

  datatype Step =
    | Insert(r: Row)
    | Delete(r: Row)
    | Tick
    | Crash
    | Load(t: nat, fingerprint: string)
    | Discard(t: nat, deleted: bool)
    | Resume(t: nat, g: nat, fingerprint: string)      // Start, resuming
    | StartFresh(t: nat, g: nat, fingerprint: string)  // Start, up to PrepareFresh
    | Prepared(g: nat, ok: bool)
    | Begin(g: nat)
    | Counted(g: nat, total: Option<nat>)
    | Listed(g: nat, rows: seq<Row>)
    | Returned(g: nat, processed: int)
    | Failed(g: nat)             // an error, a cancellation or a panic
    | Saves(g: nat, lost: bool)
    | Release(g: nat)

  /** Nobody is inside Start for this tracker. */
  predicate Unlocked(s: System, t: nat) {
    forall g :: g in s.procs && s.procs[g].tracker == t ==> !s.procs[g].pc.Preparing?
  }

  predicate Idle(t: Tracker) { !(t.attached && t.cell.running && !t.cell.done) }

  /** Start can take the job slot for this tracker. */
  predicate CanStart(s: System, t: nat, g: nat) {
    t in s.trackers && Unlocked(s, t) && Idle(s.trackers[t]) && s.active == {} && g !in s.procs
  }

  predicate At(s: System, g: nat) { g in s.procs && s.procs[g].tracker in s.trackers }

  ghost predicate Enabled(s: System, step: Step) {
    match step
    case Insert(r) => r.createdAt >= s.now
    case Delete(_) => true
    case Tick => true
    case Crash => true
    case Load(t, _) => t in s.trackers && !s.trackers[t].attached && s.trackers[t].store.Some?
                       && forall g :: g in s.procs ==> s.procs[g].tracker != t
    case Discard(t, _) => t in s.trackers && Unlocked(s, t) && Idle(s.trackers[t])
    case Resume(t, g, _) => CanStart(s, t, g) && s.trackers[t].attached && CanResume(s.trackers[t].cell)
    case StartFresh(t, g, _) => CanStart(s, t, g)
    case Prepared(g, _) => At(s, g) && s.procs[g].pc.Preparing?
    case Begin(g) => At(s, g) && s.procs[g].pc.Entered?
    case Counted(g, _) => At(s, g) && s.procs[g].pc.Counting?
    case Listed(g, rows) =>
      && At(s, g) && s.procs[g].pc.Looping?
      && var c := s.trackers[s.procs[g].tracker].cell;
         c.barrier.Some? && IsPage(s.table, c.barrier.value, CursorOf(c.cursor), PAGE_SIZE, rows)
    case Returned(g, _) => At(s, g) && s.procs[g].pc.Running? && s.procs[g].pc.rows != []
                           && s.trackers[s.procs[g].tracker].cell.barrier.Some?
    case Failed(g) => At(s, g) && (s.procs[g].pc.Counting? || s.procs[g].pc.Looping? || s.procs[g].pc.Running?)
    case Saves(g, _) => At(s, g) && (s.procs[g].pc.PageSave? || s.procs[g].pc.FailSave? || s.procs[g].pc.FinalSave?)
    case Release(g) => At(s, g) && s.procs[g].pc.Exiting?
  }

  /** What one step of a run goroutine does to its tracker and to where it stands. */
  function RunStep(t: Tracker, pc: Pc, now: int, step: Step): (Tracker, Pc) {
    match (pc, step)
    case (Preparing(fp), Prepared(_, ok)) =>
      if ok then (t.(attached := true, cell := Fresh(fp).(running := true)), Entered) else (t, Exiting)
    case (Entered, Begin(_)) =>
      if t.cell.barrier.Some? then (t, Counting(true)) else (t.(cell := SetBarrier(t.cell, now)), Counting(false))
    case (Counting(resuming), Counted(_, total)) =>
      if total.Some? then (t.(cell := t.cell.(total := total.value)), Looping)
      else if resuming then (t, Looping)
      else (t.(cell := Fail(t.cell)), FailSave)
    case (Looping, Listed(_, rows)) =>
      if rows == [] then (t.(cell := Complete(t.cell)), FinalSave) else (t, Running(rows))
    case (Running(rows), Returned(_, n)) =>
      if rows == [] || t.cell.barrier.None? then (t, pc)
      else (t.(cell := FinishPage(t.cell, rows, n),
               handled := t.handled + set r | r in rows :: (t.cell.barrier.value, r)),
            PageSave(|rows| < PAGE_SIZE))
    case (_, Failed(_)) => (t.(cell := Fail(t.cell)), FailSave)
    case (_, Saves(_, lost)) =>
      var u := if lost then t else t.(store := Some(SaveOf(t.cell)));
      if pc.PageSave? then
        if pc.short then (u.(cell := Complete(u.cell)), FinalSave) else (u, Looping)
      else (u, Exiting)
    case _ => (t, pc)
  }

  /** The goroutine that a step belongs to, when it is one that RunStep describes. */
  function StepOf(step: Step): Option<nat> {
    match step
    case Prepared(g, _) => Some(g)
    case Begin(g) => Some(g)
    case Counted(g, _) => Some(g)
    case Listed(g, _) => Some(g)
    case Returned(g, _) => Some(g)
    case Failed(g) => Some(g)
    case Saves(g, _) => Some(g)
    case _ => None
  }

  function RunAt(s: System, g: nat, step: Step): System
    requires At(s, g)
  {
    var p := s.procs[g];
    var (t, pc) := RunStep(s.trackers[p.tracker], p.pc, s.now, step);
    s.(trackers := s.trackers[p.tracker := t],
       procs := s.procs[g := p.(pc := pc)],
       now := if step.Begin? then s.now + 1 else s.now)
  }

  ghost function Apply(s: System, step: Step): System
    requires Enabled(s, step)
  {
    match step
    case Insert(r) => s.(table := s.table + {r})
    case Delete(r) => s.(table := s.table - {r})
    case Tick => s.(now := s.now + 1)
    case Crash =>
      s.(active := {}, procs := map[],
         trackers := map t | t in s.trackers :: s.trackers[t].(attached := false, cell := Fresh("")))
    case Load(t, fp) =>
      var tr := s.trackers[t];
      s.(trackers := s.trackers[t := tr.(attached := true, cell := LoadOf(tr.store.value, fp))])
    case Discard(t, deleted) =>
      var tr := s.trackers[t];
      s.(trackers := s.trackers[t := tr.(attached := false, store := if deleted then None else tr.store)])
    case Resume(t, g, fp) =>
      var tr := s.trackers[t];
      var c := tr.cell.(configChanged := tr.cell.fingerprint != fp, running := true, failed := false);
      s.(active := {tr.job}, trackers := s.trackers[t := tr.(cell := c)], procs := s.procs[g := Proc(t, Entered)])
    case StartFresh(t, g, fp) =>
      s.(active := {s.trackers[t].job}, procs := s.procs[g := Proc(t, Preparing(fp))])
    case Release(g) =>
      var job := s.trackers[s.procs[g].tracker].job;
      s.(active := s.active - {job}, procs := map h | h in s.procs && h != g :: s.procs[h])
    case _ => RunAt(s, StepOf(step).value, step)
  }

  ghost predicate Run(s: System, steps: seq<Step>, u: System)
    decreases |steps|
  {
    if steps == [] then s == u
    else Enabled(s, steps[0]) && Run(Apply(s, steps[0]), steps[1..], u)
  }

  ghost predicate Init(s: System) {
    && s.active == {} && s.procs == map[]
    && forall t :: t in s.trackers ==>
         s.trackers[t] == Tracker(s.trackers[t].job, false, Fresh(""), None, {})
  }

  // ---------- the job slot ----------

  /** The slot is held exactly while one goroutine, or one Start that prepares it, is under way. */
  ghost predicate SlotOk(s: System) {
    && (s.procs == map[] ==> s.active == {})
    && (forall g :: g in s.procs ==>
          s.procs[g].tracker in s.trackers && s.active == {s.trackers[s.procs[g].tracker].job})
    && (forall g, h :: g in s.procs && h in s.procs ==> g == h)
  }

  lemma WorkKeepsSlot(s: System, step: Step)
    requires SlotOk(s) && Enabled(s, step) && StepOf(step).Some?
    ensures SlotOk(Apply(s, step))
  {
  }

  lemma StartKeepsSlot(s: System, step: Step)
    requires SlotOk(s) && Enabled(s, step) && (step.Resume? || step.StartFresh?)
    ensures SlotOk(Apply(s, step))
  {
  }

  lemma StepKeepsSlot(s: System, step: Step)
    requires SlotOk(s) && Enabled(s, step)
    ensures SlotOk(Apply(s, step))
  {
    if step.Resume? || step.StartFresh? {
      StartKeepsSlot(s, step);
    } else if StepOf(step).Some? {
      WorkKeepsSlot(s, step);
    }
  }

  // ---------- coverage ----------

  /** Nothing is left above the cursor within the barrier. */
  ghost predicate NothingAbove(table: set<Row>, barrier: int, cursor: Row) {
    forall r :: r in table && r.createdAt <= barrier ==> !Less(cursor, r)
  }

  ghost predicate UnderWay(t: Tracker) { t.attached && t.cell.running && !t.cell.done }

  /** What a goroutine at `pc` knows about its tracker. */
  ghost predicate PcOk(t: Tracker, pc: Pc, table: set<Row>, now: int) {
    match pc
    case Preparing(_) => true
    case Entered => UnderWay(t)
    case Counting(_) => UnderWay(t) && t.cell.barrier.Some?
    case Looping => UnderWay(t) && t.cell.barrier.Some?
    case Running(rows) =>
      && UnderWay(t) && t.cell.barrier.Some? && rows != []
      && var b, c := t.cell.barrier.value, CursorOf(t.cell.cursor);
         && Sorted(rows)
         && (forall r :: r in rows ==> Less(c, r) && r.createdAt <= b)
         && (forall r :: r in table && r.createdAt <= b && Less(c, r) && r !in rows ==>
               |rows| >= PAGE_SIZE && Less(rows[|rows| - 1], r))
    case PageSave(short) =>
      && UnderWay(t) && t.cell.barrier.Some?
      && (short ==> NothingAbove(table, t.cell.barrier.value, CursorOf(t.cell.cursor)))
    case FailSave => true
    case FinalSave => true
    case Exiting => true
  }

  ghost predicate TrackerOk(t: Tracker, table: set<Row>, now: int) {
    && Honest(table, now, t.cell.barrier, t.cell.cursor, t.cell.done, t.handled)
    && (forall h :: h in t.handled ==> Less(EPOCH, h.1) && h.1.createdAt <= h.0)
    && (t.store.Some? ==>
          Honest(table, now, t.store.value.barrier, t.store.value.cursor, t.store.value.done, t.handled))
  }

  ghost predicate Ok(s: System) {
    && SlotOk(s)
    && (forall t :: t in s.trackers ==> TrackerOk(s.trackers[t], s.table, s.now))
    && (forall g :: g in s.procs ==> PcOk(s.trackers[s.procs[g].tracker], s.procs[g].pc, s.table, s.now))
  }

  /** The table may lose rows, gain rows younger than every barrier, and time may pass. */
  ghost predicate Evolves(table: set<Row>, now: int, table': set<Row>, now': int) {
    now <= now' && forall r :: r in table' ==> r in table || r.createdAt >= now
  }

  lemma TrackerKept(t: Tracker, table: set<Row>, now: int, table': set<Row>, now': int)
    requires TrackerOk(t, table, now) && Evolves(table, now, table', now')
    ensures TrackerOk(t, table', now')
  {
  }

  lemma PcKept(t: Tracker, pc: Pc, table: set<Row>, now: int, table': set<Row>, now': int)
    requires TrackerOk(t, table, now) && PcOk(t, pc, table, now) && Evolves(table, now, table', now')
    ensures PcOk(t, pc, table', now')
  {
  }

  /** A finished page moves the cursor to its last row, and every row up to there is handled. */
  lemma PageFinished(t: Tracker, rows: seq<Row>, n: int, table: set<Row>, now: int)
    requires TrackerOk(t, table, now) && PcOk(t, Running(rows), table, now)
    ensures var (u, pc) := RunStep(t, Running(rows), now, Returned(0, n));
            TrackerOk(u, table, now) && PcOk(u, pc, table, now)
  {
    var (u, pc) := RunStep(t, Running(rows), now, Returned(0, n));
    var b, c, last := t.cell.barrier.value, CursorOf(t.cell.cursor), rows[|rows| - 1];
    assert last in rows && u.handled >= t.handled;
    forall r | r in table && r.createdAt <= b && Less(EPOCH, r) && !Less(last, r) ensures (b, r) in u.handled {
      assert !Less(c, r) || r in rows;
    }
    forall r | r in table && r.createdAt <= b && |rows| < PAGE_SIZE ensures !Less(last, r) {
      if r in rows {
        var i :| 0 <= i < |rows| && rows[i] == r;
        assert !(i < |rows| - 1) ==> r == last;
      }
    }
  }

  lemma PageListed(t: Tracker, rows: seq<Row>, table: set<Row>, now: int)
    requires TrackerOk(t, table, now) && PcOk(t, Looping, table, now)
    requires IsPage(table, t.cell.barrier.value, CursorOf(t.cell.cursor), PAGE_SIZE, rows)
    ensures var (u, pc) := RunStep(t, Looping, now, Listed(0, rows));
            TrackerOk(u, table, now) && PcOk(u, pc, table, now)
  {
    var b, c := t.cell.barrier.value, CursorOf(t.cell.cursor);
    forall r | r in table && r.createdAt <= b && Less(c, r) && r !in rows
      ensures |rows| == PAGE_SIZE && (rows != [] ==> Less(rows[|rows| - 1], r))
    {
      assert r in Above(table, b, c);
      assert rows != [] ==> rows[|rows| - 1] in rows;
    }
  }

  lemma SaveDone(t: Tracker, pc: Pc, lost: bool, table: set<Row>, now: int)
    requires TrackerOk(t, table, now) && PcOk(t, pc, table, now)
    requires pc.PageSave? || pc.FailSave? || pc.FinalSave?
    ensures var (u, pc') := RunStep(t, pc, now, Saves(0, lost));
            TrackerOk(u, table, now) && PcOk(u, pc', table, now)
  {
  }

  lemma BeginDone(t: Tracker, table: set<Row>, now: int)
    requires TrackerOk(t, table, now) && PcOk(t, Entered, table, now)
    ensures var (u, pc) := RunStep(t, Entered, now, Begin(0));
            TrackerOk(u, table, now + 1) && PcOk(u, pc, table, now + 1)
  {
  }

  lemma ShortStepDone(t: Tracker, pc: Pc, step: Step, table: set<Row>, now: int)
    requires TrackerOk(t, table, now) && PcOk(t, pc, table, now)
    requires (step.Prepared? && pc.Preparing?) || (step.Counted? && pc.Counting?) || step.Failed?
    ensures var (u, pc') := RunStep(t, pc, now, step);
            TrackerOk(u, table, now) && PcOk(u, pc', table, now)
  {
  }

  /** After the step, goroutine `g` and its tracker are in order. */
  ghost predicate RanOk(s: System, g: nat, step: Step)
    requires At(s, g)
  {
    var p := s.procs[g];
    var (u, pc) := RunStep(s.trackers[p.tracker], p.pc, s.now, step);
    var now' := if step.Begin? then s.now + 1 else s.now;
    TrackerOk(u, s.table, now') && PcOk(u, pc, s.table, now')
  }

  lemma PageStepKeepsOk(s: System, g: nat, step: Step)
    requires Ok(s) && Enabled(s, step) && StepOf(step) == Some(g) && (step.Listed? || step.Returned?)
    ensures RanOk(s, g, step)
  {
    var t, pc := s.trackers[s.procs[g].tracker], s.procs[g].pc;
    if step.Listed? {
      PageListed(t, step.rows, s.table, s.now);
    } else {
      PageFinished(t, pc.rows, step.processed, s.table, s.now);
    }
  }

  lemma OtherStepKeepsOk(s: System, g: nat, step: Step)
    requires Ok(s) && Enabled(s, step) && StepOf(step) == Some(g) && !step.Listed? && !step.Returned?
    ensures RanOk(s, g, step)
  {
    var t, pc := s.trackers[s.procs[g].tracker], s.procs[g].pc;
    if step.Begin? {
      BeginDone(t, s.table, s.now);
    } else if step.Saves? {
      SaveDone(t, pc, step.lost, s.table, s.now);
    } else {
      ShortStepDone(t, pc, step, s.table, s.now);
    }
  }

  lemma RunAtKeepsOk(s: System, g: nat, step: Step)
    requires Ok(s) && Enabled(s, step) && StepOf(step) == Some(g) && SlotOk(RunAt(s, g, step))
    ensures Ok(RunAt(s, g, step))
  {
    if step.Listed? || step.Returned? {
      PageStepKeepsOk(s, g, step);
    } else {
      OtherStepKeepsOk(s, g, step);
    }
    var u := RunAt(s, g, step);
    forall t | t in u.trackers ensures TrackerOk(u.trackers[t], u.table, u.now) {
      if t != s.procs[g].tracker {
        TrackerKept(s.trackers[t], s.table, s.now, u.table, u.now);
      }
    }
  }

  /** Inserts above every barrier, deletions and the passing of time. */
  lemma TableStepKeepsOk(s: System, table': set<Row>, now': int)
    requires Ok(s) && Evolves(s.table, s.now, table', now')
    ensures Ok(s.(table := table', now := now'))
  {
    var u := s.(table := table', now := now');
    forall t | t in u.trackers ensures TrackerOk(u.trackers[t], u.table, u.now) {
      TrackerKept(s.trackers[t], s.table, s.now, table', now');
    }
    forall g | g in u.procs ensures PcOk(u.trackers[u.procs[g].tracker], u.procs[g].pc, u.table, u.now) {
      PcKept(s.trackers[s.procs[g].tracker], s.procs[g].pc, s.table, s.now, table', now');
    }
  }

  lemma CrashKeepsOk(s: System)
    requires Ok(s)
    ensures Ok(Apply(s, Crash))
  {
    var u := Apply(s, Crash);
    forall t | t in u.trackers ensures TrackerOk(u.trackers[t], u.table, u.now) {
      assert TrackerOk(s.trackers[t], s.table, s.now);
    }
  }

  lemma TrackerStepKeepsOk(s: System, step: Step)
    requires Ok(s) && Enabled(s, step) && SlotOk(Apply(s, step))
    requires step.Load? || step.Discard? || step.Resume? || step.StartFresh? || step.Release?
    ensures Ok(Apply(s, step))
  {
    var u := Apply(s, step);
    forall t | t in u.trackers ensures TrackerOk(u.trackers[t], u.table, u.now) {
      assert TrackerOk(s.trackers[t], s.table, s.now);
    }
    forall g | g in u.procs ensures PcOk(u.trackers[u.procs[g].tracker], u.procs[g].pc, u.table, u.now) {
      assert g in s.procs ==> PcOk(s.trackers[s.procs[g].tracker], s.procs[g].pc, s.table, s.now);
    }
  }

  lemma StepKeepsOk(s: System, step: Step)
    requires Ok(s) && Enabled(s, step)
    ensures Ok(Apply(s, step))
  {
    StepKeepsSlot(s, step);
    if step.Insert? {
      TableStepKeepsOk(s, s.table + {step.r}, s.now);
    } else if step.Delete? {
      TableStepKeepsOk(s, s.table - {step.r}, s.now);
    } else if step.Tick? {
      TableStepKeepsOk(s, s.table, s.now + 1);
    } else if step.Crash? {
      CrashKeepsOk(s);
    } else if StepOf(step).Some? {
      RunAtKeepsOk(s, StepOf(step).value, step);
    } else {
      TrackerStepKeepsOk(s, step);
    }
  }

  lemma {:induction false} RunKeepsOk(s: System, steps: seq<Step>, u: System)
    requires Ok(s) && Run(s, steps, u)
    ensures Ok(u)
    decreases |steps|
  {
    if steps != [] {
      StepKeepsOk(s, steps[0]);
      RunKeepsOk(Apply(s, steps[0]), steps[1..], u);
    }
  }

  // ---------- main results ----------

  /** Over any number of trackers that share the slot, and over every interleaving with failures,
      panics and crashes, at most one goroutine runs; the slot is taken exactly while one does,
      and then under the name of that goroutine's job. */
  lemma AtMostOneRunner(s: System, steps: seq<Step>, u: System)
    requires Init(s) && Run(s, steps, u)
    ensures forall g, h :: g in u.procs && h in u.procs ==> g == h
    ensures u.active == {} <==> u.procs == map[]
    ensures forall g :: g in u.procs ==>
      u.procs[g].tracker in u.trackers && u.active == {u.trackers[u.procs[g].tracker].job}
  {
    RunKeepsOk(s, steps, u);
    if u.procs != map[] {
      var g :| g in u.procs;
    }
  }

  /** Of the rows within a barrier, exactly those above the epoch cursor that pagination starts
      from were in a page that the batch function finished in the run with that barrier. */
  predicate HandledExactly(barrier: Option<int>, r: Row, handled: set<(int, Row)>) {
    && barrier.Some?
    && (r.createdAt <= barrier.value ==>
          ((barrier.value, r) in handled <==> r.createdAt > 0 || (r.createdAt == 0 && r.hash > 0)))
  }

  /** When a job reports that it is done, in memory or in what it persisted, it has handled every
      row that is still in the table, within its barrier and above the epoch cursor. */
  lemma DoneMeansHandledExactly(s: System, steps: seq<Step>, u: System, t: nat, r: Row)
    requires Init(s) && Run(s, steps, u) && t in u.trackers && r in u.table
    ensures var tr := u.trackers[t];
            && (tr.cell.done ==> HandledExactly(tr.cell.barrier, r, tr.handled))
            && (tr.store.Some? && tr.store.value.done ==> HandledExactly(tr.store.value.barrier, r, tr.handled))
  {
    RunKeepsOk(s, steps, u);
    assert TrackerOk(u.trackers[t], u.table, u.now);
  }

  /** Row `r` lies within the barrier and not above the cursor, and has not been handled. */
  predicate Skipped(barrier: Option<int>, cursor: Option<Row>, r: Row, handled: set<(int, Row)>) {
    && barrier.Some? && r.createdAt <= barrier.value && Less(EPOCH, r) && !Less(CursorOf(cursor), r)
    && (barrier.value, r) !in handled
  }

  /** A resumed or reloaded job never skips a row that is still in the table, whatever failed or
      was lost before. */
  lemma CursorNeverSkips(s: System, steps: seq<Step>, u: System, t: nat, r: Row)
    requires Init(s) && Run(s, steps, u) && t in u.trackers && r in u.table
    ensures var tr := u.trackers[t];
            && !Skipped(tr.cell.barrier, tr.cell.cursor, r, tr.handled)
            && (tr.store.Some? ==> !Skipped(tr.store.value.barrier, tr.store.value.cursor, r, tr.handled))
  {
    RunKeepsOk(s, steps, u);
    assert TrackerOk(u.trackers[t], u.table, u.now);
  }

  // ---------- is Discard final? ----------

  /** No Start of tracker `t` among the steps. */
  ghost predicate NoStart(steps: seq<Step>, t: nat) {
    forall i :: 0 <= i < |steps| ==>
      match steps[i] case Resume(t', _, _) => t' != t case StartFresh(t', _, _) => t' != t case _ => true
  }

  /** Whatever happens, nothing is persisted for `t` again until it is started anew. */
  ghost predicate StaysDiscarded(u: System, t: nat) {
    forall steps: seq<Step>, v: System :: Run(u, steps, v) && NoStart(steps, t) ==>
      t in v.trackers && v.trackers[t].store.None?
  }

  ghost predicate OnlyLeaving(s: System, t: nat) {
    forall g :: g in s.procs && s.procs[g].tracker == t ==> s.procs[g].pc.Exiting?
  }

  lemma {:induction false} LeavingNeverSaves(u: System, steps: seq<Step>, v: System, t: nat)
    requires Run(u, steps, v) && NoStart(steps, t)
    requires t in u.trackers && u.trackers[t].store.None? && OnlyLeaving(u, t)
    ensures t in v.trackers && v.trackers[t].store.None?
    decreases |steps|
  {
    if steps != [] {
      var w := Apply(u, steps[0]);
      assert NoStart(steps[..1], t);
      assert t in w.trackers && w.trackers[t].store.None? && OnlyLeaving(w, t);
      LeavingNeverSaves(w, steps[1..], v, t);
    }
  }

  /** Discard promises that a run is not offered again until a new one starts. That holds exactly
      when no goroutine of the tracker is still about to save: a failing one clears `running`
      before it persists, so Discard can slip in between. */
  lemma DiscardIsFinalExactly(s: System, t: nat)
    requires Ok(s) && Enabled(s, Discard(t, true))
    ensures StaysDiscarded(Apply(s, Discard(t, true)), t) <==> OnlyLeaving(s, t)
  {
    var u := Apply(s, Discard(t, true));
    if OnlyLeaving(s, t) {
      forall steps: seq<Step>, v: System | Run(u, steps, v) && NoStart(steps, t)
        ensures t in v.trackers && v.trackers[t].store.None?
      {
        LeavingNeverSaves(u, steps, v, t);
      }
    } else {
      var g :| g in s.procs && s.procs[g].tracker == t && !s.procs[g].pc.Exiting?;
      assert PcOk(s.trackers[t], s.procs[g].pc, s.table, s.now);
      var step := Saves(g, false);
      var v := Apply(u, step);
      assert [step][1..] == [] && Run(v, [], v);
      assert Run(u, [step], v) && NoStart([step], t);
      assert v.trackers[t].store.Some?;
    }
  }
}
