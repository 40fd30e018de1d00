/**
 The webhook publisher's delivery queue as a protocol: publishers that enqueue under the read
 lock, one resizer that swaps the channel under the write lock, and delivery workers that may
 still be waiting on a channel that has been swapped out.

 A channel is identified by the order in which it was created; the last one is the current one.
 */
module WebhookProtocol {
  const DEFAULT_QUEUE_SIZE := 1000

  function QueueCapacity(size: int): (cap: nat)
    ensures cap >= 1
  {
    if size < 1 then DEFAULT_QUEUE_SIZE else size
  }

  datatype Chan<E> = Chan(cap: nat, buf: seq<E>) {
    predicate HasRoom() { |buf| < cap }
  }

  /** Where a delivery goroutine stands: before reading the queue reference, in its select on
      channel `q`, cancelled but not yet draining, draining channel `q`, or returned. */
  datatype Worker = AtTop | Waiting(q: nat) | Leaving | Draining(q: nat) | Gone

  datatype State<E> = State(
    chans: seq<Chan<E>>,
    resizing: bool,             // the write lock is held: between the swap and the wake-up
    wake: bool,                 // a token sits in the one-place wake channel
    workers: map<nat, Worker>,
    accepted: seq<E>,
    delivered: seq<E>,
    dropped: seq<E>)            // logged by resizeQueue as dropped
  {
    function Cur(): int { |chans| - 1 }

    /** Worker `w` is at the top of its loop or in the select. */
    predicate InLoop(w: nat) { w in workers && (workers[w].AtTop? || workers[w].Waiting?) }

    /** What is still to be delivered, oldest first. During a resize the new queue has been filled
        from the front of the old one. */
    function Pending(): seq<E>
      requires chans != [] && (resizing ==> Cur() >= 1)
    {
      chans[Cur()].buf + if resizing then chans[Cur() - 1].buf else []
    }
  }

  datatype Step<E> =
    | Publish(e: E)
    | Swap(size: int)
    | Migrate
    | Finish
    | Spawn(w: nat)
    | Look(w: nat)
    | Receive(w: nat)
    | TakeWake(w: nat)
    | Cancel(w: nat)
    | Return(w: nat)

  function Init<E>(size: int): State<E> {
    State([Chan(QueueCapacity(size), [])], false, false, map[], [], [], [])
  }

  predicate Enabled<E>(s: State<E>, step: Step<E>)
    requires s.chans != []
  {
    match step
    case Publish(_) => !s.resizing
    case Swap(size) => !s.resizing && s.chans[s.Cur()].cap != QueueCapacity(size)
    case Migrate => s.resizing && s.Cur() >= 1 && s.chans[s.Cur() - 1].buf != []
    case Finish => s.resizing && s.Cur() >= 1 && s.chans[s.Cur() - 1].buf == []
    case Spawn(w) => w !in s.workers
    case Look(w) => w in s.workers && !s.resizing && (s.workers[w].AtTop? || s.workers[w].Leaving?)
    case Receive(w) =>
      && w in s.workers && (s.workers[w].Waiting? || s.workers[w].Draining?)
      && s.workers[w].q < |s.chans| && s.chans[s.workers[w].q].buf != []
    case TakeWake(w) => w in s.workers && s.workers[w].Waiting? && s.wake
    case Cancel(w) => w in s.workers && (s.workers[w].AtTop? || s.workers[w].Waiting?)
    case Return(w) =>
      && w in s.workers && s.workers[w].Draining?
      && s.workers[w].q < |s.chans| && s.chans[s.workers[w].q].buf == []
  }

  function Apply<E>(s: State<E>, step: Step<E>): State<E>
    requires s.chans != [] && Enabled(s, step)
  {
    var cur := s.Cur();
    match step
    case Publish(e) =>
      if s.chans[cur].HasRoom() then
        s.(chans := s.chans[cur := s.chans[cur].(buf := s.chans[cur].buf + [e])],
           accepted := s.accepted + [e])
      else s
    case Swap(size) =>
      s.(chans := s.chans + [Chan(QueueCapacity(size), [])], resizing := true)
    case Migrate =>
      var e := s.chans[cur - 1].buf[0];
      var rest := s.chans[cur - 1 := s.chans[cur - 1].(buf := s.chans[cur - 1].buf[1..])];
      if s.chans[cur].HasRoom() then
        s.(chans := rest[cur := s.chans[cur].(buf := s.chans[cur].buf + [e])])
      else
        s.(chans := rest, dropped := s.dropped + [e])
    case Finish => s.(resizing := false, wake := true)
    case Spawn(w) => s.(workers := s.workers[w := AtTop])
    case Look(w) => s.(workers := s.workers[w := if s.workers[w].AtTop? then Waiting(cur) else Draining(cur)])
    case Receive(w) =>
      var q := s.workers[w].q;
      s.(chans := s.chans[q := s.chans[q].(buf := s.chans[q].buf[1..])],
         delivered := s.delivered + [s.chans[q].buf[0]],
         workers := if s.workers[w].Waiting? then s.workers[w := AtTop] else s.workers)
    case TakeWake(w) => s.(wake := false, workers := s.workers[w := AtTop])
    case Cancel(w) => s.(workers := s.workers[w := Leaving])
    case Return(w) => s.(workers := s.workers[w := Gone])
  }

  /** `t` is reached from `s` by taking `steps` in order. */
  ghost predicate Run<E>(s: State<E>, steps: seq<Step<E>>, t: State<E>)
    decreases |steps|
  {
    s.chans != [] &&
    if steps == [] then s == t
    else Enabled(s, steps[0]) && Run(Apply(s, steps[0]), steps[1..], t)
  }

  /** How often `e` sits in the channels taken together. */
  ghost function Queued<E>(chans: seq<Chan<E>>, e: E): nat {
    if chans == [] then 0
    else Queued(chans[..|chans| - 1], e) + multiset(chans[|chans| - 1].buf)[e]
  }

  /** Every channel is within its capacity, and every channel that has been swapped out is
      empty, except for the one a resize is draining right now. */
  ghost predicate Tidy<E>(s: State<E>) {
    && s.chans != []
    && (s.resizing ==> s.Cur() >= 1)
    && (forall i :: 0 <= i < |s.chans| ==> 1 <= s.chans[i].cap && |s.chans[i].buf| <= s.chans[i].cap)
    && (forall i :: 0 <= i < s.Cur() && !(s.resizing && i == s.Cur() - 1) ==> s.chans[i].buf == [])
    && (forall w :: w in s.workers && (s.workers[w].Waiting? || s.workers[w].Draining?) ==>
          s.workers[w].q < |s.chans|)
  }

  /** Every acceptance of `e` is accounted for. */
  ghost predicate Conserved<E>(s: State<E>, e: E) {
    multiset(s.accepted)[e]
      == multiset(s.delivered)[e] + multiset(s.dropped)[e] + Queued(s.chans, e)
  }

  // ---------- conservation ----------

  lemma {:induction false} QueuedUpdate<E>(chans: seq<Chan<E>>, i: nat, c: Chan<E>, e: E)
    requires i < |chans|
    ensures Queued(chans[i := c], e) + multiset(chans[i].buf)[e] == Queued(chans, e) + multiset(c.buf)[e]
  {
    var last := |chans| - 1;
    if i == last {
      assert chans[i := c][..last] == chans[..last];
    } else {
      QueuedUpdate(chans[..last], i, c, e);
      assert chans[i := c][..last] == chans[..last][i := c];
      assert chans[i := c][last] == chans[last];
    }
  }

  lemma QueuedAppend<E>(chans: seq<Chan<E>>, c: Chan<E>, e: E)
    ensures Queued(chans + [c], e) == Queued(chans, e) + multiset(c.buf)[e]
  {
    assert (chans + [c])[..|chans|] == chans;
  }

  lemma CountTail<E>(buf: seq<E>, e: E)
    requires buf != []
    ensures multiset(buf)[e] == multiset(buf[1..])[e] + (if buf[0] == e then 1 else 0)
  {
    assert buf == [buf[0]] + buf[1..];
  }

  lemma CountPush<E>(buf: seq<E>, x: E, e: E)
    ensures multiset(buf + [x])[e] == multiset(buf)[e] + (if x == e then 1 else 0)
  {
  }

  lemma StepKeepsTidy<E>(s: State<E>, step: Step<E>)
    requires Tidy(s) && Enabled(s, step)
    ensures Tidy(Apply(s, step))
  {
    if step.Migrate? || step.Receive? || step.Publish? {
      BufferStepKeepsTidy(s, step);
    }
  }

  lemma BufferStepKeepsTidy<E>(s: State<E>, step: Step<E>)
    requires Tidy(s) && Enabled(s, step) && (step.Migrate? || step.Receive? || step.Publish?)
    ensures Tidy(Apply(s, step))
  {
  }

  lemma MigrateConserves<E>(s: State<E>, e: E)
    requires Tidy(s) && Conserved(s, e) && Enabled(s, Migrate)
    ensures Conserved(Apply(s, Migrate), e)
  {
    var cur := s.Cur();
    var prev, now := s.chans[cur - 1], s.chans[cur];
    var x := prev.buf[0];
    var rest := s.chans[cur - 1 := prev.(buf := prev.buf[1..])];
    CountTail(prev.buf, e);
    QueuedUpdate(s.chans, cur - 1, prev.(buf := prev.buf[1..]), e);
    if now.HasRoom() {
      CountPush(now.buf, x, e);
      QueuedUpdate(rest, cur, now.(buf := now.buf + [x]), e);
    } else {
      CountPush(s.dropped, x, e);
    }
  }

  lemma StepConserves<E>(s: State<E>, step: Step<E>, e: E)
    requires Tidy(s) && Conserved(s, e) && Enabled(s, step)
    ensures Conserved(Apply(s, step), e)
  {
    var cur := s.Cur();
    match step
    case Publish(x) =>
      if s.chans[cur].HasRoom() {
        CountPush(s.accepted, x, e);
        CountPush(s.chans[cur].buf, x, e);
        QueuedUpdate(s.chans, cur, s.chans[cur].(buf := s.chans[cur].buf + [x]), e);
      }
    case Swap(size) => QueuedAppend(s.chans, Chan(QueueCapacity(size), []), e);
    case Migrate => MigrateConserves(s, e);
    case Receive(w) =>
      var c := s.chans[s.workers[w].q];
      CountTail(c.buf, e);
      CountPush(s.delivered, c.buf[0], e);
      QueuedUpdate(s.chans, s.workers[w].q, c.(buf := c.buf[1..]), e);
    case _ =>
  }

  lemma {:induction false} EventsAreConserved<E>(s: State<E>, steps: seq<Step<E>>, t: State<E>, e: E)
    requires Tidy(s) && Conserved(s, e) && Run(s, steps, t)
    ensures Tidy(t) && Conserved(t, e)
    decreases |steps|
  {
    if steps != [] {
      StepKeepsTidy(s, steps[0]);
      StepConserves(s, steps[0], e);
      EventsAreConserved(Apply(s, steps[0]), steps[1..], t, e);
    }
  }

  lemma {:induction false} NothingQueued<E>(chans: seq<Chan<E>>, e: E)
    requires forall i :: 0 <= i < |chans| ==> chans[i].buf == []
    ensures Queued(chans, e) == 0
  {
    if chans != [] {
      NothingQueued(chans[..|chans| - 1], e);
    }
  }

  /** Main result: over every interleaving of publishers, resizes and any number of workers, each
      acceptance of an event is exactly one of: a delivery, a place in the current queue, a place
      in the queue being drained, or a drop because a new queue was full. */
  lemma EachEventInOnePlace<E>(size: int, steps: seq<Step<E>>, t: State<E>, e: E)
    requires Run(Init(size), steps, t)
    ensures t.chans != [] && (t.resizing ==> t.Cur() >= 1)
    ensures multiset(t.accepted)[e]
         == multiset(t.delivered)[e] + multiset(t.dropped)[e]
          + multiset(t.chans[t.Cur()].buf)[e]
          + (if t.resizing then multiset(t.chans[t.Cur() - 1].buf)[e] else 0)
  {
    var s: State<E> := Init(size);
    assert s.chans[..0] == [];
    EventsAreConserved(s, steps, t, e);
    var front := t.chans[..t.Cur()];
    assert Queued(t.chans, e) == Queued(front, e) + multiset(t.chans[t.Cur()].buf)[e];
    if t.resizing {
      assert front[|front| - 1] == t.chans[t.Cur() - 1];
      NothingQueued(front[..|front| - 1], e);
      assert Queued(front, e) == multiset(t.chans[t.Cur() - 1].buf)[e];
    } else {
      NothingQueued(front, e);
    }
  }

  // ---------- no event enters a retired queue ----------

  /** No step adds to a channel other than the current one: a swapped-out channel keeps what it
      held, or loses its first event. */
  lemma RetiredQueuesOnlyShrink<E>(s: State<E>, step: Step<E>, i: nat)
    requires Tidy(s) && Enabled(s, step) && i < s.Cur()
    ensures var t, before := Apply(s, step), s.chans[i].buf;
            && i < t.Cur()
            && (t.chans[i].buf == before || (before != [] && t.chans[i].buf == before[1..]))
  {
    match step
    case Publish(e) => assert Apply(s, step).chans[i] == s.chans[i];
    case Migrate =>
      assert i != s.Cur() - 1 ==> Apply(s, step).chans[i] == s.chans[i];
    case Receive(w) =>
      assert i != s.workers[w].q ==> Apply(s, step).chans[i] == s.chans[i];
    case _ => assert Apply(s, step).chans[i] == s.chans[i];
  }

  // ---------- a lone worker is never stranded ----------

  /** Worker `w` waits on a swapped-out channel and nothing is going to wake it. */
  ghost predicate Stranded<E>(s: State<E>, w: nat) {
    && w in s.workers && s.workers[w].Waiting?
    && s.workers[w].q != s.Cur() && !s.wake && !s.resizing
  }

  /** At most one worker is in the loop; others may be on their way out. */
  ghost predicate Solo<E>(s: State<E>) {
    forall v, w :: s.InLoop(v) && s.InLoop(w) ==> v == w
  }

  /** A run in which a worker is only started once every earlier one has left the loop. */
  ghost predicate OrderlyRun<E>(s: State<E>, steps: seq<Step<E>>, t: State<E>)
    decreases |steps|
  {
    s.chans != [] && Solo(s) &&
    if steps == [] then s == t
    else Enabled(s, steps[0]) && OrderlyRun(Apply(s, steps[0]), steps[1..], t)
  }

  lemma StepDoesNotStrand<E>(s: State<E>, step: Step<E>, w: nat)
    requires Tidy(s) && Solo(s) && Enabled(s, step) && !Stranded(s, w)
    ensures !Stranded(Apply(s, step), w)
  {
    if step.TakeWake? && s.InLoop(w) {
      assert s.InLoop(step.w);
    }
  }

  lemma {:induction false} LoneWorkerIsNeverStranded<E>(s: State<E>, steps: seq<Step<E>>, t: State<E>)
    requires Tidy(s) && (forall w :: !Stranded(s, w)) && OrderlyRun(s, steps, t)
    ensures Tidy(t) && Solo(t) && forall w :: !Stranded(t, w)
    decreases |steps|
  {
    if steps != [] {
      var u := Apply(s, steps[0]);
      StepKeepsTidy(s, steps[0]);
      forall w ensures !Stranded(u, w) {
        StepDoesNotStrand(s, steps[0], w);
      }
      LoneWorkerIsNeverStranded(u, steps[1..], t);
    }
  }

  // ---------- exactly when a worker can be stranded ----------

  ghost predicate NoSpawn<E>(steps: seq<Step<E>>) {
    forall i :: 0 <= i < |steps| ==> !steps[i].Spawn?
  }

  /** Without another worker being started, some continuation leaves a worker stranded. */
  ghost predicate CanStrand<E(!new)>(s: State<E>) {
    exists steps, t, w :: NoSpawn(steps) && Run(s, steps, t) && Stranded(t, w)
  }

  lemma CanStrandBefore<E(!new)>(s: State<E>, step: Step<E>)
    requires s.chans != [] && Enabled(s, step) && !step.Spawn? && CanStrand(Apply(s, step))
    ensures CanStrand(s)
  {
    var steps, t, w :| NoSpawn(steps) && Run(Apply(s, step), steps, t) && Stranded(t, w);
    var all := [step] + steps;
    assert all[1..] == steps;
    assert NoSpawn(all) && Run(s, all, t);
  }

  lemma {:induction false} StaysOrderly<E>(s: State<E>, steps: seq<Step<E>>, t: State<E>)
    requires Solo(s) && NoSpawn(steps) && Run(s, steps, t)
    ensures OrderlyRun(s, steps, t)
    decreases |steps|
  {
    if steps != [] {
      assert !steps[0].Spawn?;
      var u := Apply(s, steps[0]);
      assert forall w :: u.InLoop(w) ==> s.InLoop(w);
      StaysOrderly(u, steps[1..], t);
    }
  }

  /** Both wait on retired channels and there is one token: `v` takes it. */
  lemma OneTakesTheToken<E(!new)>(s: State<E>, v: nat, w: nat)
    requires Tidy(s) && v != w && s.wake && !s.resizing
    requires v in s.workers && s.workers[v].Waiting?
    requires w in s.workers && s.workers[w].Waiting? && s.workers[w].q != s.Cur()
    ensures CanStrand(s)
  {
    var t := Apply(s, TakeWake(v));
    assert Run(t, [], t) && Stranded(t, w);
    assert CanStrand(t) by {
      var none: seq<Step<E>> := [];
      assert NoSpawn(none) && Run(t, none, t);
    }
    CanStrandBefore(s, TakeWake(v));
  }

  /** Both wait on channels that are being, or have been, retired: the resize ends. */
  lemma {:induction false} ResizeUnderBoth<E(!new)>(s: State<E>, v: nat, w: nat)
    requires Tidy(s) && v != w && s.resizing
    requires v in s.workers && s.workers[v].Waiting?
    requires w in s.workers && s.workers[w].Waiting? && s.workers[w].q != s.Cur()
    ensures CanStrand(s)
    decreases |s.chans[s.Cur() - 1].buf|
  {
    var step: Step<E> := if s.chans[s.Cur() - 1].buf != [] then Migrate else Finish;
    StepKeepsTidy(s, step);
    if step.Migrate? {
      ResizeUnderBoth(Apply(s, step), v, w);
    } else {
      OneTakesTheToken(Apply(s, step), v, w);
    }
    CanStrandBefore(s, step);
  }

  /** Both look at the queue, unless they wait already, and it is swapped under them. */
  lemma {:induction false} BothLook<E(!new)>(s: State<E>, v: nat, w: nat)
    requires Tidy(s) && v != w && s.InLoop(v) && s.InLoop(w) && !s.resizing
    ensures CanStrand(s)
    decreases s.workers[v].AtTop?, s.workers[w].AtTop?
  {
    var step: Step<E> := if s.workers[v].AtTop? then Look(v)
                         else if s.workers[w].AtTop? then Look(w)
                         else Swap(s.chans[s.Cur()].cap + 1);
    StepKeepsTidy(s, step);
    if step.Swap? {
      ResizeUnderBoth(Apply(s, step), v, w);
    } else {
      BothLook(Apply(s, step), v, w);
    }
    CanStrandBefore(s, step);
  }

  lemma {:induction false} TwoCanBeStranded<E(!new)>(s: State<E>, v: nat, w: nat)
    requires Tidy(s) && v != w && s.InLoop(v) && s.InLoop(w)
    ensures CanStrand(s)
    decreases if s.resizing then |s.chans[s.Cur() - 1].buf| else 0
  {
    if !s.resizing {
      BothLook(s, v, w);
    } else {
      var step: Step<E> := if s.chans[s.Cur() - 1].buf != [] then Migrate else Finish;
      StepKeepsTidy(s, step);
      if step.Migrate? {
        TwoCanBeStranded(Apply(s, step), v, w);
      } else {
        BothLook(Apply(s, step), v, w);
      }
      CanStrandBefore(s, step);
    }
  }

  /** Main result: without starting another worker a worker can be left waiting for good exactly
      when one already is, or when two workers are in the loop. Two are there after a Stop that
      gave up waiting, followed by a Start: they share one wake token. */
  lemma CanStrandExactly<E(!new)>(s: State<E>)
    requires Tidy(s)
    ensures CanStrand(s) <==> (exists w :: Stranded(s, w)) || !Solo(s)
  {
    if w :| Stranded(s, w) {
      var none: seq<Step<E>> := [];
      assert NoSpawn(none) && Run(s, none, s);
    } else if !Solo(s) {
      var v, w :| s.InLoop(v) && s.InLoop(w) && v != w;
      TwoCanBeStranded(s, v, w);
    } else if CanStrand(s) {
      var steps, t, w :| NoSpawn(steps) && Run(s, steps, t) && Stranded(t, w);
      StaysOrderly(s, steps, t);
      LoneWorkerIsNeverStranded(s, steps, t);
      assert false;
    }
  }

  // ---------- a pending event is delivered ----------

  /** Steps of the resizer, or of worker `w` without being stopped. */
  ghost predicate Own<E>(steps: seq<Step<E>>, w: nat) {
    forall step :: step in steps ==> step in {Migrate, Finish, Look(w), TakeWake(w), Receive(w)}
  }

  /** Worker `w` can deliver `e` next without the help of any other worker. */
  ghost predicate CanDeliver<E(!new)>(s: State<E>, w: nat, e: E) {
    exists steps, t :: Own(steps, w) && Run(s, steps, t) && t.delivered == s.delivered + [e]
  }

  lemma CanDeliverBefore<E(!new)>(s: State<E>, step: Step<E>, w: nat, e: E)
    requires s.chans != [] && Enabled(s, step) && Own([step], w)
    requires Apply(s, step).delivered == s.delivered && CanDeliver(Apply(s, step), w, e)
    ensures CanDeliver(s, w, e)
  {
    var steps, t :| Own(steps, w) && Run(Apply(s, step), steps, t) && t.delivered == s.delivered + [e];
    var all := [step] + steps;
    assert all[1..] == steps && step in [step];
    assert Own(all, w) && Run(s, all, t);
  }

  lemma DeliverNow<E(!new)>(s: State<E>, w: nat)
    requires Tidy(s) && Enabled(s, Receive(w)) && s.workers[w].q == s.Cur()
    ensures CanDeliver(s, w, s.chans[s.Cur()].buf[0])
  {
    var t := Apply(s, Receive(w));
    var steps: seq<Step<E>> := [Receive(w)];
    assert Run(t, steps[1..], t);
    assert Own(steps, w) && Run(s, steps, t);
  }

  lemma {:induction false} DeliverFromCurrent<E(!new)>(s: State<E>, w: nat)
    requires Tidy(s) && !s.resizing && s.chans[s.Cur()].buf != []
    requires (s.InLoop(w) && !Stranded(s, w)) || (w in s.workers && s.workers[w].Leaving?)
    ensures CanDeliver(s, w, s.chans[s.Cur()].buf[0])
    decreases if s.workers[w].Waiting? then if s.workers[w].q == s.Cur() then 0 else 2 else 1
  {
    if s.workers[w].Waiting? && s.workers[w].q == s.Cur() {
      DeliverNow(s, w);
    } else {
      var step: Step<E> := if s.workers[w].Waiting? then TakeWake(w) else Look(w);
      var t := Apply(s, step);
      StepKeepsTidy(s, step);
      if t.workers[w].Draining? {
        DeliverNow(t, w);
      } else {
        DeliverFromCurrent(t, w);
      }
      CanDeliverBefore(s, step, w, s.chans[s.Cur()].buf[0]);
    }
  }

  lemma {:induction false} DeliverPending<E(!new)>(s: State<E>, w: nat)
    requires Tidy(s) && s.Pending() != []
    requires (s.InLoop(w) && !Stranded(s, w)) || (w in s.workers && s.workers[w].Leaving?)
    ensures CanDeliver(s, w, s.Pending()[0])
    decreases if s.resizing then |s.chans[s.Cur() - 1].buf| else 0
  {
    if !s.resizing {
      DeliverFromCurrent(s, w);
    } else {
      var step: Step<E> := if s.chans[s.Cur() - 1].buf != [] then Migrate else Finish;
      StepKeepsTidy(s, step);
      if step.Migrate? {
        assert s.chans[s.Cur()].buf == [] ==> s.chans[s.Cur()].HasRoom();
        DeliverPending(Apply(s, step), w);
      } else {
        DeliverFromCurrent(Apply(s, step), w);
      }
      CanDeliverBefore(s, step, w, s.Pending()[0]);
    }
  }

  /** After any orderly run, in the middle of a resize or not, a worker that has not begun to drain
      can deliver the oldest pending event by its own steps, once the resizer has finished. */
  lemma PendingEventIsDeliverable<E(!new)>(size: int, steps: seq<Step<E>>, t: State<E>, w: nat)
    requires OrderlyRun(Init(size), steps, t)
    requires t.chans != [] && (t.resizing ==> t.Cur() >= 1) && t.Pending() != []
    requires t.InLoop(w) || (w in t.workers && t.workers[w].Leaving?)
    ensures CanDeliver(t, w, t.Pending()[0])
  {
    LoneWorkerIsNeverStranded(Init(size), steps, t);
    assert !Stranded(t, w);
    DeliverPending(t, w);
  }

  lemma Extend<E>(s: State<E>, steps: seq<Step<E>>, t: State<E>, step: Step<E>)
    returns (steps': seq<Step<E>>, t': State<E>)
    requires Run(s, steps, t) && t.chans != [] && Enabled(t, step) && Apply(t, step).chans != []
    ensures steps' == steps + [step] && t' == Apply(t, step) && Run(s, steps', t')
    decreases |steps|
  {
    steps', t' := steps + [step], Apply(t, step);
    if steps == [] {
      assert steps'[1..] == [];
    } else {
      assert steps'[1..] == steps[1..] + [step];
      var _, _ := Extend(Apply(s, steps[0]), steps[1..], t, step);
    }
  }

  /** Two workers at once (a Stop that gave up waiting, followed by a Start) share one wake
      token, so one of them can be left on the retired queue for good. */
  lemma SecondWorkerCanBeStranded()
    ensures exists steps: seq<Step<int>>, t: State<int> :: Run(Init(1), steps, t) && Stranded(t, 2)
  {
    var s: State<int> := Init(1);
    var steps, t := Extend(s, [], s, Spawn(1));
    steps, t := Extend(s, steps, t, Spawn(2));
    steps, t := Extend(s, steps, t, Look(1));
    steps, t := Extend(s, steps, t, Look(2));
    assert t == s.(workers := map[1 := Waiting(0), 2 := Waiting(0)]);
    steps, t := Extend(s, steps, t, Swap(2));
    steps, t := Extend(s, steps, t, Finish);
    assert t.workers == map[1 := Waiting(0), 2 := Waiting(0)] && t.wake && !t.resizing && |t.chans| == 2;
    steps, t := Extend(s, steps, t, TakeWake(1));
    assert Stranded(t, 2);
  }

  // ---------- what a resize loses ----------

  /** How the events of the channel being retired are shared out by `steps`: those moved to the
      new channel or dropped, those a worker received, and those left. */
  datatype Shared<E> = Shared(moved: seq<E>, received: seq<E>, left: seq<E>)

  ghost function Share<E>(pending: seq<E>, steps: seq<Step<E>>): Shared<E>
    decreases |steps|
  {
    if steps == [] then Shared([], [], pending)
    else if pending != [] && steps[0].Migrate? then
      var rest := Share(pending[1..], steps[1..]);
      rest.(moved := [pending[0]] + rest.moved)
    else if pending != [] && steps[0].Receive? then
      var rest := Share(pending[1..], steps[1..]);
      rest.(received := [pending[0]] + rest.received)
    else
      Share(pending, steps[1..])
  }

  lemma {:induction false} EachIsShared<E>(pending: seq<E>, steps: seq<Step<E>>)
    ensures var parts := Share(pending, steps);
            |parts.moved| + |parts.received| + |parts.left| == |pending|
    decreases |steps|
  {
    if steps != [] {
      var taken := pending != [] && (steps[0].Migrate? || steps[0].Receive?);
      EachIsShared(if taken then pending[1..] else pending, steps[1..]);
    }
  }

  /** A resize is going on and no worker has seen the new channel yet. */
  ghost predicate Unseen<E>(s: State<E>) {
    && Tidy(s) && s.resizing
    && forall w :: w in s.workers && (s.workers[w].Waiting? || s.workers[w].Draining?) ==> s.workers[w].q < s.Cur()
  }

  /** In `t`, what was offered to a new channel of capacity `cap` is there as far as it fits, and
      dropped as far as it does not. */
  ghost predicate Filled<E>(t: State<E>, dropped: seq<E>, cap: nat, offered: seq<E>) {
    var k := if |offered| <= cap then |offered| else cap;
    t.chans != [] && t.chans[t.Cur()].buf == offered[..k] && t.dropped == dropped + offered[k..]
  }

  /** A step of anyone during a resize: it takes the oldest event of the old channel or none. */
  lemma StepDuringResize<E>(s: State<E>, step: Step<E>)
    requires Unseen(s) && Enabled(s, step) && !step.Finish?
    ensures var t := Apply(s, step);
            var old1, new1 := s.chans[s.Cur() - 1].buf, s.chans[s.Cur()];
            && Unseen(t) && |t.chans| == |s.chans| && t.chans[t.Cur()].cap == new1.cap
            && (step.Migrate? || step.Receive? ==> old1 != [] && t.chans[t.Cur() - 1].buf == old1[1..])
            && (!step.Migrate? && !step.Receive? ==> t.chans[t.Cur() - 1].buf == old1)
            && t.delivered == (if step.Receive? then s.delivered + [old1[0]] else s.delivered)
            && (!step.Migrate? ==> t.chans[t.Cur()].buf == new1.buf && t.dropped == s.dropped)
            && (step.Migrate? && |new1.buf| < new1.cap ==>
                  t.chans[t.Cur()].buf == new1.buf + [old1[0]] && t.dropped == s.dropped)
            && (step.Migrate? && |new1.buf| == new1.cap ==>
                  t.chans[t.Cur()].buf == new1.buf && t.dropped == s.dropped + [old1[0]])
  {
    StepKeepsTidy(s, step);
  }

  lemma FilledBefore<E>(s: State<E>, u: State<E>, t: State<E>, x: E, rest: seq<E>)
    requires Unseen(s) && Unseen(u)
    requires var now := s.chans[s.Cur()];
             && u.chans[u.Cur()].cap == now.cap && Filled(t, u.dropped, now.cap, u.chans[u.Cur()].buf + rest)
             && (|now.buf| < now.cap ==> u.chans[u.Cur()].buf == now.buf + [x] && u.dropped == s.dropped)
             && (|now.buf| == now.cap ==> u.chans[u.Cur()].buf == now.buf && u.dropped == s.dropped + [x])
    ensures Filled(t, s.dropped, s.chans[s.Cur()].cap, s.chans[s.Cur()].buf + ([x] + rest))
  {
    var now := s.chans[s.Cur()];
    var offered := now.buf + ([x] + rest);
    if |now.buf| < now.cap {
      assert now.buf + [x] + rest == offered;
    } else {
      assert offered[..now.cap] == now.buf == (now.buf + rest)[..now.cap];
      assert offered[now.cap..] == [x] + rest && (now.buf + rest)[now.cap..] == rest;
      assert s.dropped + [x] + rest == s.dropped + ([x] + rest);
    }
  }

  /** A resize, interleaved in any way with workers that receive from the old channel, are stopped
      or started: the events moved, in order and as many as fit, are in the new channel, the others
      are dropped, and those received meanwhile are delivered. */
  lemma {:induction false} MigrationMovesAPrefix<E>(s: State<E>, steps: seq<Step<E>>, t: State<E>)
    requires Unseen(s) && Finish !in steps && Run(s, steps, t)
    ensures var parts := Share(s.chans[s.Cur() - 1].buf, steps);
            && Unseen(t) && |t.chans| == |s.chans| && t.chans[t.Cur() - 1].buf == parts.left
            && t.delivered == s.delivered + parts.received
            && Filled(t, s.dropped, s.chans[s.Cur()].cap, s.chans[s.Cur()].buf + parts.moved)
    decreases |steps|
  {
    var parts := Share(s.chans[s.Cur() - 1].buf, steps);
    if steps == [] {
      assert s.chans[s.Cur()].buf + [] == s.chans[s.Cur()].buf;
    } else {
      var step, u := steps[0], Apply(s, steps[0]);
      assert step != Finish;
      StepDuringResize(s, step);
      MigrationMovesAPrefix(u, steps[1..], t);
      var rest := Share(u.chans[u.Cur() - 1].buf, steps[1..]);
      if step.Migrate? {
        FilledBefore(s, u, t, s.chans[s.Cur() - 1].buf[0], rest.moved);
      } else if step.Receive? {
        assert u.delivered + rest.received == s.delivered + parts.received;
      }
    }
  }

  /** Main result about a resize: the comment on Update promises one "without losing pending
      events". Whatever the workers do meanwhile, that holds exactly when the events that were
      pending, less those delivered meanwhile, fit the new capacity. */
  lemma ResizeLosesNothingIffTheyFit<E>(s: State<E>, size: int, steps: seq<Step<E>>, t: State<E>)
    requires Tidy(s) && Enabled(s, Swap(size)) && Finish !in steps && Run(Apply(s, Swap(size)), steps, t)
    requires t.chans != [] && Enabled(t, Finish)
    ensures var pending := s.chans[s.Cur()].buf;
            var parts := Share(pending, steps);
            && t.delivered == s.delivered + parts.received
            && (t.dropped == s.dropped <==> |pending| - |parts.received| <= QueueCapacity(size))
            && (t.dropped == s.dropped ==> t.chans[t.Cur()].buf == parts.moved)
  {
    var pending, u := s.chans[s.Cur()].buf, Apply(s, Swap(size));
    StepKeepsTidy(s, Swap(size));
    assert u.chans[u.Cur() - 1] == s.chans[s.Cur()] && u.chans[u.Cur()].buf == [];
    MigrationMovesAPrefix(u, steps, t);
    EachIsShared(pending, steps);
    var parts := Share(pending, steps);
    assert [] + parts.moved == parts.moved && parts.left == [];
  }
}
