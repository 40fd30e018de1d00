/** The retry queue over its table: recording failures, evicting what exceeded its budget, and
    dispatching what is due. Every state of the table is a state of the retry protocol. */
module RetryQueue {
  import opened Library
  import opened Strings
  import opened Wrappers
  import opened RetryProtocol

  type Rows = map<Key, Row>

  /** A torrent to record in the retry queue; its payload may fail to encode. */
  datatype Item = Item(key: Key, encodes: bool)

  datatype Message = Retry(k: Key) | DeleteTorrent(hash: nat)

  datatype Outcome = Recorded | PayloadRejected | StoreFailed | BudgetExceeded(torrents: nat)

  datatype TouchResult = MadeDue | NoRows | TouchFailed

  // ---------- the statements on the table ----------

  /** The upsert of one failure. */
  function Counted(rows: Rows, k: Key): Rows {
    rows[k := Row(if k in rows then rows[k].count + 1 else 1, false)]
  }

  function CountedAll(rows: Rows, keys: seq<Key>): Rows {
    if keys == [] then rows else Counted(CountedAll(rows, keys[..|keys| - 1]), keys[|keys| - 1])
  }

  function Without(rows: Rows, hash: nat): Rows { map k | k in rows && k.hash != hash :: rows[k] }

  function Unleased(rows: Rows, hash: nat): Rows {
    map k | k in rows :: if k.hash == hash then rows[k].(leased := false) else rows[k]
  }

  /** The upsert counts every key once. */
  lemma {:induction false} CountedOnce(rows: Rows, keys: seq<Key>)
    requires Distinct(keys)
    ensures var up := CountedAll(rows, keys);
            && up.Keys == rows.Keys + (set k | k in keys)
            && (forall k :: k in keys ==> up[k] == Row(if k in rows then rows[k].count + 1 else 1, false))
            && (forall k :: k in rows && k !in keys ==> up[k] == rows[k])
  {
    if keys != [] {
      var front, k := keys[..|keys| - 1], keys[|keys| - 1];
      CountedOnce(rows, front);
      assert keys == front + [k] && k !in front;
    }
  }

  // ---------- the table as a state of the protocol ----------

  /** The table that goes with a state of the protocol. */
  function RowsOf(s: System): Rows { map k | k in s && s[k].entry.Some? :: s[k].entry.value.row }

  ghost predicate NoScan(s: System) { forall k :: k in s ==> s[k].pending.None? }

  lemma FailRows(s: System, k: Key)
    ensures RowsOf(Apply(s, Fail(k))) == Counted(RowsOf(s), k)
    ensures NoScan(s) ==> NoScan(Apply(s, Fail(k)))
  {
    assert Apply(s, Fail(k)).Keys == s.Keys + {k};
    forall j | j in s && j != k ensures Apply(s, Fail(k))[j] == s[j] {
    }
  }

  lemma DeleteRows(s: System, hash: nat)
    ensures RowsOf(Apply(s, Delete(hash))) == Without(RowsOf(s), hash)
    ensures NoScan(s) ==> NoScan(Apply(s, Delete(hash)))
  {
  }

  lemma TouchRows(s: System, hash: nat)
    ensures RowsOf(Apply(s, Touch(hash))) == Unleased(RowsOf(s), hash)
    ensures NoScan(s) ==> NoScan(Apply(s, Touch(hash)))
  {
  }

  lemma ClearRows(s: System)
    ensures RowsOf(Apply(s, Clear)) == map[]
    ensures NoScan(s) ==> NoScan(Apply(s, Clear))
  {
  }

  /** The entries that the running scan has still to handle. */
  ghost predicate Scanning(s: System, rows: Rows, left: set<Key>) {
    && (forall k :: k in left ==> k in rows && At(s, k).pending == Some(rows[k]))
    && (forall k :: k in s && k !in left ==> s[k].pending.None?)
  }

  lemma ListRows(s: System, keys: set<Key>)
    requires NoScan(s) && forall k :: k in keys ==> k in RowsOf(s)
    ensures Enabled(s, List(keys), 0)
    ensures RowsOf(Apply(s, List(keys))) == RowsOf(s) && Scanning(Apply(s, List(keys)), RowsOf(s), keys)
  {
  }

  lemma DispatchRows(s: System, rows: Rows, k: Key, left: set<Key>, marked: bool)
    requires k in left && Scanning(s, rows, left)
    ensures At(s, k).pending == Some(rows[k])
    ensures Scanning(Apply(s, Dispatch(k, marked)), rows, left - {k})
    ensures RowsOf(Apply(s, Dispatch(k, marked))) ==
      if marked && k in RowsOf(s) then RowsOf(s)[k := Row(Attempt(rows[k]), true)] else RowsOf(s)
  {
    var step := Dispatch(k, marked);
    assert Apply(s, step).Keys == s.Keys;
    forall j | j in s ensures Apply(s, step)[j] == if j == k then Dispatched(s[k], marked) else s[j] {
    }
  }

  lemma EvictRows(s: System, rows: Rows, k: Key, left: set<Key>, deleted: bool)
    requires k in left && Scanning(s, rows, left)
    ensures At(s, k).pending == Some(rows[k])
    ensures Scanning(Apply(s, Evict(k, deleted)), rows, left - {k})
    ensures RowsOf(Apply(s, Evict(k, deleted))) == if deleted then Without(RowsOf(s), k.hash) else RowsOf(s)
  {
    assert Apply(s, Evict(k, deleted)).Keys == s.Keys;
  }

  // ---------- the queue ----------

  /** The first n keys whose failure count exceeds the limit, in order. */
  function Over(rows: Rows, keys: seq<Key>, n: nat, max: int): seq<Key>
    requires n <= |keys|
  {
    if n == 0 then []
    else if keys[n - 1] in rows && Exceeds(rows[keys[n - 1]].count, max)
      then Over(rows, keys, n - 1, max) + [keys[n - 1]]
    else Over(rows, keys, n - 1, max)
  }

  function Deletions(keys: seq<Key>): seq<Message> {
    seq(|keys|, i requires 0 <= i < |keys| => DeleteTorrent(keys[i].hash))
  }

  /** What a scan publishes for one row it listed. */
  function Sent(rows: Rows, k: Key, max: int): Message {
    if k in rows && Exceeds(Attempt(rows[k]), max) then DeleteTorrent(k.hash) else Retry(k)
  }

  /** What it publishes for the first n of them. */
  function Outgoing(rows: Rows, keys: seq<Key>, n: nat, max: int): seq<Message>
    requires n <= |keys|
  {
    if n == 0 then [] else Outgoing(rows, keys, n - 1, max) + [Sent(rows, keys[n - 1], max)]
  }

  /** One message for each row, in order. */
  lemma {:induction false} OutgoingAt(rows: Rows, keys: seq<Key>, n: nat, max: int)
    requires n <= |keys|
    ensures |Outgoing(rows, keys, n, max)| == n
    ensures forall i :: 0 <= i < n ==> Outgoing(rows, keys, n, max)[i] == Sent(rows, keys[i], max)
  {
    if n > 0 {
      OutgoingAt(rows, keys, n - 1, max);
    }
  }

  function Left<T>(xs: seq<T>, i: nat): set<T>
    requires i <= |xs|
  {
    set x | x in xs[i..]
  }

  lemma LeftStep<T>(xs: seq<T>, i: nat)
    requires Distinct(xs) && i < |xs|
    ensures xs[i] in Left(xs, i) && Left(xs, i + 1) == Left(xs, i) - {xs[i]}
  {
    assert xs[i..] == [xs[i]] + xs[i + 1..];
  }

  /** The table `up` after evicting the torrents of `over`: those whose delete succeeded are gone
      with all their entries, everything else is as it was, and if no delete failed none of them
      is left. */
  ghost predicate Pruned(rows: Rows, up: Rows, over: seq<Key>, gone: set<nat>, smooth: bool) {
    && rows == (map k | k in up && k.hash !in gone :: up[k])
    && (forall hash :: hash in gone ==> exists i :: 0 <= i < |over| && over[i].hash == hash)
    && (smooth ==> forall i :: 0 <= i < |over| ==> over[i].hash in gone)
  }

  lemma PrunedStep(rows: Rows, up: Rows, over: seq<Key>, gone: set<nat>, smooth: bool, k: Key, deleted: bool)
    requires Pruned(rows, up, over, gone, smooth)
    ensures var rows' := if deleted then Without(rows, k.hash) else rows;
            Pruned(rows', up, over + [k], if deleted then gone + {k.hash} else gone, smooth && deleted)
    ensures Deletions(over + [k]) == Deletions(over) + [DeleteTorrent(k.hash)]
  {
    assert (over + [k])[|over|] == k;
    forall hash | hash in gone ensures exists i :: 0 <= i < |over + [k]| && (over + [k])[i].hash == hash {
      var i :| 0 <= i < |over| && over[i].hash == hash;
      assert (over + [k])[i] == over[i];
    }
  }

  lemma {:induction false} OverMembers(rows: Rows, keys: seq<Key>, n: nat, max: int)
    requires n <= |keys|
    ensures forall k :: k in Over(rows, keys, n, max) <==>
              exists i :: 0 <= i < n && keys[i] == k && k in rows && Exceeds(rows[k].count, max)
  {
    if n > 0 {
      OverMembers(rows, keys, n - 1, max);
    }
  }

  lemma DeletionsOf(keys: seq<Key>)
    ensures forall m :: m in Deletions(keys) <==> exists k :: k in keys && m == DeleteTorrent(k.hash)
  {
    forall k | k in keys ensures DeleteTorrent(k.hash) in Deletions(keys) {
      var i :| 0 <= i < |keys| && keys[i] == k;
      assert Deletions(keys)[i] == DeleteTorrent(k.hash);
    }
  }

  /** One more failure than before. */
  function OneMore(before: Rows, k: Key): int { if k in before then before[k].count + 1 else 1 }

  /** The table after a batch: each key given has one failure more and no lease, every other row is
      as it was, and the entries of torrents in `gone` are deleted. */
  ghost predicate BatchRows(before: Rows, after: Rows, items: seq<Item>, gone: set<nat>) {
    && (forall i :: 0 <= i < |items| ==> (items[i].key in after <==> items[i].key.hash !in gone))
    && (forall i :: 0 <= i < |items| && items[i].key in after ==>
          after[items[i].key] == Row(OneMore(before, items[i].key), false))
    && (forall k :: k in before && (forall i :: 0 <= i < |items| ==> items[i].key != k) ==>
          if k.hash in gone then k !in after else k in after && after[k] == before[k])
    && (forall k :: k in after ==> k in before || exists i :: 0 <= i < |items| && items[i].key == k)
  }

  /** The messages of a batch: exactly the torrents that now exceed the limit are announced. Only
      those can be gone, and all are if no delete failed. */
  ghost predicate BatchSent(before: Rows, items: seq<Item>, sent: seq<Message>, max: int, gone: set<nat>,
                            smooth: bool) {
    && (forall i :: 0 <= i < |items| && 0 <= max < OneMore(before, items[i].key) ==>
          DeleteTorrent(items[i].key.hash) in sent && (smooth ==> items[i].key.hash in gone))
    && (forall m :: m in sent ==>
          exists i :: 0 <= i < |items| && m == DeleteTorrent(items[i].key.hash)
            && 0 <= max < OneMore(before, items[i].key))
    && (forall hash :: hash in gone ==> DeleteTorrent(hash) in sent)
  }

  lemma BatchRowsAre(before: Rows, after: Rows, items: seq<Item>, over: seq<Key>, gone: set<nat>, smooth: bool)
    requires Distinct(KeysIn(items)) && Pruned(after, CountedAll(before, KeysIn(items)), over, gone, smooth)
    ensures BatchRows(before, after, items, gone)
  {
    var keys := KeysIn(items);
    CountedOnce(before, keys);
    assert forall i :: 0 <= i < |items| ==> keys[i] == items[i].key && keys[i] in keys;
  }

  /** The keys over the limit are those of items that now have too many failures. */
  lemma OverIs(before: Rows, items: seq<Item>, max: int, over: seq<Key>)
    requires var keys := KeysIn(items); Distinct(keys) && over == Over(CountedAll(before, keys), keys, |keys|, max)
    ensures forall i :: 0 <= i < |items| ==> (items[i].key in over <==> 0 <= max < OneMore(before, items[i].key))
    ensures forall k :: k in over ==> exists i :: 0 <= i < |items| && items[i].key == k
  {
    var keys := KeysIn(items);
    var up := CountedAll(before, keys);
    CountedOnce(before, keys);
    OverMembers(up, keys, |keys|, max);
    forall i | 0 <= i < |items| ensures items[i].key in over <==> 0 <= max < OneMore(before, items[i].key) {
      assert keys[i] in keys && keys[i] == items[i].key;
    }
    forall k | k in over ensures exists i :: 0 <= i < |items| && items[i].key == k {
      var i :| 0 <= i < |keys| && keys[i] == k;
      assert items[i].key == k;
    }
  }

  lemma BatchSentIs(before: Rows, items: seq<Item>, over: seq<Key>, max: int, gone: set<nat>, smooth: bool)
    requires forall i :: 0 <= i < |items| ==> (items[i].key in over <==> 0 <= max < OneMore(before, items[i].key))
    requires forall k :: k in over ==> exists i :: 0 <= i < |items| && items[i].key == k
    requires forall hash :: hash in gone ==> exists i :: 0 <= i < |over| && over[i].hash == hash
    requires smooth ==> forall i :: 0 <= i < |over| ==> over[i].hash in gone
    ensures BatchSent(before, items, Deletions(over), max, gone, smooth)
  {
    DeletionsOf(over);
  }

  /** The table after a scan handled the first `i` rows it listed: those of torrents in `gone`, whose
      budget was exhausted, are deleted, and those in `marked`, which were published, carry their
      attempt and a lease. If nothing failed, none of them is missing from either. */
  ghost predicate Scanned(rows: Rows, listed: Rows, list: seq<Key>, i: nat, max: int, marked: set<Key>, gone: set<nat>,
                          smooth: bool)
    requires i <= |list| && forall j :: 0 <= j < |list| ==> list[j] in listed
  {
    && rows == (map k | k in listed && k.hash !in gone ::
                  if k in marked then Row(Attempt(listed[k]), true) else listed[k])
    && (forall k :: k in marked ==> exists j :: 0 <= j < i && list[j] == k && !Exceeds(Attempt(listed[k]), max))
    && (forall hash :: hash in gone ==>
          exists j :: 0 <= j < i && list[j].hash == hash && Exceeds(Attempt(listed[list[j]]), max))
    && (smooth ==> forall j :: 0 <= j < i ==>
          if Exceeds(Attempt(listed[list[j]]), max) then list[j].hash in gone else list[j] in marked)
  }

  /** What handling one listed row does to the table. */
  function RowHandled(before: Rows, listed: Rows, k: Key, max: int, stored: bool): Rows
    requires k in listed
  {
    if !stored then before
    else if Exceeds(Attempt(listed[k]), max) then Without(before, k.hash)
    else if k in before then before[k := Row(Attempt(listed[k]), true)]
    else before
  }

  lemma ScannedMark(before: Rows, listed: Rows, list: seq<Key>, i: nat, max: int, marked: set<Key>, gone: set<nat>,
                    smooth: bool, stored: bool)
    requires i < |list| && forall j :: 0 <= j < |list| ==> list[j] in listed
    requires !Exceeds(Attempt(listed[list[i]]), max) && Scanned(before, listed, list, i, max, marked, gone, smooth)
    ensures Scanned(RowHandled(before, listed, list[i], max, stored), listed, list, i + 1, max,
                    if stored then marked + {list[i]} else marked, gone, smooth && stored)
  {
  }

  lemma ScannedEvict(before: Rows, listed: Rows, list: seq<Key>, i: nat, max: int, marked: set<Key>, gone: set<nat>,
                     smooth: bool, stored: bool)
    requires i < |list| && forall j :: 0 <= j < |list| ==> list[j] in listed
    requires Exceeds(Attempt(listed[list[i]]), max) && Scanned(before, listed, list, i, max, marked, gone, smooth)
    ensures Scanned(RowHandled(before, listed, list[i], max, stored), listed, list, i + 1, max,
                    marked, if stored then gone + {list[i].hash} else gone, smooth && stored)
  {
  }

  /** What a scan did, row by row. */
  lemma ScanMeans(before: Rows, after: Rows, start: seq<Message>, produced: seq<Message>, due: seq<Key>, n: nat,
                  max: int, marked: set<Key>, gone: set<nat>, smooth: bool)
    requires n <= |due| && forall i :: 0 <= i < n ==> due[i] in before
    requires Scanned(after, before, due[..n], n, max, marked, gone, smooth)
    requires produced == start + Outgoing(before, due[..n], n, max)
    ensures |produced| == |start| + n && produced[..|start|] == start
    ensures forall i :: 0 <= i < n ==>
              var row := before[due[i]];
              var attempt := if row.leased then row.count + 1 else row.count;
              && produced[|start| + i] ==
                   (if max >= 0 && attempt > max then DeleteTorrent(due[i].hash) else Retry(due[i]))
              && (smooth ==> if max >= 0 && attempt > max then due[i].hash in gone else due[i] in marked)
    ensures forall k :: k in marked ==> exists i :: 0 <= i < n && due[i] == k
    ensures forall hash :: hash in gone ==> DeleteTorrent(hash) in produced[|start|..]
    ensures after.Keys == set k | k in before && k.hash !in gone
    ensures forall k :: k in after ==>
              after[k] == if k in marked
                          then Row(if before[k].leased then before[k].count + 1 else before[k].count, true)
                          else before[k]
  {
    OutgoingAt(before, due[..n], n, max);
    forall hash | hash in gone ensures DeleteTorrent(hash) in produced[|start|..] {
      var j :| 0 <= j < n && due[..n][j].hash == hash && Exceeds(Attempt(before[due[..n][j]]), max);
      assert produced[|start|..][j] == DeleteTorrent(hash);
    }
  }

  class Queue {
    const max: int
    const batchSize: int
    var rows: Rows
    var produced: seq<Message>
    ghost var sys: System

    /** The table is that of a reachable state of the protocol, with no scan under way. */
    ghost predicate Valid()
      reads this
    {
      Reached(sys, max) && RowsOf(sys) == rows && NoScan(sys)
    }

    constructor (max: int, batchSize: int)
      ensures Valid() && rows == map[] && produced == [] && this.max == max && this.batchSize == batchSize
    {
      this.max, this.batchSize := max, batchSize;
      rows, produced, sys := map[], [], map[];
      new;
      EmptyReached(max);
    }

    ghost method Record(step: Step)
      requires Reached(sys, max) && Enabled(sys, step, max)
      modifies this`sys
      ensures Reached(sys, max) && sys == Apply(old(sys), step)
    {
      ReachedStep(sys, step, max);
      sys := Apply(sys, step);
    }

    /** The statement deletes all entries of a torrent, or fails. */
    method DeleteRetry(hash: nat) returns (deleted: bool)
      requires Valid()
      modifies this`rows, this`sys
      ensures Valid() && rows == if deleted then Without(old(rows), hash) else old(rows)
    {
      deleted := *;
      if deleted {
        DeleteRows(sys, hash);
        Record(Delete(hash));
        rows := Without(rows, hash);
      }
    }

    method Upsert(keys: seq<Key>) returns (stored: bool)
      requires Valid()
      modifies this`rows, this`sys
      ensures Valid() && rows == if stored then CountedAll(old(rows), keys) else old(rows)
      ensures stored ==> Distinct(keys)
    {
      stored := *;
      if !stored || exists i, j :: 0 <= i < j < |keys| && keys[i] == keys[j] {
        return false;
      }
      ghost var before := rows;
      for i := 0 to |keys|
        invariant Valid() && rows == CountedAll(before, keys[..i])
      {
        FailRows(sys, keys[i]);
        Record(Fail(keys[i]));
        rows := Counted(rows, keys[i]);
        assert keys[..i + 1][..i] == keys[..i];
      }
      assert keys[..|keys|] == keys;
    }

    /** Deletes a torrent whose budget is exhausted. It is announced in any case; deleting its
        entries may fail, which is logged. */
    method Evict(k: Key) returns (deleted: bool)
      requires Valid()
      modifies this
      ensures Valid() && rows == if deleted then Without(old(rows), k.hash) else old(rows)
      ensures produced == old(produced) + [DeleteTorrent(k.hash)]
    {
      produced := produced + [DeleteTorrent(k.hash)];
      deleted := DeleteRetry(k.hash);
    }

    /** Records one failure for every torrent, and evicts those whose count exceeds the budget.
        `gone` are the torrents whose entries could be deleted; `smooth` says that no delete failed. */
    method EnqueueBatch(items: seq<Item>) returns (r: Outcome, ghost gone: set<nat>, ghost smooth: bool)
      requires Valid()
      modifies this
      ensures Valid()
      ensures r.PayloadRejected? <==> exists i :: 0 <= i < |items| && !items[i].encodes
      ensures items == [] ==> r == Recorded
      ensures r.PayloadRejected? || r.StoreFailed? || items == [] ==> rows == old(rows) && produced == old(produced)
      ensures r.Recorded? || r.BudgetExceeded? ==>
        var keys := KeysIn(items);
        var up := CountedAll(old(rows), keys);
        var over := Over(up, keys, |keys|, max);
        && Distinct(keys)
        && Pruned(rows, up, over, gone, smooth)
        && produced == old(produced) + Deletions(over)
        && (r.BudgetExceeded? <==> over != []) && (r.BudgetExceeded? ==> r.torrents == |over|)
      ensures r.Recorded? || r.BudgetExceeded? ==>
        && |produced| >= |old(produced)| && produced[..|old(produced)|] == old(produced)
        && BatchRows(old(rows), rows, items, gone)
        && BatchSent(old(rows), items, produced[|old(produced)|..], max, gone, smooth)
    {
      gone, smooth := {}, true;
      if |items| == 0 {
        return Recorded, gone, smooth;
      }
      var keys := [];
      for i := 0 to |items|
        invariant keys == KeysIn(items[..i]) && forall j :: 0 <= j < i ==> items[j].encodes
      {
        if !items[i].encodes {
          return PayloadRejected, gone, smooth;
        }
        keys := keys + [items[i].key];
      }
      assert items[..|items|] == items;
      var stored := Upsert(keys);
      if !stored {
        return StoreFailed, gone, smooth;
      }
      CountedOnce(old(rows), keys);
      var evicted;
      evicted, gone, smooth := EvictOver(keys);
      BatchRowsAre(old(rows), rows, items, Over(CountedAll(old(rows), keys), keys, |keys|, max), gone, smooth);
      ghost var over := Over(CountedAll(old(rows), keys), keys, |keys|, max);
      OverIs(old(rows), items, max, over);
      BatchSentIs(old(rows), items, over, max, gone, smooth);
      DropFront(old(produced), Deletions(over));
      r := if evicted > 0 then BudgetExceeded(evicted) else Recorded;
    }

    /** Evicts the keys whose count, as the upsert returned it, exceeds the budget. */
    method EvictOver(keys: seq<Key>) returns (evicted: nat, ghost gone: set<nat>, ghost smooth: bool)
      requires Valid() && forall i :: 0 <= i < |keys| ==> keys[i] in rows
      modifies this
      ensures EvictedTo(old(rows), keys, |keys|, old(produced), evicted, gone, smooth)
    {
      var up := rows;
      evicted, gone, smooth := 0, {}, true;
      for i := 0 to |keys|
        invariant EvictedTo(up, keys, i, old(produced), evicted, gone, smooth)
      {
        evicted, gone, smooth := EvictNext(keys, i, up, old(produced), evicted, gone, smooth);
      }
    }

    /** The first `i` keys are dealt with. */
    ghost predicate EvictedTo(up: Rows, keys: seq<Key>, i: nat, start: seq<Message>, evicted: nat, gone: set<nat>,
                              smooth: bool)
      requires i <= |keys|
      reads this
    {
      var over := Over(up, keys, i, max);
      && Valid() && evicted == |over| && Pruned(rows, up, over, gone, smooth)
      && produced == start + Deletions(over)
    }

    method EvictNext(keys: seq<Key>, i: nat, up: Rows, ghost start: seq<Message>,
                     evicted: nat, ghost gone: set<nat>, ghost smooth: bool)
      returns (evicted': nat, ghost gone': set<nat>, ghost smooth': bool)
      requires i < |keys| && keys[i] in up && EvictedTo(up, keys, i, start, evicted, gone, smooth)
      modifies this
      ensures EvictedTo(up, keys, i + 1, start, evicted', gone', smooth')
    {
      evicted', gone', smooth' := evicted, gone, smooth;
      if Exceeds(up[keys[i]].count, max) {
        var deleted := Evict(keys[i]);
        PrunedStep(old(rows), up, Over(up, keys, i, max), gone, smooth, keys[i], deleted);
        evicted' := evicted + 1;
        gone', smooth' := if deleted then gone + {keys[i].hash} else gone, smooth && deleted;
      }
    }

    /** One scan over the entries that are due, in the order listed and up to the batch size: each
        is published and marked, or evicted. The marks and deletes may fail: `marked` are the
        entries whose mark was stored, `gone` the torrents whose entries were deleted, and `smooth`
        says that nothing failed. */
    method DispatchDue(due: seq<Key>) returns (ghost marked: set<Key>, ghost gone: set<nat>, ghost smooth: bool)
      requires Valid() && Distinct(due) && forall i :: 0 <= i < |due| ==> due[i] in rows
      modifies this
      ensures Valid()
      ensures var batch := if batchSize <= 0 then 100 else batchSize;
              var n := if |due| <= batch then |due| else batch;
              && |produced| == |old(produced)| + n && produced[..|old(produced)|] == old(produced)
              && (forall i :: 0 <= i < n ==>
                    var row := old(rows)[due[i]];
                    var attempt := if row.leased then row.count + 1 else row.count;
                    && produced[|old(produced)| + i] ==
                         (if max >= 0 && attempt > max then DeleteTorrent(due[i].hash) else Retry(due[i]))
                    && (smooth ==> if max >= 0 && attempt > max then due[i].hash in gone else due[i] in marked))
              && (forall k :: k in marked ==> exists i :: 0 <= i < n && due[i] == k)
              && (forall hash :: hash in gone ==> DeleteTorrent(hash) in produced[|old(produced)|..])
      ensures rows.Keys == set k | k in old(rows) && k.hash !in gone
      ensures forall k :: k in rows ==>
        rows[k] == if k in marked
                   then Row(if old(rows)[k].leased then old(rows)[k].count + 1 else old(rows)[k].count, true)
                   else old(rows)[k]
    {
      var list := FirstBatch(due, batchSize);
      assert list == due[..|list|];
      marked, gone, smooth := Scan(list);
      ScanMeans(old(rows), rows, old(produced), produced, due, |list|, max, marked, gone, smooth);
    }

    method Scan(list: seq<Key>) returns (ghost marked: set<Key>, ghost gone: set<nat>, ghost smooth: bool)
      requires Valid() && Distinct(list) && forall i :: 0 <= i < |list| ==> list[i] in rows
      modifies this
      ensures Valid() && produced == old(produced) + Outgoing(old(rows), list, |list|, max)
      ensures Scanned(rows, old(rows), list, |list|, max, marked, gone, smooth)
    {
      ListRows(sys, Left(list, 0));
      Record(List(Left(list, 0)));
      marked, gone, smooth := HandleRows(rows, list);
    }

    method HandleRows(listed: Rows, list: seq<Key>)
      returns (ghost marked: set<Key>, ghost gone: set<nat>, ghost smooth: bool)
      requires Distinct(list) && (forall i :: 0 <= i < |list| ==> list[i] in listed)
               && Handled(listed, list, 0, produced, {}, {}, true)
      modifies this
      ensures Handled(listed, list, |list|, old(produced), marked, gone, smooth)
    {
      marked, gone, smooth := {}, {}, true;
      for i := 0 to |list|
        invariant Handled(listed, list, i, old(produced), marked, gone, smooth)
      {
        marked, gone, smooth := HandleNext(listed, list, i, old(produced), marked, gone, smooth);
      }
    }

    /** The first `i` rows of the list are dealt with. */
    ghost predicate Handled(listed: Rows, list: seq<Key>, i: nat, start: seq<Message>, marked: set<Key>, gone: set<nat>,
                            smooth: bool)
      requires i <= |list| && forall j :: 0 <= j < |list| ==> list[j] in listed
      reads this
    {
      && Scans(listed, Left(list, i)) && Scanned(rows, listed, list, i, max, marked, gone, smooth)
      && produced == start + Outgoing(listed, list, i, max)
    }

    method HandleNext(listed: Rows, list: seq<Key>, i: nat, ghost start: seq<Message>,
                      ghost marked: set<Key>, ghost gone: set<nat>, ghost smooth: bool)
      returns (ghost marked': set<Key>, ghost gone': set<nat>, ghost smooth': bool)
      requires i < |list| && Distinct(list) && (forall j :: 0 <= j < |list| ==> list[j] in listed)
               && Handled(listed, list, i, start, marked, gone, smooth)
      modifies this
      ensures Handled(listed, list, i + 1, start, marked', gone', smooth')
    {
      LeftStep(list, i);
      var stored := HandleRow(listed, list[i], Left(list, i));
      marked', gone', smooth' := marked, gone, smooth && stored;
      if Exceeds(Attempt(listed[list[i]]), max) {
        ScannedEvict(old(rows), listed, list, i, max, marked, gone, smooth, stored);
        gone' := if stored then gone + {list[i].hash} else gone;
      } else {
        ScannedMark(old(rows), listed, list, i, max, marked, gone, smooth, stored);
        marked' := if stored then marked + {list[i]} else marked;
      }
    }

    /** A scan is under way and has still to handle `left`. */
    ghost predicate Scans(listed: Rows, left: set<Key>)
      reads this
    {
      Reached(sys, max) && RowsOf(sys) == rows && Scanning(sys, listed, left)
    }

    /** Handles one listed row. */
    method HandleRow(listed: Rows, k: Key, ghost left: set<Key>) returns (stored: bool)
      requires Scans(listed, left) && k in left && k in listed
      modifies this
      ensures Scans(listed, left - {k}) && rows == RowHandled(old(rows), listed, k, max, stored)
      ensures produced == old(produced) + [Sent(listed, k, max)]
    {
      var row := listed[k];
      var failCount := row.count;
      if row.leased {
        failCount := row.count + 1;
      }
      if max >= 0 && failCount > max {
        stored := EvictListed(listed, k, left);
      } else {
        stored := Publish(listed, k, left, failCount);
      }
    }

    method EvictListed(ghost listed: Rows, k: Key, ghost left: set<Key>) returns (stored: bool)
      requires Scans(listed, left) && k in left && k in listed && Exceeds(Attempt(listed[k]), max)
      modifies this
      ensures Scans(listed, left - {k}) && rows == if stored then Without(old(rows), k.hash) else old(rows)
      ensures produced == old(produced) + [DeleteTorrent(k.hash)]
    {
      stored := *;
      EvictRows(sys, listed, k, left, stored);
      Record(Step.Evict(k, stored));
      produced := produced + [DeleteTorrent(k.hash)];
      if stored {
        rows := Without(rows, k.hash);
      }
    }

    method Publish(ghost listed: Rows, k: Key, ghost left: set<Key>, failCount: int) returns (stored: bool)
      requires Scans(listed, left) && k in left && k in listed
      requires failCount == Attempt(listed[k]) && !Exceeds(failCount, max)
      modifies this
      ensures Scans(listed, left - {k})
      ensures rows == if stored && k in old(rows) then old(rows)[k := Row(failCount, true)] else old(rows)
      ensures produced == old(produced) + [Retry(k)]
    {
      stored := *;
      DispatchRows(sys, listed, k, left, stored);
      Record(Dispatch(k, stored));
      produced := produced + [Retry(k)];
      if stored && k in rows {
        rows := rows[k := Row(failCount, true)];
      }
    }

    /** Makes every entry of a torrent due at once. The statement may fail, which is reported, as
        is a torrent without an entry. */
    method RetryNow(hash: nat) returns (r: TouchResult)
      requires Valid()
      modifies this`rows, this`sys
      ensures Valid()
      ensures !r.TouchFailed? ==> (r.MadeDue? <==> exists k :: k in old(rows) && k.hash == hash)
      ensures rows == if r.TouchFailed? then old(rows) else Unleased(old(rows), hash)
      ensures rows.Keys == old(rows).Keys
      ensures forall k :: k in rows ==>
        && rows[k].count == old(rows)[k].count
        && rows[k].leased == (old(rows)[k].leased && (r.TouchFailed? || k.hash != hash))
    {
      var stored: bool := *;
      if !stored {
        return TouchFailed;
      }
      TouchRows(sys, hash);
      Record(Touch(hash));
      r := if exists k :: k in rows && k.hash == hash then MadeDue else NoRows;
      rows := Unleased(rows, hash);
    }

    /** Removes the entries of torrents that were processed; a failing delete is skipped. `gone`
        are the torrents whose delete succeeded, `smooth` says that none failed. */
    method Remove(hashes: seq<nat>) returns (ghost gone: set<nat>, ghost smooth: bool)
      requires Valid()
      modifies this`rows, this`sys
      ensures Valid()
      ensures rows == map k | k in old(rows) && k.hash !in gone :: old(rows)[k]
      ensures (forall hash :: hash in gone ==> hash in hashes)
              && (smooth ==> forall hash :: hash in hashes ==> hash in gone)
    {
      gone, smooth := {}, true;
      for i := 0 to |hashes|
        invariant Valid()
        invariant rows == map k | k in old(rows) && k.hash !in gone :: old(rows)[k]
        invariant forall hash :: hash in gone ==> hash in hashes
        invariant smooth ==> forall j :: 0 <= j < i ==> hashes[j] in gone
      {
        var deleted := DeleteRetry(hashes[i]);
        gone, smooth := if deleted then gone + {hashes[i]} else gone, smooth && deleted;
      }
    }

    method Clear() returns (stored: bool)
      requires Valid()
      modifies this`rows, this`sys
      ensures Valid() && rows == if stored then map[] else old(rows)
    {
      stored := *;
      if stored {
        ClearRows(sys);
        Record(Step.Clear);
        rows := map[];
      }
    }
  }

  function KeysIn(items: seq<Item>): seq<Key> {
    seq(|items|, i requires 0 <= i < |items| => items[i].key)
  }

  /** A scan lists at most a batch; the default is 100. */
  function FirstBatch(due: seq<Key>, batchSize: int): seq<Key> {
    var n := if batchSize <= 0 then 100 else batchSize;
    if |due| <= n then due else due[..n]
  }
}
