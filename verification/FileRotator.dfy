/**
 The rotating log file: a new file each day and whenever the size cap would be exceeded, and a
 bounded number of old files. The directory holds the sizes of its files; other components may put
 files of their own into it.
 */
module FileRotator {
  import opened Strings
  import opened Wrappers
  import opened Library
  import opened LexerBase
  import opened LogNames

  type Directory = map<string, nat>

  datatype Outcome = Done | Failed | Panicked

  /** A rotated file: what its name says. */
  datatype BackupFile = BackupFile(name: string, date: string, seqNo: int)

  /** Older files come first. */
  predicate Older(a: BackupFile, b: BackupFile) {
    StrLess(a.date, b.date) || (a.date == b.date && a.seqNo < b.seqNo)
  }

  function ByAge(): (BackupFile, BackupFile) -> bool { (a: BackupFile, b: BackupFile) => Older(a, b) }

  lemma OlderIsWeakOrder()
    ensures IsWeakOrder(ByAge())
  {
    forall a, b | ByAge()(a, b) ensures !ByAge()(b, a) {
      StrLessIrreflexive(a.date);
      if StrLess(a.date, b.date) && StrLess(b.date, a.date) {
        StrLessTransitive(a.date, b.date, a.date);
      }
    }
    forall a, b, c | ByAge()(a, b) && !ByAge()(c, b) ensures ByAge()(a, c) {
      if c.date != b.date {
        StrLessTotal(b.date, c.date);
        if StrLess(a.date, b.date) {
          StrLessTransitive(a.date, b.date, c.date);
        }
      }
    }
  }

  /** The rotated files of a directory other than the active one. */
  ghost predicate IsBackup(dates: Dates, base: string, active: string, b: BackupFile) {
    b.name != active && ParseBackupName(dates, base, b.name) == Backup(b.date, b.seqNo)
  }

  function Inactive(dates: Dates, base: string, dir: Directory, active: string): set<string> {
    set n | n in dir && n != active && ParseBackupName(dates, base, n).Backup?
  }

  /** The sequence number of a file of the day; zero for other files. */
  function SeqOf(dates: Dates, base: string, date: string, n: string): (m: int)
    ensures 0 <= m <= MAX_INT64
  {
    var p := ParseBackupName(dates, base, n);
    if p.Backup? && p.date == date then p.seqNo else 0
  }

  /** The greatest sequence number of a day; zero when there is none. */
  ghost predicate IsMaxSeq(dates: Dates, base: string, dir: Directory, date: string, m: int) {
    && (forall n :: n in dir ==> SeqOf(dates, base, date, n) <= m)
    && 0 <= m <= MAX_INT64
    && (m == 0 || exists n :: n in dir && SeqOf(dates, base, date, n) == m)
  }

  /** The name is a file of the day, and no file of the day has a greater number. */
  ghost predicate NewestOfDay(dates: Dates, base: string, dir: Directory, date: string, name: string) {
    var p := ParseBackupName(dates, base, name);
    p.Backup? && p.date == date && forall n :: n in dir ==> SeqOf(dates, base, date, n) <= p.seqNo
  }

  /** The numbers of a directory are not used up. */
  ghost predicate HasRoom(dates: Dates, base: string, dir: Directory) {
    forall n, date :: n in dir ==> SeqOf(dates, base, date, n) < MAX_INT64
  }

  /** A number above those of the day makes a name that is not taken, and newer than all of them. */
  lemma NextNameIsFresh(dates: Dates, base: string, dir: Directory, date: string, m: int)
    requires dates(date) && IsMaxSeq(dates, base, dir, date, m) && m < MAX_INT64
    ensures SeqName(base, date, NextSeq(m)) !in dir
    ensures NewestOfDay(dates, base, dir, date, SeqName(base, date, NextSeq(m)))
  {
    SeqNameParses(dates, base, date, m + 1);
  }

  // ---------- pruning ----------

  /** Nothing but rotated files that are not active has gone, and what is left is as it was. */
  ghost predicate OnlyBackupsGone(dates: Dates, base: string, dir: Directory, active: string, dir': Directory) {
    && (forall n :: n in dir' ==> n in dir && dir'[n] == dir[n])
    && (forall n :: n in dir && n !in dir' ==> n in Inactive(dates, base, dir, active))
  }

  /** No rotated file has gone that is newer than one that is left. */
  ghost predicate OldestGone(dates: Dates, base: string, dir: Directory, active: string, dir': Directory) {
    && (forall r, k :: r in dir && r !in dir' && k in Inactive(dates, base, dir', active) ==>
          var p, q := ParseBackupName(dates, base, r), ParseBackupName(dates, base, k);
          p.Backup? && q.Backup? && !Older(BackupFile(k, q.date, q.seqNo), BackupFile(r, p.date, p.seqNo)))
  }

  function NameOf(b: BackupFile): string { b.name }

  function Names(bs: seq<BackupFile>): set<string> { set b | b in bs :: NameOf(b) }

  predicate DistinctNames(bs: seq<BackupFile>) { DistinctKeys(bs, NameOf) }

  /** The rotated files among some names. */
  function BackupsOf(dates: Dates, base: string, names: seq<string>, active: string): seq<BackupFile> {
    if names == [] then []
    else
      var front, n := BackupsOf(dates, base, names[..|names| - 1], active), names[|names| - 1];
      var p := ParseBackupName(dates, base, n);
      if n != active && p.Backup? then front + [BackupFile(n, p.date, p.seqNo)] else front
  }

  lemma {:induction false} BackupsListed(dates: Dates, base: string, names: seq<string>, active: string)
    requires Distinct(names)
    ensures var bs := BackupsOf(dates, base, names, active);
            DistinctNames(bs) && forall b :: b in bs <==> b.name in names && IsBackup(dates, base, active, b)
  {
    if names != [] {
      var front, n := names[..|names| - 1], names[|names| - 1];
      assert names == front + [n] && n !in front;
      BackupsListed(dates, base, front, active);
      var bs := BackupsOf(dates, base, front, active);
      forall i | 0 <= i < |bs| ensures bs[i].name != n {
        assert bs[i] in bs;
      }
    }
  }

  lemma {:induction false} NamesCount(bs: seq<BackupFile>)
    requires DistinctNames(bs)
    ensures |Names(bs)| == |bs|
  {
    if bs != [] {
      var front, last := bs[..|bs| - 1], bs[|bs| - 1];
      NamesCount(front);
      assert bs == front + [last];
      forall n ensures n in Names(bs) <==> n in Names(front) || n == last.name {
        if n in Names(front) {
          var b :| b in front && NameOf(b) == n;
          assert b in bs;
        }
        assert last in bs && NameOf(last) == last.name;
      }
      assert Names(bs) == Names(front) + {last.name};
      assert last.name !in Names(front);
    }
  }

  method ListBackups(dates: Dates, base: string, dir: Directory, active: string) returns (backups: seq<BackupFile>)
    requires base + SUFFIX !in dir
    ensures DistinctNames(backups) && forall b :: b in backups <==> b.name in dir && IsBackup(dates, base, active, b)
  {
    backups := [];
    var names := RangeKeys(dir.Keys);
    for i := 0 to |names|
      invariant backups == BackupsOf(dates, base, names[..i], active)
    {
      var name := names[i];
      assert names[..i + 1][..i] == names[..i];
      if name != active {
        var p := ParseBackupName(dates, base, name);
        if p.Backup? {
          backups := backups + [BackupFile(name, p.date, p.seqNo)];
        }
      }
    }
    assert names[..|names|] == names;
    BackupsListed(dates, base, names, active);
  }

  /** The oldest files beyond the number to keep, once sorted; `gone` are those removed. */
  lemma OnlyListedGone(dates: Dates, base: string, dir: Directory, active: string, sorted: seq<BackupFile>, k: nat,
                       dir': Directory)
    requires k <= |sorted| && forall b :: b in sorted <==> b.name in dir && IsBackup(dates, base, active, b)
    requires forall n :: n in dir' ==> n in dir && dir'[n] == dir[n]
    requires forall n :: n in dir && n !in dir' ==> n in Names(sorted[..k])
    ensures OnlyBackupsGone(dates, base, dir, active, dir')
  {
    forall n | n in dir && n !in dir' ensures n in Inactive(dates, base, dir, active) {
      var b :| b in sorted[..k] && NameOf(b) == n;
      assert b in sorted;
    }
  }

  /** When all of them could be removed, the oldest are gone and the others are left. */
  lemma AllListedGone(dates: Dates, base: string, dir: Directory, active: string, sorted: seq<BackupFile>, k: nat,
                      dir': Directory)
    requires WeaklyOrdered(sorted, ByAge()) && DistinctNames(sorted) && k <= |sorted|
    requires forall b :: b in sorted <==> b.name in dir && IsBackup(dates, base, active, b)
    requires dir' == map n | n in dir && n !in Names(sorted[..k]) :: dir[n]
    ensures OldestGone(dates, base, dir, active, dir')
    ensures |Inactive(dates, base, dir', active)| == |sorted| - k
  {
    forall r, m | r in dir && r !in dir' && m in Inactive(dates, base, dir', active)
      ensures var p, q := ParseBackupName(dates, base, r), ParseBackupName(dates, base, m);
              p.Backup? && q.Backup? && !Older(BackupFile(m, q.date, q.seqNo), BackupFile(r, p.date, p.seqNo))
    {
      KeptIsNotOlder(dates, base, dir, active, sorted, k, r, m);
    }
    InactiveAre(dates, base, dir, active, sorted, k, dir');
    NamesCount(sorted[k..]);
  }

  lemma KeptIsNotOlder(dates: Dates, base: string, dir: Directory, active: string, sorted: seq<BackupFile>, k: nat,
                       r: string, m: string)
    requires WeaklyOrdered(sorted, ByAge()) && k <= |sorted|
    requires forall b :: b in sorted <==> b.name in dir && IsBackup(dates, base, active, b)
    requires r in Names(sorted[..k]) && m in Inactive(dates, base, dir, active) && m !in Names(sorted[..k])
    ensures var p, q := ParseBackupName(dates, base, r), ParseBackupName(dates, base, m);
            p.Backup? && q.Backup? && !Older(BackupFile(m, q.date, q.seqNo), BackupFile(r, p.date, p.seqNo))
  {
    var b :| b in sorted[..k] && NameOf(b) == r;
    assert b in sorted;
    var q := ParseBackupName(dates, base, m);
    var c := BackupFile(m, q.date, q.seqNo);
    assert c in sorted && NameOf(c) == m;
    var i :| 0 <= i < k && sorted[i] == b;
    var j :| 0 <= j < |sorted| && sorted[j] == c;
    assert !ByAge()(sorted[j], sorted[i]);
  }

  lemma InactiveAre(dates: Dates, base: string, dir: Directory, active: string, sorted: seq<BackupFile>, k: nat,
                    dir': Directory)
    requires DistinctNames(sorted) && k <= |sorted|
    requires forall b :: b in sorted <==> b.name in dir && IsBackup(dates, base, active, b)
    requires dir' == map n | n in dir && n !in Names(sorted[..k]) :: dir[n]
    ensures Inactive(dates, base, dir', active) == Names(sorted[k..])
  {
    forall n ensures n in Inactive(dates, base, dir', active) <==> n in Names(sorted[k..]) {
      if n in Inactive(dates, base, dir', active) {
        var p := ParseBackupName(dates, base, n);
        var b := BackupFile(n, p.date, p.seqNo);
        assert b in sorted && NameOf(b) == n;
        var i :| 0 <= i < |sorted| && sorted[i] == b;
        assert sorted[k..][i - k] == b;
      }
      if n in Names(sorted[k..]) {
        var b :| b in sorted[k..] && NameOf(b) == n;
        assert b in sorted;
        var i :| k <= i < |sorted| && sorted[i] == b;
        forall c | c in sorted[..k] ensures c.name != n {
          var j :| 0 <= j < k && sorted[j] == c;
        }
      }
    }
  }

  lemma CountInactive(dates: Dates, base: string, dir: Directory, active: string, bs: seq<BackupFile>)
    requires DistinctNames(bs) && forall b :: b in bs <==> b.name in dir && IsBackup(dates, base, active, b)
    ensures |Inactive(dates, base, dir, active)| == |bs|
  {
    assert Names(bs[..0]) == {};
    assert bs[0..] == bs;
    InactiveAre(dates, base, dir, active, bs, 0, dir);
    NamesCount(bs);
  }

  method SortBackups(backups: seq<BackupFile>) returns (sorted: seq<BackupFile>)
    requires DistinctNames(backups)
    ensures WeaklyOrdered(sorted, ByAge()) && DistinctNames(sorted) && |sorted| == |backups|
    ensures forall b :: b in sorted <==> b in backups
  {
    OlderIsWeakOrder();
    SortSortsWeakly(backups, ByAge());
    sorted := Sort(backups, ByAge());
    SameElements(backups, sorted);
    PermutedKeys(backups, sorted, NameOf);
  }

  // ---------- the rotator ----------

  class Rotator {
    const dates: Dates
    const base: string
    const maxBackups: int
    const maxSize: int        // in bytes; not positive means that there is no cap
    var dir: Directory
    var closed: bool
    var fileDate: string
    var active: string        // the name of the file opened last
    var open: bool
    var size: nat             // of the open file
    ghost var entries: nat    // that are not empty, written since the file was opened

    /** The open file is in the directory, and within the cap unless it holds a single entry since
        it was opened. */
    ghost predicate Valid()
      reads this
    {
      && (open ==> active in dir && dir[active] == size && (entries > 0 ==> size > 0))
      && (open && maxSize > 0 ==> size <= maxSize || entries <= 1)
    }

    constructor (dates: Dates, base: string, maxBackups: int, maxSize: int, dir: Directory)
      ensures Valid() && this.dates == dates && this.base == base && this.maxBackups == maxBackups
              && this.maxSize == maxSize
      ensures this.dir == dir && !open && !closed
    {
      this.dates, this.base, this.maxBackups, this.maxSize, this.dir := dates, base, maxBackups, maxSize, dir;
      closed, open, fileDate, active, size, entries := false, false, "", "", 0, 0;
    }

    predicate ShouldRotate(nextLen: nat, today: string)
      reads this
    {
      !open || today != fileDate || (maxSize > 0 && size > 0 && size + nextLen > maxSize)
    }

    /** The sequence number that a file name adds to a day. */
    method ReadSeq(date: string, name: string) returns (seqNo: int, panics: bool)
      ensures panics <==> name == base + SUFFIX
      ensures !panics ==> seqNo == SeqOf(dates, base, date, name)
    {
      ParsePanicsExactly(dates, base, name);
      var p := ParseBackupName(dates, base, name);
      seqNo, panics := if p.Backup? && p.date == date then p.seqNo else 0, p.Panics?;
    }

    /** The greatest sequence number of the day; None when a name makes the parser panic. */
    method MaxSequence(date: string) returns (m: Option<int>)
      ensures m.None? ==> base + SUFFIX in dir
      ensures m.Some? ==> IsMaxSeq(dates, base, dir, date, m.value)
    {
      var names := RangeKeys(dir.Keys);
      var maxSeq := 0;
      ghost var of := "";
      for i := 0 to |names|
        invariant 0 <= maxSeq <= MAX_INT64 && AtMost(date, names[..i], maxSeq)
        invariant maxSeq == 0 || (of in dir && SeqOf(dates, base, date, of) == maxSeq)
      {
        var seqNo, panics := ReadSeq(date, names[i]);
        if panics {
          return None;
        }
        AtMostStep(date, names, i, maxSeq, if seqNo > maxSeq then seqNo else maxSeq);
        if seqNo > maxSeq {
          maxSeq, of := seqNo, names[i];
        }
      }
      assert names[..|names|] == names;
      m := Some(maxSeq);
    }

    ghost predicate AtMost(date: string, names: seq<string>, m: int) {
      forall n :: n in names ==> SeqOf(dates, base, date, n) <= m
    }

    lemma AtMostStep(date: string, names: seq<string>, i: nat, m: int, m': int)
      requires i < |names| && AtMost(date, names[..i], m) && m <= m' && SeqOf(dates, base, date, names[i]) <= m'
      ensures AtMost(date, names[..i + 1], m')
    {
      assert names[..i + 1] == names[..i] + [names[i]];
    }

    /** The newest file of the day, if there is one. */
    method Newest(date: string) returns (r: Option<(string, int)>, panics: bool)
      ensures panics ==> base + SUFFIX in dir
      ensures !panics && r.Some? ==>
        r.value.0 in dir && ParseBackupName(dates, base, r.value.0) == Backup(date, r.value.1)
          && IsMaxSeq(dates, base, dir, date, r.value.1)
      ensures !panics && r.None? ==> forall n :: n in dir && ParseBackupName(dates, base, n).Backup? ==>
        ParseBackupName(dates, base, n).date != date
    {
      var names := RangeKeys(dir.Keys);
      r, panics := None, false;
      for i := 0 to |names|
        invariant r.Some? ==> r.value.0 in dir && ParseBackupName(dates, base, r.value.0) == Backup(date, r.value.1)
        invariant forall j :: 0 <= j < i ==> var p := ParseBackupName(dates, base, names[j]);
          p.Backup? && p.date == date ==> r.Some? && p.seqNo <= r.value.1
      {
        ParsePanicsExactly(dates, base, names[i]);
        var p := ParseBackupName(dates, base, names[i]);
        if p.Panics? {
          return None, true;
        }
        if p.Backup? && p.date == date && (r.None? || p.seqNo > r.value.1) {
          r := Some((names[i], p.seqNo));
        }
      }
      forall n | n in dir ensures n in names {
      }
    }

    /** The file to append to on the first write and when the day changes: the newest of the day,
        or a new one. It is still below the cap. */
    method ResolveActive(date: string) returns (name: string, panics: bool)
      requires dates(date)
      ensures if panics then base + SUFFIX in dir else name != base + SUFFIX
      ensures !panics && HasRoom(dates, base, dir) ==> NewestOfDay(dates, base, dir, date, name)
      ensures !panics && HasRoom(dates, base, dir) && name in dir && maxSize > 0 ==> dir[name] < maxSize
    {
      var newest;
      newest, panics := Newest(date);
      name := "";
      if panics {
        return;
      }
      if newest.None? {
        PlainNameParses(dates, base, date);
        name := PlainName(base, date);
      } else if maxSize > 0 && dir[newest.value.0] >= maxSize {
        name := SeqName(base, date, NextSeq(newest.value.1));
        if newest.value.1 < MAX_INT64 {
          NextNameIsFresh(dates, base, dir, date, newest.value.1);
        }
      } else {
        name := newest.value.0;
        ParsePanicsExactly(dates, base, name);
      }
    }

    /** Removes the oldest rotated files beyond the number to keep, as far as they can be removed. */
    method PruneBackups() returns (o: Outcome, ghost allRemoved: bool)
      modifies this`dir
      ensures OnlyBackupsGone(dates, base, old(dir), active, dir)
      ensures o.Panicked? ==> base + SUFFIX in old(dir)
      ensures maxBackups <= 0 || |Inactive(dates, base, old(dir), active)| <= maxBackups ==> dir == old(dir)
      ensures o.Done? && maxBackups > 0 && allRemoved ==>
        && OldestGone(dates, base, old(dir), active, dir)
        && |Inactive(dates, base, dir, active)| ==
             if |Inactive(dates, base, old(dir), active)| <= maxBackups
             then |Inactive(dates, base, old(dir), active)|
             else maxBackups
    {
      o, allRemoved := Done, true;
      if maxBackups <= 0 {
        return;
      }
      if base + SUFFIX in dir {
        return Panicked, true;
      }
      var backups := ListBackups(dates, base, dir, active);
      CountInactive(dates, base, dir, active, backups);
      if |backups| <= maxBackups {
        return;
      }
      var sorted := SortBackups(backups);
      ghost var before := dir;
      allRemoved := RemoveFirst(sorted, |backups| - maxBackups);
      OnlyListedGone(dates, base, before, active, sorted, |backups| - maxBackups, dir);
      if allRemoved {
        AllListedGone(dates, base, before, active, sorted, |backups| - maxBackups, dir);
      }
    }

    /** Closes the open file and opens the one to write to now. */
    method Rotate(today: string) returns (o: Outcome)
      requires Valid() && dates(today)
      modifies this
      ensures Valid() && closed == old(closed)
      ensures o.Panicked? ==> base + SUFFIX in old(dir)
      ensures o.Done? ==> open && entries == 0 && fileDate == today
      ensures o.Done? && HasRoom(dates, base, old(dir)) ==>
        && NewestOfDay(dates, base, old(dir), today, active)
        && (maxSize > 0 ==> size < maxSize)
        && (old(fileDate) == today && maxSize > 0 ==> active !in old(dir) && size == 0)
      ensures o.Done? ==> forall n :: n in old(dir) && !ParseBackupName(dates, base, n).Backup? && n != active ==>
        n in dir && dir[n] == old(dir)[n]
    {
      if open {
        open := false;
        var closeFails: bool := *;
        if closeFails {
          return Failed;
        }
      }
      var name, panics := NewFilePath(today, fileDate == today && maxSize > 0);
      if panics {
        return Panicked;
      }
      var openFails: bool := *;
      if openFails {
        return Failed;
      }
      Open(name, today);
      o := Prune();
    }

    /** Opens a file to append to. */
    method Open(name: string, today: string)
      modifies this
      ensures Valid() && open && active == name && fileDate == today && entries == 0 && closed == old(closed)
      ensures size == if name in old(dir) then old(dir)[name] else 0
      ensures dir == old(dir)[name := size]
    {
      size := if name in dir then dir[name] else 0;
      dir := dir[name := size];
      open, active, fileDate, entries := true, name, today, 0;
    }

    /** Prunes; the open file stays. */
    method Prune() returns (o: Outcome)
      requires Valid() && open
      modifies this`dir
      ensures Valid() && OnlyBackupsGone(dates, base, old(dir), active, dir)
      ensures o.Panicked? ==> base + SUFFIX in old(dir)
    {
      ghost var all;
      o, all := PruneBackups();
    }

    /** The name of the file to open: a new one after the size cap was reached, otherwise the one
        to append to. */
    method NewFilePath(today: string, sequenced: bool) returns (name: string, panics: bool)
      requires dates(today)
      ensures if panics then base + SUFFIX in dir else name != base + SUFFIX
      ensures !panics && HasRoom(dates, base, dir) ==>
        && NewestOfDay(dates, base, dir, today, name)
        && (if sequenced then name !in dir else name in dir && maxSize > 0 ==> dir[name] < maxSize)
    {
      if !sequenced {
        name, panics := ResolveActive(today);
        return;
      }
      var m := MaxSequence(today);
      if m.None? {
        return "", true;
      }
      if m.value < MAX_INT64 {
        NextNameIsFresh(dates, base, dir, today, m.value);
      }
      name, panics := SeqName(base, today, NextSeq(m.value)), false;
    }

    /** Writes an entry of n bytes; `checked` and `today` are the dates when the clock is read. */
    method Write(n: nat, checked: string, today: string) returns (o: Outcome)
      requires Valid() && dates(today)
      modifies this
      ensures Valid() && closed == old(closed)
      ensures closed ==> o.Done? && dir == old(dir)
      ensures o.Panicked? ==> base + SUFFIX in old(dir)
      ensures o.Done? && !closed ==> open && active in dir && dir[active] == size
      ensures o.Done? && !closed && !old(ShouldRotate(n, checked)) ==>
        active == old(active) && dir == old(dir)[active := old(size) + n]
      // the file written to is that of today, by the clock that was read for it
      ensures o.Done? && !closed && (!old(open) || old(fileDate) != checked) ==> fileDate == today
      ensures o.Done? && !closed ==> fileDate == today || fileDate == checked
      // a full file is left alone
      ensures o.Done? && !closed && HasRoom(dates, base, old(dir)) ==>
        maxSize > 0 && old(size) > 0 && old(size) + n > maxSize && today == old(fileDate) ==>
          active !in old(dir) && size == n
      // and nothing is rotated before its time
      ensures o.Done? && !closed && old(open) && old(fileDate) == checked ==>
        maxSize <= 0 || old(size) == 0 || old(size) + n <= maxSize ==>
          active == old(active) && dir == old(dir)[active := old(size) + n]
    {
      if closed {
        return Done;
      }
      if ShouldRotate(n, checked) {
        o := Rotate(today);
        if !o.Done? {
          return;
        }
      }
      o := Done;
      size := size + n;
      dir := dir[active := size];
      entries := entries + if n > 0 then 1 else 0;
    }

    method RemoveFirst(sorted: seq<BackupFile>, k: nat) returns (ghost allRemoved: bool)
      requires k <= |sorted|
      modifies this`dir
      ensures forall n :: n in dir ==> n in old(dir) && dir[n] == old(dir)[n]
      ensures forall n :: n in old(dir) && n !in dir ==> n in Names(sorted[..k])
      ensures allRemoved ==> dir == map n | n in old(dir) && n !in Names(sorted[..k]) :: old(dir)[n]
    {
      allRemoved := true;
      for i := 0 to k
        invariant forall n :: n in dir ==> n in old(dir) && dir[n] == old(dir)[n]
        invariant forall n :: n in old(dir) && n !in dir ==> n in Names(sorted[..i])
        invariant allRemoved ==> forall n :: n in dir ==> n !in Names(sorted[..i])
      {
        NamesStep(sorted, i);
        var removed: bool := *;
        if removed {
          dir := dir - {sorted[i].name};
        } else {
          allRemoved := false;
        }
      }
    }
  }

  lemma NamesStep(bs: seq<BackupFile>, i: nat)
    requires i < |bs|
    ensures Names(bs[..i + 1]) == Names(bs[..i]) + {bs[i].name}
  {
    assert bs[..i + 1] == bs[..i] + [bs[i]];
    forall n ensures n in Names(bs[..i + 1]) <==> n in Names(bs[..i]) || n == bs[i].name {
      if n in Names(bs[..i]) {
        var b :| b in bs[..i] && NameOf(b) == n;
        assert b in bs[..i + 1];
      }
      assert bs[i] in bs[..i + 1] && NameOf(bs[i]) == bs[i].name;
    }
  }
}