/**
 The size-limited log file. Slot 0 is the current file, slot n is `<path>.n`.
 Every open, close, rename and write may fail; a failed rename has no effect, a
 failed Stat leaves the freshly created file behind, and a failed write may have
 stored a prefix.
 */
module LogRotation {
  import opened Prelude

  type Disk = map<nat, Bytes>

  datatype Reopening = Opens | OpenFails | StatFails

  /** The fate of every operation a single `Write` may perform; `renames(n)` is the one from slot n. */
  datatype Fate = Fate(first: Reopening, closes: bool, renames: nat -> bool, again: Reopening, stored: nat)

  predicate Flawless(f: Fate, p: Bytes) {
    f.first.Opens? && f.closes && f.again.Opens? && f.stored >= |p|
  }

  function Slot(disk: Disk, n: nat): Bytes { if n in disk then disk[n] else [] }

  /** The backups from slot `n` down to 1, followed by the current file. */
  function Log(disk: Disk, n: nat): Bytes {
    if n == 0 then Slot(disk, 0) else Slot(disk, n) + Log(disk, n - 1)
  }

  predicate Suffix(s: Bytes, whole: Bytes) {
    |s| <= |whole| && whole[|whole| - |s|..] == s
  }

  predicate Bounded(disk: Disk, slots: nat, limit: nat) {
    forall n | n in disk && n <= slots :: |disk[n]| <= limit
  }

  /** `os.Rename(src, dst)` when the source exists and nothing goes wrong. */
  function Renamed(disk: Disk, src: nat, dst: nat): Disk
    requires src in disk
  {
    (disk - {src})[dst := disk[src]]
  }

  // --------------------------------------------------------------- lemmas

  lemma {:induction false} LogFrame(disk: Disk, disk': Disk, n: nat)
    requires forall k | 0 <= k <= n :: Slot(disk', k) == Slot(disk, k)
    ensures Log(disk', n) == Log(disk, n)
  {
    if n > 0 { LogFrame(disk, disk', n - 1); }
  }

  /** Moving a file into the free slot above it changes no byte of the log. */
  lemma {:induction false} MoveUp(disk: Disk, n: nat, top: nat)
    requires 0 < n <= top && n - 1 in disk && Slot(disk, n) == []
    ensures Log(Renamed(disk, n - 1, n), top) == Log(disk, top)
  {
    var disk' := Renamed(disk, n - 1, n);
    if top == n {
      if n >= 2 { LogFrame(disk, disk', n - 2); }
      assert Log(disk, n - 1) == disk[n - 1] + if n >= 2 then Log(disk, n - 2) else [];
      assert Log(disk', n - 1) == if n >= 2 then Log(disk, n - 2) else [];
    } else {
      MoveUp(disk, n, top - 1);
    }
  }

  /** Renaming onto the oldest slot loses that slot's bytes and no others. */
  lemma OverwriteOldest(disk: Disk, top: nat)
    requires 0 < top && top - 1 in disk
    ensures Slot(disk, top) + Log(Renamed(disk, top - 1, top), top) == Log(disk, top)
  {
    var emptied := disk - {top};
    LogFrame(disk, emptied, top - 1);
    MoveUp(emptied, top, top);
    assert Renamed(emptied, top - 1, top) == Renamed(disk, top - 1, top);
  }

  lemma SuffixOfSuffix(a: Bytes, b: Bytes, c: Bytes)
    requires Suffix(a, b) && Suffix(b, c)
    ensures Suffix(a, c)
  {
    assert c[|c| - |b|..][|b| - |a|..] == c[|c| - |a|..];
  }

  lemma WholeIsSuffix(s: Bytes)
    ensures Suffix(s, s)
  {
    assert s[|s| - |s|..] == s;
  }

  lemma SuffixExtends(a: Bytes, b: Bytes, p: Bytes)
    requires Suffix(a, b)
    ensures Suffix(a + p, b + p)
  {
    assert (b + p)[|b| - |a|..] == b[|b| - |a|..] + p;
  }

  /** `after` is `before`, or what is left of it without its leading `oldest`. */
  predicate Kept(before: Bytes, oldest: Bytes, after: Bytes) { after == before || oldest + after == before }

  lemma KeptExtends(before: Bytes, oldest: Bytes, after: Bytes, p: Bytes)
    requires Kept(before, oldest, after)
    ensures Kept(before + p, oldest, after + p)
  {
    assert oldest + (after + p) == (oldest + after) + p;
  }

  /** The log is as long as its slots together, hence bounded by their number times the limit. */
  lemma {:induction false} TotalSize(disk: Disk, n: nat, slots: nat, limit: nat)
    requires Bounded(disk, slots, limit) && n <= slots
    ensures |Log(disk, n)| <= (n + 1) * limit
  {
    if n > 0 { TotalSize(disk, n - 1, slots, limit); }
  }

  predicate SameSlot(a: Disk, b: Disk, n: nat) { (n in a <==> n in b) && Slot(a, n) == Slot(b, n) }

  /** Slot `n` holds what the slot below it held; the oldest keeps its file if there was none. */
  predicate MovedInto(before: Disk, after: Disk, n: nat, top: nat)
    requires n > 0
  {
    if n - 1 in before then n in after && after[n] == before[n - 1]
    else if n == top then SameSlot(before, after, n)
    else n !in after
  }

  /** Every file has moved one slot up, and the current file is new and empty. */
  ghost predicate Rotated(before: Disk, after: Disk, top: nat) {
    && 0 in after && after[0] == []
    && (forall n | 0 < n <= top :: MovedInto(before, after, n, top))
    && (forall n | n > top :: SameSlot(before, after, n))
  }

  /** Every file is new and empty or was there before, in the same slot or a lower one. */
  ghost predicate FromBelow(before: Disk, after: Disk) {
    forall n | n in after :: after[n] == [] || exists k :: k <= n && k in before && after[n] == before[k]
  }

  /** The log as it was, except that the oldest backup may have been given up. */
  ghost predicate OnlyOldestLost(before: Disk, after: Disk, top: nat) {
    && Kept(Log(before, top), Slot(before, top), Log(after, top))
    && (forall n | n > top :: SameSlot(before, after, n))
  }

  /** The state of the renaming loop when slot `n` is the next to be filled. */
  ghost predicate Shifting(before: Disk, disk: Disk, n: nat, top: nat) {
    && 0 < n <= top
    && (forall k | 0 <= k < n :: SameSlot(before, disk, k))
    && (if n == top then SameSlot(before, disk, n) else n !in disk)
    && (forall k | n < k <= top :: MovedInto(before, disk, k, top))
    && OnlyOldestLost(before, disk, top)
  }

  /** What remains to be said about the slots once slot `n` is filled or left empty. */
  ghost predicate Filled(before: Disk, disk: Disk, n: nat, top: nat) {
    && 0 < n <= top
    && (forall k | 0 <= k < n - 1 :: SameSlot(before, disk, k))
    && n - 1 !in disk
    && (forall k | n <= k <= top :: MovedInto(before, disk, k, top))
    && OnlyOldestLost(before, disk, top)
  }

  lemma ShiftOne(before: Disk, disk: Disk, n: nat, top: nat)
    requires Shifting(before, disk, n, top) && n - 1 in disk
    ensures Filled(before, Renamed(disk, n - 1, n), n, top)
  {
    var disk' := Renamed(disk, n - 1, n);
    assert SameSlot(before, disk, n - 1);
    if n == top {
      forall k | 0 <= k <= top ensures Slot(disk, k) == Slot(before, k) { assert SameSlot(before, disk, k); }
      LogFrame(before, disk, top);
      OverwriteOldest(disk, top);
    } else {
      MoveUp(disk, n, top);
    }
    forall k | 0 <= k < n - 1 ensures SameSlot(before, disk', k) { assert SameSlot(before, disk, k); }
    forall k | n < k <= top ensures MovedInto(before, disk', k, top) { assert MovedInto(before, disk, k, top); }
    forall k | k > top ensures SameSlot(before, disk', k) { assert SameSlot(before, disk, k); }
  }

  lemma ShiftNone(before: Disk, disk: Disk, n: nat, top: nat)
    requires Shifting(before, disk, n, top) && n - 1 !in disk
    ensures Filled(before, disk, n, top)
  {
    assert SameSlot(before, disk, n - 1);
    forall k | n <= k <= top ensures MovedInto(before, disk, k, top) { }
  }

  lemma RisesFromBelow(before: Disk, disk: Disk, n: nat)
    requires FromBelow(before, disk) && n > 0 && n - 1 in disk
    ensures FromBelow(before, Renamed(disk, n - 1, n))
  {
  }

  lemma ShiftStarts(disk: Disk, top: nat)
    requires top > 0
    ensures Shifting(disk, disk, top, top) && FromBelow(disk, disk)
  {
  }

  lemma FilledShifts(before: Disk, disk: Disk, n: nat, top: nat)
    requires Filled(before, disk, n, top) && n > 1
    ensures Shifting(before, disk, n - 1, top)
  {
  }

  lemma ReopenedFresh(before: Disk, shifted: Disk, after: Disk, top: nat)
    requires OnlyOldestLost(before, shifted, top) && FromBelow(before, shifted)
    requires after == shifted || after == shifted[0 := []]
    requires Log(after, top) == Log(shifted, top)
    ensures OnlyOldestLost(before, after, top) && FromBelow(before, after)
  {
    forall n | n > top ensures SameSlot(before, after, n) { assert SameSlot(before, shifted, n); }
  }

  lemma RotatedByShift(before: Disk, shifted: Disk, after: Disk, top: nat)
    requires Filled(before, shifted, 1, top) && after == shifted[0 := []]
    ensures Rotated(before, after, top)
  {
    forall n | 0 < n <= top ensures MovedInto(before, after, n, top) { assert MovedInto(before, shifted, n, top); }
    forall n | n > top ensures SameSlot(before, after, n) { assert SameSlot(before, shifted, n); }
  }

  lemma LostIsSuffix(before: Disk, after: Disk, top: nat)
    requires OnlyOldestLost(before, after, top)
    ensures Suffix(Log(after, top), Log(before, top))
  {
    assert Log(before, top)[..] == Log(before, top);
  }

  class LogFile {
    const limit: nat
    const backups: nat
    var isOpen: bool  // f.file != nil; the handle is then that of slot 0
    var size: nat
    var closed: bool
    var disk: Disk

    ghost var accepted: Bytes  // what was there at the start, then every byte accepted since

    /** `rotate` renames onto `<path>.1` even when it is asked to keep no backup. */
    function Top(): nat { if backups == 0 then 1 else backups }

    ghost predicate Valid() reads this {
      && (isOpen ==> 0 in disk && size == |disk[0]|)
      && Suffix(Log(disk, Top()), accepted)
    }

    constructor (disk: Disk, limit: nat, backups: nat, fate: Reopening)
      ensures Valid() && this.limit == limit && this.backups == backups && !closed
      ensures accepted == Log(disk, Top()) == Log(this.disk, Top())
      ensures this.disk == if fate.OpenFails? || 0 in disk then disk else disk[0 := []]
      ensures isOpen <==> fate.Opens?
    {
      this.limit, this.backups, this.disk := limit, backups, disk;
      isOpen, size, closed := false, 0, false;
      accepted := Log(disk, if backups == 0 then 1 else backups);
      WholeIsSuffix(Log(disk, if backups == 0 then 1 else backups));
      new;
      var ok := Reopen(fate);
    }

    method Reopen(fate: Reopening) returns (ok: bool)
      requires !isOpen && Suffix(Log(disk, Top()), accepted)
      modifies this`isOpen, this`size, this`disk
      ensures Valid() && ok == isOpen == fate.Opens?
      ensures Log(disk, Top()) == Log(old(disk), Top())
      ensures disk == if fate.OpenFails? || 0 in old(disk) then old(disk) else old(disk)[0 := []]
    {
      if fate.OpenFails? { return false; }
      if 0 !in disk { disk := disk[0 := []]; }
      LogFrame(old(disk), disk, Top());
      if fate.StatFails? { return false; }
      isOpen, size := true, |disk[0]|;
      ok := true;
    }

    /** The renaming part of `rotate`. */
    method Shift(fate: Fate) returns (ok: bool)
      modifies this`disk
      ensures OnlyOldestLost(old(disk), disk, Top())
      ensures ok ==> Filled(old(disk), disk, 1, Top())
      ensures 0 in old(disk) && (forall n :: fate.renames(n)) ==> ok
      ensures FromBelow(old(disk), disk)
    {
      hide FromBelow, MovedInto, Log, Slot, OnlyOldestLost;
      var n := Top();
      ShiftStarts(disk, n);
      while n > 1
        invariant Shifting(old(disk), disk, n, Top()) && FromBelow(old(disk), disk)
      {
        if !fate.renames(n - 1) { return false; }
        if n - 1 in disk {
          ShiftOne(old(disk), disk, n, Top());
          RisesFromBelow(old(disk), disk, n);
          disk := Renamed(disk, n - 1, n);
        } else {
          ShiftNone(old(disk), disk, n, Top());
        }
        FilledShifts(old(disk), disk, n, Top());
        n := n - 1;
      }
      assert SameSlot(old(disk), disk, 0);
      if !fate.renames(0) || 0 !in disk { return false; }
      ShiftOne(old(disk), disk, 1, Top());
      RisesFromBelow(old(disk), disk, 1);
      disk := Renamed(disk, 0, 1);
      ok := true;
    }

    method Rotate(fate: Fate) returns (ok: bool)
      requires Valid() && isOpen
      modifies this`isOpen, this`size, this`disk
      ensures Valid() && OnlyOldestLost(old(disk), disk, Top()) && FromBelow(old(disk), disk)
      ensures ok ==> isOpen && Rotated(old(disk), disk, Top())
      ensures !ok ==> !isOpen
      ensures fate.closes && fate.again.Opens? && (forall n :: fate.renames(n)) ==> ok
    {
      isOpen := false;
      if !fate.closes { return false; }
      ok := Shift(fate);
      LostIsSuffix(old(disk), disk, Top());
      SuffixOfSuffix(Log(disk, Top()), Log(old(disk), Top()), accepted);
      if !ok { return false; }
      ghost var shifted := disk;
      ok := Reopen(fate.again);
      ReopenedFresh(old(disk), shifted, disk, Top());
      if ok { RotatedByShift(old(disk), shifted, disk, Top()); }
    }

    method Write(p: Bytes, fate: Fate) returns (n: nat, ok: bool)
      requires Valid()
      modifies this
      ensures Valid() && closed == old(closed)
      // What is accepted is exactly the reported prefix, and it lands in one file.
      ensures n <= |p| && accepted == old(accepted) + p[..n]
      ensures n > 0 ==> isOpen && 0 in disk && Suffix(p[..n], disk[0])
      ensures ok ==> n == |p|
      // Refusals leave everything alone; without faults nothing else is refused.
      ensures old(closed) || |p| > limit ==> n == 0 && !ok && disk == old(disk)
      ensures
        && !old(closed) && |p| <= limit && fate.first.Opens? && fate.closes && fate.again.Opens?
        && fate.stored >= |p| && (forall i :: fate.renames(i))
        ==> ok
      // Nothing but the oldest backup is ever given up, and the limit is kept.
      ensures Kept(Log(old(disk), Top()) + p[..n], Slot(old(disk), Top()), Log(disk, Top()))
      ensures n > 0 && old(isOpen) && old(size) + |p| <= limit ==> disk == old(disk)[0 := old(disk)[0] + p[..n]]
      ensures n > 0 && old(isOpen) && old(size) + |p| > limit ==>
                disk[0] == p[..n] && Rotated(old(disk), disk[0 := []], Top())
      ensures Bounded(old(disk), Top(), limit) ==> Bounded(disk, Top(), limit)
      // `backups` files take part besides the current one, and one if none is wanted.
      ensures forall i | i > Top() :: SameSlot(old(disk), disk, i)
      ensures if backups == 0 then Top() == 1 else Top() == backups
    {
      assert p[..0] == [];
      if closed { return 0, false; }
      if |p| > limit { return 0, false; }
      var ready := MakeRoom(p, fate);
      if !ready { return 0, false; }
      n := if fate.stored < |p| then fate.stored else |p|;
      ghost var room := disk;
      AppendCurrent(room, p[..n], Top());
      Append(p[..n]);
      KeptExtends(Log(old(disk), Top()), Slot(old(disk), Top()), Log(room, Top()), p[..n]);
      ok := n == |p|;
      forall i | i > Top() ensures SameSlot(old(disk), disk, i) { assert SameSlot(old(disk), room, i); }
      assert room[0] == [] ==> disk[0] == p[..n] && disk[0 := []] == room;
    }

    /** The steps of `Write` before the bytes are written. */
    method MakeRoom(p: Bytes, fate: Fate) returns (ok: bool)
      requires Valid() && |p| <= limit
      modifies this`isOpen, this`size, this`disk
      ensures Valid() && (ok ==> isOpen && size + |p| <= limit)
      ensures Flawless(fate, p) && (forall i :: fate.renames(i)) ==> ok
      ensures Kept(Log(old(disk), Top()), Slot(old(disk), Top()), Log(disk, Top()))
      ensures forall i | i > Top() :: SameSlot(old(disk), disk, i)
      ensures ok && old(isOpen) && old(size) + |p| <= limit ==> disk == old(disk)
      ensures ok && old(isOpen) && old(size) + |p| > limit ==> Rotated(old(disk), disk, Top())
      ensures Bounded(old(disk), Top(), limit) ==> Bounded(disk, Top(), limit)
    {
      ok := true;
      if !isOpen {
        ok := Reopen(fate.first);
        if !ok { return; }
      }
      if size + |p| > limit {
        ok := Rotate(fate);
      }
    }

    method Append(p: Bytes)
      requires Valid() && isOpen
      modifies this`disk, this`size, this`accepted
      ensures Valid() && isOpen && size == old(size) + |p|
      ensures accepted == old(accepted) + p && disk == old(disk)[0 := old(disk)[0] + p]
      ensures Suffix(p, disk[0])
    {
      AppendCurrent(disk, p, Top());
      SuffixExtends(Log(disk, Top()), accepted, p);
      disk := disk[0 := disk[0] + p];
      accepted := accepted + p;
      size := size + |p|;
      assert disk[0][|disk[0]| - |p|..] == p;
    }

    method Close()
      requires Valid()
      modifies this`closed, this`isOpen
      ensures Valid() && closed
    {
      if closed { return; }
      closed, isOpen := true, false;
    }
  }

  /** Appending to the current file appends to the log. */
  lemma {:induction false} AppendCurrent(disk: Disk, p: Bytes, n: nat)
    requires 0 in disk
    ensures Log(disk[0 := disk[0] + p], n) == Log(disk, n) + p
  {
    if n > 0 {
      AppendCurrent(disk, p, n - 1);
      assert Slot(disk, n) + (Log(disk, n - 1) + p) == (Slot(disk, n) + Log(disk, n - 1)) + p;
    }
  }

  /** What is kept never exceeds `backups + 1` full files, provided a backup is kept at all. */
  lemma TotalWithinLimit(disk: Disk, backups: nat, limit: nat)
    requires backups > 0 && Bounded(disk, backups, limit)
    ensures |Log(disk, backups)| <= (backups + 1) * limit
  {
    TotalSize(disk, backups, backups, limit);
  }

  lemma TwoFiles(before: Disk, after: Disk)
    requires 0 in before && 0 in after && after[0] != [] && Rotated(before, after[0 := []], 1)
    ensures |Log(after, 1)| > |before[0]|
  {
    assert MovedInto(before, after[0 := []], 1, 1);
    assert Log(after, 1) == before[0] + after[0];
  }

  /** Asked to keep no backup the file keeps one all the same: whatever the limit, a full file and one
      byte more leave more than one file's worth. */
  method ZeroBackupsKeepOne(limit: nat) returns (f: LogFile)
    requires limit > 0
    ensures f.limit == limit && f.backups == 0 && |Log(f.disk, f.Top())| > (f.backups + 1) * f.limit
  {
    hide Log, Suffix, SameSlot, Rotated, Kept, Bounded;
    var full: Bytes := seq(limit, (i: nat) => 7);
    var fine := Fate(Opens, true, (n: nat) => true, Opens, limit);
    f := new LogFile(map[], limit, 0, Opens);
    var n, ok := f.Write(full, fine);
    assert f.disk[0] == full;
    ghost var before := f.disk;
    n, ok := f.Write([8], fine);
    TwoFiles(before, f.disk);
  }

  /** Spelled out for every slot `i`: its file moved one slot up unless it was the oldest, the current file
      is empty, and nothing beyond the oldest slot is touched. */
  lemma RotatedMeans(before: Disk, after: Disk, top: nat, i: nat)
    requires Rotated(before, after, top)
    ensures 0 in after && after[0] == []
    ensures i < top && i in before ==> i + 1 in after && after[i + 1] == before[i]
    ensures i + 1 < top && i !in before ==> i + 1 !in after
    ensures i > top ==> (i in after <==> i in before) && (i in after ==> after[i] == before[i])
  {
    assert i < top ==> MovedInto(before, after, i + 1, top);
    assert i > top ==> SameSlot(before, after, i);
  }
}
