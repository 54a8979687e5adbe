/**
 * What every reachable discovery status keeps, however the reconciles are cut short: the counters
 * agree with the entries, the pending entries are contiguous, the incremental list of valid backups
 * is the recomputed one, and every name is accounted for once.
 */
module DiscoveryInvariants {
  import opened Collections
  import opened DiscoveryModel

  // ----- The invariant

  function StatusOf(e: Entry): EntryStatus { e.status }

  /** Number of progress entries with the given status. */
  ghost function Tally(progress: seq<Entry>, status: EntryStatus): nat {
    multiset(Map(progress, StatusOf))[status]
  }

  /** Each counter is the number of entries with its status; failed also counts the missing names. */
  ghost predicate CountersAgree(st: Stats, progress: seq<Entry>) {
    && st.pending == Tally(progress, New)
    && st.inProgress == Tally(progress, InProgress)
    && st.completed == Tally(progress, Completed)
    && st.skipped == Tally(progress, Skipped)
    && st.failed == Tally(progress, Failed) + (st.total - |progress|)
    && st.total >= |progress|
    && Tally(progress, Blank) == 0
  }

  /** The entries still to be looked at are exactly those at lo, lo + 1, ..., hi - 1. */
  ghost predicate NewRun(progress: seq<Entry>, lo: nat, hi: nat) {
    && lo <= hi <= |progress|
    && (forall k :: 0 <= k < |progress| ==> (progress[k].status == New <==> lo <= k < hi))
  }

  ghost predicate Contiguous(progress: seq<Entry>) {
    exists lo: nat, hi: nat :: NewRun(progress, lo, hi)
  }

  /** No name is tracked twice, and a name already rejected is requested and not tracked. */
  ghost predicate NamesAccounted(r: Resource, s: Status) {
    && Distinct(ProgressNames(s.progress))
    && Distinct(InvalidNames(s.invalidBackups))
    && (forall name :: name in InvalidNames(s.invalidBackups) ==>
          name in r.spec.requested && name !in ProgressNames(s.progress))
  }

  ghost predicate ListAgrees(s: Status) {
    multiset(s.validBackups) == multiset(CompletedInfos(s.progress))
  }

  /** A persisted status between initialization and finalization. */
  ghost predicate Active(r: Resource, s: Status) {
    && s.phase == PhaseInProgress
    && s.stats.Some?
    && CountersAgree(s.stats.value, s.progress)
    && Contiguous(s.progress)
    && ListAgrees(s)
    && NamesAccounted(r, s)
  }

  // ----- Updating one entry

  lemma SetEntryTally(progress: seq<Entry>, k: nat, status: EntryStatus, message: string, x: EntryStatus)
    requires k < |progress|
    ensures Tally(SetEntry(progress, k, status, message), x) ==
            Tally(progress, x) - (if x == progress[k].status then 1 else 0) + (if x == status then 1 else 0)
  {
    var after := SetEntry(progress, k, status, message);
    assert Map(after, StatusOf) == Map(progress, StatusOf)[k := status];
  }

  lemma CompletedInfosAppend(a: seq<Entry>, b: seq<Entry>)
    ensures CompletedInfos(a + b) == CompletedInfos(a) + CompletedInfos(b)
  {
    FilterAppend(a, b, IsCompleted);
    MapAppend(Filter(a, IsCompleted), Filter(b, IsCompleted), (e: Entry) => e.info);
  }

  lemma CompletedInfosOne(e: Entry)
    ensures CompletedInfos([e]) == if e.status == Completed then [e.info] else []
  {
    assert [e][..0] == [];
    assert Filter([e], IsCompleted) == if IsCompleted(e) then [e] else [];
  }

  lemma SetEntryCompleted(progress: seq<Entry>, k: nat, status: EntryStatus, message: string)
    requires k < |progress| && progress[k].status != Completed
    ensures multiset(CompletedInfos(SetEntry(progress, k, status, message))) ==
            multiset(CompletedInfos(progress)) +
            (if status == Completed then multiset{progress[k].info} else multiset{})
  {
    var a, b := progress[..k], progress[k + 1..];
    var e := progress[k].(status := status, message := message);
    assert progress == a + ([progress[k]] + b);
    assert SetEntry(progress, k, status, message) == a + ([e] + b);
    CompletedInfosAppend(a, [progress[k]] + b);
    CompletedInfosAppend([progress[k]], b);
    CompletedInfosAppend(a, [e] + b);
    CompletedInfosAppend([e], b);
    CompletedInfosOne(progress[k]);
    CompletedInfosOne(e);
  }

  // ----- Marking a batch

  function Range(lo: nat, n: nat): seq<nat> { seq(n, i requires 0 <= i < n => lo + i) }

  /** The pending indices of a contiguous run, in order. */
  lemma {:induction false} IndicesOfRun(progress: seq<Entry>, lo: nat, hi: nat)
    requires NewRun(progress, lo, hi)
    ensures IndicesWith(progress, New) == Range(lo, hi - lo)
  {
    if progress != [] {
      var k := |progress| - 1;
      if lo < hi == k + 1 {
        IndicesOfRun(progress[..k], lo, k);
      } else if hi <= k {
        IndicesOfRun(progress[..k], lo, hi);
      } else {
        IndicesOfRun(progress[..k], k, k);
      }
    }
  }

  lemma {:induction false} MarkShape(progress: seq<Entry>, lo: nat, n: nat)
    requires lo + n <= |progress|
    ensures var after := MarkEntries(progress, Range(lo, n));
            |after| == |progress| &&
            forall k :: 0 <= k < |progress| ==>
              after[k] == if lo <= k < lo + n then progress[k].(status := InProgress, message := ANALYZING)
                          else progress[k]
  {
    if n > 0 {
      assert Range(lo, n)[..n - 1] == Range(lo, n - 1);
      MarkShape(progress, lo, n - 1);
    }
  }

  /** Marking one more entry of a run. */
  lemma MarkStep(progress: seq<Entry>, lo: nat, n: nat) returns (before: seq<Entry>)
    requires n > 0 && lo + n <= |progress|
    ensures before == MarkEntries(progress, Range(lo, n - 1))
    ensures |before| == |progress| && before[lo + n - 1] == progress[lo + n - 1]
    ensures MarkEntries(progress, Range(lo, n)) == SetEntry(before, lo + n - 1, InProgress, ANALYZING)
  {
    before := MarkEntries(progress, Range(lo, n - 1));
    MarkShape(progress, lo, n - 1);
    assert Range(lo, n)[..n - 1] == Range(lo, n - 1);
  }

  lemma {:induction false} MarkTally(progress: seq<Entry>, lo: nat, n: nat, x: EntryStatus)
    requires lo + n <= |progress|
    requires forall k :: lo <= k < lo + n ==> progress[k].status == New
    ensures Tally(MarkEntries(progress, Range(lo, n)), x) ==
            Tally(progress, x) + (if x == InProgress then n else 0) - (if x == New then n else 0)
  {
    if n > 0 {
      var before := MarkStep(progress, lo, n);
      MarkTally(progress, lo, n - 1, x);
      SetEntryTally(before, lo + n - 1, InProgress, ANALYZING, x);
    }
  }

  lemma {:induction false} MarkCompleted(progress: seq<Entry>, lo: nat, n: nat)
    requires lo + n <= |progress|
    requires forall k :: lo <= k < lo + n ==> progress[k].status == New
    ensures multiset(CompletedInfos(MarkEntries(progress, Range(lo, n)))) == multiset(CompletedInfos(progress))
  {
    if n > 0 {
      var before := MarkStep(progress, lo, n);
      MarkCompleted(progress, lo, n - 1);
      SetEntryCompleted(before, lo + n - 1, InProgress, ANALYZING);
    }
  }

  // ----- The workers' result slots

  /** A worker's verdict stays in its slot unless another worker of the batch shares the slot. */
  lemma {:induction false} SlotKept(size: nat, progress: seq<Entry>, lookup: string -> Lookup, finished: seq<nat>,
                                    idx: nat)
    requires size > 0 && idx in finished
    requires forall other :: other in finished && other % size == idx % size ==> other == idx
    ensures FillSlots(size, progress, lookup, finished)[idx % size] == WorkerSlot(progress, lookup, idx)
  {
    var n := |finished| - 1;
    var before := finished[..n];
    assert finished == before + [finished[n]];
    if finished[n] != idx {
      assert idx in before;
      assert forall other :: other in before ==> other in finished;
      assert finished[n] in finished && finished[n] % size != idx % size;
      SlotKept(size, progress, lookup, before, idx);
    }
  }

  /** The index of [lo, lo + size) that belongs in slot j, for the batch sizes 1, 2 and 3. */
  function SlotOwner(lo: nat, size: nat, j: nat): nat {
    if size == 1 then lo else if size == 2 then lo + (j - lo) % 2 else lo + (j - lo) % 3
  }

  lemma OwnerOfTwo(lo: nat, j: nat)
    requires j < 2
    ensures (lo + (j - lo) % 2) % 2 == j
  {
  }

  lemma OwnerOfThree(lo: nat, j: nat)
    requires j < 3
    ensures (lo + (j - lo) % 3) % 3 == j
  {
  }

  lemma SlotOwnerFits(lo: nat, size: nat, j: nat)
    requires 0 < size <= BATCH_SIZE && j < size
    ensures lo <= SlotOwner(lo, size, j) < lo + size && SlotOwner(lo, size, j) % size == j
  {
    if size == 1 {
      assert lo % 1 == 0;
    } else if size == 2 {
      OwnerOfTwo(lo, j);
    } else {
      OwnerOfThree(lo, j);
    }
  }

  lemma SameSlotSameIndex(lo: nat, size: nat, a: nat, b: nat)
    requires 0 < size <= BATCH_SIZE && lo <= a < lo + size && lo <= b < lo + size
    requires a % size == b % size
    ensures a == b
  {
    if size == 2 {
      assert a % 2 == b % 2;
    } else if size == 3 {
      assert a % 3 == b % 3;
    }
  }

  /** In a contiguous batch idx % size is a bijection onto the slots. */
  lemma SlotOwners(lo: nat, size: nat)
    requires 0 < size <= BATCH_SIZE
    ensures forall j :: 0 <= j < size ==> lo <= SlotOwner(lo, size, j) < lo + size && SlotOwner(lo, size, j) % size == j
    ensures forall a, b :: lo <= a < lo + size && lo <= b < lo + size && a % size == b % size ==> a == b
  {
    forall j | 0 <= j < size
      ensures lo <= SlotOwner(lo, size, j) < lo + size && SlotOwner(lo, size, j) % size == j
    {
      SlotOwnerFits(lo, size, j);
    }
    forall a, b | lo <= a < lo + size && lo <= b < lo + size && a % size == b % size ensures a == b {
      SameSlotSameIndex(lo, size, a, b);
    }
  }

  /**
   * Whatever order the workers finish in, the result array of a contiguous batch holds exactly the
   * verdicts of its indices: none is lost and none is overwritten.
   */
  lemma SlotsAreVerdicts(size: nat, progress: seq<Entry>, lookup: string -> Lookup, lo: nat, finished: seq<nat>)
    requires 0 < size <= BATCH_SIZE
    requires multiset(finished) == multiset(Range(lo, size))
    ensures FillSlots(size, progress, lookup, finished) ==
            seq(size, j requires 0 <= j < size => WorkerSlot(progress, lookup, SlotOwner(lo, size, j)))
  {
    SlotOwners(lo, size);
    forall idx ensures idx in finished <==> lo <= idx < lo + size {
      MemberOfMultiset(finished, Range(lo, size), idx);
      if lo <= idx < lo + size {
        assert Range(lo, size)[idx - lo] == idx;
      }
    }
    forall j | 0 <= j < size
      ensures FillSlots(size, progress, lookup, finished)[j] == WorkerSlot(progress, lookup, SlotOwner(lo, size, j))
    {
      SlotKept(size, progress, lookup, finished, SlotOwner(lo, size, j));
    }
  }

  // ----- Recording a batch

  ghost predicate Recordable(progress: seq<Entry>, slots: seq<Slot>) {
    && (forall j :: 0 <= j < |slots| ==>
          && slots[j].idx < |progress|
          && progress[slots[j].idx].status == InProgress
          && slots[j].status in {Completed, Skipped, Failed})
    && (forall i, j :: 0 <= i < j < |slots| ==> slots[i].idx != slots[j].idx)
  }

  lemma {:induction false} ApplyOther(progress: seq<Entry>, slots: seq<Slot>, k: nat)
    requires forall j :: 0 <= j < |slots| ==> slots[j].idx != k
    ensures |ApplySlots(progress, slots)| == |progress|
    ensures k < |progress| ==> ApplySlots(progress, slots)[k] == progress[k]
  {
    if slots != [] {
      ApplyOther(progress, slots[..|slots| - 1], k);
    }
  }

  lemma {:induction false} ApplyOwn(progress: seq<Entry>, slots: seq<Slot>, j: nat)
    requires Recordable(progress, slots) && j < |slots|
    ensures |ApplySlots(progress, slots)| == |progress|
    ensures var x := slots[j];
            ApplySlots(progress, slots)[x.idx] == progress[x.idx].(status := x.status, message := x.message)
  {
    var n := |slots| - 1;
    if j < n {
      ApplyOwn(progress, slots[..n], j);
    } else {
      ApplyOther(progress, slots[..n], slots[n].idx);
    }
  }

  lemma CountSlotsStep(slots: seq<Slot>, x: EntryStatus)
    requires slots != []
    ensures CountSlots(slots, x) ==
            CountSlots(slots[..|slots| - 1], x) + (if slots[|slots| - 1].status == x then 1 else 0)
  {
  }

  /** Recording one more slot finds its entry still in progress. */
  lemma RecordStep(progress: seq<Entry>, slots: seq<Slot>) returns (before: seq<Entry>, last: Slot)
    requires Recordable(progress, slots) && slots != []
    ensures before == ApplySlots(progress, slots[..|slots| - 1]) && last == slots[|slots| - 1]
    ensures last.idx < |before| == |progress|
    ensures before[last.idx] == progress[last.idx] && before[last.idx].status == InProgress
    ensures ApplySlots(progress, slots) == SetEntry(before, last.idx, last.status, last.message)
    ensures Recordable(progress, slots[..|slots| - 1])
  {
    var n := |slots| - 1;
    before, last := ApplySlots(progress, slots[..n]), slots[n];
    ApplyOther(progress, slots[..n], last.idx);
  }

  lemma {:induction false} RecordTally(progress: seq<Entry>, slots: seq<Slot>, x: EntryStatus)
    requires Recordable(progress, slots)
    ensures Tally(ApplySlots(progress, slots), x) ==
            Tally(progress, x) + CountSlots(slots, x) - (if x == InProgress then |slots| else 0)
  {
    if slots != [] {
      var before, last := RecordStep(progress, slots);
      RecordTally(progress, slots[..|slots| - 1], x);
      SetEntryTally(before, last.idx, last.status, last.message, x);
      CountSlotsStep(slots, x);
    }
  }

  lemma FoundStep(progress: seq<Entry>, slots: seq<Slot>)
    requires slots != [] && slots[|slots| - 1].idx < |progress|
    ensures var last := slots[|slots| - 1];
            multiset(FoundBackups(progress, slots)) ==
            multiset(FoundBackups(progress, slots[..|slots| - 1])) +
            (if last.status == Completed then multiset{progress[last.idx].info} else multiset{})
  {
  }

  lemma {:induction false} RecordCompleted(progress: seq<Entry>, slots: seq<Slot>)
    requires Recordable(progress, slots)
    ensures multiset(CompletedInfos(ApplySlots(progress, slots))) ==
            multiset(CompletedInfos(progress)) + multiset(FoundBackups(progress, slots))
  {
    if slots != [] {
      var before, last := RecordStep(progress, slots);
      RecordCompleted(progress, slots[..|slots| - 1]);
      SetEntryCompleted(before, last.idx, last.status, last.message);
      FoundStep(progress, slots);
    }
  }

  lemma NoSlotsWith(slots: seq<Slot>, x: EntryStatus)
    requires forall j :: 0 <= j < |slots| ==> slots[j].status != x
    ensures CountSlots(slots, x) == 0
  {
    FilterNone(slots, (y: Slot) => y.status == x);
  }

  // ----- Each kind of step keeps the invariant

  ghost predicate SameInfos(a: seq<Entry>, b: seq<Entry>) {
    |a| == |b| && forall k :: 0 <= k < |a| ==> a[k].info == b[k].info
  }

  lemma SameInfosSameNames(a: seq<Entry>, b: seq<Entry>)
    requires SameInfos(a, b)
    ensures ProgressNames(a) == ProgressNames(b)
  {
  }

  /** The batch of an active status is the front of its run of pending entries. */
  lemma BatchOfRun(progress: seq<Entry>, lo: nat, hi: nat)
    requires NewRun(progress, lo, hi)
    ensures Batch(progress) == Range(lo, Min(BATCH_SIZE, hi - lo))
  {
    IndicesOfRun(progress, lo, hi);
  }

  lemma MarkCounters(st: Stats, progress: seq<Entry>, lo: nat, n: nat)
    requires CountersAgree(st, progress) && lo + n <= |progress|
    requires forall k :: lo <= k < lo + n ==> progress[k].status == New
    ensures CountersAgree(st.(pending := st.pending - n, inProgress := st.inProgress + n),
                          MarkEntries(progress, Range(lo, n)))
    ensures multiset(CompletedInfos(MarkEntries(progress, Range(lo, n)))) == multiset(CompletedInfos(progress))
  {
    MarkShape(progress, lo, n);
    MarkTally(progress, lo, n, New);
    MarkTally(progress, lo, n, InProgress);
    MarkTally(progress, lo, n, Completed);
    MarkTally(progress, lo, n, Skipped);
    MarkTally(progress, lo, n, Failed);
    MarkTally(progress, lo, n, Blank);
    MarkCompleted(progress, lo, n);
  }

  lemma MarkKeeps(r: Resource, s: Status, lo: nat, hi: nat)
    requires Active(r, s) && NewRun(s.progress, lo, hi)
    ensures var n := Min(BATCH_SIZE, hi - lo);
            var marked := Marked(s, s.stats.value);
            && Active(r, marked)
            && NewRun(marked.progress, lo + n, hi)
            && SameInfos(marked.progress, s.progress)
            && (forall k :: lo <= k < lo + n ==> marked.progress[k].status == InProgress)
  {
    var n := Min(BATCH_SIZE, hi - lo);
    BatchOfRun(s.progress, lo, hi);
    MarkShape(s.progress, lo, n);
    MarkCounters(s.stats.value, s.progress, lo, n);
    var marked := Marked(s, s.stats.value);
    assert NewRun(marked.progress, lo + n, hi);
    SameInfosSameNames(marked.progress, s.progress);
  }

  lemma WorkerDecides(progress: seq<Entry>, lookup: string -> Lookup, idx: nat)
    requires idx < |progress|
    ensures var slot := WorkerSlot(progress, lookup, idx);
            slot.idx == idx && slot.status in {Completed, Skipped, Failed}
  {
  }

  /** The slots a contiguous batch leaves behind can all be recorded. */
  lemma SlotsRecordable(size: nat, progress: seq<Entry>, lookup: string -> Lookup, lo: nat, finished: seq<nat>)
    requires 0 < size <= BATCH_SIZE && lo + size <= |progress|
    requires multiset(finished) == multiset(Range(lo, size))
    requires forall k :: lo <= k < lo + size ==> progress[k].status == InProgress
    ensures Recordable(progress, FillSlots(size, progress, lookup, finished))
  {
    SlotsAreVerdicts(size, progress, lookup, lo, finished);
    SlotOwners(lo, size);
    var slots := FillSlots(size, progress, lookup, finished);
    forall j | 0 <= j < size
      ensures slots[j].idx == SlotOwner(lo, size, j)
      ensures slots[j].status in {Completed, Skipped, Failed}
    {
      assert slots[j] == WorkerSlot(progress, lookup, SlotOwner(lo, size, j));
      WorkerDecides(progress, lookup, SlotOwner(lo, size, j));
    }
  }

  lemma ApplyInfos(progress: seq<Entry>, slots: seq<Slot>)
    requires Recordable(progress, slots)
    ensures SameInfos(ApplySlots(progress, slots), progress)
    ensures forall k :: 0 <= k < |progress| && progress[k].status != InProgress ==>
              ApplySlots(progress, slots)[k] == progress[k]
    ensures forall k :: 0 <= k < |progress| && ApplySlots(progress, slots)[k].status == New ==>
              progress[k].status == New
  {
    var after := ApplySlots(progress, slots);
    forall k | 0 <= k < |progress|
      ensures |after| == |progress| && after[k].info == progress[k].info
      ensures progress[k].status != InProgress ==> after[k] == progress[k]
      ensures after[k].status == New ==> progress[k].status == New
    {
      if j :| 0 <= j < |slots| && slots[j].idx == k {
        ApplyOwn(progress, slots, j);
      } else {
        ApplyOther(progress, slots, k);
      }
    }
    if progress == [] {
      ApplyOther(progress, slots, 0);
    }
  }

  lemma RecordCounters(s: Status, slots: seq<Slot>)
    requires s.stats.Some? && CountersAgree(s.stats.value, s.progress) && ListAgrees(s)
    requires Recordable(s.progress, slots)
    ensures var after := Recorded(s, s.stats.value, slots);
            CountersAgree(after.stats.value, after.progress) && ListAgrees(after)
  {
    RecordTally(s.progress, slots, New);
    RecordTally(s.progress, slots, InProgress);
    RecordTally(s.progress, slots, Completed);
    RecordTally(s.progress, slots, Skipped);
    RecordTally(s.progress, slots, Failed);
    RecordTally(s.progress, slots, Blank);
    RecordCompleted(s.progress, slots);
    NoSlotsWith(slots, New);
    NoSlotsWith(slots, InProgress);
    NoSlotsWith(slots, Blank);
    ApplyInfos(s.progress, slots);
  }

  lemma RecordKeeps(r: Resource, s: Status, slots: seq<Slot>)
    requires Active(r, s) && Recordable(s.progress, slots)
    ensures Active(r, Recorded(s, s.stats.value, slots))
    ensures forall lo: nat, hi: nat :: NewRun(s.progress, lo, hi) ==> NewRun(ApplySlots(s.progress, slots), lo, hi)
  {
    RecordCounters(s, slots);
    ApplyInfos(s.progress, slots);
    var after := Recorded(s, s.stats.value, slots);
    SameInfosSameNames(after.progress, s.progress);
    var lo: nat, hi: nat :| NewRun(s.progress, lo, hi);
    assert NewRun(after.progress, lo, hi);
  }

  lemma {:induction false} IndicesWithMembers(progress: seq<Entry>, x: EntryStatus)
    ensures forall k: nat :: k in IndicesWith(progress, x) <==> k < |progress| && progress[k].status == x
    ensures |IndicesWith(progress, x)| == Tally(progress, x)
  {
    if progress != [] {
      var n := |progress| - 1;
      IndicesWithMembers(progress[..n], x);
      assert Map(progress, StatusOf) == Map(progress[..n], StatusOf) + [progress[n].status];
    }
  }

  lemma ResetKeeps(r: Resource, s: Status, k: nat)
    requires Active(r, s) && IndicesWith(s.progress, New) == []
    requires k < |s.progress| && s.progress[k].status == InProgress
    ensures Active(r, ResetStuck(s, s.stats.value, k))
    ensures NewRun(ResetStuck(s, s.stats.value, k).progress, k, k + 1)
  {
    IndicesWithMembers(s.progress, New);
    SetEntryTally(s.progress, k, New, RETRYING, New);
    SetEntryTally(s.progress, k, New, RETRYING, InProgress);
    SetEntryTally(s.progress, k, New, RETRYING, Completed);
    SetEntryTally(s.progress, k, New, RETRYING, Skipped);
    SetEntryTally(s.progress, k, New, RETRYING, Failed);
    SetEntryTally(s.progress, k, New, RETRYING, Blank);
    SetEntryCompleted(s.progress, k, New, RETRYING);
    var after := ResetStuck(s, s.stats.value, k);
    assert forall j :: 0 <= j < |s.progress| && s.progress[j].status == New ==> j in IndicesWith(s.progress, New);
    assert NewRun(after.progress, k, k + 1);
    SameInfosSameNames(after.progress, s.progress);
  }

  /** What a discovery step never changes. */
  ghost predicate SameTracking(s: Status, t: Status) {
    && SameInfos(t.progress, s.progress)
    && t.invalidBackups == s.invalidBackups
    && s.stats.Some? && t.stats.Some? && t.stats.value.total == s.stats.value.total
  }

  lemma StuckStepKeeps(r: Resource, s: Status, i: Inputs)
    requires Active(r, s) && Batch(s.progress) == []
    ensures Active(r, ProcessBatch(s, s.stats.value, i))
    ensures SameTracking(s, ProcessBatch(s, s.stats.value, i))
  {
    var stuck := IndicesWith(s.progress, InProgress);
    if stuck != [] {
      IndicesWithMembers(s.progress, InProgress);
      assert stuck[0] in stuck;
      ResetKeeps(r, s, stuck[0]);
      assert ProcessBatch(s, s.stats.value, i) == if i.writes == 0 then s else ResetStuck(s, s.stats.value, stuck[0]);
    } else {
      assert ProcessBatch(s, s.stats.value, i) == s;
    }
  }

  /** The second write of a batch, whatever order its workers finished in. */
  lemma FilledBatchKeeps(r: Resource, s: Status, lo: nat, n: nat, lookup: string -> Lookup, finished: seq<nat>)
    requires Active(r, s) && 0 < n <= BATCH_SIZE && lo + n <= |s.progress|
    requires multiset(finished) == multiset(Range(lo, n))
    requires forall k :: lo <= k < lo + n ==> s.progress[k].status == InProgress
    ensures var slots := FillSlots(n, s.progress, lookup, finished);
            Active(r, Recorded(s, s.stats.value, slots)) && SameInfos(ApplySlots(s.progress, slots), s.progress)
  {
    SlotsRecordable(n, s.progress, lookup, lo, finished);
    var slots := FillSlots(n, s.progress, lookup, finished);
    RecordKeeps(r, s, slots);
    ApplyInfos(s.progress, slots);
  }

  lemma BatchStepKeeps(r: Resource, s: Status, i: Inputs, lo: nat, hi: nat)
    requires Active(r, s) && NewRun(s.progress, lo, hi) && lo < hi
    requires multiset(i.finish(Batch(s.progress))) == multiset(Batch(s.progress))
    ensures Active(r, ProcessBatch(s, s.stats.value, i))
    ensures SameTracking(s, ProcessBatch(s, s.stats.value, i))
  {
    BatchOfRun(s.progress, lo, hi);
    if i.writes == 0 {
      assert ProcessBatch(s, s.stats.value, i) == s;
    } else {
      MarkKeeps(r, s, lo, hi);
      var batch := Batch(s.progress);
      var marked := Marked(s, s.stats.value);
      if i.writes == 1 {
        assert ProcessBatch(s, s.stats.value, i) == marked;
      } else {
        FilledBatchKeeps(r, marked, lo, |batch|, i.lookup, i.finish(batch));
        var slots := FillSlots(|batch|, marked.progress, i.lookup, i.finish(batch));
        assert ProcessBatch(s, s.stats.value, i) == Recorded(marked, marked.stats.value, slots);
      }
    }
  }

  /** A discovery step keeps the invariant and the tracked backups, wherever it is cut short. */
  lemma ProcessBatchKeeps(r: Resource, s: Status, i: Inputs)
    requires Active(r, s) && ValidInputs(r, i)
    ensures Active(r, ProcessBatch(s, s.stats.value, i))
    ensures SameTracking(s, ProcessBatch(s, s.stats.value, i))
  {
    var lo: nat, hi: nat :| NewRun(s.progress, lo, hi);
    BatchOfRun(s.progress, lo, hi);
    if lo == hi {
      assert Batch(s.progress) == [];
      StuckStepKeeps(r, s, i);
    } else {
      assert multiset(i.finish(Batch(s.progress))) == multiset(Batch(s.progress));
      BatchStepKeeps(r, s, i, lo, hi);
    }
  }
}
