/** Discovery makes progress: bounded with interruptions, and an exact step count without them. */
module DiscoveryTermination {
  import opened Collections
  import opened DiscoveryModel
  import opened DiscoveryInvariants
  import opened DiscoveryOutcome
  import opened DiscoveryRuns

  /** All the writes of the reconcile land. */
  predicate Uninterrupted(i: Inputs) { i.writes >= 2 }

  ghost function Work(s: Status): int {
    if s.stats.None? then 0 else 2 * s.stats.value.inProgress + s.stats.value.pending
  }

  /** The batch step never takes its return without requeue: something is pending or stuck. */
  lemma NeverStranded(r: Resource, s: Status)
    requires Active(r, s) && Discovering(r, s)
    ensures Batch(s.progress) != [] || IndicesWith(s.progress, InProgress) != []
  {
    IndicesWithMembers(s.progress, New);
    IndicesWithMembers(s.progress, InProgress);
  }

  /** What a reconcile needs to get through: its writes land, the listing works and the time range parses. */
  predicate Undisturbed(r: Resource, s: Status, i: Inputs) {
    var initializes := s.phase != Unset && (s.stats.None? || Complete(s));
    && (initializes ==> i.listing.Some? && i.range.Some?)
    && i.writes >= if initializes || (Discovering(r, s) && Batch(s.progress) != []) then 2 else 1
  }

  /**
   * In every status of a run: a reconcile asks for no other one exactly when the discovery is then complete, is an
   * error exactly when it is disturbed, and asks for another one in all other cases.
   */
  lemma DoneExactlyWhenComplete(r: Resource, s: Status, i: Inputs)
    requires RunInvariant(r, s)
    ensures AnswerTo(r, s, i).Done? <==>
      Complete(Reconcile(r, s, i)) && Reconcile(r, s, i).observedGeneration == r.generation
    ensures AnswerTo(r, s, i).Retry? <==>
      !(Complete(s) && s.observedGeneration == r.generation) && !Undisturbed(r, s, i)
  {
    if Active(r, s) && Discovering(r, s) { NeverStranded(r, s); }
  }

  /** An uninterrupted discovery step leaves strictly less work; an interrupted one adds at most three. */
  lemma WorkDrops(r: Resource, s: Status, i: Inputs)
    requires Active(r, s) && Discovering(r, s)
    ensures Work(ProcessBatch(s, s.stats.value, i)) <= Work(s) + 3
    ensures Uninterrupted(i) ==> Work(ProcessBatch(s, s.stats.value, i)) < Work(s)
  {
    NeverStranded(r, s);
  }

  function Interruptions(steps: seq<Inputs>): nat { |Filter(steps, (i: Inputs) => !Uninterrupted(i))| }

  /** Every step of the run is a discovery step. */
  ghost predicate AllDiscovering(r: Resource, s: Status, steps: seq<Inputs>) {
    forall k :: 0 <= k < |steps| ==> Discovering(r, Run(r, s, steps[..k]))
  }

  lemma {:induction false} WorkBound(r: Resource, s: Status, steps: seq<Inputs>)
    requires Active(r, s) && AllValid(r, steps) && AllDiscovering(r, s, steps)
    ensures Active(r, Run(r, s, steps))
    ensures Work(Run(r, s, steps)) + |steps| <= Work(s) + 4 * Interruptions(steps)
  {
    if steps != [] {
      var n := |steps| - 1;
      forall k | 0 <= k < n ensures Discovering(r, Run(r, s, steps[..n][..k])) {
        assert steps[..n][..k] == steps[..k];
      }
      WorkBound(r, s, steps[..n]);
      var t := Run(r, s, steps[..n]);
      assert Discovering(r, t);
      WorkDrops(r, t, steps[n]);
      ProcessBatchKeeps(r, t, steps[n]);
    }
  }

  /** At most n + 4c discovery steps follow an initialization with n candidates, c of them interrupted. */
  lemma DiscoveryStepsBounded(r: Resource, s: Status, i: Inputs, listing: seq<Backup>, steps: seq<Inputs>)
    requires ValidInputs(r, i) && i.listing == Some(listing) && i.range.Some?
    requires AllValid(r, steps) && AllDiscovering(r, Initialized(r, s, i, listing), steps)
    ensures |steps| <= |i.sorted| + 4 * Interruptions(steps)
  {
    var start := Initialized(r, s, i, listing);
    InitializationEstablishes(r, s, i, listing);
    WorkBound(r, start, steps);
    assert Work(start) == |i.sorted|;
    assert Work(Run(r, start, steps)) >= 0;
  }

  // ----- The exact length of an uninterrupted run

  function Batches(n: nat): nat { (n + 2) / 3 }

  /** Discovery has looked at the candidates before lo and has nothing in progress. */
  ghost predicate Halfway(r: Resource, s: Status, lo: nat, n: nat) {
    Active(r, s) && NewRun(s.progress, lo, n) && s.stats.value.inProgress == 0
  }

  lemma PendingOfRun(r: Resource, s: Status, lo: nat, n: nat)
    requires Halfway(r, s, lo, n)
    ensures s.stats.value.pending == n - lo
    ensures Discovering(r, s) <==> lo < n
  {
    IndicesOfRun(s.progress, lo, n);
    IndicesWithMembers(s.progress, New);
  }

  lemma FilledRunKeeps(r: Resource, s: Status, lo: nat, size: nat, from: nat, n: nat, lookup: string -> Lookup,
                       finished: seq<nat>)
    requires Active(r, s) && NewRun(s.progress, from, n)
    requires 0 < size <= BATCH_SIZE && lo + size <= |s.progress|
    requires multiset(finished) == multiset(Range(lo, size))
    requires forall k :: lo <= k < lo + size ==> s.progress[k].status == InProgress
    ensures var t := Recorded(s, s.stats.value, FillSlots(size, s.progress, lookup, finished));
            && Active(r, t) && NewRun(t.progress, from, n)
            && t.stats.value.inProgress == s.stats.value.inProgress - size
  {
    SlotsRecordable(size, s.progress, lookup, lo, finished);
    RecordKeeps(r, s, FillSlots(size, s.progress, lookup, finished));
  }

  lemma ReconcileRecords(r: Resource, s: Status, i: Inputs, lo: nat, n: nat)
    requires Halfway(r, s, lo, n) && lo < n && Uninterrupted(i)
    ensures var marked := Marked(s, s.stats.value);
            var batch := Range(lo, Min(3, n - lo));
            Reconcile(r, s, i) ==
            Recorded(marked, marked.stats.value, FillSlots(|batch|, marked.progress, i.lookup, i.finish(batch)))
  {
    PendingOfRun(r, s, lo, n);
    BatchOfRun(s.progress, lo, n);
  }

  lemma BatchAdvances(r: Resource, s: Status, i: Inputs, lo: nat, n: nat)
    requires Halfway(r, s, lo, n) && lo < n && ValidInputs(r, i) && Uninterrupted(i)
    ensures Halfway(r, Reconcile(r, s, i), lo + Min(3, n - lo), n)
  {
    ReconcileRecords(r, s, i, lo, n);
    BatchOfRun(s.progress, lo, n);
    MarkKeeps(r, s, lo, n);
    var batch := Range(lo, Min(3, n - lo));
    assert multiset(i.finish(batch)) == multiset(batch);
    FilledRunKeeps(r, Marked(s, s.stats.value), lo, |batch|, lo + |batch|, n, i.lookup, i.finish(batch));
  }

  /** The status of an uninterrupted run after its first two reconciles and t more. */
  ghost predicate OnSchedule(r: Resource, s: Status, n: nat, t: nat) {
    if t <= Batches(n) then Halfway(r, s, Min(n, 3 * t), n) else Settled(r, s)
  }

  lemma ScheduleStep(r: Resource, s: Status, i: Inputs, n: nat, t: nat)
    requires OnSchedule(r, s, n, t) && ValidInputs(r, i) && Uninterrupted(i)
    ensures OnSchedule(r, Reconcile(r, s, i), n, t + 1)
  {
    if t < Batches(n) {
      BatchAdvances(r, s, i, 3 * t, n);
    } else if t == Batches(n) {
      PendingOfRun(r, s, n, n);
      FinalizationSettles(r, s);
    }
  }

  lemma FirstTwoSteps(r: Resource, s: Status, steps: seq<Inputs>)
    requires s.phase == Unset && s.stats.None? && |steps| == 2 && Uninterrupted(steps[0]) && Uninterrupted(steps[1])
    requires steps[1].listing.Some? && steps[1].range.Some?
    ensures Run(r, s, steps) == Initialized(r, s.(phase := PhaseNew), steps[1], steps[1].listing.value)
  {
    assert steps[..1][..0] == [];
    assert Run(r, s, steps[..1]) == s.(phase := PhaseNew);
  }

  lemma ScheduleStarts(r: Resource, s: Status, i: Inputs, listing: seq<Backup>)
    requires ValidInputs(r, i) && i.listing == Some(listing) && i.range.Some?
    ensures OnSchedule(r, Initialized(r, s, i, listing), |i.sorted|, 0)
  {
    InitializationEstablishes(r, s, i, listing);
    InitialCounters(r, i, listing);
  }

  lemma {:induction false} RunOnSchedule(r: Resource, s: Status, steps: seq<Inputs>)
    requires s.phase == Unset && s.stats.None?
    requires AllValid(r, steps) && |steps| >= 2
    requires forall k :: 0 <= k < |steps| ==> Uninterrupted(steps[k])
    requires steps[1].listing.Some? && steps[1].range.Some?
    ensures OnSchedule(r, Run(r, s, steps), |steps[1].sorted|, |steps| - 2)
  {
    var m := |steps| - 1;
    if m == 1 {
      FirstTwoSteps(r, s, steps);
      ScheduleStarts(r, s.(phase := PhaseNew), steps[1], steps[1].listing.value);
    } else {
      RunOnSchedule(r, s, steps[..m]);
      ScheduleStep(r, Run(r, s, steps[..m]), steps[m], |steps[1].sorted|, m - 2);
    }
  }

  /** An uninterrupted run over n candidates is complete after 3 + ceil(n / 3) reconciles, and not before. */
  lemma CompletesExactlyOnTime(r: Resource, s: Status, steps: seq<Inputs>)
    requires s.phase == Unset && s.stats.None?
    requires AllValid(r, steps) && |steps| >= 2
    requires forall k :: 0 <= k < |steps| ==> Uninterrupted(steps[k])
    requires steps[1].listing.Some? && steps[1].range.Some?
    ensures Complete(Run(r, s, steps)) <==> |steps| >= 3 + Batches(|steps[1].sorted|)
  {
    RunOnSchedule(r, s, steps);
  }
}
