/** Where a run of the workflow stays for ever, and a run that gets there. */
module WorkflowStuck {
  import opened Collections
  import opened RestoreModel
  import opened VeleroRestores
  import opened Monitoring
  import opened RestoreProgress
  import opened WorkflowModel
  import opened Workflow
  import opened WorkflowRuns

  /** What further events make of a cluster. */
  ghost function Continue(spec: Spec, c: Cluster, events: seq<Event>): Cluster {
    if events == [] then c else Happen(spec, Continue(spec, c, events[..|events| - 1]), events[|events| - 1])
  }

  ghost predicate ValidFrom(spec: Spec, c: Cluster, events: seq<Event>) {
    forall n :: 0 <= n < |events| && events[n].Reconciled? ==> ValidInputs(Continue(spec, c, events[..n]), events[n].i)
  }

  /** Interrupted while discovering PVCs, or left without any Restore to wait for. */
  ghost predicate Stranded(c: Cluster) {
    At(c.status, DiscoveringPVCs) || (At(c.status, WaitingForRestores) && c.restores == [])
  }

  lemma StrandedStays(spec: Spec, c: Cluster, e: Event)
    requires Terminal(c.status.phase) || Stranded(c)
    ensures Happen(spec, c, e).status == c.status
    ensures Stranded(c) ==> Stranded(Happen(spec, c, e))
  {
  }

  lemma {:induction false} StrandedForEver(spec: Spec, c: Cluster, events: seq<Event>)
    requires Terminal(c.status.phase) || Stranded(c)
    ensures var d := Continue(spec, c, events); d.status == c.status && (Stranded(c) ==> Stranded(d))
  {
    if events != [] {
      StrandedForEver(spec, c, events[..|events| - 1]);
      StrandedStays(spec, Continue(spec, c, events[..|events| - 1]), events[|events| - 1]);
    }
  }

  // ----- Every other status can still move

  /** A reconcile in which everything succeeds but reading the discovery object again. */
  function Attempt(): Inputs {
    Inputs(false, true, DiscoveryDone, true, [], true, true, false, [], [], false, PvcsReady,
           true, true, true, "host", _ => true)
  }

  lemma AttemptMoves(spec: Spec, c: Cluster)
    requires Consistent(spec, c.status) && !Terminal(c.status.phase)
    requires !Stranded(c) && !At(c.status, WaitingForRestores)
    ensures Reconcile(spec, c, Attempt()).status != c.status && ValidInputs(c, Attempt())
  {
  }

  /** Velero fails the first Restores one after another. */
  function Failing(n: nat): seq<Event> {
    if n == 0 then [] else Failing(n - 1) + [VeleroMoves(n - 1, RPFailed)]
  }

  lemma {:induction false} FailingFails(spec: Spec, c: Cluster, n: nat)
    requires n <= |c.restores|
    ensures |Failing(n)| == n && (forall k :: 0 <= k < n ==> Failing(n)[k].VeleroMoves?)
    ensures var d := Continue(spec, c, Failing(n));
      d.status == c.status && |d.restores| == |c.restores| && forall k :: 0 <= k < n ==> d.restores[k].phase == RPFailed
  {
    if n > 0 {
      FailingFails(spec, c, n - 1);
      assert Failing(n)[..n - 1] == Failing(n - 1);
    }
  }

  lemma {:induction false} AllFailed(restores: seq<VeleroRestore>)
    requires forall k :: 0 <= k < |restores| ==> restores[k].phase == RPFailed
    ensures FailedCount(restores) == |restores| && CompletedCount(restores) == 0
  {
    if restores != [] { AllFailed(restores[..|restores| - 1]); }
  }

  lemma FailedRestoresMove(spec: Spec, c: Cluster)
    requires At(c.status, WaitingForRestores) && c.restores != []
    requires forall k :: 0 <= k < |c.restores| ==> c.restores[k].phase == RPFailed
    ensures Reconcile(spec, c, Attempt()).status != c.status && ValidInputs(c, Attempt())
  {
    AllFailed(c.restores);
  }

  lemma WaitingMoves(spec: Spec, c: Cluster) returns (events: seq<Event>)
    requires At(c.status, WaitingForRestores) && c.restores != []
    ensures ValidFrom(spec, c, events) && Continue(spec, c, events).status != c.status
  {
    var failing := Failing(|c.restores|);
    FailingFails(spec, c, |c.restores|);
    var d := Continue(spec, c, failing);
    FailedRestoresMove(spec, d);
    events := failing + [Reconciled(Attempt())];
    assert events[..|failing|] == failing;
    assert events[|events| - 1] == Reconciled(Attempt());
  }

  lemma AttemptRun(spec: Spec, c: Cluster) returns (events: seq<Event>)
    requires Consistent(spec, c.status) && !Terminal(c.status.phase)
    requires !Stranded(c) && !At(c.status, WaitingForRestores)
    ensures ValidFrom(spec, c, events) && Continue(spec, c, events).status != c.status
  {
    events := [Reconciled(Attempt())];
    AttemptMoves(spec, c);
    assert events[..0] == [];
  }

  /**
   * A status that nothing can move any more is a terminal one, one interrupted while discovering PVCs, or one that
   * waits for Restores of which none is left; and each of these stays for ever.
   */
  lemma StuckExactlyWhenStranded(spec: Spec, c: Cluster)
    requires Consistent(spec, c.status)
    ensures (forall events :: ValidFrom(spec, c, events) ==> Continue(spec, c, events).status == c.status) <==>
      Terminal(c.status.phase) || Stranded(c)
  {
    if Terminal(c.status.phase) || Stranded(c) {
      forall events | ValidFrom(spec, c, events) ensures Continue(spec, c, events).status == c.status {
        StrandedForEver(spec, c, events);
      }
    } else if At(c.status, WaitingForRestores) {
      var events := WaitingMoves(spec, c);
    } else {
      var events := AttemptRun(spec, c);
    }
  }
}
