/** When a polled deployment counts as ready (`waitForDeployment`). */
module Readiness {
  import opened Lists
  import opened Workloads

  datatype ResultState = StateOk | StateError | StateDeleted | StateUnset

  /** A workload as the node reports it. */
  datatype Remote = Remote(name: string, version: nat, state: ResultState)

  datatype PollError = WorkloadFailed(name: string) | TimedOut

  /** Position of the first target of that name, or the length when there is none. */
  function TargetIndex(targets: seq<Workload>, name: string): (i: nat)
    ensures i <= |targets| && (i < |targets| ==> targets[i].name == name)
    ensures forall j :: 0 <= j < i ==> targets[j].name != name
  {
    if targets == [] then 0 else if targets[0].name == name then 0 else 1 + TargetIndex(targets[1..], name)
  }

  function Check(remote: Remote, target: Workload): Result<bool, PollError> {
    if remote.state == StateError then Err(WorkloadFailed(remote.name))
    else Ok(remote.state == StateOk && remote.version == target.version)
  }

  /** The number of reported workloads found ready, or the first failed one. */
  function ReadyCount(remotes: seq<Remote>, targets: seq<Workload>): Result<nat, PollError> {
    if remotes == [] then Ok(0)
    else
      var before, remote := ReadyCount(Front(remotes), targets), Last(remotes);
      var i := TargetIndex(targets, remote.name);
      if before.Err? || i == |targets| then before
      else
        var ready := Check(remote, targets[i]);
        if ready.Err? then Err(ready.error) else Ok(before.value + if ready.value then 1 else 0)
  }

  function Poll(remotes: seq<Remote>, targets: seq<Workload>): Result<bool, PollError> {
    if |remotes| != |targets| then Ok(false)
    else
      var count := ReadyCount(remotes, targets);
      if count.Err? then Err(count.error) else Ok(count.value == |targets|)
  }

  /** What the polls up to the deadline come to. */
  function Wait(snapshots: seq<seq<Remote>>, targets: seq<Workload>): (r: Result<nat, PollError>)
    ensures r.Ok? ==> r.value < |snapshots|
  {
    if snapshots == [] then Err(TimedOut)
    else
      var before := Wait(Front(snapshots), targets);
      if before != Err(TimedOut) then before
      else
        var poll := Poll(Last(snapshots), targets);
        if poll.Err? then Err(poll.error) else if poll.value then Ok(|snapshots| - 1) else Err(TimedOut)
  }

  predicate UniqueRemotes(remotes: seq<Remote>) {
    forall i, j :: 0 <= i < j < |remotes| ==> remotes[i].name != remotes[j].name
  }

  predicate ReadyFor(remote: Remote, target: Workload) {
    remote.name == target.name && remote.state == StateOk && remote.version == target.version
  }

  /** Both sides pair up by name, every pair in state ok and at the target version. */
  predicate Deployed(remotes: seq<Remote>, targets: seq<Workload>) {
    && |remotes| == |targets|
    && (forall w :: w in targets ==> exists r :: r in remotes && ReadyFor(r, w))
    && (forall r :: r in remotes ==> exists w :: w in targets && ReadyFor(r, w))
  }

  lemma {:induction false} CountIsFull(remotes: seq<Remote>, targets: seq<Workload>)
    requires UniqueNames(targets)
    ensures var count := ReadyCount(remotes, targets);
            && (count.Ok? ==> count.value <= |remotes|)
            && (count == Ok(|remotes|) <==> forall r :: r in remotes ==> exists w :: w in targets && ReadyFor(r, w))
  {
    if remotes != [] {
      var remote := Last(remotes);
      assert remotes == Front(remotes) + [remote];
      CountIsFull(Front(remotes), targets);
      var i := TargetIndex(targets, remote.name);
      assert remote in remotes && (i < |targets| ==> targets[i] in targets);
      assert forall r :: r in remotes <==> r in Front(remotes) || r == remote;
      if w :| w in targets && ReadyFor(remote, w) {
        var k :| 0 <= k < |targets| && targets[k] == w;
        assert i == k;
      }
    }
  }

  lemma SubsetOfSameSize<T>(a: set<T>, b: set<T>)
    requires a <= b && |a| == |b|
    ensures a == b
  {
    assert b == a + (b - a);
  }

  /** Distinct names on one side, as many as there are on the other: if all are found there, none is missing. */
  lemma Pigeonhole(xs: seq<string>, ys: seq<string>)
    requires Distinct(xs) && |xs| == |ys| && forall x :: x in xs ==> x in ys
    ensures Distinct(ys) && forall y :: y in ys ==> y in xs
  {
    DistinctCardinality(xs);
    DistinctCardinality(ys);
    var X, Y := set x | x in xs, set y | y in ys;
    assert Y == X + (Y - X);
    SubsetOfSameSize(X, Y);
    assert forall y :: y in ys ==> y in Y;
  }

  function RemoteNames(remotes: seq<Remote>): seq<string> {
    seq(|remotes|, i requires 0 <= i < |remotes| => remotes[i].name)
  }

  /** The names of the targets are among those reported, so as many reports as targets name nothing twice. */
  lemma DeployedOnce(remotes: seq<Remote>, targets: seq<Workload>)
    requires UniqueNames(targets) && Deployed(remotes, targets)
    ensures UniqueRemotes(remotes)
  {
    var xs, ys := Names(targets), RemoteNames(remotes);
    forall x | x in xs ensures x in ys {
      var k :| 0 <= k < |xs| && xs[k] == x;
      assert targets[k] in targets;
      var r :| r in remotes && ReadyFor(r, targets[k]);
      var i :| 0 <= i < |remotes| && remotes[i] == r;
      assert ys[i] == x;
    }
    Pigeonhole(xs, ys);
    assert forall i :: 0 <= i < |remotes| ==> ys[i] == remotes[i].name;
  }

  lemma NoneMissing(remotes: seq<Remote>, targets: seq<Workload>)
    requires UniqueNames(targets) && UniqueRemotes(remotes) && |remotes| == |targets|
    requires forall r :: r in remotes ==> exists w :: w in targets && ReadyFor(r, w)
    ensures Deployed(remotes, targets)
  {
    var xs, ys := RemoteNames(remotes), Names(targets);
    forall x | x in xs ensures x in ys {
      var i :| 0 <= i < |xs| && xs[i] == x;
      assert remotes[i] in remotes;
      var w :| w in targets && ReadyFor(remotes[i], w);
      var k :| 0 <= k < |targets| && targets[k] == w;
      assert ys[k] == x;
    }
    Pigeonhole(xs, ys);
    forall w | w in targets ensures exists r :: r in remotes && ReadyFor(r, w) {
      var k :| 0 <= k < |targets| && targets[k] == w;
      assert ys[k] in xs;
      var i :| 0 <= i < |xs| && xs[i] == ys[k];
      assert remotes[i] in remotes;
      var w' :| w' in targets && ReadyFor(remotes[i], w');
      assert w' == w;
    }
  }

  /** The deployment is there in full, name by name, exactly if a poll succeeds on reports that name nothing twice. */
  lemma ReadyIff(remotes: seq<Remote>, targets: seq<Workload>)
    requires UniqueNames(targets)
    ensures Deployed(remotes, targets) <==> Poll(remotes, targets) == Ok(true) && UniqueRemotes(remotes)
  {
    CountIsFull(remotes, targets);
    if Deployed(remotes, targets) {
      DeployedOnce(remotes, targets);
    }
    if Poll(remotes, targets) == Ok(true) && UniqueRemotes(remotes) {
      NoneMissing(remotes, targets);
    }
  }

  /** Waiting ends with a deployment there in full exactly if the first poll to succeed, before any fails, is on
      reports that name nothing twice. */
  lemma WaitIff(snapshots: seq<seq<Remote>>, targets: seq<Workload>, n: nat)
    requires UniqueNames(targets)
    ensures Wait(snapshots, targets) == Ok(n) && UniqueRemotes(snapshots[n]) <==>
            && n < |snapshots| && Deployed(snapshots[n], targets)
            && forall k :: 0 <= k < n ==> Poll(snapshots[k], targets) == Ok(false)
    ensures Wait(snapshots, targets) == Err(TimedOut) <==>
            forall k :: 0 <= k < |snapshots| ==> Poll(snapshots[k], targets) == Ok(false)
  {
    WaitIsFirstPoll(snapshots, targets, n);
    if n < |snapshots| {
      ReadyIff(snapshots[n], targets);
    }
  }

  lemma {:induction false} WaitIsFirstPoll(snapshots: seq<seq<Remote>>, targets: seq<Workload>, n: nat)
    ensures Wait(snapshots, targets) == Ok(n) <==>
            && n < |snapshots| && Poll(snapshots[n], targets) == Ok(true)
            && forall k :: 0 <= k < n ==> Poll(snapshots[k], targets) == Ok(false)
    ensures Wait(snapshots, targets) == Err(TimedOut) <==>
            forall k :: 0 <= k < |snapshots| ==> Poll(snapshots[k], targets) == Ok(false)
  {
    if snapshots != [] {
      var f := Front(snapshots);
      assert forall k :: 0 <= k < |f| ==> f[k] == snapshots[k];
      WaitIsFirstPoll(f, targets, n);
      PollNeverTimesOut(Last(snapshots), targets);
    }
  }

  lemma {:induction false} CountErrors(remotes: seq<Remote>, targets: seq<Workload>)
    ensures ReadyCount(remotes, targets).Err? ==> ReadyCount(remotes, targets).error.WorkloadFailed?
  {
    if remotes != [] {
      CountErrors(Front(remotes), targets);
    }
  }

  lemma PollNeverTimesOut(remotes: seq<Remote>, targets: seq<Workload>)
    ensures Poll(remotes, targets) != Err(TimedOut)
  {
    CountErrors(remotes, targets);
  }

  /** Some report of a target is in state error. */
  predicate ReportsFailure(remotes: seq<Remote>, targets: seq<Workload>) {
    exists r :: r in remotes && r.state == StateError && exists w :: w in targets && w.name == r.name
  }

  /** There is one report for each target by number, and every report is of a target that is ready. */
  predicate ReportsReady(remotes: seq<Remote>, targets: seq<Workload>) {
    |remotes| == |targets| && forall r :: r in remotes ==> exists w :: w in targets && ReadyFor(r, w)
  }

  lemma {:induction false} CountErrIff(remotes: seq<Remote>, targets: seq<Workload>)
    ensures ReadyCount(remotes, targets).Err? <==> ReportsFailure(remotes, targets)
    ensures ReadyCount(remotes, targets).Err? ==>
              exists r :: r in remotes && r.state == StateError
                          && ReadyCount(remotes, targets).error == WorkloadFailed(r.name)
  {
    if remotes != [] {
      var f, remote := Front(remotes), Last(remotes);
      assert remotes == f + [remote];
      CountErrIff(f, targets);
      var i := TargetIndex(targets, remote.name);
      assert i < |targets| ==> targets[i] in targets;
    }
  }

  /** A poll fails exactly on a full list of reports that has a target in state error, succeeds exactly on one that
      has targets ready only, and is inconclusive otherwise. */
  lemma PollIs(remotes: seq<Remote>, targets: seq<Workload>)
    requires UniqueNames(targets)
    ensures Poll(remotes, targets).Err? <==> |remotes| == |targets| && ReportsFailure(remotes, targets)
    ensures Poll(remotes, targets) == Ok(true) <==> ReportsReady(remotes, targets)
  {
    CountErrIff(remotes, targets);
    CountIsFull(remotes, targets);
  }

  /** Neither ready nor failed. */
  predicate Inconclusive(remotes: seq<Remote>, targets: seq<Workload>) {
    !ReportsReady(remotes, targets) && !(|remotes| == |targets| && ReportsFailure(remotes, targets))
  }

  /** Waiting fails on a workload exactly if the first conclusive poll is on a full list that reports a target in
      state error. */
  lemma WaitFailsIff(snapshots: seq<seq<Remote>>, targets: seq<Workload>)
    requires UniqueNames(targets)
    ensures Wait(snapshots, targets).Err? && Wait(snapshots, targets) != Err(TimedOut) <==>
            exists n :: 0 <= n < |snapshots| && |snapshots[n]| == |targets| && ReportsFailure(snapshots[n], targets)
                        && forall k :: 0 <= k < n ==> Inconclusive(snapshots[k], targets)
  {
    forall k | 0 <= k < |snapshots|
      ensures Poll(snapshots[k], targets) == Ok(false) <==> Inconclusive(snapshots[k], targets)
      ensures Poll(snapshots[k], targets).Err? <==>
              |snapshots[k]| == |targets| && ReportsFailure(snapshots[k], targets)
    {
      PollIs(snapshots[k], targets);
    }
    WaitIsFirstFailure(snapshots, targets);
  }

  lemma {:induction false} WaitIsFirstFailure(snapshots: seq<seq<Remote>>, targets: seq<Workload>)
    ensures Wait(snapshots, targets).Err? && Wait(snapshots, targets) != Err(TimedOut) <==>
            exists n :: 0 <= n < |snapshots| && Poll(snapshots[n], targets).Err?
                        && forall k :: 0 <= k < n ==> Poll(snapshots[k], targets) == Ok(false)
  {
    if snapshots != [] {
      var f, n := Front(snapshots), |snapshots| - 1;
      assert forall k :: 0 <= k < |f| ==> f[k] == snapshots[k];
      WaitIsFirstFailure(f, targets);
      WaitIsFirstPoll(f, targets, 0);
      PollNeverTimesOut(snapshots[n], targets);
    }
  }

  /** When the node reports a name twice, a poll can succeed with a workload missing. */
  lemma DuplicateReportsDeceive(d: Data)
    ensures var r := Remote("vm", 1, StateOk);
            var vm, disk := Workload("vm", Zmachine, 1, "", "", d), Workload("disk", Zmount, 1, "", "", d);
            Poll([r, r], [vm, disk]) == Ok(true) && !Deployed([r, r], [vm, disk])
  {
    var r := Remote("vm", 1, StateOk);
    var vm, disk := Workload("vm", Zmachine, 1, "", "", d), Workload("disk", Zmount, 1, "", "", d);
    var targets, none: seq<Remote> := [vm, disk], [];
    assert TargetIndex(targets, "vm") == 0;
    assert Front([r, r]) == [r] && Front([r]) == none && ReadyCount(none, targets) == Ok(0);
    assert ReadyCount([r], targets) == Ok(1);
    assert disk in targets;
    assert forall x :: x in [r, r] ==> x.name != disk.name;
  }
}
