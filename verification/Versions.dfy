/** Versions over whole runs: whatever updates are requested, merged and carried out, one after the other. */
module Versions {
  import opened Lists
  import opened Decode
  import opened Workloads
  import opened VersionMerge
  import opened Diff
  import opened DiffLaws
  import opened Deletion
  import opened Machines
  import Cleaning

  /** The ways an update of a published deployment comes about. */
  datatype Request =
    | Reconcile(news: seq<Workload>)
    | RenewNetwork(tables: seq<NetView>)
    | Remove(names: seq<string>, types: set<WorkloadType>, networks: seq<string>)

  /** What is left when the workloads of these networks are dropped by name. */
  function WithoutNetworks(ws: seq<Workload>, networks: seq<string>): seq<Workload> {
    if networks == [] then ws else Cleaning.WithoutName(WithoutNetworks(ws, Front(networks)), Last(networks))
  }

  /** The workloads a request wants the deployment to have. A removal takes the named workloads along, then the
      networks that the node left; with no types it only drops networks. */
  function Wanted(ch: Challenge, d: DeploymentView, req: Request): seq<Workload> {
    match req
    case Reconcile(news) => DiffWorkloads(ch, d, news)
    case RenewNetwork(tables) => Renewed(tables, d.workloads)
    case Remove(names, types, networks) => WithoutNetworks(Remaining(d.workloads, names, types), networks)
  }

  function Ask(ch: Challenge, d: DeploymentView, req: Request): TwinView {
    TwinView(d.(workloads := Wanted(ch, d, req)), Operation.Update, 0, 0, None)
  }

  function Asked(ch: Challenge, d: DeploymentView, reqs: seq<Request>): seq<TwinView> {
    seq(|reqs|, i requires 0 <= i < |reqs| => Ask(ch, d, reqs[i]))
  }

  /** The deployment that one handling of all requests made on `d` publishes. */
  function Handled(ch: Challenge, d: DeploymentView, reqs: seq<Request>): DeploymentView
    requires reqs != []
  {
    UpdateToLatest(Asked(ch, d, reqs)).deployment
  }

  ghost predicate Sane(d: DeploymentView) {
    WithinVersion(d) && UniqueNames(d.workloads)
  }

  ghost predicate AllSane(reqs: seq<Request>) {
    forall req :: req in reqs && req.Reconcile? ==> UniqueNames(req.news)
  }

  /** The request gives the workload of that name the next version. A renewed network workload only gets there if
      it was at its deployment's version before. */
  predicate Stamps(ch: Challenge, d: DeploymentView, req: Request, name: string) {
    match req
    case Reconcile(news) =>
      || (exists o :: o in d.workloads && o.name == name && Changes(ch, news, o))
      || (!Named(d.workloads, name) && Named(Reached(ch, d.workloads, news), name))
    case RenewNetwork(tables) =>
      var i := FirstInRange(d.workloads);
      i < |d.workloads| && d.workloads[i].name == name && d.workloads[i].version == d.version
    case Remove(names, types, networks) => false
  }

  // ----- One request

  lemma {:induction false} RemainingNamesUnique(ws: seq<Workload>, names: seq<string>, types: set<WorkloadType>)
    requires UniqueNames(ws)
    ensures UniqueNames(Remaining(ws, names, types))
    ensures forall w :: w in Remaining(ws, names, types) ==> w in ws
  {
    if ws != [] {
      assert ws == Front(ws) + [Last(ws)];
      assert forall w :: w in Front(ws) ==> w.name != Last(ws).name;
      RemainingNamesUnique(Front(ws), names, types);
    }
  }

  lemma {:induction false} WithoutNameUnique(ws: seq<Workload>, name: string)
    requires UniqueNames(ws)
    ensures UniqueNames(Cleaning.WithoutName(ws, name))
  {
    if ws != [] {
      assert ws == Front(ws) + [Last(ws)];
      assert forall w :: w in Front(ws) ==> w.name != Last(ws).name;
      WithoutNameUnique(Front(ws), name);
    }
  }

  lemma {:induction false} WithoutNetworksAre(ws: seq<Workload>, networks: seq<string>)
    requires UniqueNames(ws)
    ensures UniqueNames(WithoutNetworks(ws, networks))
    ensures forall w :: w in WithoutNetworks(ws, networks) <==> w in ws && w.name !in networks
  {
    if networks != [] {
      assert networks == Front(networks) + [Last(networks)];
      WithoutNetworksAre(ws, Front(networks));
      WithoutNameUnique(WithoutNetworks(ws, Front(networks)), Last(networks));
    }
  }

  lemma RequestKeeps(ch: Challenge, d: DeploymentView, req: Request)
    requires Sane(d) && AllSane([req])
    ensures UniqueNames(Wanted(ch, d, req)) && RequestOf(Ask(ch, d, req), d.version)
  {
    match req
    case Reconcile(news) =>
      assert req in [req];
      DiffNamesUnique(ch, d, news);
      DiffVersions(ch, d, news);
    case RenewNetwork(tables) =>
      var i := FirstInRange(d.workloads);
      assert i < |d.workloads| ==> d.workloads[i] in d.workloads;
    case Remove(names, types, networks) =>
      RemainingNamesUnique(d.workloads, names, types);
      WithoutNetworksAre(Remaining(d.workloads, names, types), networks);
  }

  lemma StampsIff(ch: Challenge, d: DeploymentView, req: Request, name: string)
    requires Sane(d) && AllSane([req])
    ensures Stamps(ch, d, req, name) <==>
            exists x :: x in Wanted(ch, d, req) && x.name == name && x.version == d.version + 1
  {
    match req
    case Reconcile(news) =>
      assert req in [req];
      ReconcileStamps(ch, d, news, name);
    case RenewNetwork(tables) =>
      var i := FirstInRange(d.workloads);
      var ws := Renewed(tables, d.workloads);
      forall k | 0 <= k < |ws|
        ensures ws[k].version == d.version + 1 ==> k == i && d.workloads[i].version == d.version
      {
        assert d.workloads[k] in d.workloads;
      }
      assert i < |ws| ==> ws[i] in ws;
    case Remove(names, types, networks) =>
      RemainingNamesUnique(d.workloads, names, types);
      WithoutNetworksAre(Remaining(d.workloads, names, types), networks);
  }

  lemma ReconcileStamps(ch: Challenge, d: DeploymentView, news: seq<Workload>, name: string)
    requires Sane(d) && UniqueNames(news)
    ensures Stamps(ch, d, Reconcile(news), name) <==>
            exists x :: x in DiffWorkloads(ch, d, news) && x.name == name && x.version == d.version + 1
  {
    if Stamps(ch, d, Reconcile(news), name) {
      var x := StampedByReconcile(ch, d, news, name);
    }
    if x :| x in DiffWorkloads(ch, d, news) && x.name == name && x.version == d.version + 1 {
      DiffVersions(ch, d, news);
      DiffMembers(ch, d, news, x);
    }
  }

  lemma StampedByReconcile(ch: Challenge, d: DeploymentView, news: seq<Workload>, name: string) returns (x: Workload)
    requires Stamps(ch, d, Reconcile(news), name)
    ensures x in DiffWorkloads(ch, d, news) && x.name == name && x.version == d.version + 1
  {
    if o :| o in d.workloads && o.name == name && Changes(ch, news, o) {
      x := Reconciled(ch, news, d.version, o);
    } else {
      var n :| n in Reached(ch, d.workloads, news) && n.name == name;
      x := n.(version := d.version + 1);
    }
    DiffMembers(ch, d, news, x);
  }

  // ----- All requests at once

  lemma AskedKeep(ch: Challenge, d: DeploymentView, reqs: seq<Request>)
    requires Sane(d) && AllSane(reqs)
    ensures AllUnique(Asked(ch, d, reqs))
    ensures forall t :: t in Asked(ch, d, reqs) ==> RequestOf(t, d.version)
  {
    var ts := Asked(ch, d, reqs);
    forall t | t in ts ensures UniqueNames(t.deployment.workloads) && RequestOf(t, d.version) {
      var i :| 0 <= i < |ts| && ts[i] == t;
      assert reqs[i] in reqs;
      RequestKeeps(ch, d, reqs[i]);
    }
  }

  /** One update is merged like many. */
  lemma HandledIsMerge(ch: Challenge, d: DeploymentView, reqs: seq<Request>)
    requires Sane(d) && AllSane(reqs) && reqs != []
    ensures Handled(ch, d, reqs) == MergeAll(Asked(ch, d, reqs)).deployment
  {
    var ts := Asked(ch, d, reqs);
    AskedKeep(ch, d, reqs);
    if |ts| == 1 {
      assert ts == [ts[0]] && ts[0] in ts;
      ShortcutIff(ts[0]);
    }
  }

  /** Handling raises the version by one, however many requests were merged, and keeps the bound and the names. */
  lemma HandledKeeps(ch: Challenge, d: DeploymentView, reqs: seq<Request>)
    requires Sane(d) && AllSane(reqs) && reqs != []
    ensures var after := Handled(ch, d, reqs);
            Sane(after) && after.version == d.version + 1 && after.contractId == d.contractId
  {
    var ts := Asked(ch, d, reqs);
    AskedKeep(ch, d, reqs);
    MergeKeepsVersions(ts, d.version);
    HandledIsMerge(ch, d, reqs);
    MergeKeepsLatest(ts, "");
  }

  ghost predicate StampedBySome(ch: Challenge, d: DeploymentView, reqs: seq<Request>, name: string) {
    exists req :: req in reqs && Stamps(ch, d, req, name)
  }

  lemma GatheredStamps(ch: Challenge, d: DeploymentView, reqs: seq<Request>, name: string)
    requires Sane(d) && AllSane(reqs)
    ensures StampedBySome(ch, d, reqs, name) <==>
            exists x :: x in Gather(Asked(ch, d, reqs)) && x.name == name && x.version == d.version + 1
  {
    var ts := Asked(ch, d, reqs);
    if req :| req in reqs && Stamps(ch, d, req, name) {
      var i :| 0 <= i < |reqs| && reqs[i] == req;
      StampsIff(ch, d, req, name);
      var x :| x in Wanted(ch, d, req) && x.name == name && x.version == d.version + 1;
      assert ts[i] in ts && x in ts[i].deployment.workloads;
      InGather(ts, x);
    }
    if x :| x in Gather(ts) && x.name == name && x.version == d.version + 1 {
      InGather(ts, x);
      var t :| t in ts && x in t.deployment.workloads;
      var i :| 0 <= i < |ts| && ts[i] == t;
      assert reqs[i] in reqs;
      StampsIff(ch, d, reqs[i], name);
    }
  }

  /** Of the workloads that come through, those at the deployment's version are exactly those some request stamped. */
  lemma SurvivorSelectedIff(ch: Challenge, d: DeploymentView, reqs: seq<Request>, w: Workload)
    requires Sane(d) && AllSane(reqs) && reqs != [] && w in Handled(ch, d, reqs).workloads
    ensures w.version == Handled(ch, d, reqs).version <==> StampedBySome(ch, d, reqs, w.name)
  {
    var ts := Asked(ch, d, reqs);
    HandledIsMerge(ch, d, reqs);
    HandledKeeps(ch, d, reqs);
    AskedKeep(ch, d, reqs);
    FirstNamesAre(Gather(ts));
    SurvivingAre(ts, FirstNames(Gather(ts)));
    var occ := Occurrences(Gather(ts), w.name);
    LatestIsMaximum(occ);
    InOccurrences(Gather(ts), w.name, w);
    GatheredStamps(ch, d, reqs, w.name);
    if x :| x in Gather(ts) && x.name == w.name && x.version == d.version + 1 {
      InOccurrences(Gather(ts), w.name, x);
    }
  }

  // ----- Which changes survive

  /** The request leaves a workload of that name in the deployment. */
  predicate Leaves(ch: Challenge, d: DeploymentView, req: Request, name: string) {
    match req
    case Reconcile(news) =>
      || (exists o :: o in d.workloads && o.name == name && Stays(news, o))
      || (!Named(d.workloads, name) && Named(Reached(ch, d.workloads, news), name))
    case RenewNetwork(tables) => Named(d.workloads, name)
    case Remove(names, types, networks) =>
      name !in networks && exists o :: o in d.workloads && o.name == name && !Goes(o, names, types)
  }

  lemma RenewedNames(tables: seq<NetView>, ws: seq<Workload>, name: string)
    ensures Named(Renewed(tables, ws), name) <==> Named(ws, name)
  {
    var renewed := Renewed(tables, ws);
    assert forall k :: 0 <= k < |ws| ==> renewed[k].name == ws[k].name;
    if k :| 0 <= k < |ws| && ws[k].name == name {
      assert renewed[k] in renewed && ws[k] in ws;
    }
  }

  lemma LeavesIff(ch: Challenge, d: DeploymentView, req: Request, name: string)
    requires Sane(d)
    ensures Leaves(ch, d, req, name) <==> Named(Wanted(ch, d, req), name)
  {
    match req
    case Reconcile(news) =>
      DiffNamed(ch, d, news, name);
    case RenewNetwork(tables) =>
      RenewedNames(tables, d.workloads, name);
    case Remove(names, types, networks) =>
      Partition(d.workloads, names, types);
      RemainingNamesUnique(d.workloads, names, types);
      WithoutNetworksAre(Remaining(d.workloads, names, types), networks);
  }

  /** Position of the first request that leaves the name, or the number of requests when none does. */
  function FirstLeaving(ch: Challenge, d: DeploymentView, reqs: seq<Request>, name: string): (i: nat)
    ensures i <= |reqs| && (i < |reqs| ==> Leaves(ch, d, reqs[i], name))
    ensures forall k :: 0 <= k < i ==> !Leaves(ch, d, reqs[k], name)
  {
    if reqs == [] then 0
    else if Leaves(ch, d, reqs[0], name) then 0
    else 1 + FirstLeaving(ch, d, reqs[1..], name)
  }

  ghost predicate LeftByAll(ch: Challenge, d: DeploymentView, reqs: seq<Request>, name: string) {
    forall req :: req in reqs ==> Leaves(ch, d, req, name)
  }

  /** Of the requests that leave the name, the first gives it the next version. */
  predicate FirstStamps(ch: Challenge, d: DeploymentView, reqs: seq<Request>, name: string) {
    var i := FirstLeaving(ch, d, reqs, name);
    i < |reqs| && Stamps(ch, d, reqs[i], name)
  }

  lemma MentionedIff(ch: Challenge, d: DeploymentView, reqs: seq<Request>, name: string)
    requires Sane(d)
    ensures var ts := Asked(ch, d, reqs);
            && (forall i :: 0 <= i < |reqs| ==> (Mentions(ts[i], name) <==> Leaves(ch, d, reqs[i], name)))
            && ((forall t :: t in ts ==> Mentions(t, name)) <==> LeftByAll(ch, d, reqs, name))
  {
    var ts := Asked(ch, d, reqs);
    forall i | 0 <= i < |reqs|
      ensures (Mentions(ts[i], name) <==> Leaves(ch, d, reqs[i], name)) && ts[i] in ts && reqs[i] in reqs
    {
      LeavesIff(ch, d, reqs[i], name);
    }
  }

  lemma NoneBefore(ts: seq<TwinView>, name: string)
    requires forall t :: t in ts ==> !Mentions(t, name)
    ensures Occurrences(Gather(ts), name) == []
  {
    OccursIff(Gather(ts), name);
    if x :| x in Gather(ts) && x.name == name {
      InGather(ts, x);
    }
  }

  lemma OccursOnce(t: TwinView, name: string, w: Workload)
    requires UniqueNames(t.deployment.workloads) && w in t.deployment.workloads && w.name == name
    ensures Occurrences(Gather([t]), name) == [w]
  {
    var ws := t.deployment.workloads;
    OneUpdate(t);
    UniqueOccurrence(ws, name);
    InOccurrences(ws, name, w);
  }

  /** What the first update to mention a name holds of it occurs first. */
  lemma {:induction false} FirstOccurrence(ts: seq<TwinView>, i: nat, name: string, w: Workload)
    requires i < |ts| && Occurrences(Gather([ts[i]]), name) == [w]
    requires forall t :: t in ts[..i] ==> !Mentions(t, name)
    ensures var occ := Occurrences(Gather(ts), name); occ != [] && occ[0] == w
  {
    OccurrencesInLast(ts, name);
    if i < |ts| - 1 {
      assert Front(ts)[..i] == ts[..i];
      FirstOccurrence(Front(ts), i, name, w);
    } else {
      NoneBefore(Front(ts), name);
    }
  }

  lemma FirstStampsIff(ch: Challenge, d: DeploymentView, reqs: seq<Request>, name: string)
    requires Sane(d) && AllSane(reqs)
    ensures var occ := Occurrences(Gather(Asked(ch, d, reqs)), name);
            FirstStamps(ch, d, reqs, name) <==> occ != [] && occ[0].version > d.version
  {
    var ts, i := Asked(ch, d, reqs), FirstLeaving(ch, d, reqs, name);
    MentionedIff(ch, d, reqs, name);
    if i < |reqs| {
      assert reqs[i] in reqs && forall r :: r in [reqs[i]] ==> r in reqs;
      RequestKeeps(ch, d, reqs[i]);
      StampsIff(ch, d, reqs[i], name);
      var w :| w in ts[i].deployment.workloads && w.name == name;
      OccursOnce(ts[i], name, w);
      FirstOccurrence(ts, i, name, w);
      OnlyOne(ts[i].deployment.workloads, w);
    } else {
      NoneBefore(ts, name);
    }
  }

  lemma OnlyOne(ws: seq<Workload>, w: Workload)
    requires UniqueNames(ws) && w in ws
    ensures forall x :: x in ws && x.name == w.name ==> x == w
  {
  }

  /** A name comes through exactly if every request leaves it, or the first that leaves it stamps it. */
  lemma SurvivesIff(ch: Challenge, d: DeploymentView, reqs: seq<Request>, name: string)
    requires Sane(d) && AllSane(reqs) && reqs != []
    ensures Named(Handled(ch, d, reqs).workloads, name) <==>
            LeftByAll(ch, d, reqs, name) || FirstStamps(ch, d, reqs, name)
  {
    var ts := Asked(ch, d, reqs);
    HandledIsMerge(ch, d, reqs);
    AskedKeep(ch, d, reqs);
    MergeKeepsLatest(ts, name);
    MentionedIff(ch, d, reqs, name);
    FirstStampsIff(ch, d, reqs, name);
    assert ts[0].deployment.version == d.version;
  }

  /** A workload of that name is at its deployment's version, which is what capacity is checked for. */
  predicate Selected(d: DeploymentView, name: string) {
    exists w :: w in d.workloads && w.name == name && w.version == d.version
  }

  /** Selected are exactly the stamped names, except those that one request drops and the first to leave them left
      as they were. */
  lemma SelectedIff(ch: Challenge, d: DeploymentView, reqs: seq<Request>, name: string)
    requires Sane(d) && AllSane(reqs) && reqs != []
    ensures Selected(Handled(ch, d, reqs), name) <==>
            && StampedBySome(ch, d, reqs, name)
            && (LeftByAll(ch, d, reqs, name) || FirstStamps(ch, d, reqs, name))
  {
    SurvivesIff(ch, d, reqs, name);
    forall w | w in Handled(ch, d, reqs).workloads && w.name == name
      ensures w.version == Handled(ch, d, reqs).version <==> StampedBySome(ch, d, reqs, name)
    {
      SurvivorSelectedIff(ch, d, reqs, w);
    }
  }

  lemma StampLeaves(ch: Challenge, d: DeploymentView, req: Request, name: string)
    requires Sane(d) && AllSane([req]) && Stamps(ch, d, req, name)
    ensures Leaves(ch, d, req, name)
  {
    StampsIff(ch, d, req, name);
    LeavesIff(ch, d, req, name);
  }

  /** An added name is never lost. */
  lemma AdditionSelected(ch: Challenge, d: DeploymentView, reqs: seq<Request>, name: string)
    requires Sane(d) && AllSane(reqs) && !Named(d.workloads, name)
    requires StampedBySome(ch, d, reqs, name)
    ensures Selected(Handled(ch, d, reqs), name)
  {
    var req :| req in reqs && Stamps(ch, d, req, name);
    assert forall r :: r in [req] ==> r in reqs;
    StampLeaves(ch, d, req, name);
    SelectedIff(ch, d, reqs, name);
  }

  /** Nor is any stamp lost among up to two requests. */
  lemma UpToTwoSelected(ch: Challenge, d: DeploymentView, reqs: seq<Request>, name: string)
    requires Sane(d) && AllSane(reqs) && 1 <= |reqs| <= 2
    ensures Selected(Handled(ch, d, reqs), name) <==> StampedBySome(ch, d, reqs, name)
  {
    SelectedIff(ch, d, reqs, name);
    forall req | req in reqs ensures Stamps(ch, d, req, name) ==> Leaves(ch, d, req, name) {
      assert forall r :: r in [req] ==> r in reqs;
      if Stamps(ch, d, req, name) {
        StampLeaves(ch, d, req, name);
      }
    }
    if |reqs| == 1 {
      assert reqs == [reqs[0]];
    } else {
      assert reqs == [reqs[0], reqs[1]];
    }
  }

  lemma OnlyMatch(w: Workload, o: Workload)
    requires !IsNetwork(w) && w.name == o.name
    ensures MatchIndex([w], o.name) == 0
  {
    assert [w][0] == w;
  }

  lemma LosesStamp(ch: Challenge, d: DeploymentView, disk: Workload, bigger: Workload)
    requires Sane(d) && d.workloads == [disk] && disk.wtype == Zmount && bigger.wtype == Zmount
             && bigger.name == disk.name
    requires Digest(ch, Pinned(disk, bigger)) != Digest(ch, disk)
    ensures var reqs := [Reconcile([disk]), Reconcile([bigger]), Remove([disk.name], {Zmount}, [])];
            StampedBySome(ch, d, reqs, disk.name) && !LeftByAll(ch, d, reqs, disk.name)
            && !FirstStamps(ch, d, reqs, disk.name)
  {
    var keep, change, drop := Reconcile([disk]), Reconcile([bigger]), Remove([disk.name], {Zmount}, []);
    var reqs := [keep, change, drop];
    OnlyMatch(disk, disk);
    OnlyMatch(bigger, disk);
    assert disk in d.workloads && disk in [disk] && Pinned(disk, disk) == disk;
    assert Leaves(ch, d, keep, disk.name) && !Stamps(ch, d, keep, disk.name) && reqs[0] == keep;
    assert Stamps(ch, d, change, disk.name) && change in reqs;
    assert !Leaves(ch, d, drop, disk.name) && drop in reqs;
  }

  /** Three requests can lose one: the disk is kept, made bigger and removed, and the bigger one is gone. */
  lemma StampLost()
    ensures var disk := Workload("disk", Zmount, 0, "", "", SizedData(1, ""));
            var bigger := disk.(data := SizedData(2, ""));
            var ch := (version, wtype, metadata, description, data) => if data == disk.data then "one" else "other";
            var d := DeploymentView(0, 7, [disk]);
            var reqs := [Reconcile([disk]), Reconcile([bigger]), Remove(["disk"], {Zmount}, [])];
            && Sane(d) && AllSane(reqs) && StampedBySome(ch, d, reqs, "disk")
            && !Named(Handled(ch, d, reqs).workloads, "disk")
  {
    var disk := Workload("disk", Zmount, 0, "", "", SizedData(1, ""));
    var bigger := disk.(data := SizedData(2, ""));
    var ch := (version, wtype, metadata, description, data) => if data == disk.data then "one" else "other";
    var d := DeploymentView(0, 7, [disk]);
    var reqs := [Reconcile([disk]), Reconcile([bigger]), Remove(["disk"], {Zmount}, [])];
    LosesStamp(ch, d, disk, bigger);
    SurvivesIff(ch, d, reqs, "disk");
  }

  // ----- Whole runs

  ghost predicate History(ch: Challenge, states: seq<DeploymentView>, reqs: seq<seq<Request>>) {
    && |states| == |reqs| + 1
    && forall i :: 0 <= i < |reqs| ==>
         reqs[i] != [] && AllSane(reqs[i]) && states[i + 1] == Handled(ch, states[i], reqs[i])
  }

  /** Along any run no workload gets ahead of its deployment, and the version counts the handled updates. */
  lemma {:induction false} RunKeepsVersions(ch: Challenge, states: seq<DeploymentView>, reqs: seq<seq<Request>>, n: nat)
    requires History(ch, states, reqs) && Sane(states[0]) && n <= |reqs|
    ensures Sane(states[n]) && states[n].version == states[0].version + n
            && states[n].contractId == states[0].contractId
  {
    if n > 0 {
      RunKeepsVersions(ch, states, reqs, n - 1);
      HandledKeeps(ch, states[n - 1], reqs[n - 1]);
      assert states[n] == states[n - 1 + 1];
    }
  }

  /** At any point of a run, the names there are those the last handling let through, and those at the deployment's
      version the ones among them it stamped. */
  lemma RunSelectsStamped(ch: Challenge, states: seq<DeploymentView>, reqs: seq<seq<Request>>, n: nat, name: string)
    requires History(ch, states, reqs) && Sane(states[0]) && n < |reqs|
    ensures Named(states[n + 1].workloads, name) <==>
            LeftByAll(ch, states[n], reqs[n], name) || FirstStamps(ch, states[n], reqs[n], name)
    ensures Selected(states[n + 1], name) <==>
            && StampedBySome(ch, states[n], reqs[n], name)
            && (LeftByAll(ch, states[n], reqs[n], name) || FirstStamps(ch, states[n], reqs[n], name))
    ensures forall w :: w in states[n + 1].workloads && w.name == name ==>
              (w.version == states[n + 1].version <==> StampedBySome(ch, states[n], reqs[n], name))
  {
    RunKeepsVersions(ch, states, reqs, n);
    SurvivesIff(ch, states[n], reqs[n], name);
    SelectedIff(ch, states[n], reqs[n], name);
    forall w | w in states[n + 1].workloads && w.name == name
      ensures w.version == states[n + 1].version <==> StampedBySome(ch, states[n], reqs[n], name)
    {
      SurvivorSelectedIff(ch, states[n], reqs[n], w);
    }
  }
}
