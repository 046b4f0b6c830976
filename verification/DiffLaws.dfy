/** What reconciling a deployment achieves, and exactly when it achieves it. */
module DiffLaws {
  import opened Lists
  import opened Workloads
  import opened VersionMerge
  import opened Diff

  /** The additions actually reached by some walk. */
  function Reached(ch: Challenge, olds: seq<Workload>, news: seq<Workload>): seq<Workload> {
    news[..Capped(Limit(ch, news, olds), |news|)]
  }

  /** Every requested workload with a new name lies within the walk of some old workload that stays: one that is
      unchanged, or whose changed counterpart comes later. */
  ghost predicate AdditionsReached(ch: Challenge, olds: seq<Workload>, news: seq<Workload>) {
    forall j :: 0 <= j < |news| && !Named(olds, news[j].name) ==> exists o :: o in olds && j < ScanLimit(ch, news, o)
  }

  lemma {:induction false} LimitIsMaximum(ch: Challenge, news: seq<Workload>, olds: seq<Workload>, j: nat)
    ensures j < Limit(ch, news, olds) <==> exists o :: o in olds && j < ScanLimit(ch, news, o)
    ensures Limit(ch, news, olds) <= |news|
  {
    if olds != [] {
      assert olds == Front(olds) + [Last(olds)];
      LimitIsMaximum(ch, news, Front(olds), j);
    }
  }

  lemma {:induction false} InKept(ch: Challenge, news: seq<Workload>, version: nat, olds: seq<Workload>, w: Workload)
    ensures w in Kept(ch, news, version, olds) <==>
            exists o :: o in olds && Stays(news, o) && w == Reconciled(ch, news, version, o)
  {
    if olds != [] {
      assert olds == Front(olds) + [Last(olds)];
      InKept(ch, news, version, Front(olds), w);
    }
  }

  lemma {:induction false} InAdded(olds: seq<Workload>, news: seq<Workload>, version: nat, w: Workload)
    ensures w in Added(olds, news, version) <==>
            exists n :: n in news && !Named(olds, n.name) && w == n.(version := version + 1)
  {
    if news != [] {
      assert news == Front(news) + [Last(news)];
      InAdded(olds, Front(news), version, w);
    }
  }

  /** Every workload left by an update: an old one as it was, an old one brought to what is requested, or a
      requested one that is new; the last two are stamped with the next version. */
  lemma DiffMembers(ch: Challenge, old_: DeploymentView, news: seq<Workload>, w: Workload)
    ensures w in DiffWorkloads(ch, old_, news) <==>
            || (w in old_.workloads && Stays(news, w) && !Changes(ch, news, w))
            || (exists o :: o in old_.workloads && Changes(ch, news, o) && w == Reconciled(ch, news, old_.version, o))
            || (exists n :: n in Reached(ch, old_.workloads, news) && !Named(old_.workloads, n.name)
                            && w == n.(version := old_.version + 1))
  {
    InKept(ch, news, old_.version, old_.workloads, w);
    InAdded(old_.workloads, Reached(ch, old_.workloads, news), old_.version, w);
    forall o | o in old_.workloads && Changes(ch, news, o) ensures Stays(news, o) {
      MatchedIsNamed(news, o);
    }
  }

  lemma {:induction false} KeptNamesUnique(ch: Challenge, news: seq<Workload>, version: nat, olds: seq<Workload>)
    requires UniqueNames(olds)
    ensures UniqueNames(Kept(ch, news, version, olds))
    ensures forall w :: w in Kept(ch, news, version, olds) ==> Named(olds, w.name)
  {
    if olds != [] {
      var f, o := Front(olds), Last(olds);
      assert olds == f + [o] && o in olds;
      KeptNamesUnique(ch, news, version, f);
      forall w | w in Kept(ch, news, version, f) ensures w.name != o.name && Named(olds, w.name) {
        var x :| x in f && x.name == w.name;
        assert x in olds;
      }
    }
  }

  lemma {:induction false} AddedNamesUnique(olds: seq<Workload>, news: seq<Workload>, version: nat)
    requires UniqueNames(news)
    ensures UniqueNames(Added(olds, news, version))
  {
    if news != [] {
      var f, l := Front(news), Last(news);
      assert news == f + [l];
      AddedNamesUnique(olds, f, version);
      AddedNames(olds, f, version, l.name);
      assert forall w :: w in f ==> w.name != l.name;
      assert forall w :: w in Added(olds, f, version) ==> w.name != l.name;
    }
  }

  lemma DiffNamesUnique(ch: Challenge, old_: DeploymentView, news: seq<Workload>)
    requires UniqueNames(old_.workloads) && UniqueNames(news)
    ensures UniqueNames(DiffWorkloads(ch, old_, news))
  {
    var olds, reached := old_.workloads, Reached(ch, old_.workloads, news);
    KeptNamesUnique(ch, news, old_.version, olds);
    AddedNamesUnique(olds, reached, old_.version);
    forall w | w in Added(olds, reached, old_.version) ensures !Named(olds, w.name) {
      AddedNames(olds, reached, old_.version, w.name);
    }
  }

  /** What an update should leave: the old network workloads and everything requested. */
  ghost predicate Complete(ch: Challenge, old_: DeploymentView, news: seq<Workload>) {
    forall name :: Named(DiffWorkloads(ch, old_, news), name) <==>
      (exists o :: o in old_.workloads && IsNetwork(o) && o.name == name) || Named(news, name)
  }

  lemma DiffNamed(ch: Challenge, old_: DeploymentView, news: seq<Workload>, name: string)
    ensures Named(DiffWorkloads(ch, old_, news), name) <==>
            || (exists o :: o in old_.workloads && o.name == name && Stays(news, o))
            || (Named(Reached(ch, old_.workloads, news), name) && !Named(old_.workloads, name))
  {
    var olds, reached := old_.workloads, Reached(ch, old_.workloads, news);
    var kept, added := Kept(ch, news, old_.version, olds), Added(olds, reached, old_.version);
    AddedNames(olds, reached, old_.version, name);
    assert Named(kept + added, name) <==> Named(kept, name) || Named(added, name) by {
      if w :| w in kept && w.name == name { assert w in kept + added; }
      if w :| w in added && w.name == name { assert w in kept + added; }
    }
    if w :| w in kept && w.name == name {
      InKept(ch, news, old_.version, olds, w);
    }
    if o :| o in olds && o.name == name && Stays(news, o) {
      InKept(ch, news, old_.version, olds, Reconciled(ch, news, old_.version, o));
    }
  }

  /** The result is the old networks plus the request, exactly if every addition is reached by some walk. */
  lemma CompleteIff(ch: Challenge, old_: DeploymentView, news: seq<Workload>)
    requires UniqueNames(old_.workloads) && UniqueNames(news)
    ensures Complete(ch, old_, news) <==> AdditionsReached(ch, old_.workloads, news)
  {
    if Complete(ch, old_, news) {
      forall j | 0 <= j < |news| && !Named(old_.workloads, news[j].name)
        ensures exists o :: o in old_.workloads && j < ScanLimit(ch, news, o)
      {
        assert Named(news, news[j].name);
        NamedIsReached(ch, old_, news, j);
      }
    }
    if AdditionsReached(ch, old_.workloads, news) {
      forall name
        ensures Named(DiffWorkloads(ch, old_, news), name) <==>
                (exists o :: o in old_.workloads && IsNetwork(o) && o.name == name) || Named(news, name)
      {
        ReachedIsNamed(ch, old_, news, name);
      }
    }
  }

  lemma NamedIsReached(ch: Challenge, old_: DeploymentView, news: seq<Workload>, j: nat)
    requires UniqueNames(news) && j < |news| && !Named(old_.workloads, news[j].name)
    requires Named(DiffWorkloads(ch, old_, news), news[j].name)
    ensures exists o :: o in old_.workloads && j < ScanLimit(ch, news, o)
  {
    var limit := Limit(ch, news, old_.workloads);
    LimitIsMaximum(ch, news, old_.workloads, j);
    DiffNamed(ch, old_, news, news[j].name);
    var k :| 0 <= k < limit && news[..limit][k].name == news[j].name;
    SameName(news, k, j);
  }

  lemma ReachedIsNamed(ch: Challenge, old_: DeploymentView, news: seq<Workload>, name: string)
    requires AdditionsReached(ch, old_.workloads, news)
    ensures Named(DiffWorkloads(ch, old_, news), name) <==>
            (exists o :: o in old_.workloads && IsNetwork(o) && o.name == name) || Named(news, name)
  {
    var olds, limit := old_.workloads, Limit(ch, news, old_.workloads);
    LimitIsMaximum(ch, news, olds, 0);
    DiffNamed(ch, old_, news, name);
    if Named(news, name) && !Named(olds, name) {
      var j :| 0 <= j < |news| && news[j].name == name;
      LimitIsMaximum(ch, news, olds, j);
      assert news[..limit][j] == news[j] && news[j] in news[..limit];
    }
    if w :| w in news[..limit] && w.name == name {
      assert w in news;
    }
  }

  /** An addition listed after the only survivor, which changed, is missed: the walk ends at the change. */
  lemma AdditionMissed()
    ensures var disk := Workload("disk", Zmount, 0, "", "", SizedData(1, ""));
            var bigger, extra := disk.(data := SizedData(2, "")), disk.(name := "extra");
            var ch := (version, wtype, metadata, description, data) => if data == disk.data then "one" else "other";
            !Complete(ch, DeploymentView(0, 7, [disk]), [bigger, extra])
  {
    var disk := Workload("disk", Zmount, 0, "", "", SizedData(1, ""));
    var bigger, extra := disk.(data := SizedData(2, "")), disk.(name := "extra");
    var ch := (version, wtype, metadata, description, data) => if data == disk.data then "one" else "other";
    var olds, news := [disk], [bigger, extra];
    assert news[0] == bigger && MatchIndex(news, "disk") == 0 && Pinned(disk, bigger) == bigger;
    assert Changes(ch, news, disk) && ScanLimit(ch, news, disk) == 0;
    assert !Named(olds, news[1].name);
    CompleteIff(ch, DeploymentView(0, 7, olds), news);
  }

  /** Some surviving, unchanged workload that is not a network is enough for completeness. */
  lemma UnchangedSurvivorCompletes(ch: Challenge, old_: DeploymentView, news: seq<Workload>, o: Workload)
    requires UniqueNames(old_.workloads) && UniqueNames(news)
    requires o in old_.workloads && !IsNetwork(o) && Named(news, o.name) && !Changes(ch, news, o)
    ensures Complete(ch, old_, news)
  {
    assert ScanLimit(ch, news, o) == |news|;
    CompleteIff(ch, old_, news);
  }

  // ----- Nothing to do

  ghost predicate Differs(ch: Challenge, old_: DeploymentView, news: seq<Workload>) {
    || (exists o :: o in old_.workloads && !Stays(news, o))
    || (exists o :: o in old_.workloads && Changes(ch, news, o))
    || (exists w :: w in news && !Named(old_.workloads, w.name))
  }

  /** Null means that nothing differs, exactly if the old deployment has something besides networks or the
      request has nothing new. */
  lemma NullIff(ch: Challenge, old_: DeploymentView, news: seq<Workload>)
    ensures (FindsUpdate(ch, old_, news) <==> Differs(ch, old_, news)) <==>
            (exists o :: o in old_.workloads && !IsNetwork(o))
            || (forall w :: w in news ==> Named(old_.workloads, w.name))
  {
    var olds, reached := old_.workloads, Reached(ch, old_.workloads, news);
    LimitIsMaximum(ch, news, olds, 0);
    var added := Added(olds, reached, old_.version);
    if added != [] {
      InAdded(olds, reached, old_.version, added[0]);
      assert added[0] in added;
      assert forall w :: w in reached ==> w in news;
    }
    if o :| o in olds && !IsNetwork(o) {
      if Differs(ch, old_, news) && Stays(news, o) && !Changes(ch, news, o) {
        UnchangedReachesAll(ch, olds, news, o);
        if w :| w in news && !Named(olds, w.name) {
          InAdded(olds, reached, old_.version, w.(version := old_.version + 1));
        }
      }
    } else {
      NetworksReachNothing(ch, news, olds);
    }
  }

  /** A deployment of nothing but networks notices no addition, nor is one made there. */
  lemma NetworksOnlyMissAdditions(ch: Challenge)
    ensures var net := Workload("net", NetworkResource, 0, "", "", NetworkData(2, []));
            var disk := Workload("disk", Zmount, 0, "", "", SizedData(1, ""));
            var d := DeploymentView(0, 7, [net]);
            && Differs(ch, d, [net, disk]) && !FindsUpdate(ch, d, [net, disk])
            && DiffWorkloads(ch, d, d.workloads + [disk]) == [net]
  {
    var net := Workload("net", NetworkResource, 0, "", "", NetworkData(2, []));
    var disk := Workload("disk", Zmount, 0, "", "", SizedData(1, ""));
    var d := DeploymentView(0, 7, [net]);
    assert d.workloads + [disk] == [net, disk] && disk in [net, disk];
    NullIff(ch, d, [net, disk]);
    NothingAdded(ch, d, [net, disk]);
    NetworksReachNothing(ch, [net, disk], [net]);
    KeptAll(ch, [net, disk], 0, [net]);
    DiffIsKeptAndAdded(ch, d, [net, disk]);
  }

  lemma UnchangedReachesAll(ch: Challenge, olds: seq<Workload>, news: seq<Workload>, o: Workload)
    requires o in olds && !IsNetwork(o) && Named(news, o.name) && !Changes(ch, news, o)
    ensures Reached(ch, olds, news) == news
  {
    assert ScanLimit(ch, news, o) == |news|;
    LimitIsMaximum(ch, news, olds, |news|);
    if |news| > 0 {
      LimitIsMaximum(ch, news, olds, |news| - 1);
    }
  }

  lemma NetworksReachNothing(ch: Challenge, news: seq<Workload>, olds: seq<Workload>)
    requires forall o :: o in olds ==> IsNetwork(o)
    ensures Limit(ch, news, olds) == 0
    ensures forall o :: o in olds ==> !Changes(ch, news, o) && Stays(news, o)
  {
    LimitIsMaximum(ch, news, olds, 0);
  }

  // ----- What counts as a change

  /** A digest that tells any two different workloads of one name apart. */
  ghost predicate TellsApart(ch: Challenge) {
    forall v, t, m, d, x, v', t', m', d', x' :: ch(v, t, m, d, x) == ch(v', t', m', d', x') ==>
      v == v' && t == t' && m == m' && d == d' && x == x'
  }

  /** The requested data, at the address a machine has already. */
  ghost predicate DataToBe(o: Workload, n: Workload, data: Data) {
    if n.wtype == Zmachine && o.data.MachineData? && n.data.MachineData?
    then && data.MachineData? && data.ip == o.data.ip && data.network == n.data.network
         && data.publicIp == n.data.publicIp && data.mounts == n.data.mounts && data.rootfs == n.data.rootfs
         && data.memory == n.data.memory && data.rest == n.data.rest
    else data == n.data
  }

  /** Something else is requested than there is: another type, metadata, description or data. */
  ghost predicate AsksForChange(o: Workload, n: Workload) {
    n.wtype != o.wtype || n.metadata != o.metadata || n.description != o.description || !DataToBe(o, n, o.data)
  }

  /** What becomes of `o` when `n` is requested: itself, or stamped and in all it is asked for but its type. */
  ghost predicate BroughtTo(w: Workload, o: Workload, n: Workload, version: nat) {
    if AsksForChange(o, n)
    then && w.name == o.name && w.wtype == o.wtype && w.version == version + 1
         && w.metadata == n.metadata && w.description == n.description && DataToBe(o, n, w.data)
    else w == o
  }

  lemma CounterpartIs(news: seq<Workload>, o: Workload, n: Workload)
    requires UniqueNames(news) && n in news && n.name == o.name && !IsNetwork(n)
    ensures Matched(news, o) && news[MatchIndex(news, o.name)] == n
  {
    var k :| 0 <= k < |news| && news[k] == n;
    SameName(news, MatchIndex(news, o.name), k);
  }

  /** A digest that tells workloads apart notices exactly what is asked for. */
  lemma ChangesIff(ch: Challenge, news: seq<Workload>, o: Workload, n: Workload)
    requires TellsApart(ch) && UniqueNames(news) && n in news && n.name == o.name && !IsNetwork(n) && !IsNetwork(o)
    ensures Changes(ch, news, o) <==> AsksForChange(o, n)
  {
    CounterpartIs(news, o, n);
    var p := Pinned(o, n);
    assert DataToBe(o, n, p.data);
    assert Digest(ch, p) == ch(p.version, p.wtype, p.metadata, p.description, p.data);
    assert Digest(ch, o) == ch(o.version, o.wtype, o.metadata, o.description, o.data);
  }

  lemma ReconciledIs(ch: Challenge, news: seq<Workload>, version: nat, o: Workload, n: Workload)
    requires TellsApart(ch) && UniqueNames(news) && n in news && n.name == o.name && !IsNetwork(n) && !IsNetwork(o)
    ensures forall w :: w == Reconciled(ch, news, version, o) <==> BroughtTo(w, o, n, version)
  {
    ChangesIff(ch, news, o, n);
    CounterpartIs(news, o, n);
  }

  /** What was there and is requested ends up in the result exactly once by name: stamped, with all that is
      requested of it, if that is something else than there was, and as it was if not. */
  lemma StampedIffAsked(ch: Challenge, old_: DeploymentView, news: seq<Workload>, o: Workload, n: Workload, w: Workload)
    requires TellsApart(ch) && UniqueNames(old_.workloads) && UniqueNames(news)
    requires o in old_.workloads && n in news && n.name == o.name && !IsNetwork(o) && !IsNetwork(n)
    ensures w in DiffWorkloads(ch, old_, news) && w.name == o.name <==> BroughtTo(w, o, n, old_.version)
  {
    ReconciledIs(ch, news, old_.version, o, n);
    DiffMembers(ch, old_, news, w);
    ChangesIff(ch, news, o, n);
    assert Named(news, o.name) && Named(old_.workloads, o.name);
    if w in DiffWorkloads(ch, old_, news) && w.name == o.name {
      forall x | x in old_.workloads && x.name == o.name ensures x == o {
        var i :| 0 <= i < |old_.workloads| && old_.workloads[i] == x;
        var k :| 0 <= k < |old_.workloads| && old_.workloads[k] == o;
        SameName(old_.workloads, i, k);
      }
    }
  }

  /** The walk for `o` comes across the requested workload at `j`: `o` stays, and no change ends the walk before. */
  ghost predicate MetBy(news: seq<Workload>, o: Workload, j: nat) {
    && !IsNetwork(o) && (exists n :: n in news && n.name == o.name)
    && forall k :: 0 <= k < |news| && news[k].name == o.name && !IsNetwork(news[k]) && AsksForChange(o, news[k]) ==>
         j < k
  }

  lemma MetByIff(ch: Challenge, news: seq<Workload>, o: Workload, j: nat)
    requires TellsApart(ch) && UniqueNames(news) && j < |news|
    ensures j < ScanLimit(ch, news, o) <==> MetBy(news, o, j)
  {
    forall k | 0 <= k < |news| && news[k].name == o.name && !IsNetwork(news[k]) && !IsNetwork(o)
      ensures MatchIndex(news, o.name) == k && (Changes(ch, news, o) <==> AsksForChange(o, news[k]))
    {
      SameName(news, MatchIndex(news, o.name), k);
      ChangesIff(ch, news, o, news[k]);
    }
    var m := MatchIndex(news, o.name);
    if !IsNetwork(o) && m < |news| {
      assert Changes(ch, news, o) <==> AsksForChange(o, news[m]);
    }
  }

  /** The requested workload at `j` has a new name, and some walk comes across it. */
  ghost predicate NewAndMet(olds: seq<Workload>, news: seq<Workload>, j: nat)
    requires j < |news|
  {
    !Named(olds, news[j].name) && exists o :: o in olds && MetBy(news, o, j)
  }

  lemma NewAndMetIff(ch: Challenge, olds: seq<Workload>, news: seq<Workload>, j: nat)
    requires TellsApart(ch) && UniqueNames(news) && j < |news|
    ensures NewAndMet(olds, news, j) <==> !Named(olds, news[j].name) && j < Limit(ch, news, olds)
  {
    LimitIsMaximum(ch, news, olds, j);
    forall o | o in olds ensures j < ScanLimit(ch, news, o) <==> MetBy(news, o, j) {
      MetByIff(ch, news, o, j);
    }
  }

  /** A name that was not there is in the result exactly for a requested workload that some walk comes across, as it
      is requested and stamped. */
  lemma AddedIffMet(ch: Challenge, old_: DeploymentView, news: seq<Workload>, w: Workload)
    requires TellsApart(ch) && UniqueNames(news) && !Named(old_.workloads, w.name)
    ensures w in DiffWorkloads(ch, old_, news) <==>
            exists j :: 0 <= j < |news| && NewAndMet(old_.workloads, news, j)
                        && w == news[j].(version := old_.version + 1)
  {
    var olds := old_.workloads;
    DiffMembers(ch, old_, news, w);
    LimitIsMaximum(ch, news, olds, 0);
    if n :| n in Reached(ch, olds, news) && w == n.(version := old_.version + 1) {
      var j :| 0 <= j < Limit(ch, news, olds) && news[j] == n;
      NewAndMetIff(ch, olds, news, j);
    }
    if j :| 0 <= j < |news| && NewAndMet(olds, news, j) && w == news[j].(version := old_.version + 1) {
      NewAndMetIff(ch, olds, news, j);
      assert Reached(ch, olds, news)[j] == news[j];
    }
  }

  /** Of what was there, networks stay as they are, and a workload nobody asks for any more goes. */
  lemma UnaskedGoes(ch: Challenge, old_: DeploymentView, news: seq<Workload>, o: Workload)
    requires UniqueNames(old_.workloads) && o in old_.workloads
    ensures IsNetwork(o) ==> o in DiffWorkloads(ch, old_, news)
    ensures !IsNetwork(o) && !Named(news, o.name) ==> !Named(DiffWorkloads(ch, old_, news), o.name)
  {
    DiffMembers(ch, old_, news, o);
    DiffNamed(ch, old_, news, o.name);
    assert Named(old_.workloads, o.name);
    forall x | x in old_.workloads && x.name == o.name ensures x == o {
      var i :| 0 <= i < |old_.workloads| && old_.workloads[i] == x;
      var k :| 0 <= k < |old_.workloads| && old_.workloads[k] == o;
      SameName(old_.workloads, i, k);
    }
  }

  /** Some workload there is asked to be different. */
  ghost predicate ChangeAsked(olds: seq<Workload>, news: seq<Workload>) {
    exists o, n :: o in olds && n in news && n.name == o.name && !IsNetwork(o) && !IsNetwork(n) && AsksForChange(o, n)
  }

  lemma ChangeFoundIff(ch: Challenge, olds: seq<Workload>, news: seq<Workload>)
    requires TellsApart(ch) && UniqueNames(news)
    ensures (exists o :: o in olds && Changes(ch, news, o)) <==> ChangeAsked(olds, news)
  {
    if o :| o in olds && Changes(ch, news, o) {
      var n := news[MatchIndex(news, o.name)];
      assert n in news && n.name == o.name;
      ChangesIff(ch, news, o, n);
    }
    if o, n :| o in olds && n in news && n.name == o.name && !IsNetwork(o) && !IsNetwork(n) && AsksForChange(o, n) {
      ChangesIff(ch, news, o, n);
    }
  }

  /** Null means that nothing goes, nothing there is asked to be different, and no walk comes across anything new. */
  lemma FindsUpdateIff(ch: Challenge, old_: DeploymentView, news: seq<Workload>)
    requires TellsApart(ch) && UniqueNames(news)
    ensures FindsUpdate(ch, old_, news) <==>
            || (exists o :: o in old_.workloads && !IsNetwork(o) && !Named(news, o.name))
            || ChangeAsked(old_.workloads, news)
            || (exists j :: 0 <= j < |news| && NewAndMet(old_.workloads, news, j))
  {
    ChangeFoundIff(ch, old_.workloads, news);
    AdditionFoundIff(ch, old_, news);
  }

  lemma ReachedIsMet(ch: Challenge, olds: seq<Workload>, news: seq<Workload>)
    requires TellsApart(ch) && UniqueNames(news)
    requires exists n :: n in Reached(ch, olds, news) && !Named(olds, n.name)
    ensures exists j :: 0 <= j < |news| && NewAndMet(olds, news, j)
  {
    LimitIsMaximum(ch, news, olds, 0);
    var n :| n in Reached(ch, olds, news) && !Named(olds, n.name);
    var j :| 0 <= j < Limit(ch, news, olds) && news[j] == n;
    NewAndMetIff(ch, olds, news, j);
  }

  lemma AdditionFoundIff(ch: Challenge, old_: DeploymentView, news: seq<Workload>)
    requires TellsApart(ch) && UniqueNames(news)
    ensures Added(old_.workloads, Reached(ch, old_.workloads, news), old_.version) != [] <==>
            exists j :: 0 <= j < |news| && NewAndMet(old_.workloads, news, j)
  {
    var olds, reached := old_.workloads, Reached(ch, old_.workloads, news);
    var added := Added(olds, reached, old_.version);
    LimitIsMaximum(ch, news, olds, 0);
    if added != [] {
      InAdded(olds, reached, old_.version, added[0]);
      ReachedIsMet(ch, olds, news);
    }
    if j :| 0 <= j < |news| && NewAndMet(olds, news, j) {
      NewAndMetIff(ch, olds, news, j);
      assert reached[j] == news[j];
      InAdded(olds, reached, old_.version, news[j].(version := old_.version + 1));
    }
  }

  // ----- Versions

  /** Just the changed and added workloads carry the next version; everything else keeps its own. */
  lemma DiffVersions(ch: Challenge, old_: DeploymentView, news: seq<Workload>)
    requires WithinVersion(old_) && UniqueNames(old_.workloads) && UniqueNames(news)
    ensures forall w :: w in DiffWorkloads(ch, old_, news) ==>
              && w.version <= old_.version + 1
              && (w.version == old_.version + 1 <==>
                  (exists o :: o in old_.workloads && o.name == w.name && Changes(ch, news, o))
                  || !Named(old_.workloads, w.name))
              && (w.version != old_.version + 1 ==> w in old_.workloads)
  {
    forall w | w in DiffWorkloads(ch, old_, news)
      ensures && w.version <= old_.version + 1
              && (w.version == old_.version + 1 <==>
                  (exists o :: o in old_.workloads && o.name == w.name && Changes(ch, news, o))
                  || !Named(old_.workloads, w.name))
              && (w.version != old_.version + 1 ==> w in old_.workloads)
    {
      DiffMembers(ch, old_, news, w);
      if w in old_.workloads && !Changes(ch, news, w) {
        forall o | o in old_.workloads && o.name == w.name ensures o == w {
          var i :| 0 <= i < |old_.workloads| && old_.workloads[i] == o;
          var k :| 0 <= k < |old_.workloads| && old_.workloads[k] == w;
          SameName(old_.workloads, i, k);
        }
      }
    }
  }

  // ----- Adding to a deployment

  /** Against the deployment itself plus `extra` every old workload stays as it is. */
  lemma NoneChanges(ch: Challenge, olds: seq<Workload>, extra: seq<Workload>, o: Workload)
    requires UniqueNames(olds + extra) && o in olds
    ensures Named(olds + extra, o.name) && Stays(olds + extra, o) && !Changes(ch, olds + extra, o)
  {
    var news := olds + extra;
    assert o in news;
    var k :| 0 <= k < |olds| && olds[k] == o;
    var j := MatchIndex(news, o.name);
    if j < |news| {
      assert news[k] == o;
      SameName(news, j, k);
      assert Pinned(o, o) == o;
    }
  }

  lemma AddedToWorkload(ch: Challenge, old_: DeploymentView, extra: seq<Workload>, o: Workload)
    requires UniqueNames(old_.workloads + extra) && o in old_.workloads && !IsNetwork(o)
    ensures Added(old_.workloads, Reached(ch, old_.workloads, old_.workloads + extra), old_.version)
            == Stamped(extra, old_.version)
  {
    var olds := old_.workloads;
    NoneChanges(ch, olds, extra, o);
    UnchangedReachesAll(ch, olds, olds + extra, o);
    AddedExtra(olds, olds, extra, old_.version);
  }

  lemma NothingAdded(ch: Challenge, old_: DeploymentView, news: seq<Workload>)
    requires forall o :: o in old_.workloads ==> IsNetwork(o)
    ensures Added(old_.workloads, Reached(ch, old_.workloads, news), old_.version) == []
  {
    NetworksReachNothing(ch, news, old_.workloads);
    assert news[..0] == [];
  }

  /** Requesting the deployment itself plus `extra` keeps everything as it is and adds `extra`, exactly if the
      deployment holds something besides networks (or nothing is added). */
  lemma AddIff(ch: Challenge, old_: DeploymentView, extra: seq<Workload>)
    requires UniqueNames(old_.workloads + extra)
    ensures DiffWorkloads(ch, old_, old_.workloads + extra) == old_.workloads + Stamped(extra, old_.version)
            <==> extra == [] || exists o :: o in old_.workloads && !IsNetwork(o)
  {
    var olds, news := old_.workloads, old_.workloads + extra;
    forall o | o in olds ensures Stays(news, o) && !Changes(ch, news, o) {
      NoneChanges(ch, olds, extra, o);
    }
    KeptAll(ch, news, old_.version, olds);
    DiffIsKeptAndAdded(ch, old_, news);
    if o :| o in olds && !IsNetwork(o) {
      AddedToWorkload(ch, old_, extra, o);
    } else {
      NothingAdded(ch, old_, news);
      assert |olds + Stamped(extra, old_.version)| == |olds| + |extra|;
    }
  }

  lemma DiffIsKeptAndAdded(ch: Challenge, old_: DeploymentView, news: seq<Workload>)
    ensures DiffWorkloads(ch, old_, news)
            == Kept(ch, news, old_.version, old_.workloads)
               + Added(old_.workloads, Reached(ch, old_.workloads, news), old_.version)
  {
  }

  function Stamped(ws: seq<Workload>, version: nat): seq<Workload> {
    seq(|ws|, i requires 0 <= i < |ws| => ws[i].(version := version + 1))
  }

  lemma {:induction false} KeptAll(ch: Challenge, news: seq<Workload>, version: nat, olds: seq<Workload>)
    requires forall o :: o in olds ==> Stays(news, o) && !Changes(ch, news, o)
    ensures Kept(ch, news, version, olds) == olds
  {
    if olds != [] {
      assert olds == Front(olds) + [Last(olds)] && Last(olds) in olds;
      KeptAll(ch, news, version, Front(olds));
    }
  }

  lemma {:induction false} AddedExtra(olds: seq<Workload>, head: seq<Workload>, extra: seq<Workload>, version: nat)
    requires UniqueNames(olds + extra) && head == olds
    ensures Added(olds, head + extra, version) == Stamped(extra, version)
    decreases |extra|
  {
    if extra == [] {
      assert head + extra == head;
      AddedNothing(olds, head, version);
    } else {
      var f, l := Front(extra), Last(extra);
      assert Front(head + extra) == head + f && Last(head + extra) == l;
      assert UniqueNames(olds + f) by {
        assert forall i :: 0 <= i < |olds + f| ==> (olds + f)[i] == (olds + extra)[i];
      }
      AddedExtra(olds, head, f, version);
      assert !Named(olds, l.name) by {
        var all := olds + extra;
        var n := |olds| + |f|;
        NotAmongFirst(all, n);
        assert all[n] == l && all[..n] == olds + f;
        assert forall o :: o in olds ==> o in all[..n];
      }
    }
  }

  lemma {:induction false} AddedNothing(olds: seq<Workload>, news: seq<Workload>, version: nat)
    requires forall w :: w in news ==> Named(olds, w.name)
    ensures Added(olds, news, version) == []
  {
    if news != [] {
      assert news == Front(news) + [Last(news)] && Last(news) in news;
      AddedNothing(olds, Front(news), version);
    }
  }

  // ----- Asking again

  /** Requested and existing workloads of one name are of one type. */
  ghost predicate TypesAgree(olds: seq<Workload>, news: seq<Workload>) {
    forall o, w :: o in olds && w in news && o.name == w.name ==> o.wtype == w.wtype
  }

  /** Once a request was carried out in full, making it again finds nothing to update. */
  lemma UpdateIsIdempotent(ch: Challenge, old_: DeploymentView, news: seq<Workload>, version: nat)
    requires UniqueNames(old_.workloads) && UniqueNames(news) && TypesAgree(old_.workloads, news)
    requires Complete(ch, old_, news)
    ensures !FindsUpdate(ch, DeploymentView(version, old_.contractId, DiffWorkloads(ch, old_, news)), news)
  {
    var result := DiffWorkloads(ch, old_, news);
    forall w | w in result ensures Stays(news, w) && !Changes(ch, news, w) {
      NothingLeft(ch, old_, news, w);
    }
    forall w | w in news ensures Named(result, w.name) {
      assert Named(news, w.name);
    }
    var again := DeploymentView(version, old_.contractId, result);
    var reached := Reached(ch, result, news);
    assert forall w :: w in reached ==> w in news;
    AddedNothing(result, reached, version);
    FoundIsFindsUpdate(ch, again, news);
    NothingGone(news, result);
    assert forall k :: 0 <= k < |result| ==> result[k] in result;
  }

  lemma {:induction false} NothingGone(news: seq<Workload>, olds: seq<Workload>)
    requires forall o :: o in olds ==> Stays(news, o)
    ensures Gone(news, olds) == []
  {
    if olds != [] {
      assert olds == Front(olds) + [Last(olds)] && Last(olds) in olds;
      NothingGone(news, Front(olds));
    }
  }

  lemma NothingLeft(ch: Challenge, old_: DeploymentView, news: seq<Workload>, w: Workload)
    requires UniqueNames(old_.workloads) && UniqueNames(news) && TypesAgree(old_.workloads, news)
    requires w in DiffWorkloads(ch, old_, news)
    ensures Stays(news, w) && !Changes(ch, news, w)
  {
    DiffMembers(ch, old_, news, w);
    var olds := old_.workloads;
    if o :| o in olds && Changes(ch, news, o) && w == Reconciled(ch, news, old_.version, o) {
      MatchedIsNamed(news, o);
      var n := news[MatchIndex(news, o.name)];
      assert n in news && o.wtype == n.wtype;
      assert Pinned(w, n) == w;
    } else if n :| n in Reached(ch, olds, news) && !Named(olds, n.name) && w == n.(version := old_.version + 1) {
      assert n in news && Named(news, w.name);
      var j := MatchIndex(news, w.name);
      if j < |news| {
        var k :| 0 <= k < |news| && news[k] == n;
        SameName(news, j, k);
        assert Pinned(w, n) == w;
      }
    }
  }
}
