/** Merging several updates of one contract into one (`TwinDeploymentHandler._updateToLatest`). */
module VersionMerge {
  import opened Lists
  import opened Workloads

  // ----- The merge

  /** All workloads of all updates, in the order they are walked. */
  function Gather(ts: seq<TwinView>): seq<Workload> {
    if ts == [] then [] else Gather(Front(ts)) + Last(ts).deployment.workloads
  }

  function Occurrences(ws: seq<Workload>, name: string): seq<Workload> {
    if ws == [] then []
    else Occurrences(Front(ws), name) + if Last(ws).name == name then [Last(ws)] else []
  }

  /** Each name once, in the order of first mention. */
  function FirstNames(ws: seq<Workload>): seq<string> {
    if ws == [] then []
    else
      var before := FirstNames(Front(ws));
      if Last(ws).name in before then before else before + [Last(ws).name]
  }

  /** The first of the workloads with the highest version. */
  function Latest(occ: seq<Workload>): Workload
    requires occ != []
  {
    if |occ| == 1 then occ[0]
    else
      var w := Latest(Front(occ));
      if w.version < Last(occ).version then Last(occ) else w
  }

  predicate Dropped(ts: seq<TwinView>, occ: seq<Workload>)
    requires ts != [] && occ != []
  {
    |occ| < |ts| && occ[0].version <= ts[0].deployment.version
  }

  function Surviving(ts: seq<TwinView>, names: seq<string>): seq<Workload>
    requires ts != []
  {
    if names == [] then []
    else
      var before, occ := Surviving(ts, Front(names)), Occurrences(Gather(ts), Last(names));
      if occ == [] || Dropped(ts, occ) then before else before + [Latest(occ)]
  }

  function SumIps(ts: seq<TwinView>): nat {
    if ts == [] then 0 else SumIps(Front(ts)) + Last(ts).publicIps
  }

  function FirstNetwork(ts: seq<TwinView>): Option<string> {
    if ts == [] then None
    else
      var before := FirstNetwork(Front(ts));
      if before.None? then Last(ts).network else before
  }

  function Bumped(d: DeploymentView, workloads: seq<Workload>): DeploymentView {
    DeploymentView(d.version + 1, d.contractId, workloads)
  }

  function MergeAll(ts: seq<TwinView>): TwinView
    requires ts != []
  {
    var workloads := Surviving(ts, FirstNames(Gather(ts)));
    ts[0].(deployment := Bumped(ts[0].deployment, workloads), publicIps := SumIps(ts), network := FirstNetwork(ts))
  }

  function UpdateToLatest(ts: seq<TwinView>): TwinView
    requires ts != []
  {
    if |ts| == 1 then ts[0].(deployment := Bumped(ts[0].deployment, ts[0].deployment.workloads)) else MergeAll(ts)
  }

  /** What a merged update has besides its workloads: the first update's contract and node, one version up, the network
      of the first update that has any, and everybody's public addresses. */
  lemma MergedHead(ts: seq<TwinView>)
    requires ts != []
    ensures var u := UpdateToLatest(ts);
            && u.operation == ts[0].operation && u.nodeId == ts[0].nodeId
            && u.deployment.contractId == ts[0].deployment.contractId
            && u.deployment.version == ts[0].deployment.version + 1
            && (if forall t :: t in ts ==> t.network.None? then u.network.None?
                else exists k :: 0 <= k < |ts| && ts[k].network.Some? && u.network == ts[k].network
                                 && forall i :: 0 <= i < k ==> ts[i].network.None?)
  {
    FirstNetworkIs(ts);
    if |ts| == 1 {
      assert ts == [ts[0]];
    }
  }

  lemma {:induction false} FirstNetworkIs(ts: seq<TwinView>)
    ensures if forall t :: t in ts ==> t.network.None? then FirstNetwork(ts).None?
            else exists k :: 0 <= k < |ts| && ts[k].network.Some? && FirstNetwork(ts) == ts[k].network
                             && forall i :: 0 <= i < k ==> ts[i].network.None?
  {
    if ts != [] {
      var f, t := Front(ts), Last(ts);
      assert ts == f + [t];
      FirstNetworkIs(f);
      if forall x :: x in f ==> x.network.None? {
        assert forall i :: 0 <= i < |f| ==> f[i] in f && ts[i] == f[i];
        assert ts[|ts| - 1] == t;
      } else {
        var k :| 0 <= k < |f| && f[k].network.Some? && FirstNetwork(f) == f[k].network
                 && forall i :: 0 <= i < k ==> f[i].network.None?;
        assert ts[k] == f[k] && f[k] in ts && forall i :: 0 <= i < k ==> ts[i] == f[i];
      }
    }
  }

  /** One more update adds its public addresses. */
  lemma MergedIps(ts: seq<TwinView>, t: TwinView)
    ensures ts != [] ==> UpdateToLatest(ts + [t]).publicIps == UpdateToLatest(ts).publicIps + t.publicIps
    ensures UpdateToLatest([t]).publicIps == t.publicIps
  {
    assert Front(ts + [t]) == ts;
    if |ts| == 1 {
      var none: seq<TwinView> := [];
      assert Front(ts) == none && SumIps(ts) == ts[0].publicIps;
    }
  }

  // ----- Occurrences

  predicate Mentions(t: TwinView, name: string) {
    exists w :: w in t.deployment.workloads && w.name == name
  }

  predicate AllUnique(ts: seq<TwinView>) {
    forall t :: t in ts ==> UniqueNames(t.deployment.workloads)
  }

  lemma {:induction false} OccurrencesConcat(a: seq<Workload>, b: seq<Workload>, name: string)
    ensures Occurrences(a + b, name) == Occurrences(a, name) + Occurrences(b, name)
  {
    if b == [] {
      assert a + b == a;
    } else {
      assert Front(a + b) == a + Front(b);
      OccurrencesConcat(a, Front(b), name);
    }
  }

  lemma {:induction false} InOccurrences(ws: seq<Workload>, name: string, w: Workload)
    ensures w in Occurrences(ws, name) <==> w in ws && w.name == name
  {
    if ws != [] {
      assert ws == Front(ws) + [Last(ws)];
      InOccurrences(Front(ws), name, w);
    }
  }

  lemma OccursIff(ws: seq<Workload>, name: string)
    ensures Occurrences(ws, name) != [] <==> exists w :: w in ws && w.name == name
  {
    var occ := Occurrences(ws, name);
    if occ != [] {
      InOccurrences(ws, name, occ[0]);
      assert occ[0] in ws;
    }
    if w :| w in ws && w.name == name {
      InOccurrences(ws, name, w);
    }
  }

  lemma {:induction false} UniqueOccurrence(ws: seq<Workload>, name: string)
    requires UniqueNames(ws)
    ensures |Occurrences(ws, name)| == if exists w :: w in ws && w.name == name then 1 else 0
  {
    if ws != [] {
      assert ws == Front(ws) + [Last(ws)];
      UniqueOccurrence(Front(ws), name);
      if Last(ws).name == name {
        assert forall w :: w in Front(ws) ==> w.name != name;
        assert Last(ws) in ws;
      }
    }
  }

  lemma {:induction false} InGather(ts: seq<TwinView>, w: Workload)
    ensures w in Gather(ts) <==> exists t :: t in ts && w in t.deployment.workloads
  {
    if ts != [] {
      assert ts == Front(ts) + [Last(ts)];
      InGather(Front(ts), w);
    }
  }

  /** With names unique inside each update, a name occurs as often as updates mention it. */
  lemma {:induction false} OccurrenceCount(ts: seq<TwinView>, name: string)
    requires AllUnique(ts)
    ensures |Occurrences(Gather(ts), name)| <= |ts|
    ensures |Occurrences(Gather(ts), name)| == |ts| <==> forall t :: t in ts ==> Mentions(t, name)
  {
    if ts != [] {
      assert ts == Front(ts) + [Last(ts)];
      assert Last(ts) in ts;
      OccurrenceCount(Front(ts), name);
      OccurrencesConcat(Gather(Front(ts)), Last(ts).deployment.workloads, name);
      UniqueOccurrence(Last(ts).deployment.workloads, name);
    }
  }

  // ----- What survives

  /** Nothing before `k` has as high a version, nothing after it a higher one. */
  predicate IsFirstLatest(occ: seq<Workload>, k: nat) {
    && k < |occ|
    && (forall i :: 0 <= i < k ==> occ[i].version < occ[k].version)
    && forall i :: k < i < |occ| ==> occ[i].version <= occ[k].version
  }

  lemma FirstLatestNext(f: seq<Workload>, w: Workload, k: nat)
    requires IsFirstLatest(f, k)
    ensures IsFirstLatest(f + [w], if f[k].version < w.version then |f| else k)
  {
  }

  /** Of several with the highest version the first is kept. */
  lemma {:induction false} LatestIsFirst(occ: seq<Workload>) returns (k: nat)
    requires occ != []
    ensures IsFirstLatest(occ, k) && occ[k] == Latest(occ)
  {
    if |occ| == 1 {
      k := 0;
    } else {
      var f, w := Front(occ), Last(occ);
      assert occ == f + [w];
      k := LatestIsFirst(f);
      FirstLatestNext(f, w, k);
      k := if f[k].version < w.version then |f| else k;
    }
  }

  lemma {:induction false} LatestIsMaximum(occ: seq<Workload>)
    requires occ != []
    ensures Latest(occ) in occ
    ensures forall w :: w in occ ==> w.version <= Latest(occ).version
  {
    if |occ| > 1 {
      assert occ == Front(occ) + [Last(occ)];
      LatestIsMaximum(Front(occ));
    }
  }

  lemma {:induction false} FirstNamesAre(ws: seq<Workload>)
    ensures Distinct(FirstNames(ws))
    ensures forall name :: name in FirstNames(ws) <==> exists w :: w in ws && w.name == name
  {
    if ws != [] {
      assert ws == Front(ws) + [Last(ws)];
      FirstNamesAre(Front(ws));
    }
  }

  predicate Survives(ts: seq<TwinView>, name: string)
    requires ts != []
  {
    var occ := Occurrences(Gather(ts), name);
    occ != [] && !Dropped(ts, occ)
  }

  lemma {:induction false} SurvivingAre(ts: seq<TwinView>, names: seq<string>)
    requires ts != [] && Distinct(names)
    ensures UniqueNames(Surviving(ts, names))
    ensures forall w :: w in Surviving(ts, names) <==>
              w.name in names && Survives(ts, w.name) && w == Latest(Occurrences(Gather(ts), w.name))
  {
    if names != [] {
      DistinctFront(names);
      assert names == Front(names) + [Last(names)];
      SurvivingAre(ts, Front(names));
      var occ := Occurrences(Gather(ts), Last(names));
      if occ != [] {
        LatestIsMaximum(occ);
        InOccurrences(Gather(ts), Last(names), Latest(occ));
      }
    }
  }

  /** Each surviving name is kept once, at the highest version among its occurrences; a name is dropped exactly
      when some update no longer mentions it and its first occurrence is not newer than the first update's base. */
  lemma MergeKeepsLatest(ts: seq<TwinView>, name: string)
    requires ts != [] && AllUnique(ts)
    ensures var kept := MergeAll(ts).deployment.workloads;
            var occ := Occurrences(Gather(ts), name);
            && UniqueNames(kept)
            && ((exists w :: w in kept && w.name == name) <==>
                || (forall t :: t in ts ==> Mentions(t, name))
                || (occ != [] && occ[0].version > ts[0].deployment.version))
            && (forall w :: w in kept && w.name == name ==> w in occ && forall x :: x in occ ==> x.version <= w.version)
  {
    FirstNamesAre(Gather(ts));
    SurvivingAre(ts, FirstNames(Gather(ts)));
    OccurrenceCount(ts, name);
    var occ, kept := Occurrences(Gather(ts), name), MergeAll(ts).deployment.workloads;
    OccursIff(Gather(ts), name);
    if occ != [] {
      LatestIsMaximum(occ);
      InOccurrences(Gather(ts), name, Latest(occ));
      assert Survives(ts, name) ==> Latest(occ) in kept;
    }
  }

  // ----- The shortcut for a single update

  lemma {:induction false} FirstNamesOfUnique(ws: seq<Workload>)
    ensures |FirstNames(ws)| <= |ws|
    ensures |FirstNames(ws)| == |ws| <==> UniqueNames(ws)
    ensures UniqueNames(ws) ==> FirstNames(ws) == Names(ws)
  {
    if ws != [] {
      FirstNamesOfUnique(Front(ws));
      FirstNamesAre(Front(ws));
      assert ws == Front(ws) + [Last(ws)];
      assert UniqueNames(ws) <==> UniqueNames(Front(ws)) && Last(ws).name !in FirstNames(Front(ws));
      assert Names(ws) == Names(Front(ws)) + [Last(ws).name];
    }
  }

  /** Against a single update no name can be missing, so every name survives in its place. */
  lemma {:induction false} SurvivingOfOne(ts: seq<TwinView>, names: seq<string>)
    requires |ts| == 1
    requires forall name :: name in names ==> Occurrences(Gather(ts), name) != []
    ensures |Surviving(ts, names)| == |names|
    ensures forall i :: 0 <= i < |names| ==> Surviving(ts, names)[i] == Latest(Occurrences(Gather(ts), names[i]))
  {
    if names != [] {
      assert names == Front(names) + [Last(names)];
      SurvivingOfOne(ts, Front(names));
      assert Last(names) in names;
    }
  }

  lemma OneUpdate(t: TwinView)
    ensures Gather([t]) == t.deployment.workloads
    ensures SumIps([t]) == t.publicIps && FirstNetwork([t]) == t.network
  {
    var none: seq<TwinView> := [];
    assert Front([t]) == none && Gather(none) == [] && SumIps(none) == 0 && FirstNetwork(none) == None;
  }

  lemma UniqueSurvive(ts: seq<TwinView>, i: nat)
    requires |ts| == 1 && UniqueNames(Gather(ts)) && i < |Gather(ts)|
    ensures var occ := Occurrences(Gather(ts), Gather(ts)[i].name);
            occ != [] && Latest(occ) == Gather(ts)[i]
  {
    var ws := Gather(ts);
    UniqueOccurrence(ws, ws[i].name);
    InOccurrences(ws, ws[i].name, ws[i]);
    var occ := Occurrences(ws, ws[i].name);
    assert ws[i] in occ && |occ| == 1;
  }

  lemma SurvivorsOfOne(ts: seq<TwinView>)
    requires |ts| == 1
    ensures Surviving(ts, FirstNames(Gather(ts))) == Gather(ts) <==> UniqueNames(Gather(ts))
  {
    var ws := Gather(ts);
    var names := FirstNames(ws);
    FirstNamesOfUnique(ws);
    FirstNamesAre(ws);
    forall name | name in names ensures Occurrences(ws, name) != [] {
      OccursIff(ws, name);
    }
    SurvivingOfOne(ts, names);
    if UniqueNames(ws) {
      forall i | 0 <= i < |ws| ensures Surviving(ts, names)[i] == ws[i] {
        UniqueSurvive(ts, i);
        assert names[i] == ws[i].name;
      }
    }
  }

  /** The shortcut taken for one update agrees with the general merge exactly if the names in it are unique. */
  lemma ShortcutIff(t: TwinView)
    ensures UpdateToLatest([t]) == MergeAll([t]) <==> UniqueNames(t.deployment.workloads)
  {
    OneUpdate(t);
    SurvivorsOfOne([t]);
  }

  // ----- Order of the updates

  /** The version a name comes out with, if it comes out at all. */
  function FinalVersion(ts: seq<TwinView>, name: string): Option<nat>
    requires ts != []
  {
    if Survives(ts, name) then Some(Latest(Occurrences(Gather(ts), name)).version) else None
  }

  /** No order of the same updates gives another result. */
  ghost predicate OrderFree(ts: seq<TwinView>)
    requires ts != []
  {
    forall us, name | us != [] && multiset(us) == multiset(ts) :: FinalVersion(us, name) == FinalVersion(ts, name)
  }

  /** Wherever an update no longer mentions a name, those that still do agree on whether they changed it. */
  ghost predicate Agreed(ts: seq<TwinView>, base: nat) {
    forall name, x, y | x in Occurrences(Gather(ts), name) && y in Occurrences(Gather(ts), name)
                        && (exists t :: t in ts && !Mentions(t, name)) :: x.version <= base ==> y.version <= base
  }

  lemma {:induction false} GatherConcat(a: seq<TwinView>, b: seq<TwinView>)
    ensures Gather(a + b) == Gather(a) + Gather(b)
  {
    if b == [] {
      assert a + b == a;
    } else {
      assert Front(a + b) == a + Front(b) && Last(a + b) == Last(b);
      GatherConcat(a, Front(b));
      Associates(Gather(a), Gather(Front(b)), Last(b).deployment.workloads);
    }
  }

  lemma Associates(a: seq<Workload>, b: seq<Workload>, c: seq<Workload>)
    ensures (a + b) + c == a + (b + c)
  {
  }

  /** The occurrences contributed by one update in the middle. */
  lemma OccurrencesAround(a: seq<TwinView>, t: TwinView, b: seq<TwinView>, name: string)
    ensures multiset(Occurrences(Gather(a + [t] + b), name))
            == multiset(Occurrences(Gather(a + b), name)) + multiset(Occurrences(Gather([t]), name))
  {
    GatherConcat(a + [t], b);
    GatherConcat(a, [t]);
    GatherConcat(a, b);
    OccurrencesConcat(Gather(a) + Gather([t]), Gather(b), name);
    OccurrencesConcat(Gather(a), Gather([t]), name);
    OccurrencesConcat(Gather(a), Gather(b), name);
  }

  lemma CutAt(us: seq<TwinView>, k: nat)
    requires k < |us|
    ensures us == us[..k] + [us[k]] + us[k + 1..]
    ensures multiset(us) == multiset(us[..k] + us[k + 1..]) + multiset{us[k]}
  {
    var a, b := us[..k], us[k + 1..];
    assert us == a + [us[k]] + b;
    calc {
      multiset(us);
      multiset(a + [us[k]] + b);
      multiset(a) + multiset{us[k]} + multiset(b);
      multiset(a + b) + multiset{us[k]};
    }
  }

  lemma TakeOut(ts: seq<TwinView>, us: seq<TwinView>, k: nat)
    requires ts != [] && multiset(ts) == multiset(us) && k < |us| && us[k] == Last(ts)
    ensures multiset(Front(ts)) == multiset(us[..k] + us[k + 1..])
  {
    CutAt(us, k);
    LastOut(ts);
    assert multiset(Front(ts)) == multiset(ts) - multiset{Last(ts)};
  }

  lemma LastOut(ts: seq<TwinView>)
    requires ts != []
    ensures multiset(ts) == multiset(Front(ts)) + multiset{Last(ts)}
  {
    assert ts == Front(ts) + [Last(ts)];
  }

  lemma OccurrencesInLast(ts: seq<TwinView>, name: string)
    requires ts != []
    ensures Occurrences(Gather(ts), name)
            == Occurrences(Gather(Front(ts)), name) + Occurrences(Gather([Last(ts)]), name)
  {
    OneUpdate(Last(ts));
    OccurrencesConcat(Gather(Front(ts)), Last(ts).deployment.workloads, name);
  }

  lemma {:induction false} GatherPermuted(ts: seq<TwinView>, us: seq<TwinView>, name: string)
    requires multiset(ts) == multiset(us)
    ensures multiset(Occurrences(Gather(ts), name)) == multiset(Occurrences(Gather(us), name))
    decreases |ts|
  {
    if ts == [] {
      assert |multiset(us)| == 0;
    } else {
      assert Last(ts) in multiset(us);
      var k :| 0 <= k < |us| && us[k] == Last(ts);
      TakeOut(ts, us, k);
      GatherPermuted(Front(ts), us[..k] + us[k + 1..], name);
      OccurrencesInLast(ts, name);
      CutAt(us, k);
      OccurrencesAround(us[..k], us[k], us[k + 1..], name);
    }
  }

  ghost predicate OneBase(ts: seq<TwinView>, base: nat) {
    forall t :: t in ts ==> t.deployment.version == base
  }

  lemma PermutedOccurrences(ts: seq<TwinView>, us: seq<TwinView>, name: string)
    requires multiset(ts) == multiset(us)
    ensures |us| == |ts| && |Occurrences(Gather(us), name)| == |Occurrences(Gather(ts), name)|
    ensures forall w :: w in Occurrences(Gather(us), name) <==> w in Occurrences(Gather(ts), name)
    ensures forall t :: t in us <==> t in ts
  {
    GatherPermuted(ts, us, name);
    SameMultiset(ts, us);
    SameMultiset(Occurrences(Gather(ts), name), Occurrences(Gather(us), name));
  }

  lemma SameMultiset<T>(a: seq<T>, b: seq<T>)
    requires multiset(a) == multiset(b)
    ensures |a| == |b|
    ensures forall i :: 0 <= i < |a| ==> a[i] in b
    ensures forall i :: 0 <= i < |b| ==> b[i] in a
  {
    assert |a| == |multiset(a)| == |multiset(b)| == |b|;
    assert forall i :: 0 <= i < |a| ==> a[i] in multiset(b);
    assert forall i :: 0 <= i < |b| ==> b[i] in multiset(a);
  }

  lemma AgreedIsOrderFree(ts: seq<TwinView>, us: seq<TwinView>, base: nat, name: string)
    requires ts != [] && us != [] && multiset(ts) == multiset(us)
    requires AllUnique(ts) && OneBase(ts, base) && Agreed(ts, base)
    ensures FinalVersion(us, name) == FinalVersion(ts, name)
  {
    var occ, occ' := Occurrences(Gather(ts), name), Occurrences(Gather(us), name);
    PermutedOccurrences(ts, us, name);
    assert us[0] in us && us[0] in ts && ts[0] in ts;
    if occ != [] {
      LatestIsMaximum(occ);
      LatestIsMaximum(occ');
      assert Latest(occ).version == Latest(occ').version;
      if |occ| < |ts| {
        OccurrenceCount(ts, name);
        assert occ[0] in occ && occ'[0] in occ' && occ'[0] in occ;
        assert occ[0].version <= base <==> occ'[0].version <= base;
      }
    }
  }

  lemma MovedToFront(ts: seq<TwinView>, i: nat) returns (us: seq<TwinView>)
    requires i < |ts|
    ensures us != [] && us[0] == ts[i] && multiset(us) == multiset(ts)
            && Gather(us) == Gather([ts[i]]) + Gather(us[1..])
  {
    us := [ts[i]] + (ts[..i] + ts[i + 1..]);
    assert ts == ts[..i] + [ts[i]] + ts[i + 1..];
    GatherConcat([ts[i]], us[1..]);
    assert us == [ts[i]] + us[1..];
  }

  /** Put in front, an update's own mention decides. */
  lemma FrontDecides(ts: seq<TwinView>, base: nat, i: nat, w: Workload) returns (us: seq<TwinView>)
    requires AllUnique(ts) && OneBase(ts, base) && i < |ts| && w in ts[i].deployment.workloads
    requires exists t :: t in ts && !Mentions(t, w.name)
    ensures us != [] && multiset(us) == multiset(ts)
    ensures FinalVersion(us, w.name).Some? <==> w.version > base
  {
    us := MovedToFront(ts, i);
    OneUpdate(ts[i]);
    OwnComesFirst(ts[i].deployment.workloads, Gather(us[1..]), w);
    var occ := Occurrences(Gather(us), w.name);
    assert occ != [] && occ[0] == w;
    OccurrenceCount(ts, w.name);
    PermutedOccurrences(ts, us, w.name);
    assert us[0] == ts[i] && ts[i] in ts;
    DecidedByFirst(us, w.name);
  }

  lemma DecidedByFirst(us: seq<TwinView>, name: string)
    requires us != [] && 0 < |Occurrences(Gather(us), name)| < |us|
    ensures FinalVersion(us, name).Some? <==> Occurrences(Gather(us), name)[0].version > us[0].deployment.version
  {
  }

  lemma OwnComesFirst(own: seq<Workload>, rest: seq<Workload>, w: Workload)
    requires UniqueNames(own) && w in own
    ensures Occurrences(own + rest, w.name) != [] && Occurrences(own + rest, w.name)[0] == w
  {
    OccurrencesConcat(own, rest, w.name);
    UniqueOccurrence(own, w.name);
    InOccurrences(own, w.name, w);
    assert Occurrences(own, w.name)[0] == w;
  }

  lemma OrderFreeIsAgreed(ts: seq<TwinView>, base: nat, x: Workload, y: Workload)
    requires ts != [] && AllUnique(ts) && OneBase(ts, base) && OrderFree(ts)
    requires x in Gather(ts) && y in Gather(ts) && x.name == y.name
    requires exists t :: t in ts && !Mentions(t, x.name)
    ensures x.version <= base ==> y.version <= base
  {
    InGather(ts, x);
    InGather(ts, y);
    var i :| 0 <= i < |ts| && x in ts[i].deployment.workloads;
    var j :| 0 <= j < |ts| && y in ts[j].deployment.workloads;
    var us := FrontDecides(ts, base, i, x);
    var vs := FrontDecides(ts, base, j, y);
    assert FinalVersion(us, x.name) == FinalVersion(ts, x.name) == FinalVersion(vs, x.name);
  }

  /** The order of the updates of one base is irrelevant exactly if, for every name some update removes, the
      others either all changed it or all left it alone. */
  lemma OrderFreeIff(ts: seq<TwinView>, base: nat)
    requires ts != [] && AllUnique(ts) && OneBase(ts, base)
    ensures OrderFree(ts) <==> Agreed(ts, base)
  {
    if Agreed(ts, base) {
      forall us, name | us != [] && multiset(us) == multiset(ts)
        ensures FinalVersion(us, name) == FinalVersion(ts, name)
      {
        AgreedIsOrderFree(ts, us, base, name);
      }
    }
    if OrderFree(ts) {
      forall name, x, y | x in Occurrences(Gather(ts), name) && y in Occurrences(Gather(ts), name)
                          && (exists t :: t in ts && !Mentions(t, name))
        ensures x.version <= base ==> y.version <= base
      {
        InOccurrences(Gather(ts), name, x);
        InOccurrences(Gather(ts), name, y);
        OrderFreeIsAgreed(ts, base, x, y);
      }
    }
  }

  /** Two updates of one base never disagree. */
  lemma TwoUpdatesOrderFree(a: TwinView, b: TwinView)
    requires AllUnique([a, b]) && a.deployment.version == b.deployment.version
    ensures OrderFree([a, b])
    ensures forall name :: FinalVersion([b, a], name) == FinalVersion([a, b], name)
  {
    var ts, base := [a, b], a.deployment.version;
    forall name, x, y | x in Occurrences(Gather(ts), name) && y in Occurrences(Gather(ts), name)
                        && (exists t :: t in ts && !Mentions(t, name))
      ensures x.version <= base ==> y.version <= base
    {
      OccurrenceCount(ts, name);
      var occ := Occurrences(Gather(ts), name);
      assert |occ| == 1;
      assert x == occ[0] && y == occ[0];
    }
    OrderFreeIff(ts, base);
    assert multiset([b, a]) == multiset(ts);
  }

  /** Three can: one changes the workload, one keeps it, one removes it. */
  lemma ThreeUpdatesDependOnOrder(d: Data)
    ensures var changed, kept := Workload("disk", Zmount, 1, "", "", d), Workload("disk", Zmount, 0, "", "", d);
            var a := TwinView(DeploymentView(0, 7, [changed]), Update, 0, 1, None);
            var b := TwinView(DeploymentView(0, 7, [kept]), Update, 0, 1, None);
            var c := TwinView(DeploymentView(0, 7, []), Update, 0, 1, None);
            FinalVersion([a, b, c], "disk") == Some(1) && FinalVersion([b, a, c], "disk") == None
  {
    var changed, kept := Workload("disk", Zmount, 1, "", "", d), Workload("disk", Zmount, 0, "", "", d);
    var a := TwinView(DeploymentView(0, 7, [changed]), Update, 0, 1, None);
    var b := TwinView(DeploymentView(0, 7, [kept]), Update, 0, 1, None);
    var c := TwinView(DeploymentView(0, 7, []), Update, 0, 1, None);
    GatherOfThree(a, b, c);
    GatherOfThree(b, a, c);
    assert Gather([a, b, c]) == [changed, kept];
    assert Gather([b, a, c]) == [kept, changed];
    OccurrencesOfTwo(changed, kept, "disk");
    OccurrencesOfTwo(kept, changed, "disk");
    assert Survives([a, b, c], "disk") && !Survives([b, a, c], "disk");
    assert Front([changed, kept]) == [changed];
    assert Latest([changed]) == changed;
    assert Latest([changed, kept]) == changed;
  }

  lemma GatherOfThree(a: TwinView, b: TwinView, c: TwinView)
    ensures Gather([a, b, c]) == a.deployment.workloads + b.deployment.workloads + c.deployment.workloads
  {
    assert Front([a, b, c]) == [a, b] && Front([a, b]) == [a] && Front([a]) == [] && Gather([]) == [];
    assert Gather([a]) == a.deployment.workloads;
  }

  lemma OccurrencesOfTwo(x: Workload, y: Workload, name: string)
    requires x.name == name && y.name == name
    ensures Occurrences([x, y], name) == [x, y]
  {
    assert Front([x, y]) == [x] && Front([x]) == [] && Occurrences([], name) == [];
    assert Occurrences([x], name) == [x];
  }

  // ----- Versions

  /** No workload is ahead of its deployment. */
  predicate WithinVersion(d: DeploymentView) {
    forall w :: w in d.workloads ==> w.version <= d.version
  }

  /** An update request may be one version ahead of its base. */
  predicate RequestOf(t: TwinView, base: nat) {
    t.deployment.version == base && forall w :: w in t.deployment.workloads ==> w.version <= base + 1
  }

  /** However many updates are merged, the version rises by one and no workload gets ahead of it; a workload
      is selected as just changed exactly if some update stamped it so. */
  lemma MergeKeepsVersions(ts: seq<TwinView>, base: nat)
    requires ts != [] && forall t :: t in ts ==> RequestOf(t, base)
    ensures var d := UpdateToLatest(ts).deployment;
            && d.version == base + 1 && WithinVersion(d) && d.contractId == ts[0].deployment.contractId
            && forall w :: w in d.workloads ==> exists t :: t in ts && w in t.deployment.workloads
  {
    assert ts[0] in ts;
    if |ts| > 1 {
      FirstNamesAre(Gather(ts));
      SurvivingAre(ts, FirstNames(Gather(ts)));
      var d := MergeAll(ts).deployment;
      forall w | w in d.workloads ensures w.version <= base + 1 && exists t :: t in ts && w in t.deployment.workloads {
        var occ := Occurrences(Gather(ts), w.name);
        LatestIsMaximum(occ);
        InOccurrences(Gather(ts), w.name, w);
        InGather(ts, w);
      }
    }
  }
}
