/** Machines requested on a node already in the network draw new addresses; reconciling gives back those that
    turn out not to be needed (`VMHL.create` followed by `UpdateDeployment`). */
module Pinning {
  import opened Lists
  import opened Overlay
  import opened Allocation
  import opened Workloads
  import opened Diff
  import opened DiffLaws
  import opened Machines

  predicate IsMachine(w: Workload) {
    w.wtype == Zmachine && w.data.MachineData?
  }

  /** The addresses drawn for the requested machines. */
  function Drawn(news: seq<Workload>): seq<Ip> {
    if news == [] then []
    else Drawn(Front(news)) + if IsMachine(Last(news)) then [Last(news).data.ip] else []
  }

  /** An old workload has an address for the requested one of its name. */
  predicate Addressing(o: Workload, w: Workload) {
    !IsNetwork(o) && o.name == w.name && o.data.MachineData?
  }

  predicate HasAddress(olds: seq<Workload>, w: Workload) {
    exists o :: o in olds && Addressing(o, w)
  }

  /** What one more requested workload contributes. */
  function NeededFor(olds: seq<Workload>, w: Workload): seq<Ip> {
    if IsMachine(w) && !HasAddress(olds, w) then [w.data.ip] else []
  }

  /** The drawn addresses of the machines that had none. */
  function Needed(olds: seq<Workload>, news: seq<Workload>): seq<Ip> {
    if news == [] then []
    else Needed(olds, Front(news)) + NeededFor(olds, Last(news))
  }

  // ----- Giving back

  lemma {:induction false} WithoutIpConcat(a: seq<Ip>, b: seq<Ip>, ip: Ip)
    ensures WithoutIp(a + b, ip) == WithoutIp(a, ip) + WithoutIp(b, ip)
  {
    if b == [] {
      assert a + b == a;
    } else {
      assert Front(a + b) == a + Front(b) && Last(a + b) == Last(b);
      WithoutIpConcat(a, Front(b), ip);
    }
  }

  lemma {:induction false} NeededAreDrawn(olds: seq<Workload>, news: seq<Workload>)
    ensures forall ip :: ip in Needed(olds, news) <==>
              exists w :: w in news && IsMachine(w) && !HasAddress(olds, w) && w.data.ip == ip
    ensures forall ip :: ip in Drawn(news) <==> exists w :: w in news && IsMachine(w) && w.data.ip == ip
  {
    if news != [] {
      NeededAreDrawn(olds, Front(news));
      assert news == Front(news) + [Last(news)];
    }
  }

  lemma NoneAddressed(news: seq<Workload>)
    ensures Needed([], news) == Drawn(news)
  {
    if news != [] {
      NoneAddressed(Front(news));
    }
  }

  lemma HasAddressStep(part: seq<Workload>, o: Workload, w: Workload)
    ensures HasAddress(part + [o], w) <==> HasAddress(part, w) || Addressing(o, w)
  {
    assert o in part + [o];
    if x :| x in part && Addressing(x, w) {
      assert x in part + [o];
    }
  }

  /** An old workload that gives nothing back leaves what is needed alone. */
  lemma {:induction false} NeededSame(part: seq<Workload>, o: Workload, news: seq<Workload>)
    requires forall w :: w in news && IsMachine(w) ==> !Addressing(o, w)
    ensures Needed(part + [o], news) == Needed(part, news)
  {
    if news != [] {
      assert news == Front(news) + [Last(news)] && Last(news) in news;
      NeededSame(part, o, Front(news));
      HasAddressStep(part, o, Last(news));
    }
  }

  lemma NeededLessByOther(part: seq<Workload>, o: Workload, w: Workload, ip: Ip)
    requires !Addressing(o, w) && (IsMachine(w) ==> w.data.ip != ip)
    ensures NeededFor(part + [o], w) == WithoutIp(NeededFor(part, w), ip)
  {
    HasAddressStep(part, o, w);
  }

  lemma DrawnLast(news: seq<Workload>)
    requires news != [] && Distinct(Drawn(news))
    ensures Distinct(Drawn(Front(news)))
    ensures IsMachine(Last(news)) ==> forall w :: w in Front(news) && IsMachine(w) ==> w.data.ip != Last(news).data.ip
  {
    NeededAreDrawn([], Front(news));
    if IsMachine(Last(news)) {
      DistinctFront(Drawn(news));
      assert Front(Drawn(news)) == Drawn(Front(news));
    } else {
      assert Drawn(news) == Drawn(Front(news));
    }
  }

  /** The address drawn for the counterpart of `o` is the only one not needed any more. */
  lemma {:induction false} NeededLess(part: seq<Workload>, o: Workload, news: seq<Workload>, n: Workload)
    requires UniqueNames(news) && Distinct(Drawn(news)) && n in news && IsMachine(n) && Addressing(o, n)
             && !HasAddress(part, n)
    ensures Needed(part + [o], news) == WithoutIp(Needed(part, news), n.data.ip)
  {
    var f, l := Front(news), Last(news);
    assert news == f + [l];
    DrawnLast(news);
    WithoutIpConcat(Needed(part, f), NeededFor(part, l), n.data.ip);
    if l == n {
      assert forall w :: w in f ==> w.name != n.name;
      NeededSame(part, o, f);
      NeededAreDrawn(part, f);
      HasAddressStep(part, o, l);
      assert WithoutIp([n.data.ip], n.data.ip) == [];
    } else {
      NeededLess(part, o, f, n);
      assert l.name != n.name;
      NeededLessByOther(part, o, l, n.data.ip);
    }
  }

  // ----- An update on an unchanged node

  /** Old addresses are in the pool already; the requested machines' came on top. */
  ghost predicate DrawnOnTop(nodes: seq<NodeView>, id: NodeId, pool: seq<Ip>, olds: seq<Workload>, news: seq<Workload>)
  {
    && NodeIps(nodes, id) == pool + Drawn(news) && Distinct(pool + Drawn(news))
    && forall o :: o in olds && o.data.MachineData? ==> o.data.ip in pool
  }

  lemma DrawnIsNotOld(pool: seq<Ip>, drawn: seq<Ip>, ip: Ip)
    requires Distinct(pool + drawn)
    ensures ip in drawn ==> ip !in pool
    ensures Distinct(drawn)
  {
    var all := pool + drawn;
    forall i, j | 0 <= i < |pool| && 0 <= j < |drawn| ensures pool[i] != drawn[j] {
      assert all[i] == pool[i] && all[|pool| + j] == drawn[j];
    }
    forall i, j | 0 <= i < j < |drawn| ensures drawn[i] != drawn[j] {
      assert all[|pool| + i] == drawn[i] && all[|pool| + j] == drawn[j];
    }
  }

  /** Workloads of one name agree on being a machine, and machines carry machine data. */
  ghost predicate Shaped(olds: seq<Workload>, news: seq<Workload>) {
    && TypesAgree(olds, news)
    && (forall w :: w in olds || w in news ==> (w.wtype == Zmachine <==> w.data.MachineData?))
  }

  /** After the walk for some of the old workloads, their counterparts' addresses have been given back. */
  lemma {:induction false} ReleasedPool(nodes: seq<NodeView>, id: NodeId, pool: seq<Ip>, olds: seq<Workload>,
                                        part: seq<Workload>, news: seq<Workload>)
    requires DrawnOnTop(nodes, id, pool, olds, news) && Shaped(olds, news)
    requires UniqueNames(part) && UniqueNames(news) && forall o :: o in part ==> o in olds
    ensures NodeIps(Released(nodes, id, news, part), id) == pool + Needed(part, news)
    ensures forall x :: x != id ==> NodeIps(Released(nodes, id, news, part), x) == NodeIps(nodes, x)
  {
    if part == [] {
      NoneAddressed(news);
    } else {
      var f, o := Front(part), Last(part);
      assert part == f + [o];
      assert o in part && forall x :: x in f ==> x in part;
      ReleasedPool(nodes, id, pool, olds, f, news);
      ReleasedOne(Released(nodes, id, news, f), id, pool, olds, f, o, news);
    }
  }

  lemma ReleasedOne(nodes: seq<NodeView>, id: NodeId, pool: seq<Ip>, olds: seq<Workload>, part: seq<Workload>,
                    o: Workload, news: seq<Workload>)
    requires NodeIps(nodes, id) == pool + Needed(part, news) && Distinct(pool + Drawn(news))
    requires Shaped(olds, news) && UniqueNames(part + [o]) && UniqueNames(news) && o in olds
    requires forall x :: x in olds && x.data.MachineData? ==> x.data.ip in pool
    ensures NodeIps(ReleasedFor(nodes, id, news, o), id) == pool + Needed(part + [o], news)
    ensures forall x :: x != id ==> NodeIps(ReleasedFor(nodes, id, news, o), x) == NodeIps(nodes, x)
  {
    var j := MatchIndex(news, o.name);
    if !IsNetwork(o) && j < |news| && IsMachine(news[j]) {
      var n := news[j];
      assert n in news && o.wtype == n.wtype;
      NeededWithout(pool, part, o, news, n);
      WithoutIpConcat(pool, Needed(part, news), n.data.ip);
      forall x { DropIpPool(nodes, id, n.data.ip, x); }
    } else {
      forall w | w in news && IsMachine(w) ensures !Addressing(o, w) {
        var k :| 0 <= k < |news| && news[k] == w;
      }
      NeededSame(part, o, news);
    }
  }

  /** The address drawn for machine `n` is not in the pool otherwise, and no longer needed once `o` has one for it. */
  lemma NeededWithout(pool: seq<Ip>, part: seq<Workload>, o: Workload, news: seq<Workload>, n: Workload)
    requires Distinct(pool + Drawn(news)) && UniqueNames(part + [o]) && UniqueNames(news)
    requires n in news && IsMachine(n) && o.name == n.name && o.wtype == n.wtype
    requires o.data.MachineData? && o.data.ip in pool
    ensures n.data.ip !in pool
    ensures Needed(part + [o], news) == WithoutIp(Needed(part, news), n.data.ip)
  {
    NeededAreDrawn(part, news);
    DrawnIsNotOld(pool, Drawn(news), n.data.ip);
    assert !HasAddress(part, n) by {
      assert forall x :: x in part ==> x.name != o.name;
    }
    NeededLess(part, o, news, n);
  }

  // ----- Creating, then reconciling

  /** Some creation leads from `s` to `t`. */
  ghost predicate Creates(s: NetState, t: NetState, id: NodeId, ip: Ip) {
    exists ids :: Placed(s, t, ids, id, ip)
  }

  /** One creation after the other on node `id`, each drawing one address. */
  ghost predicate CreateRun(states: seq<NetState>, ips: seq<Ip>, id: NodeId) {
    && |states| == |ips| + 1
    && forall i :: 0 <= i < |ips| ==> Creates(states[i], states[i + 1], id, ips[i])
  }

  lemma {:induction false} RunPool(states: seq<NetState>, ips: seq<Ip>, id: NodeId, n: nat)
    requires CreateRun(states, ips, id) && n <= |ips|
    ensures NodeIps(states[n].nodes, id) == NodeIps(states[0].nodes, id) + ips[..n]
    ensures forall x :: x != id ==> NodeIps(states[n].nodes, x) == NodeIps(states[0].nodes, x)
  {
    if n > 0 {
      RunPool(states, ips, id, n - 1);
      assert Creates(states[n - 1], states[n - 1 + 1], id, ips[n - 1]);
      TakeStep(ips, n - 1);
    }
  }

  lemma PoolDistinct(s: NetState, id: NodeId)
    requires Consistent(s)
    ensures Distinct(NodeIps(s.nodes, id))
  {
    var i := NodeIndex(s.nodes, id);
    if i < |s.nodes| {
      assert PoolOk(s.nodes[i], s.sites[i]);
    }
  }

  /** What a surviving machine was called by it is still called by. */
  lemma SurvivorKeepsAddress(ch: Challenge, old_: DeploymentView, news: seq<Workload>, o: Workload, w: Workload)
    requires UniqueNames(old_.workloads) && UniqueNames(news) && Shaped(old_.workloads, news)
    requires o in old_.workloads && IsMachine(o) && w in DiffWorkloads(ch, old_, news) && w.name == o.name
    ensures IsMachine(w) && w.data.ip == o.data.ip
  {
    var olds := old_.workloads;
    DiffMembers(ch, old_, news, w);
    var i :| 0 <= i < |olds| && olds[i] == o;
    if w in olds {
      var k :| 0 <= k < |olds| && olds[k] == w;
      SameName(olds, i, k);
    }
    if x :| x in olds && Changes(ch, news, x) && w == Reconciled(ch, news, old_.version, x) {
      var k :| 0 <= k < |olds| && olds[k] == x;
      SameName(olds, i, k);
      var n := news[MatchIndex(news, o.name)];
      assert n in news && o.wtype == n.wtype;
    }
  }

  lemma AddressInPool(ch: Challenge, old_: DeploymentView, news: seq<Workload>, pool: seq<Ip>, w: Workload)
    requires UniqueNames(old_.workloads) && UniqueNames(news) && Shaped(old_.workloads, news)
    requires forall o :: o in old_.workloads && o.data.MachineData? ==> o.data.ip in pool
    requires w in DiffWorkloads(ch, old_, news) && IsMachine(w)
    ensures w.data.ip in pool + Needed(old_.workloads, news)
  {
    var olds := old_.workloads;
    if o :| o in olds && o.name == w.name && IsMachine(o) {
      SurvivorKeepsAddress(ch, old_, news, o, w);
    } else {
      DiffMembers(ch, old_, news, w);
      AddedMachine(ch, old_, news, w);
      var n :| n in Reached(ch, olds, news) && !Named(olds, n.name) && w == n.(version := old_.version + 1);
      assert n in news && IsMachine(n) && !HasAddress(olds, n);
      NeededAreDrawn(olds, news);
    }
  }

  lemma AddedMachine(ch: Challenge, old_: DeploymentView, news: seq<Workload>, w: Workload)
    requires Shaped(old_.workloads, news) && w in DiffWorkloads(ch, old_, news) && IsMachine(w)
    requires forall o :: o in old_.workloads && o.name == w.name ==> !IsMachine(o)
    ensures exists n :: n in Reached(ch, old_.workloads, news) && !Named(old_.workloads, n.name)
                        && w == n.(version := old_.version + 1)
  {
    DiffMembers(ch, old_, news, w);
    if x :| x in old_.workloads && Changes(ch, news, x) && w == Reconciled(ch, news, old_.version, x) {
      assert x.wtype == Zmachine && IsMachine(x);
    }
  }

  // ----- Machines that no walk adds

  lemma {:induction false} NeededConcat(olds: seq<Workload>, a: seq<Workload>, b: seq<Workload>)
    ensures Needed(olds, a + b) == Needed(olds, a) + Needed(olds, b)
  {
    if b == [] {
      assert a + b == a;
    } else {
      assert Front(a + b) == a + Front(b) && Last(a + b) == Last(b);
      NeededConcat(olds, a, Front(b));
    }
  }

  /** The requested workloads no walk comes across. */
  function Unreached(ch: Challenge, olds: seq<Workload>, news: seq<Workload>): seq<Workload> {
    news[Capped(Limit(ch, news, olds), |news|)..]
  }

  lemma {:induction false} KeptNeedNothing(ch: Challenge, news: seq<Workload>, version: nat, olds: seq<Workload>,
                                           part: seq<Workload>)
    requires Shaped(olds, news) && forall o :: o in part ==> o in olds
    ensures Needed(olds, Kept(ch, news, version, part)) == []
  {
    if part != [] {
      var f, o := Front(part), Last(part);
      assert part == f + [o] && o in part;
      KeptNeedNothing(ch, news, version, olds, f);
      var r := Reconciled(ch, news, version, o);
      assert IsMachine(r) ==> Addressing(o, r);
      NeededConcat(olds, Kept(ch, news, version, f), if Stays(news, o) then [r] else []);
      NeededOfOne(olds, r);
    }
  }

  lemma NeededOfOne(olds: seq<Workload>, w: Workload)
    ensures Needed(olds, [w]) == NeededFor(olds, w) && Needed(olds, []) == []
  {
    var none: seq<Workload> := [];
    assert Front([w]) == none && Needed(olds, none) == [];
  }

  /** Taking up the additions loses no address that is needed. */
  lemma {:induction false} AddedNeedSame(olds: seq<Workload>, all: seq<Workload>, news: seq<Workload>, version: nat)
    requires Shaped(olds, all) && forall w :: w in news ==> w in all
    ensures Needed(olds, Added(olds, news, version)) == Needed(olds, news)
  {
    if news != [] {
      var f, w := Front(news), Last(news);
      assert news == f + [w] && w in news;
      AddedNeedSame(olds, all, f, version);
      var stamped := w.(version := version + 1);
      if Named(olds, w.name) {
        NamedNeedsNothing(olds, all, w);
        assert Added(olds, news, version) == Added(olds, f, version);
        assert Needed(olds, news) == Needed(olds, f);
      } else {
        assert Added(olds, news, version) == Added(olds, f, version) + [stamped];
        NeededConcat(olds, Added(olds, f, version), [stamped]);
        NeededOfOne(olds, stamped);
        SameNeed(olds, w, version + 1);
      }
    }
  }

  lemma SameNeed(olds: seq<Workload>, w: Workload, version: nat)
    ensures NeededFor(olds, w.(version := version)) == NeededFor(olds, w)
  {
    var v := w.(version := version);
    assert forall o :: o in olds ==> (Addressing(o, v) <==> Addressing(o, w));
  }

  lemma NamedNeedsNothing(olds: seq<Workload>, news: seq<Workload>, w: Workload)
    requires Shaped(olds, news) && w in news && Named(olds, w.name)
    ensures NeededFor(olds, w) == []
  {
    var o :| o in olds && o.name == w.name;
    assert IsMachine(w) ==> Addressing(o, w);
  }

  /** Of the addresses drawn for machines that had none, those of the machines really added come first, then
      those of the machines no walk comes across. */
  lemma NeededIsAddedAndStray(ch: Challenge, old_: DeploymentView, news: seq<Workload>)
    requires Shaped(old_.workloads, news)
    ensures Needed(old_.workloads, news)
            == Needed(old_.workloads, DiffWorkloads(ch, old_, news))
               + Needed(old_.workloads, Unreached(ch, old_.workloads, news))
  {
    var olds, reached := old_.workloads, Reached(ch, old_.workloads, news);
    assert news == reached + Unreached(ch, olds, news);
    NeededConcat(olds, reached, Unreached(ch, olds, news));
    AddedNeedReached(ch, old_, news);
  }

  lemma AddedNeedReached(ch: Challenge, old_: DeploymentView, news: seq<Workload>)
    requires Shaped(old_.workloads, news)
    ensures Needed(old_.workloads, DiffWorkloads(ch, old_, news))
            == Needed(old_.workloads, Reached(ch, old_.workloads, news))
  {
    var olds, reached := old_.workloads, Reached(ch, old_.workloads, news);
    DiffIsKeptAndAdded(ch, old_, news);
    KeptNeedNothing(ch, news, old_.version, olds, olds);
    assert forall w :: w in reached ==> w in news;
    AddedNeedSame(olds, news, reached, old_.version);
    NeededConcat(olds, Kept(ch, news, old_.version, olds), Added(olds, reached, old_.version));
  }

  /** Every requested machine with a new name is met by some walk. */
  ghost predicate MachinesReached(ch: Challenge, olds: seq<Workload>, news: seq<Workload>) {
    forall n :: n in news && IsMachine(n) && !Named(olds, n.name) ==> n in Reached(ch, olds, news)
  }

  /** No address stays reserved without a machine exactly if every requested new machine is met by some walk. */
  lemma NoStrayIff(ch: Challenge, olds: seq<Workload>, news: seq<Workload>)
    requires UniqueNames(news) && Shaped(olds, news)
    ensures Needed(olds, Unreached(ch, olds, news)) == [] <==> MachinesReached(ch, olds, news)
  {
    var reached, rest := Reached(ch, olds, news), Unreached(ch, olds, news);
    assert news == reached + rest;
    if MachinesReached(ch, olds, news) {
      forall w | w in rest ensures NeededFor(olds, w) == [] {
        InOneHalf(reached, rest, w);
        if IsMachine(w) {
          NewMachine(olds, news, w);
        }
      }
      NothingNeeded(olds, rest);
    }
    if Needed(olds, rest) == [] {
      NeededAreDrawn(olds, rest);
      forall n | n in news && IsMachine(n) && !Named(olds, n.name) ensures n in reached {
        NewMachine(olds, news, n);
        assert n in rest ==> n.data.ip in Needed(olds, rest);
      }
    }
  }

  lemma {:induction false} NothingNeeded(olds: seq<Workload>, news: seq<Workload>)
    requires forall w :: w in news ==> NeededFor(olds, w) == []
    ensures Needed(olds, news) == []
  {
    if news != [] {
      assert news == Front(news) + [Last(news)] && Last(news) in news;
      NothingNeeded(olds, Front(news));
    }
  }

  lemma NewMachine(olds: seq<Workload>, news: seq<Workload>, w: Workload)
    requires Shaped(olds, news) && w in news && IsMachine(w)
    ensures HasAddress(olds, w) <==> Named(olds, w.name)
  {
    if Named(olds, w.name) {
      var o :| o in olds && o.name == w.name;
      assert Addressing(o, w);
    }
  }

  lemma InOneHalf(a: seq<Workload>, b: seq<Workload>, w: Workload)
    requires UniqueNames(a + b) && w in b
    ensures w !in a
  {
    var j :| 0 <= j < |b| && b[j] == w;
    forall i | 0 <= i < |a| ensures a[i] != w {
      assert (a + b)[i].name != (a + b)[|a| + j].name;
    }
  }

  lemma OnlyIfEmpty(pool: seq<Ip>, added: seq<Ip>, stray: seq<Ip>)
    ensures pool + (added + stray) == pool + added <==> stray == []
  {
    assert |pool + (added + stray)| == |pool + added| + |stray|;
  }

  lemma {:induction false} NeededDistinct(olds: seq<Workload>, news: seq<Workload>)
    requires Distinct(Drawn(news))
    ensures Distinct(Needed(olds, news))
  {
    if news != [] {
      var f, l := Front(news), Last(news);
      DrawnLast(news);
      NeededDistinct(olds, f);
      NeededAreDrawn(olds, f);
      if NeededFor(olds, l) == [] {
        assert Needed(olds, news) == Needed(olds, f);
      } else {
        assert Needed(olds, news) == Needed(olds, f) + [l.data.ip];
        OneMoreDistinct(Needed(olds, f), l.data.ip);
      }
    }
  }

  lemma OneMoreDistinct(ips: seq<Ip>, ip: Ip)
    requires Distinct(ips) && ip !in ips
    ensures Distinct(ips + [ip])
  {
  }

  /** Some machine of the result has that address. */
  ghost predicate Used(ws: seq<Workload>, ip: Ip) {
    exists w :: w in ws && IsMachine(w) && w.data.ip == ip
  }

  /** A drawn address is some machine's of the result exactly if it is one the result's new machines need. */
  lemma DrawnUsedIff(ch: Challenge, old_: DeploymentView, news: seq<Workload>, pool: seq<Ip>, ip: Ip)
    requires UniqueNames(old_.workloads) && UniqueNames(news) && Shaped(old_.workloads, news)
    requires Distinct(pool + Drawn(news)) && ip in Drawn(news)
    requires forall o :: o in old_.workloads && o.data.MachineData? ==> o.data.ip in pool
    ensures Used(DiffWorkloads(ch, old_, news), ip) <==> ip in Needed(old_.workloads, DiffWorkloads(ch, old_, news))
  {
    var olds, ws := old_.workloads, DiffWorkloads(ch, old_, news);
    NeededAreDrawn(olds, ws);
    DrawnIsNotOld(pool, Drawn(news), ip);
    forall w | w in ws && IsMachine(w) && HasAddress(olds, w) ensures w.data.ip in pool {
      var o :| o in olds && Addressing(o, w);
      SurvivorKeepsAddress(ch, old_, news, o, w);
    }
  }

  /** Every address drawn for a machine that had none ends up with a machine of the result exactly if every
      requested new machine is met by some walk. */
  lemma EveryAddressUsedIff(ch: Challenge, old_: DeploymentView, news: seq<Workload>, pool: seq<Ip>)
    requires UniqueNames(old_.workloads) && UniqueNames(news) && Shaped(old_.workloads, news)
    requires Distinct(pool + Drawn(news))
    requires forall o :: o in old_.workloads && o.data.MachineData? ==> o.data.ip in pool
    ensures (forall ip :: ip in Needed(old_.workloads, news) ==> Used(DiffWorkloads(ch, old_, news), ip))
            <==> MachinesReached(ch, old_.workloads, news)
  {
    var olds, ws := old_.workloads, DiffWorkloads(ch, old_, news);
    var used, stray := Needed(olds, ws), Needed(olds, Unreached(ch, olds, news));
    NeededIsAddedAndStray(ch, old_, news);
    NoStrayIff(ch, olds, news);
    forall ip | ip in Needed(olds, news) ensures Used(ws, ip) <==> ip in used {
      NeededAreDrawn(olds, news);
      DrawnUsedIff(ch, old_, news, pool, ip);
    }
    if stray != [] {
      DrawnIsNotOld(pool, Drawn(news), stray[0]);
      NeededDistinct(olds, news);
      DrawnIsNotOld(used, stray, stray[0]);
      assert stray[0] in used + stray;
    }
  }

  /** Creating the requested machines on a node that is in the network already, then reconciling, leaves the node's
      pool as it was plus the addresses of the machines that were added and of those requested that no walk met, so
      plus the former only exactly if every requested new machine was met; every surviving machine keeps its
      address, every machine's address is in the pool, and no other node's pool is touched. */
  lemma UpdateLeavesAddressesAlone(states: seq<NetState>, ips: seq<Ip>, id: NodeId,
                                   ch: Challenge, old_: DeploymentView, news: seq<Workload>)
    requires CreateRun(states, ips, id) && ips == Drawn(news) && Consistent(Last(states))
    requires UniqueNames(old_.workloads) && UniqueNames(news) && Shaped(old_.workloads, news)
    requires forall o :: o in old_.workloads && o.data.MachineData? ==> o.data.ip in NodeIps(states[0].nodes, id)
    ensures var pool, after := NodeIps(states[0].nodes, id), Released(Last(states).nodes, id, news, old_.workloads);
            && NodeIps(after, id) == pool + Needed(old_.workloads, news)
            && (forall x :: x != id ==> NodeIps(after, x) == NodeIps(states[0].nodes, x))
            && (forall w :: w in DiffWorkloads(ch, old_, news) && IsMachine(w) ==> w.data.ip in NodeIps(after, id))
    ensures var pool, after := NodeIps(states[0].nodes, id), Released(Last(states).nodes, id, news, old_.workloads);
            var added := Needed(old_.workloads, DiffWorkloads(ch, old_, news));
            && NodeIps(after, id) == pool + (added + Needed(old_.workloads, Unreached(ch, old_.workloads, news)))
            && (NodeIps(after, id) == pool + added <==> MachinesReached(ch, old_.workloads, news))
    ensures forall o, w :: o in old_.workloads && IsMachine(o) && w in DiffWorkloads(ch, old_, news) && w.name == o.name
                           ==> IsMachine(w) && w.data.ip == o.data.ip
  {
    var pool, olds := NodeIps(states[0].nodes, id), old_.workloads;
    RunPool(states, ips, id, |ips|);
    TakeAll(ips);
    PoolDistinct(Last(states), id);
    assert DrawnOnTop(Last(states).nodes, id, pool, olds, news);
    ReleasedPool(Last(states).nodes, id, pool, olds, olds, news);
    NeededIsAddedAndStray(ch, old_, news);
    NoStrayIff(ch, olds, news);
    OnlyIfEmpty(pool, Needed(olds, DiffWorkloads(ch, old_, news)), Needed(olds, Unreached(ch, olds, news)));
    forall w | w in DiffWorkloads(ch, old_, news) && IsMachine(w) ensures w.data.ip in pool + Needed(olds, news) {
      AddressInPool(ch, old_, news, pool, w);
    }
    forall o, w | o in olds && IsMachine(o) && w in DiffWorkloads(ch, old_, news) && w.name == o.name
      ensures IsMachine(w) && w.data.ip == o.data.ip
    {
      SurvivorKeepsAddress(ch, old_, news, o, w);
    }
  }

  // ----- An address nobody has

  lemma OneMachine(w: Workload, vm: Workload)
    requires !IsMachine(w) && IsMachine(vm)
    ensures Drawn([w, vm]) == [vm.data.ip]
  {
    var none: seq<Workload> := [];
    assert Front([w, vm]) == [w] && Front([w]) == none && Drawn([w]) == [];
  }

  lemma FirstAddress(empty: NetState, drawn: NetState)
    requires empty == NetState([NodeView(1, 7, [])], [Site(1, 2, 11, 51820)], [], [])
    requires drawn == empty.(nodes := [NodeView(1, 7, [514])])
    ensures CreateRun([empty, drawn], [514], 1) && Consistent(drawn)
    ensures NodeIps(empty.nodes, 1) == [] && NodeIps(drawn.nodes, 1) == [514]
  {
    assert empty.sites[0] in empty.sites && UsedSubnets(drawn) == [2];
    forall x ensures NodeIps(drawn.nodes, x) == NodeIps(empty.nodes, x) + if x == 1 then [514] else [] {
    }
    assert Placed(empty, drawn, {1}, 1, 514);
    assert Creates(empty, drawn, 1, 514);
  }

  /** The disk grows and a machine is requested behind it: the walk ends at the disk, no machine is added, and the
      address drawn for it stays in the pool. */
  lemma StrayAddress()
    ensures var empty := NetState([NodeView(1, 7, [])], [Site(1, 2, 11, 51820)], [], []);
            var drawn := empty.(nodes := [NodeView(1, 7, [514])]);
            var disk := Workload("disk", Zmount, 0, "", "", SizedData(1, ""));
            var bigger := disk.(data := SizedData(2, ""));
            var vm := Workload("vm", Zmachine, 0, "", "", MachineData("net", 514, "", [], 0, 0, ""));
            var ch := (version, wtype, metadata, description, data) => if data == disk.data then "one" else "other";
            var old_ := DeploymentView(0, 7, [disk]);
            && CreateRun([empty, drawn], Drawn([bigger, vm]), 1) && Consistent(drawn)
            && NodeIps(Released(drawn.nodes, 1, [bigger, vm], old_.workloads), 1) == [514]
            && !Used(DiffWorkloads(ch, old_, [bigger, vm]), 514)
  {
    var empty := NetState([NodeView(1, 7, [])], [Site(1, 2, 11, 51820)], [], []);
    var drawn := empty.(nodes := [NodeView(1, 7, [514])]);
    var disk := Workload("disk", Zmount, 0, "", "", SizedData(1, ""));
    var bigger := disk.(data := SizedData(2, ""));
    var vm := Workload("vm", Zmachine, 0, "", "", MachineData("net", 514, "", [], 0, 0, ""));
    var ch := (version, wtype, metadata, description, data) => if data == disk.data then "one" else "other";
    var old_ := DeploymentView(0, 7, [disk]);
    OneMachine(bigger, vm);
    FirstAddress(empty, drawn);
    StrayAfter([empty, drawn], ch, old_, disk, bigger, vm);
  }

  lemma StrayShaped(disk: Workload, bigger: Workload, vm: Workload)
    requires disk.wtype == bigger.wtype == Zmount && bigger.name == disk.name
    requires IsMachine(vm) && vm.name != disk.name && !disk.data.MachineData? && !bigger.data.MachineData?
    ensures UniqueNames([disk]) && UniqueNames([bigger, vm]) && Shaped([disk], [bigger, vm])
  {
    forall w | w in [bigger, vm] ensures w == bigger || w == vm {
    }
  }

  lemma StrayAfter(states: seq<NetState>, ch: Challenge, old_: DeploymentView, disk: Workload, bigger: Workload,
                   vm: Workload)
    requires old_.workloads == [disk] && disk.wtype == bigger.wtype == Zmount && bigger.name == disk.name
    requires IsMachine(vm) && vm.name != disk.name && !disk.data.MachineData? && !bigger.data.MachineData?
    requires Digest(ch, Pinned(disk, bigger)) != Digest(ch, disk)
    requires CreateRun(states, [vm.data.ip], 1) && Consistent(Last(states)) && NodeIps(states[0].nodes, 1) == []
    ensures NodeIps(Released(Last(states).nodes, 1, [bigger, vm], old_.workloads), 1) == [vm.data.ip]
    ensures !Used(DiffWorkloads(ch, old_, [bigger, vm]), vm.data.ip)
  {
    OneMachine(bigger, vm);
    StrayFor(ch, old_, disk, bigger, vm);
    StrayShaped(disk, bigger, vm);
    UpdateLeavesAddressesAlone(states, [vm.data.ip], 1, ch, old_, [bigger, vm]);
  }

  lemma StrayFor(ch: Challenge, old_: DeploymentView, disk: Workload, bigger: Workload, vm: Workload)
    requires old_.workloads == [disk] && disk.wtype == bigger.wtype == Zmount && bigger.name == disk.name
    requires IsMachine(vm) && vm.name != disk.name && !disk.data.MachineData? && !bigger.data.MachineData?
    requires Digest(ch, Pinned(disk, bigger)) != Digest(ch, disk)
    ensures Needed([disk], [bigger, vm]) == [vm.data.ip]
    ensures !Used(DiffWorkloads(ch, old_, [bigger, vm]), vm.data.ip)
  {
    var news, none: seq<Workload> := [bigger, vm], [];
    assert news[0] == bigger && MatchIndex(news, disk.name) == 0 && ScanLimit(ch, news, disk) == 0;
    assert Front([disk]) == none && Limit(ch, news, none) == 0 && Limit(ch, news, [disk]) == 0;
    assert Reached(ch, [disk], news) == none;
    forall w | w in DiffWorkloads(ch, old_, news) ensures !IsMachine(w) {
      DiffMembers(ch, old_, news, w);
    }
    assert Front(news) == [bigger] && Front([bigger]) == none && Needed([disk], [bigger]) == [];
    assert !HasAddress([disk], vm);
  }
}
