/** Reconciling a deployment with a requested one (`DeploymentFactory.UpdateDeployment`). */
module Diff {
  import opened Lists
  import opened Overlay
  import opened Allocation
  import opened Workloads
  import opened Networks

  /** The digest changes are detected by: any function of version, type, metadata, description and data. */
  type Challenge = (nat, WorkloadType, string, string, Data) -> string

  function Digest(ch: Challenge, w: Workload): string {
    ch(w.version, w.wtype, w.metadata, w.description, w.data)
  }

  predicate IsNetwork(w: Workload) {
    w.wtype == NetworkResource
  }

  predicate Named(ws: seq<Workload>, name: string) {
    exists w :: w in ws && w.name == name
  }

  /** Position of the requested non-network workload of that name, or the length when there is none. */
  function MatchIndex(news: seq<Workload>, name: string): (j: nat)
    ensures j <= |news| && (j < |news| ==> news[j].name == name && !IsNetwork(news[j]))
    ensures forall k :: 0 <= k < j ==> news[k].name != name || IsNetwork(news[k])
  {
    if news == [] then 0
    else if news[0].name == name && !IsNetwork(news[0]) then 0
    else 1 + MatchIndex(news[1..], name)
  }

  predicate Matched(news: seq<Workload>, o: Workload) {
    MatchIndex(news, o.name) < |news|
  }

  /** A machine's address is not up for change. */
  predicate Repins(o: Workload, w: Workload) {
    w.wtype == Zmachine && o.data.MachineData? && w.data.MachineData? && w.data.ip != o.data.ip
  }

  /** The requested workload as it is compared: at the old version and, for a machine, at the old address. */
  function Pinned(o: Workload, w: Workload): Workload {
    var v := w.(version := o.version);
    if Repins(o, w) then v.(data := w.data.(ip := o.data.ip)) else v
  }

  predicate Stays(news: seq<Workload>, o: Workload) {
    IsNetwork(o) || Named(news, o.name)
  }

  predicate Changes(ch: Challenge, news: seq<Workload>, o: Workload) {
    !IsNetwork(o) && Matched(news, o) && Digest(ch, Pinned(o, news[MatchIndex(news, o.name)])) != Digest(ch, o)
  }

  function Reconciled(ch: Challenge, news: seq<Workload>, version: nat, o: Workload): Workload {
    if Changes(ch, news, o) then
      var w := Pinned(o, news[MatchIndex(news, o.name)]);
      o.(version := version + 1, data := w.data, description := w.description, metadata := w.metadata)
    else o
  }

  /** How far the requested list is walked on behalf of one old workload: a change ends the walk. */
  function ScanLimit(ch: Challenge, news: seq<Workload>, o: Workload): nat {
    if IsNetwork(o) || !Named(news, o.name) then 0
    else if Changes(ch, news, o) then MatchIndex(news, o.name)
    else |news|
  }

  function Max(a: nat, b: nat): nat {
    if a < b then b else a
  }

  function Limit(ch: Challenge, news: seq<Workload>, olds: seq<Workload>): nat {
    if olds == [] then 0 else Max(Limit(ch, news, Front(olds)), ScanLimit(ch, news, Last(olds)))
  }

  /** The requested workloads with a new name, stamped as just added. */
  function Added(olds: seq<Workload>, news: seq<Workload>, version: nat): seq<Workload> {
    if news == [] then []
    else
      var w := Last(news);
      Added(olds, Front(news), version) + if Named(olds, w.name) then [] else [w.(version := version + 1)]
  }

  function Kept(ch: Challenge, news: seq<Workload>, version: nat, olds: seq<Workload>): seq<Workload> {
    if olds == [] then []
    else
      var o := Last(olds);
      Kept(ch, news, version, Front(olds)) + if Stays(news, o) then [Reconciled(ch, news, version, o)] else []
  }

  /** The workloads an update leaves: the old ones that stay, then the additions the walks came across. */
  function DiffWorkloads(ch: Challenge, old_: DeploymentView, news: seq<Workload>): seq<Workload> {
    var olds := old_.workloads;
    Kept(ch, news, old_.version, olds)
    + Added(olds, news[..Capped(Limit(ch, news, olds), |news|)], old_.version)
  }

  function Capped(n: nat, bound: nat): (r: nat)
    ensures r <= bound
  {
    if n < bound then n else bound
  }

  predicate FindsUpdate(ch: Challenge, old_: DeploymentView, news: seq<Workload>) {
    || (exists o :: o in old_.workloads && !Stays(news, o))
    || (exists o :: o in old_.workloads && Changes(ch, news, o))
    || Added(old_.workloads, news[..Capped(Limit(ch, news, old_.workloads), |news|)], old_.version) != []
  }

  /** The addresses requested for machines that keep their old one, given back one by one. */
  function Released(nodes: seq<NodeView>, node: NodeId, news: seq<Workload>, olds: seq<Workload>): seq<NodeView> {
    if olds == [] then nodes
    else
      ReleasedFor(Released(nodes, node, news, Front(olds)), node, news, Last(olds))
  }

  // ----- The algorithm

  lemma LimitBound(ch: Challenge, news: seq<Workload>, olds: seq<Workload>)
    ensures Limit(ch, news, olds) <= |news|
  {
    if olds != [] {
      LimitBound(ch, news, Front(olds));
    }
  }

  lemma {:induction false} AddedNames(olds: seq<Workload>, news: seq<Workload>, version: nat, name: string)
    ensures Named(Added(olds, news, version), name) <==> Named(news, name) && !Named(olds, name)
  {
    if news != [] {
      var f, l := Front(news), Last(news);
      assert news == f + [l];
      AddedNames(olds, f, version, name);
      var more := Added(olds, f, version);
      assert Named(news, name) <==> Named(f, name) || l.name == name;
      if !Named(olds, l.name) {
        var x := l.(version := version + 1);
        assert x in more + [x];
        assert Named(more + [x], name) <==> Named(more, name) || l.name == name by {
          if w :| w in more && w.name == name {
            assert w in more + [x];
          }
        }
      }
    }
  }

  lemma AddedStep(olds: seq<Workload>, news: seq<Workload>, version: nat, j: nat)
    requires j < |news|
    ensures Added(olds, news[..j + 1], version)
            == Added(olds, news[..j], version)
               + if Named(olds, news[j].name) then [] else [news[j].(version := version + 1)]
  {
    TakeStep(news, j);
  }

  /** Among unique names, a later one is not among the first. */
  lemma NotAmongFirst(news: seq<Workload>, j: nat)
    requires UniqueNames(news) && j < |news|
    ensures !Named(news[..j], news[j].name)
  {
  }

  /** The names known while walking: the old ones and those added so far. */
  ghost predicate Known(names: seq<string>, olds: seq<Workload>, added: seq<Workload>) {
    forall name :: name in names <==> Named(olds, name) || Named(added, name)
  }

  /** The first `m` requested workloads have been looked at for additions. */
  ghost predicate TakenUp(names: seq<string>, added: seq<Workload>, olds: seq<Workload>, news: seq<Workload>,
                          version: nat, m: nat)
  {
    m <= |news| && added == Added(olds, news[..m], version) && Known(names, olds, added)
  }

  /** `at` is where the counterpart of `o` is requested; past the end if it is not. */
  ghost predicate CounterpartAt(news: seq<Workload>, o: Workload, at: nat) {
    && at <= |news|
    && (at < |news| ==> news[at].name == o.name && !IsNetwork(news[at]))
    && (at == |news| ==> forall k :: 0 <= k < |news| ==> news[k].name != o.name || IsNetwork(news[k]))
  }

  lemma KnownStep(names: seq<string>, olds: seq<Workload>, added: seq<Workload>, w: Workload)
    requires Known(names, olds, added)
    ensures Known(names + [w.name], olds, added + [w])
  {
    forall name ensures name in names + [w.name] <==> Named(olds, name) || Named(added + [w], name) {
      assert w in added + [w];
      if x :| x in added && x.name == name {
        assert x in added + [w];
      }
    }
  }

  lemma KnownIff(olds: seq<Workload>, news: seq<Workload>, version: nat, names: seq<string>, n: nat, j: nat)
    requires n <= |news| && j < |news| && UniqueNames(news)
    requires Known(names, olds, Added(olds, news[..n], version))
    ensures news[j].name in names <==> Named(olds, news[j].name) || j < n
  {
    AddedNames(olds, news[..n], version, news[j].name);
    if j < n {
      assert news[..n][j] in news[..n];
    } else {
      NotAmongFirst(news[..j + 1], j);
      assert forall w :: w in news[..n] ==> w in news[..j + 1][..j];
    }
  }

  function Gone(news: seq<Workload>, olds: seq<Workload>): seq<Workload> {
    if olds == [] then []
    else Gone(news, Front(olds)) + if Stays(news, Last(olds)) then [] else [Last(olds)]
  }

  function FilterOut(ws: seq<Workload>, gone: seq<Workload>): seq<Workload> {
    if ws == [] then []
    else FilterOut(Front(ws), gone) + if Last(ws) in gone then [] else [Last(ws)]
  }

  function AllReconciled(ch: Challenge, news: seq<Workload>, version: nat, olds: seq<Workload>): seq<Workload> {
    seq(|olds|, i requires 0 <= i < |olds| => Reconciled(ch, news, version, olds[i]))
  }

  /** The first `i` of the old workloads have been reconciled in place. */
  ghost predicate ReconciledTo(ch: Challenge, news: seq<Workload>, version: nat, olds: seq<Workload>, ws: seq<Workload>,
                               i: nat)
  {
    && |ws| == |olds|
    && (forall k :: 0 <= k < i && k < |olds| ==> ws[k] == Reconciled(ch, news, version, olds[k]))
    && forall k :: i <= k < |olds| ==> ws[k] == olds[k]
  }

  lemma ReconciledStep(ch: Challenge, news: seq<Workload>, version: nat, olds: seq<Workload>, ws: seq<Workload>, i: nat)
    requires i < |olds| && ReconciledTo(ch, news, version, olds, ws, i)
    ensures ws[i] == olds[i]
    ensures ReconciledTo(ch, news, version, olds, ws[i := Reconciled(ch, news, version, olds[i])], i + 1)
  {
  }

  lemma {:induction false} InGone(news: seq<Workload>, olds: seq<Workload>, w: Workload)
    ensures w in Gone(news, olds) <==> w in olds && !Stays(news, w)
  {
    if olds != [] {
      assert olds == Front(olds) + [Last(olds)];
      InGone(news, Front(olds), w);
    }
  }

  lemma MatchedIsNamed(news: seq<Workload>, o: Workload)
    ensures Matched(news, o) ==> Named(news, o.name)
  {
    var j := MatchIndex(news, o.name);
    assert j < |news| ==> news[j] in news;
  }

  lemma {:induction false} FilterReconciled(ch: Challenge, news: seq<Workload>, version: nat, olds: seq<Workload>,
                                            part: seq<Workload>)
    requires UniqueNames(olds) && part <= olds
    ensures FilterOut(AllReconciled(ch, news, version, part), Gone(news, olds)) == Kept(ch, news, version, part)
  {
    if part != [] {
      var f, o := Front(part), Last(part);
      assert Front(AllReconciled(ch, news, version, part)) == AllReconciled(ch, news, version, f);
      FilterReconciled(ch, news, version, olds, f);
      var r := Reconciled(ch, news, version, o);
      InGone(news, olds, r);
      MatchedIsNamed(news, o);
      assert o == olds[|part| - 1] && o in olds;
      if r in olds {
        var k :| 0 <= k < |olds| && olds[k] == r;
        assert k == |part| - 1;
      }
    }
  }

  lemma {:induction false} FilterAdded(ws: seq<Workload>, gone: seq<Workload>, added: seq<Workload>)
    requires forall w :: w in added ==> w !in gone
    ensures FilterOut(ws + added, gone) == FilterOut(ws, gone) + added
  {
    if added == [] {
      assert ws + added == ws;
    } else {
      assert Front(ws + added) == ws + Front(added) && Last(ws + added) == Last(added);
      assert Last(added) in added && forall w :: w in Front(added) ==> w in added;
      FilterAdded(ws, gone, Front(added));
    }
  }

  /** Dropping what is gone from the reconciled list and the additions leaves the specified result. */
  lemma FilterGivesDiff(ch: Challenge, old_: DeploymentView, news: seq<Workload>, added: seq<Workload>)
    requires UniqueNames(old_.workloads)
    requires added == Added(old_.workloads, news[..Capped(Limit(ch, news, old_.workloads), |news|)], old_.version)
    ensures FilterOut(AllReconciled(ch, news, old_.version, old_.workloads) + added, Gone(news, old_.workloads))
            == DiffWorkloads(ch, old_, news)
  {
    var olds := old_.workloads;
    forall w | w in added ensures w !in Gone(news, olds) {
      AddedNames(olds, news[..Capped(Limit(ch, news, olds), |news|)], old_.version, w.name);
      InGone(news, olds, w);
    }
    FilterAdded(AllReconciled(ch, news, old_.version, olds), Gone(news, olds), added);
    FilterReconciled(ch, news, old_.version, olds, olds);
  }

  class DeploymentFactory {

    /** What was found out about an old workload. */
    static ghost predicate Compared(o: Workload, o': Workload, changed: bool, w: Workload, version: nat, ch: Challenge,
                                    nodes: seq<NodeView>, nodes': seq<NodeView>, nodeId: NodeId) {
      && (changed <==> Digest(ch, Pinned(o, w)) != Digest(ch, o))
      && o' == (if !changed then o
                else var p := Pinned(o, w);
                     o.(version := version + 1, data := p.data, description := p.description, metadata := p.metadata))
      && nodes' == if Repins(o, w) then DropIp(nodes, nodeId, w.data.ip) else nodes
    }

    /** The walk is past the first `j` requested workloads without a change. */
    static ghost predicate Unchanged(o: Workload, news: seq<Workload>, at: nat, j: nat, version: nat, ch: Challenge,
                                     nodes: seq<NodeView>, nodes': seq<NodeView>, nodeId: NodeId)
      requires j <= |news|
    {
      if j <= at then nodes' == nodes else Compared(o, o, false, news[at], version, ch, nodes, nodes', nodeId)
    }

    /** Compares an old workload with its requested counterpart, keeping a machine's address: the one drawn for
        the request goes back to the node's pool. */
    method Compare(o: Workload, requested: Workload, version: nat, ch: Challenge, net: Network, nodeId: NodeId)
      returns (o': Workload, changed: bool)
      requires net.Valid()
      modifies net.nodes
      ensures net.Valid()
              && Compared(o, o', changed, requested, version, ch, old(net.NodeViews()), net.NodeViews(), nodeId)
    {
      var w := requested.(version := o.version);
      if Repins(o, w) {
        var freed := net.DeleteReservedIp(nodeId, w.data.ip);
        w := w.(data := w.data.(ip := o.data.ip));
      }
      if Digest(ch, w) == Digest(ch, o) {
        return o, false;
      }
      return o.(version := version + 1, data := w.data, description := w.description, metadata := w.metadata), true;
    }

    /** A requested workload with a name not seen so far is an addition. */
    method TakeUp(w: Workload, version: nat, names: seq<string>, added: seq<Workload>,
                  ghost olds: seq<Workload>, ghost news: seq<Workload>, ghost n: nat, ghost j: nat)
      returns (names': seq<string>, added': seq<Workload>, taken: bool)
      requires UniqueNames(news) && n <= |news| && j < |news| && w == news[j]
      requires TakenUp(names, added, olds, news, version, Max(n, j))
      ensures TakenUp(names', added', olds, news, version, Max(n, j + 1))
      ensures taken ==> !Named(olds, w.name)
      ensures !taken ==> j < n || Named(olds, w.name)
    {
      KnownIff(olds, news, version, names, Max(n, j), j);
      AddedStep(olds, news, version, j);
      if w.name !in names {
        KnownStep(names, olds, added, w.(version := version + 1));
        return names + [w.name], added + [w.(version := version + 1)], true;
      }
      return names, added, false;
    }

    /** One requested workload on the walk: an addition is taken up, the counterpart is compared. */
    method Meet(o: Workload, news: seq<Workload>, version: nat, ch: Challenge, net: Network, nodeId: NodeId,
                names: seq<string>, added: seq<Workload>, j: nat, ghost olds: seq<Workload>, ghost n: nat,
                ghost at: nat)
      returns (o': Workload, names': seq<string>, added': seq<Workload>, changed: bool)
      requires net.Valid()
      requires UniqueNames(news) && Named(olds, o.name) && n <= |news| && j < |news|
      requires CounterpartAt(news, o, at)
      requires TakenUp(names, added, olds, news, version, Max(n, j))
      modifies net.nodes
      ensures net.Valid() && TakenUp(names', added', olds, news, version, Max(n, j + 1))
      ensures j == at ==> Compared(o, o', changed, news[at], version, ch, old(net.NodeViews()), net.NodeViews(), nodeId)
                          && TakenUp(names', added', olds, news, version, Max(n, at))
      ensures j != at ==> o' == o && !changed && net.NodeViews() == old(net.NodeViews())
    {
      o', changed := o, false;
      var taken;
      names', added', taken := TakeUp(news[j], version, names, added, olds, news, n, j);
      if j == at {
        NothingAtMatch(olds, news, version, n, j);
      }
      if taken || IsNetwork(news[j]) || news[j].name != o.name {
        return;
      }
      SameName(news, j, at);
      o', changed := Compare(o, news[j], version, ch, net, nodeId);
    }

    /** Walks the requested list on behalf of one old workload, its counterpart being at `at`: takes up additions
        on the way, and stops at a change. */
    method WalkPast(o: Workload, news: seq<Workload>, version: nat, ch: Challenge, net: Network, nodeId: NodeId,
                    names: seq<string>, added: seq<Workload>, ghost olds: seq<Workload>, ghost n: nat, ghost at: nat)
      returns (o': Workload, names': seq<string>, added': seq<Workload>, changed: bool)
      requires net.Valid()
      requires UniqueNames(news) && Named(olds, o.name) && n <= |news|
      requires CounterpartAt(news, o, at)
      requires TakenUp(names, added, olds, news, version, n)
      modifies net.nodes
      ensures net.Valid()
      ensures if at < |news|
              then Compared(o, o', changed, news[at], version, ch, old(net.NodeViews()), net.NodeViews(), nodeId)
              else o' == o && !changed && net.NodeViews() == old(net.NodeViews())
      ensures TakenUp(names', added', olds, news, version, Max(n, if changed then at else |news|))
    {
      o', names', added', changed := o, names, added, false;
      ghost var was := net.NodeViews();
      for j := 0 to |news|
        invariant net.Valid() && !changed && o' == o
        invariant TakenUp(names', added', olds, news, version, Max(n, j))
        invariant Unchanged(o, news, at, j, version, ch, was, net.NodeViews(), nodeId)
      {
        o', names', added', changed := Meet(o, news, version, ch, net, nodeId, names', added', j, olds, n, at);
        if changed {
          assert j == at;
          return;
        }
      }
    }

    method Walk(o: Workload, news: seq<Workload>, version: nat, ch: Challenge, net: Network, nodeId: NodeId,
                names: seq<string>, added: seq<Workload>, ghost olds: seq<Workload>, ghost n: nat)
      returns (o': Workload, names': seq<string>, added': seq<Workload>, changed: bool)
      requires net.Valid()
      requires UniqueNames(news) && !IsNetwork(o) && Named(news, o.name) && Named(olds, o.name) && n <= |news|
      requires TakenUp(names, added, olds, news, version, n)
      modifies net.nodes
      ensures net.Valid()
      ensures o' == Reconciled(ch, news, version, o) && changed == Changes(ch, news, o)
      ensures TakenUp(names', added', olds, news, version, Max(n, ScanLimit(ch, news, o)))
      ensures net.NodeViews() == ReleasedFor(old(net.NodeViews()), nodeId, news, o)
    {
      o', names', added', changed :=
        WalkPast(o, news, version, ch, net, nodeId, names, added, olds, n, MatchIndex(news, o.name));
    }

    method FilterGone(ws: seq<Workload>, gone: seq<Workload>) returns (kept: seq<Workload>)
      ensures kept == FilterOut(ws, gone)
    {
      kept := [];
      for i := 0 to |ws|
        invariant kept == FilterOut(ws[..i], gone)
      {
        TakeStep(ws, i);
        if ws[i] !in gone {
          kept := kept + [ws[i]];
        }
      }
      TakeAll(ws);
    }

    /** One old workload's turn: networks are passed over, what is not requested any more is noted as gone, the
        rest is walked for. */
    method Reconsider(o: Workload, i: nat, news: seq<Workload>, version: nat, ch: Challenge, net: Network,
                      nodeId: NodeId, names: seq<string>, added: seq<Workload>, gone: seq<Workload>, found: bool,
                      ghost olds: seq<Workload>)
      returns (o': Workload, names': seq<string>, added': seq<Workload>, gone': seq<Workload>, found': bool)
      requires net.Valid() && UniqueNames(news) && i < |olds| && o == olds[i]
      requires Walked(ch, olds, news, version, i, gone, added, names, found)
      modifies net.nodes
      ensures net.Valid() && net.NodeViews() == ReleasedFor(old(net.NodeViews()), nodeId, news, o)
      ensures o' == Reconciled(ch, news, version, o)
      ensures Walked(ch, olds, news, version, i + 1, gone', added', names', found')
    {
      o', names', added', gone', found' := o, names, added, gone, found;
      if IsNetwork(o) {
        WalkedNetwork(ch, olds, news, version, i, gone, added, names, found);
        return;
      }
      if !exists w :: w in news && w.name == o.name {
        WalkedGone(ch, olds, news, version, i, gone, added, names, found);
        MatchedIsNamed(news, o);
        gone', found' := gone + [o], true;
        return;
      }
      var changed;
      o', names', added', changed :=
        Walk(o, news, version, ch, net, nodeId, names, added, olds, Limit(ch, news, olds[..i]));
      WalkedStay(ch, olds, news, version, i, gone, added', names', found, changed);
      found' := found || changed || added' != [];
    }

    /** Brings `d` to what is requested. Nothing is returned when nothing was found to differ. */
    method UpdateDeployment(d: Deployment, news: seq<Workload>, ch: Challenge, net: Network, nodeId: NodeId)
      returns (r: Deployment?)
      requires net.Valid() && UniqueNames(d.workloads) && UniqueNames(news)
      modifies d`workloads, net.nodes
      ensures net.Valid()
      ensures d.workloads == DiffWorkloads(ch, old(d.View()), news)
      ensures r == if FindsUpdate(ch, old(d.View()), news) then d else null
      ensures net.NodeViews() == Released(old(net.NodeViews()), nodeId, news, old(d.workloads))
    {
      ghost var olds := d.workloads;
      var names := Names(d.workloads);
      var gone: seq<Workload>, added: seq<Workload>, found := [], [], false;
      ghost var was := net.NodeViews();
      NamesKnown(olds);
      for i := 0 to |d.workloads|
        invariant ReconciledTo(ch, news, d.version, olds, d.workloads, i)
        invariant Walked(ch, olds, news, d.version, i, gone, added, names, found)
        invariant net.Valid() && net.NodeViews() == Released(was, nodeId, news, olds[..i])
      {
        TakeStep(olds, i);
        ReconciledStep(ch, news, d.version, olds, d.workloads, i);
        var o', names', added', gone', found' :=
          Reconsider(d.workloads[i], i, news, d.version, ch, net, nodeId, names, added, gone, found, olds);
        names, added, gone, found := names', added', gone', found';
        d.workloads := d.workloads[i := o'];
      }
      TakeAll(olds);
      d.workloads := Conclude(d.workloads, added, gone, ch, old(d.View()), news, names, found);
      return if found then d else null;
    }

    /** The additions go to the end, and what is gone is filtered out. */
    method Conclude(ws: seq<Workload>, added: seq<Workload>, gone: seq<Workload>, ghost ch: Challenge,
                    ghost old_: DeploymentView, ghost news: seq<Workload>, ghost names: seq<string>, ghost found: bool)
      returns (result: seq<Workload>)
      requires UniqueNames(old_.workloads) && |ws| == |old_.workloads|
      requires ReconciledTo(ch, news, old_.version, old_.workloads, ws, |ws|)
      requires Walked(ch, old_.workloads, news, old_.version, |ws|, gone, added, names, found)
      ensures result == DiffWorkloads(ch, old_, news) && found == FindsUpdate(ch, old_, news)
    {
      TakeAll(old_.workloads);
      assert ws == AllReconciled(ch, news, old_.version, old_.workloads);
      FilterGivesDiff(ch, old_, news, added);
      result := FilterGone(ws + added, gone);
      FoundIsFindsUpdate(ch, old_, news);
    }
  }

  /** What is known after walking on behalf of the first `i` old workloads. */
  ghost predicate Walked(ch: Challenge, olds: seq<Workload>, news: seq<Workload>, version: nat, i: nat,
                         gone: seq<Workload>, added: seq<Workload>, names: seq<string>, found: bool)
    requires i <= |olds|
  {
    && gone == Gone(news, olds[..i])
    && TakenUp(names, added, olds, news, version, Limit(ch, news, olds[..i]))
    && (found <==> gone != [] || (exists k :: 0 <= k < i && Changes(ch, news, olds[k])) || added != [])
  }

  lemma WalkedNetwork(ch: Challenge, olds: seq<Workload>, news: seq<Workload>, version: nat, i: nat,
                      gone: seq<Workload>, added: seq<Workload>, names: seq<string>, found: bool)
    requires i < |olds| && IsNetwork(olds[i]) && Walked(ch, olds, news, version, i, gone, added, names, found)
    ensures Walked(ch, olds, news, version, i + 1, gone, added, names, found)
    ensures Reconciled(ch, news, version, olds[i]) == olds[i]
  {
    TakeStep(olds, i);
    assert Max(Limit(ch, news, olds[..i]), 0) == Limit(ch, news, olds[..i]);
    assert forall k :: 0 <= k < i + 1 && Changes(ch, news, olds[k]) ==> k < i;
  }

  lemma WalkedGone(ch: Challenge, olds: seq<Workload>, news: seq<Workload>, version: nat, i: nat,
                   gone: seq<Workload>, added: seq<Workload>, names: seq<string>, found: bool)
    requires i < |olds| && !IsNetwork(olds[i]) && !Named(news, olds[i].name)
    requires Walked(ch, olds, news, version, i, gone, added, names, found)
    ensures Walked(ch, olds, news, version, i + 1, gone + [olds[i]], added, names, true)
    ensures Reconciled(ch, news, version, olds[i]) == olds[i]
  {
    TakeStep(olds, i);
    MatchedIsNamed(news, olds[i]);
    assert Max(Limit(ch, news, olds[..i]), 0) == Limit(ch, news, olds[..i]);
  }

  lemma WalkedStay(ch: Challenge, olds: seq<Workload>, news: seq<Workload>, version: nat, i: nat,
                   gone: seq<Workload>, added: seq<Workload>, names: seq<string>, found: bool, changed: bool)
    requires i < |olds| && !IsNetwork(olds[i]) && Named(news, olds[i].name)
    requires gone == Gone(news, olds[..i]) && Limit(ch, news, olds[..i]) <= |news|
    requires TakenUp(names, added, olds, news, version, Max(Limit(ch, news, olds[..i]), ScanLimit(ch, news, olds[i])))
    requires changed == Changes(ch, news, olds[i])
    requires found <==> gone != [] || (exists k :: 0 <= k < i && Changes(ch, news, olds[k]))
                        || Added(olds, news[..Limit(ch, news, olds[..i])], version) != []
    ensures Walked(ch, olds, news, version, i + 1, gone, added, names, found || changed || added != [])
  {
    TakeStep(olds, i);
    var n, m := Limit(ch, news, olds[..i]), Limit(ch, news, olds[..i + 1]);
    if Added(olds, news[..n], version) != [] {
      AddedGrows(olds, news, version, n, m);
    }
  }

  lemma {:induction false} AddedGrows(olds: seq<Workload>, news: seq<Workload>, version: nat, n: nat, m: nat)
    requires n <= m <= |news|
    ensures Added(olds, news[..n], version) <= Added(olds, news[..m], version)
    decreases m
  {
    if n < m {
      AddedGrows(olds, news, version, n, m - 1);
      AddedStep(olds, news, version, m - 1);
    }
  }

  lemma NamesKnown(olds: seq<Workload>)
    ensures Known(Names(olds), olds, [])
  {
    forall name ensures name in Names(olds) <==> Named(olds, name) {
      if w :| w in olds && w.name == name {
        var i :| 0 <= i < |olds| && olds[i] == w;
        assert Names(olds)[i] == name;
      }
    }
  }

  lemma FoundIsFindsUpdate(ch: Challenge, old_: DeploymentView, news: seq<Workload>)
    ensures FindsUpdate(ch, old_, news) <==>
            || Gone(news, old_.workloads) != []
            || (exists k :: 0 <= k < |old_.workloads| && Changes(ch, news, old_.workloads[k]))
            || Added(old_.workloads, news[..Capped(Limit(ch, news, old_.workloads), |news|)], old_.version) != []
  {
    var olds := old_.workloads;
    var gone := Gone(news, olds);
    if gone != [] {
      InGone(news, olds, gone[0]);
      assert gone[0] in gone;
    }
    if o :| o in olds && !Stays(news, o) {
      InGone(news, olds, o);
    }
    if k :| 0 <= k < |olds| && Changes(ch, news, olds[k]) {
      assert olds[k] in olds;
    }
  }

  function ReleasedFor(nodes: seq<NodeView>, node: NodeId, news: seq<Workload>, o: Workload): seq<NodeView> {
    var j := MatchIndex(news, o.name);
    if !IsNetwork(o) && j < |news| && Repins(o, news[j]) then DropIp(nodes, node, news[j].data.ip) else nodes
  }

  lemma SameName(ws: seq<Workload>, i: nat, j: nat)
    requires UniqueNames(ws) && i < |ws| && j < |ws| && ws[i].name == ws[j].name
    ensures i == j
  {
  }

  /** The counterpart of an old workload is no addition, so stopping before or behind it is the same. */
  lemma NothingAtMatch(olds: seq<Workload>, news: seq<Workload>, version: nat, n: nat, j: nat)
    requires n <= |news| && j < |news| && Named(olds, news[j].name)
    ensures Added(olds, news[..Max(n, j + 1)], version) == Added(olds, news[..Max(n, j)], version)
  {
    AddedStep(olds, news, version, j);
  }
}
