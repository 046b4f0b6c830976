/** The chain's contracts, and what cancelling in bulk does to them. */
module Ledger {
  import opened Lists
  import opened Overlay
  import opened Workloads

  datatype Contract = NodeContract(node: NodeId, live: bool) | NameContract(name: string, live: bool)

  /** `names` registers the live name contracts; ids are given out in order, from 1. */
  datatype Chain = Chain(contracts: map<nat, Contract>, names: map<string, nat>, next: nat)

  predicate Live(c: Chain, id: nat) {
    id in c.contracts && c.contracts[id].live
  }

  ghost predicate Sound(c: Chain) {
    && c.next > 0
    && (forall id :: id in c.contracts ==> 0 < id < c.next)
    && (forall n :: n in c.names ==> c.names[n] in c.contracts && c.contracts[c.names[n]] == NameContract(n, true))
    && (forall id :: id in c.contracts && c.contracts[id].NameContract? && c.contracts[id].live
                     ==> c.contracts[id].name in c.names && c.names[c.contracts[id].name] == id)
  }

  function WithNode(c: Chain, node: NodeId): Chain {
    Chain(c.contracts[c.next := NodeContract(node, true)], c.names, c.next + 1)
  }

  function WithName(c: Chain, name: string): Chain {
    Chain(c.contracts[c.next := NameContract(name, true)], c.names[name := c.next], c.next + 1)
  }

  /** Cancelling a contract that is gone already changes nothing. */
  function Cancelled(c: Chain, id: nat): Chain
    requires id in c.contracts
  {
    match c.contracts[id]
    case NodeContract(node, _) => c.(contracts := c.contracts[id := NodeContract(node, false)])
    case NameContract(name, live) =>
      c.(contracts := c.contracts[id := NameContract(name, false)], names := if live then c.names - {name} else c.names)
  }

  function GatewayNames(ws: seq<Workload>): seq<string> {
    if ws == [] then []
    else
      var w := Last(ws);
      GatewayNames(Front(ws)) + if w.wtype == GatewayNameProxy && w.data.NamedData? then [w.data.name] else []
  }

  /** A gateway among the workloads goes by that name. */
  predicate Wants(ws: seq<Workload>, n: string) {
    exists w :: w in ws && w.wtype == GatewayNameProxy && w.data.NamedData? && w.data.name == n
  }

  lemma {:induction false} InGatewayNames(ws: seq<Workload>, n: string)
    ensures n in GatewayNames(ws) <==> Wants(ws, n)
  {
    if ws != [] {
      InGatewayNames(Front(ws), n);
      assert ws == Front(ws) + [Last(ws)];
    }
  }

  /** The name is registered as it was, or not as it was not. */
  ghost predicate NameKept(c: Chain, d: Chain, n: string) {
    (n in c.names <==> n in d.names) && (n in c.names ==> c.names[n] == d.names[n])
  }

  /** Name contracts cancelled one by one; it stops at a name that is not registered. */
  function NamesCancelled(c: Chain, names: seq<string>): (Chain, bool)
    requires Sound(c)
    ensures Sound(NamesCancelled(c, names).0)
  {
    if names == [] then (c, true)
    else
      var (before, ok) := NamesCancelled(c, Front(names));
      if !ok || Last(names) !in before.names then (before, false)
      else (Cancelled(before, before.names[Last(names)]), true)
  }

  /** The chain knows the same contracts under the same names and kinds, some of them dead by now. */
  ghost predicate OnlyCancelled(c: Chain, d: Chain) {
    && d.next == c.next && d.contracts.Keys == c.contracts.Keys
    && forall id :: id in c.contracts ==>
         match c.contracts[id]
         case NodeContract(n, live) => d.contracts[id].NodeContract? && d.contracts[id].node == n
                                        && (d.contracts[id].live ==> live)
         case NameContract(n, live) => d.contracts[id].NameContract? && d.contracts[id].name == n
                                        && (d.contracts[id].live ==> live)
  }

  /** Node contracts are as they were. */
  ghost predicate SameNodes(c: Chain, d: Chain)
    requires c.contracts.Keys == d.contracts.Keys
  {
    forall id :: id in c.contracts && c.contracts[id].NodeContract? ==> d.contracts[id] == c.contracts[id]
  }

  /** Names go all the way exactly if each is registered and none is given twice. */
  lemma {:induction false} NamesCancelledIff(c: Chain, names: seq<string>)
    requires Sound(c)
    ensures NamesCancelled(c, names).1 <==> Distinct(names) && forall n :: n in names ==> n in c.names
    ensures NamesCancelled(c, names).1 ==>
              NamesCancelled(c, names).0.names == c.names - (set n | n in names)
    ensures OnlyCancelled(c, NamesCancelled(c, names).0) && SameNodes(c, NamesCancelled(c, names).0)
  {
    if names != [] {
      NamesCancelledIff(c, Front(names));
      DistinctFront(names);
      assert names == Front(names) + [Last(names)];
      var (before, ok) := NamesCancelled(c, Front(names));
      if Last(names) in before.names {
        NameOnlyCancels(c, before, Last(names));
      }
    }
  }

  lemma NameOnlyCancels(c: Chain, before: Chain, name: string)
    requires Sound(c) && Sound(before) && OnlyCancelled(c, before) && SameNodes(c, before) && name in before.names
    ensures var d := Cancelled(before, before.names[name]); OnlyCancelled(c, d) && SameNodes(c, d)
  {
  }

  /** After all names went, exactly the contracts of these names are dead. */
  lemma NameContractsAfter(c: Chain, names: seq<string>, id: nat)
    requires Sound(c) && NamesCancelled(c, names).1 && id in c.contracts
    ensures Live(NamesCancelled(c, names).0, id) <==>
            Live(c, id) && !(c.contracts[id].NameContract? && c.contracts[id].name in names)
  {
    NamesCancelledIff(c, names);
    var d := NamesCancelled(c, names).0;
    if c.contracts[id].NameContract? && c.contracts[id].live {
      var n := c.contracts[id].name;
      assert n in c.names && c.names[n] == id;
      if n !in names {
        assert n in d.names && d.contracts[d.names[n]] == NameContract(n, true);
        NamesKeepIds(c, names, n);
      }
    }
  }

  lemma {:induction false} NamesKeepIds(c: Chain, names: seq<string>, n: string)
    requires Sound(c) && n in NamesCancelled(c, names).0.names
    ensures n in c.names && NamesCancelled(c, names).0.names[n] == c.names[n]
  {
    if names != [] {
      NamesKeepIds(c, Front(names), n);
    }
  }

  /** Cancelling names leaves other names alone, whether it goes all the way or not. */
  lemma {:induction false} OtherNamesKept(c: Chain, names: seq<string>, n: string)
    requires Sound(c) && n !in names
    ensures NameKept(c, NamesCancelled(c, names).0, n)
  {
    if names != [] {
      assert names == Front(names) + [Last(names)];
      OtherNamesKept(c, Front(names), n);
    }
  }

  // ----- Rollback

  /** How a created contract is noted: as an id of its own, or as the object the chain answered with, whose id is
      under another key. */
  datatype CreatedRef = UnderContractId(id: nat) | ChainObject(id: nat)

  predicate Noted(created: seq<CreatedRef>, id: nat) {
    UnderContractId(id) in created
  }

  /** One deployment taken back: its name contracts, then its own; nothing for one that is not noted. */
  function TakenBack(c: Chain, d: DeploymentView, created: seq<CreatedRef>): (Chain, bool)
    requires Sound(c)
    ensures Sound(TakenBack(c, d, created).0)
  {
    if d.contractId == 0 || !Noted(created, d.contractId) then (c, true)
    else
      var (named, ok) := NamesCancelled(c, GatewayNames(d.workloads));
      if !ok || d.contractId !in named.contracts then (named, false) else (Cancelled(named, d.contractId), true)
  }

  function RolledBack(c: Chain, ds: seq<DeploymentView>, created: seq<CreatedRef>): (Chain, bool)
    requires Sound(c)
    ensures Sound(RolledBack(c, ds, created).0)
  {
    if ds == [] then (c, true)
    else
      var (before, ok) := RolledBack(c, Front(ds), created);
      if !ok then (before, false) else TakenBack(before, Last(ds), created)
  }

  /** A contract that a rollback is about: a noted deployment's own, or that of one of its names. */
  predicate Concerned(c: Chain, ds: seq<DeploymentView>, created: seq<CreatedRef>, id: nat) {
    exists d :: d in ds && d.contractId != 0 && Noted(created, d.contractId)
                && (d.contractId == id
                    || (id in c.contracts && c.contracts[id].NameContract?
                        && c.contracts[id].name in GatewayNames(d.workloads)))
  }

  lemma TakenBackOnlyCancels(c: Chain, d: DeploymentView, created: seq<CreatedRef>)
    requires Sound(c)
    ensures OnlyCancelled(c, TakenBack(c, d, created).0)
  {
    NamesCancelledIff(c, GatewayNames(d.workloads));
    var named := NamesCancelled(c, GatewayNames(d.workloads)).0;
    assert OnlyCancelled(c, named);
    if d.contractId in named.contracts {
      CancelOnlyCancels(c, named, d.contractId);
    }
  }

  lemma CancelOnlyCancels(c: Chain, named: Chain, id: nat)
    requires Sound(c) && OnlyCancelled(c, named) && id in named.contracts
    ensures OnlyCancelled(c, Cancelled(named, id))
  {
  }

  lemma ConcernedByOne(c: Chain, d: DeploymentView, created: seq<CreatedRef>, id: nat)
    ensures Concerned(c, [d], created, id) <==>
            && d.contractId != 0 && Noted(created, d.contractId)
            && (d.contractId == id
                || (id in c.contracts && c.contracts[id].NameContract?
                    && c.contracts[id].name in GatewayNames(d.workloads)))
  {
    assert d in [d];
  }

  lemma TakenBackEffect(c: Chain, d: DeploymentView, created: seq<CreatedRef>, id: nat)
    requires Sound(c) && TakenBack(c, d, created).1 && id in c.contracts
    ensures Live(TakenBack(c, d, created).0, id) <==> Live(c, id) && !Concerned(c, [d], created, id)
  {
    ConcernedByOne(c, d, created, id);
    if d.contractId != 0 && Noted(created, d.contractId) {
      var names := GatewayNames(d.workloads);
      var named := NamesCancelled(c, names).0;
      NameContractsAfter(c, names, id);
      assert named.contracts.Keys == c.contracts.Keys by { NamesCancelledIff(c, names); }
      assert Live(Cancelled(named, d.contractId), id) <==> Live(named, id) && id != d.contractId;
    }
  }

  /** A rollback that goes through cancels exactly the given deployments whose contract is noted under its own id,
      with their name contracts, and no other contract. */
  lemma {:induction false} RollbackExactly(c: Chain, ds: seq<DeploymentView>, created: seq<CreatedRef>, id: nat)
    requires Sound(c)
    ensures OnlyCancelled(c, RolledBack(c, ds, created).0)
    ensures RolledBack(c, ds, created).1 && id in c.contracts ==>
              (Live(RolledBack(c, ds, created).0, id) <==> Live(c, id) && !Concerned(c, ds, created, id))
  {
    if ds != [] {
      RollbackExactly(c, Front(ds), created, id);
      var (before, ok) := RolledBack(c, Front(ds), created);
      TakenBackOnlyCancels(before, Last(ds), created);
      if ok && id in c.contracts && TakenBack(before, Last(ds), created).1 {
        TakenBackEffect(before, Last(ds), created, id);
      }
      assert ds == Front(ds) + [Last(ds)];
      assert Concerned(c, ds, created, id) <==>
             Concerned(c, Front(ds), created, id) || Concerned(c, [Last(ds)], created, id) by {
        assert Last(ds) in [Last(ds)] && Last(ds) in ds;
      }
      assert id in c.contracts ==>
               (Concerned(c, [Last(ds)], created, id) <==> Concerned(before, [Last(ds)], created, id));
    }
  }

  /** Noted as chain objects only, nothing is ever taken back. */
  lemma {:induction false} ChainObjectsAreNotRolledBack(c: Chain, ds: seq<DeploymentView>, created: seq<CreatedRef>)
    requires Sound(c) && forall r :: r in created ==> r.ChainObject?
    ensures RolledBack(c, ds, created) == (c, true)
  {
    if ds != [] {
      ChainObjectsAreNotRolledBack(c, Front(ds), created);
    }
  }

  // ----- A deployment that fails after its names were registered

  /** The names are registered one by one, unless they are already. */
  function Registered(c: Chain, names: seq<string>): Chain {
    if names == [] then c
    else
      var before := Registered(c, Front(names));
      if Last(names) in before.names then before else WithName(before, Last(names))
  }

  /** The contract was made for one of the names, which was not registered before. */
  predicate MadeFor(c: Chain, d: Chain, names: seq<string>, id: nat) {
    && id in d.contracts && d.contracts[id].NameContract?
    && d.contracts[id].name in names && d.contracts[id].name !in c.names
  }

  lemma {:induction false} RegisteredAre(c: Chain, names: seq<string>)
    requires Sound(c)
    ensures var d := Registered(c, names);
            && Sound(d) && c.next <= d.next
            && (forall n :: n in d.names <==> n in c.names || n in names)
            && (forall id :: id in c.contracts ==> id in d.contracts && d.contracts[id] == c.contracts[id])
            && (forall id :: id in d.contracts && id !in c.contracts ==> MadeFor(c, d, names, id))
  {
    if names != [] {
      RegisteredAre(c, Front(names));
      assert names == Front(names) + [Last(names)];
    }
  }

  /** Registering leaves registered names and other names alone. */
  lemma {:induction false} RegisteredNamesKept(c: Chain, names: seq<string>, n: string)
    requires n in c.names || n !in names
    ensures NameKept(c, Registered(c, names), n)
  {
    if names != [] {
      assert names == Front(names) + [Last(names)];
      RegisteredNamesKept(c, Front(names), n);
    }
  }

  /** Taking a deployment back leaves names alone that are not its own. */
  lemma TakenBackNamesKept(c: Chain, d: DeploymentView, created: seq<CreatedRef>, n: string)
    requires Sound(c) && n !in GatewayNames(d.workloads)
    requires d.contractId in c.contracts ==> c.contracts[d.contractId].NodeContract?
    ensures NameKept(c, RolledBack(c, [d], created).0, n)
  {
    var none: seq<DeploymentView> := [];
    assert Front([d]) == none && RolledBack(c, none, created) == (c, true);
    OtherNamesKept(c, GatewayNames(d.workloads), n);
    NamesCancelledIff(c, GatewayNames(d.workloads));
  }

  /** The chain after a deployment was handed out under its names, refused and taken back. */
  function Refused(c: Chain, d: DeploymentView, node: NodeId): (Chain, bool)
    requires Sound(c)
  {
    RegisteredAre(c, GatewayNames(d.workloads));
    var named := Registered(c, GatewayNames(d.workloads));
    RolledBack(WithNode(named, node), [d.(contractId := named.next)], [UnderContractId(named.next)])
  }

  lemma RefusedLive(c: Chain, d: DeploymentView, node: NodeId, id: nat)
    requires Sound(c) && Refused(c, d, node).1
    ensures Live(Refused(c, d, node).0, id) <==>
            Live(c, id) && !(c.contracts[id].NameContract? && c.contracts[id].name in GatewayNames(d.workloads))
  {
    var names := GatewayNames(d.workloads);
    var named := Registered(c, names);
    RegisteredAre(c, names);
    var all, own := WithNode(named, node), d.(contractId := named.next);
    RollbackExactly(all, [own], [UnderContractId(named.next)], id);
    ConcernedByOne(all, own, [UnderContractId(named.next)], id);
    assert id in all.contracts && id !in c.contracts && id != named.next ==> MadeFor(c, named, names, id);
  }

  /** Taking a refused deployment back leaves every contract as live as it was, exactly if none of its names was
      registered before: an older name contract, whoever made it, goes along. */
  lemma RefusedLeavesNothingIff(c: Chain, d: DeploymentView, node: NodeId)
    requires Sound(c) && Refused(c, d, node).1
    ensures (forall id :: Live(Refused(c, d, node).0, id) <==> Live(c, id)) <==>
            forall n :: n in GatewayNames(d.workloads) ==> n !in c.names
  {
    forall id ensures Live(Refused(c, d, node).0, id) <==>
                      Live(c, id)
                      && !(c.contracts[id].NameContract? && c.contracts[id].name in GatewayNames(d.workloads)) {
      RefusedLive(c, d, node, id);
    }
    if n :| n in GatewayNames(d.workloads) && n in c.names {
      assert Live(c, c.names[n]) && c.contracts[c.names[n]] == NameContract(n, true);
    }
  }
}
