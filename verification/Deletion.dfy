/** Which workloads a deletion takes along (`HighLevelBase._filterWorkloads`). */
module Deletion {
  import opened Lists
  import opened Workloads

  function Mounts(w: Workload): seq<string> {
    if w.data.MachineData? then w.data.mounts else []
  }

  function PublicIpOf(w: Workload): seq<string> {
    if w.data.MachineData? then [w.data.publicIp] else []
  }

  /** The names a machine drags along: its disks and its public address. */
  function Dependencies(w: Workload): seq<string> {
    Mounts(w) + PublicIpOf(w)
  }

  /** One pass over the machines: each one named so far adds its dependencies to the names. */
  function Closure(ws: seq<Workload>, names: seq<string>): seq<string> {
    if ws == [] then names
    else
      var before, w := Closure(Front(ws), names), Last(ws);
      if w.wtype == Zmachine && w.name in before then before + Dependencies(w) else before
  }

  function PassedMachines(ws: seq<Workload>, names: seq<string>): seq<Workload> {
    if ws == [] then []
    else
      var w := Last(ws);
      PassedMachines(Front(ws), names)
      + if w.wtype == Zmachine && w.name in Closure(Front(ws), names) then [w] else []
  }

  function Machines(ws: seq<Workload>): seq<Workload> {
    if ws == [] then [] else Machines(Front(ws)) + if Last(ws).wtype == Zmachine then [Last(ws)] else []
  }

  /** The names the final pass goes by: nothing is followed when everything goes or machines are not meant. */
  function FinalNames(ws: seq<Workload>, names: seq<string>, types: set<WorkloadType>): seq<string> {
    if names != [] && Zmachine in types then Closure(ws, names) else names
  }

  predicate Goes(w: Workload, names: seq<string>, types: set<WorkloadType>) {
    w.wtype != NetworkResource && w.wtype in types && (names == [] || w.name in names)
  }

  function Remaining(ws: seq<Workload>, names: seq<string>, types: set<WorkloadType>): seq<Workload> {
    if ws == [] then []
    else Remaining(Front(ws), names, types) + if Goes(Last(ws), names, types) then [] else [Last(ws)]
  }

  function Removed(ws: seq<Workload>, names: seq<string>, types: set<WorkloadType>): seq<Workload> {
    if ws == [] then []
    else Removed(Front(ws), names, types) + if Goes(Last(ws), names, types) then [Last(ws)] else []
  }

  class HighLevelBase {
    constructor () {}

    method FilterWorkloads(ws: seq<Workload>, requested: seq<string>, types: set<WorkloadType>)
      returns (remaining: seq<Workload>, machines: seq<Workload>, names: seq<string>)
      ensures names == FinalNames(ws, requested, types)
      ensures remaining == Remaining(ws, names, types)
      ensures machines == if requested == [] then Machines(ws)
                          else if Zmachine in types then PassedMachines(ws, requested) else []
    {
      names, machines, remaining := requested, [], [];
      if names == [] {
        for i := 0 to |ws|
          invariant machines == Machines(ws[..i])
        {
          TakeStep(ws, i);
          if ws[i].wtype == Zmachine {
            machines := machines + [ws[i]];
          }
        }
      }
      if names != [] && Zmachine in types {
        for i := 0 to |ws|
          invariant names == Closure(ws[..i], requested) && machines == PassedMachines(ws[..i], requested)
        {
          TakeStep(ws, i);
          var w := ws[i];
          if w.wtype != Zmachine || w.name !in names {
            continue;
          }
          for k := 0 to |Mounts(w)|
            invariant names == Closure(ws[..i], requested) + Mounts(w)[..k]
          {
            TakeStep(Mounts(w), k);
            names := names + [Mounts(w)[k]];
          }
          TakeAll(Mounts(w));
          names := names + PublicIpOf(w);
          machines := machines + [w];
        }
      }
      TakeAll(ws);
      for i := 0 to |ws|
        invariant remaining == Remaining(ws[..i], names, types)
      {
        TakeStep(ws, i);
        if ws[i].wtype == NetworkResource {
          remaining := remaining + [ws[i]];
          continue;
        }
        if ws[i].wtype !in types {
          remaining := remaining + [ws[i]];
          continue;
        }
        if names != [] && ws[i].name !in names {
          remaining := remaining + [ws[i]];
        }
      }
    }
  }

  // ----- Partition

  lemma {:induction false} Partition(ws: seq<Workload>, names: seq<string>, types: set<WorkloadType>)
    ensures multiset(Remaining(ws, names, types)) + multiset(Removed(ws, names, types)) == multiset(ws)
    ensures forall w :: w in Removed(ws, names, types) <==> w in ws && Goes(w, names, types)
    ensures forall w :: w in Remaining(ws, names, types) <==> w in ws && !Goes(w, names, types)
  {
    if ws != [] {
      assert ws == Front(ws) + [Last(ws)];
      Partition(Front(ws), names, types);
    }
  }

  /** Networks stay, and so does what is of another type or, unless everything goes, under another name. */
  lemma RemainingIff(ws: seq<Workload>, names: seq<string>, types: set<WorkloadType>, w: Workload)
    ensures w in Remaining(ws, names, types) <==>
            w in ws && (w.wtype == NetworkResource || w.wtype !in types || (names != [] && w.name !in names))
  {
    Partition(ws, names, types);
  }

  /** What the pass adds to the names are the disks and the public addresses of the machines passed. */
  lemma {:induction false} NamesDragged(ws: seq<Workload>, names: seq<string>, name: string)
    ensures name in Closure(ws, names) <==>
            name in names || exists m :: m in PassedMachines(ws, names) && m.data.MachineData?
                                         && (name in m.data.mounts || name == m.data.publicIp)
  {
    if ws != [] {
      var f, w := Front(ws), Last(ws);
      NamesDragged(f, names, name);
      var before, all := PassedMachines(f, names), PassedMachines(ws, names);
      assert forall m :: m in before ==> m in all;
      if w.wtype == Zmachine && w.name in Closure(f, names) {
        assert all == before + [w];
        assert name in Dependencies(w) <==> w.data.MachineData? && (name in w.data.mounts || name == w.data.publicIp);
        assert w in all && forall m :: m in all <==> m in before || m == w;
      } else {
        assert all == before;
      }
    }
  }

  /** Without names all machines are reported; with names, those reached in list order by what comes before them. */
  lemma {:induction false} PassedIff(ws: seq<Workload>, names: seq<string>, w: Workload)
    ensures w in Machines(ws) <==> w in ws && w.wtype == Zmachine
    ensures w in PassedMachines(ws, names) <==>
            exists i :: 0 <= i < |ws| && ws[i] == w && w.wtype == Zmachine && DraggedInOrder(ws[..i], names, w.name)
  {
    if ws != [] {
      var f, l, n := Front(ws), Last(ws), |ws| - 1;
      assert ws == f + [l] && ws[..n] == f;
      PassedIff(f, names, w);
      ClosureIff(f, names, l.name);
      assert forall i :: 0 <= i < n ==> ws[..i] == f[..i] && ws[i] == f[i];
    }
  }

  // ----- Closedness

  predicate DependsOn(m: Workload, u: Workload) {
    m.wtype == Zmachine && u.name in Dependencies(m)
  }

  /** Nothing a removed machine used is left behind, as far as its type is up for removal. */
  ghost predicate Closed(ws: seq<Workload>, names: seq<string>, types: set<WorkloadType>) {
    forall m, u | m in ws && Goes(m, names, types) && u in ws && DependsOn(m, u) ::
      u.wtype != NetworkResource && u.wtype in types ==> Goes(u, names, types)
  }

  lemma {:induction false} ClosureGrows(ws: seq<Workload>, names: seq<string>)
    ensures names <= Closure(ws, names)
  {
    if ws != [] {
      ClosureGrows(Front(ws), names);
    }
  }

  /** A machine already named before the pass has its dependencies named after it. */
  lemma {:induction false} NamedMachineFollowed(ws: seq<Workload>, names: seq<string>, m: Workload, name: string)
    requires m in ws && m.wtype == Zmachine && m.name in names && name in Dependencies(m)
    ensures name in Closure(ws, names)
  {
    ClosureGrows(Front(ws), names);
    if m != Last(ws) {
      assert ws == Front(ws) + [Last(ws)];
      NamedMachineFollowed(Front(ws), names, m, name);
    }
  }

  /** The machines at these positions lead from what was asked for to `name`: the first was asked for, each further
      one is a dependency of the one before, and `name` is a dependency of the last. */
  predicate Chained(ws: seq<Workload>, requested: seq<string>, path: seq<int>, name: string)
    decreases |path|
  {
    if path == [] then name in requested
    else
      && 0 <= Last(path) < |ws| && ws[Last(path)].wtype == Zmachine && name in Dependencies(ws[Last(path)])
      && Chained(ws, requested, Front(path), ws[Last(path)].name)
  }

  predicate Increasing(path: seq<int>) {
    forall j, k :: 0 <= j < k < |path| ==> path[j] < path[k]
  }

  /** The name was asked for, or hangs on something asked for over any number of machines. */
  ghost predicate DraggedAlong(ws: seq<Workload>, requested: seq<string>, name: string) {
    exists path :: Chained(ws, requested, path, name)
  }

  /** The same over machines that come in that order in the deployment. */
  ghost predicate DraggedInOrder(ws: seq<Workload>, requested: seq<string>, name: string) {
    exists path :: Increasing(path) && Chained(ws, requested, path, name)
  }

  lemma {:induction false} ChainInBounds(ws: seq<Workload>, requested: seq<string>, path: seq<int>, name: string)
    requires Chained(ws, requested, path, name)
    ensures forall k :: 0 <= k < |path| ==> 0 <= path[k] < |ws|
    decreases |path|
  {
    if path != [] {
      ChainInBounds(ws, requested, Front(path), ws[Last(path)].name);
      assert path == Front(path) + [Last(path)];
    }
  }

  lemma {:induction false} ChainInLonger(ws: seq<Workload>, longer: seq<Workload>, requested: seq<string>,
                                         path: seq<int>, name: string)
    requires Chained(ws, requested, path, name) && ws <= longer
    ensures Chained(longer, requested, path, name)
    decreases |path|
  {
    if path != [] {
      ChainInLonger(ws, longer, requested, Front(path), ws[Last(path)].name);
    }
  }

  lemma ChainExtended(ws: seq<Workload>, requested: seq<string>, path: seq<int>, i: nat, name: string)
    requires i < |ws| && ws[i].wtype == Zmachine && name in Dependencies(ws[i])
    requires Chained(ws, requested, path, ws[i].name)
    ensures Chained(ws, requested, path + [i], name)
  {
    assert Front(path + [i]) == path;
  }

  lemma DraggedByEarlier(ws: seq<Workload>, requested: seq<string>, name: string)
    requires ws != [] && DraggedInOrder(Front(ws), requested, name)
    ensures DraggedInOrder(ws, requested, name)
  {
    var path :| Increasing(path) && Chained(Front(ws), requested, path, name);
    ChainInLonger(Front(ws), ws, requested, path, name);
  }

  lemma ChainedToLast(ws: seq<Workload>, requested: seq<string>, path: seq<int>, name: string)
    requires ws != [] && Last(ws).wtype == Zmachine && name in Dependencies(Last(ws))
    requires Increasing(path) && Chained(Front(ws), requested, path, Last(ws).name)
    ensures Increasing(path + [|ws| - 1]) && Chained(ws, requested, path + [|ws| - 1], name)
  {
    ChainInBounds(Front(ws), requested, path, Last(ws).name);
    ChainInLonger(Front(ws), ws, requested, path, Last(ws).name);
    ChainExtended(ws, requested, path, |ws| - 1, name);
  }

  lemma DraggedByLast(ws: seq<Workload>, requested: seq<string>, name: string)
    requires ws != [] && Last(ws).wtype == Zmachine && name in Dependencies(Last(ws))
    requires DraggedInOrder(Front(ws), requested, Last(ws).name)
    ensures DraggedInOrder(ws, requested, name)
  {
    var path :| Increasing(path) && Chained(Front(ws), requested, path, Last(ws).name);
    ChainedToLast(ws, requested, path, name);
  }

  /** Whatever the pass names is reached in order. */
  lemma {:induction false} ClosureIsDragged(ws: seq<Workload>, requested: seq<string>, name: string)
    requires name in Closure(ws, requested)
    ensures DraggedInOrder(ws, requested, name)
  {
    if ws == [] {
      assert Increasing([]) && Chained(ws, requested, [], name);
    } else if name in Closure(Front(ws), requested) {
      ClosureIsDragged(Front(ws), requested, name);
      DraggedByEarlier(ws, requested, name);
    } else {
      ClosureIsDragged(Front(ws), requested, Last(ws).name);
      DraggedByLast(ws, requested, name);
    }
  }

  lemma {:induction false} ClosureOfPrefix(ws: seq<Workload>, requested: seq<string>, n: nat)
    requires n <= |ws|
    ensures Closure(ws[..n], requested) <= Closure(ws, requested)
  {
    if n == |ws| {
      assert ws[..n] == ws;
    } else {
      assert Front(ws)[..n] == ws[..n];
      ClosureOfPrefix(Front(ws), requested, n);
    }
  }

  /** A machine named before its turn has its dependencies named from then on. */
  lemma NamedBeforeItsTurn(ws: seq<Workload>, requested: seq<string>, l: nat, name: string)
    requires l < |ws| && ws[l].wtype == Zmachine && name in Dependencies(ws[l])
    requires ws[l].name in Closure(ws[..l], requested)
    ensures name in Closure(ws, requested)
  {
    TakeStep(ws, l);
    ClosureOfPrefix(ws, requested, l + 1);
    assert name in Closure(ws[..l + 1], requested);
  }

  /** Whatever is reached in order over the first `n` workloads is named by the pass once it is past them. */
  lemma {:induction false} DraggedIsInClosure(ws: seq<Workload>, requested: seq<string>, path: seq<int>, name: string,
                                              n: nat)
    requires Increasing(path) && Chained(ws, requested, path, name)
    requires n <= |ws| && (path != [] ==> Last(path) < n)
    ensures name in Closure(ws[..n], requested)
    decreases |path|
  {
    if path == [] {
      ClosureGrows(ws[..n], requested);
    } else {
      var l := Last(path);
      DraggedIsInClosure(ws, requested, Front(path), ws[l].name, l);
      assert ws[..n][..l] == ws[..l];
      NamedBeforeItsTurn(ws[..n], requested, l, name);
    }
  }

  /** The pass names exactly what is reached over machines in their order in the deployment. */
  lemma ClosureIff(ws: seq<Workload>, requested: seq<string>, name: string)
    ensures name in Closure(ws, requested) <==> DraggedInOrder(ws, requested, name)
  {
    if name in Closure(ws, requested) {
      ClosureIsDragged(ws, requested, name);
    }
    if path :| Increasing(path) && Chained(ws, requested, path, name) {
      ChainInBounds(ws, requested, path, name);
      DraggedIsInClosure(ws, requested, path, name, |ws|);
      assert ws[..|ws|] == ws;
    }
  }

  /** Every name in the closure was asked for or is a dependency of a machine in the closure. */
  lemma ClosureOrigin(ws: seq<Workload>, names: seq<string>, name: string)
    requires name in Closure(ws, names) && name !in names
    ensures exists m :: m in ws && m.wtype == Zmachine && m.name in Closure(ws, names) && name in Dependencies(m)
  {
    ClosureIff(ws, names, name);
    var path :| Increasing(path) && Chained(ws, names, path, name);
    var m := ws[Last(path)];
    assert Increasing(Front(path));
    ClosureIff(ws, names, m.name);
    assert m in ws;
  }

  /** As long as no machine is itself listed as some machine's disk or address, one pass is enough. */
  lemma ClosedWhenMachinesAreNoDependencies(ws: seq<Workload>, requested: seq<string>, types: set<WorkloadType>)
    requires forall a, b :: a in ws && b in ws && a.wtype == Zmachine ==> !DependsOn(b, a)
    ensures Closed(ws, FinalNames(ws, requested, types), types)
  {
    var names := FinalNames(ws, requested, types);
    ClosureGrows(ws, requested);
    forall m, u | m in ws && Goes(m, names, types) && u in ws && DependsOn(m, u)
      ensures names == [] || u.name in names
    {
      if requested != [] {
        if m.name !in requested {
          ClosureOrigin(ws, requested, m.name);
          var b :| b in ws && b.wtype == Zmachine && m.name in Dependencies(b);
          assert DependsOn(b, m);
          assert false;
        }
        NamedMachineFollowed(ws, requested, m, u.name);
      }
    }
  }

  /** From closed names everything reached over any machines is named, as far as its type is up for removal. */
  lemma {:induction false} ClosedReachesAll(ws: seq<Workload>, requested: seq<string>, types: set<WorkloadType>,
                                            path: seq<int>, u: Workload)
    requires Zmachine in types && requested != [] && Closed(ws, Closure(ws, requested), types)
    requires u in ws && u.wtype != NetworkResource && u.wtype in types && Chained(ws, requested, path, u.name)
    ensures u.name in Closure(ws, requested)
    decreases |path|
  {
    ClosureGrows(ws, requested);
    if path != [] {
      var m := ws[Last(path)];
      ClosedReachesAll(ws, requested, types, Front(path), m);
      assert Goes(m, Closure(ws, requested), types) && DependsOn(m, u);
    }
  }

  /** Everything that is to go is reached over machines in order. */
  ghost predicate Orderly(ws: seq<Workload>, requested: seq<string>, types: set<WorkloadType>) {
    forall u :: u in ws && u.wtype != NetworkResource && u.wtype in types && DraggedAlong(ws, requested, u.name) ==>
      DraggedInOrder(ws, requested, u.name)
  }

  lemma ClosedIsOrderly(ws: seq<Workload>, requested: seq<string>, types: set<WorkloadType>)
    requires Zmachine in types && requested != [] && Closed(ws, Closure(ws, requested), types)
    ensures Orderly(ws, requested, types)
  {
    forall u | u in ws && u.wtype != NetworkResource && u.wtype in types && DraggedAlong(ws, requested, u.name)
      ensures DraggedInOrder(ws, requested, u.name)
    {
      var path :| Chained(ws, requested, path, u.name);
      ClosedReachesAll(ws, requested, types, path, u);
      ClosureIff(ws, requested, u.name);
    }
  }

  lemma DependencyDragged(ws: seq<Workload>, requested: seq<string>, m: Workload, name: string)
    requires m in ws && m.wtype == Zmachine && name in Dependencies(m) && m.name in Closure(ws, requested)
    ensures DraggedAlong(ws, requested, name)
  {
    ClosureIff(ws, requested, m.name);
    var path :| Increasing(path) && Chained(ws, requested, path, m.name);
    var i :| 0 <= i < |ws| && ws[i] == m;
    ChainExtended(ws, requested, path, i, name);
  }

  lemma OrderlyIsClosed(ws: seq<Workload>, requested: seq<string>, types: set<WorkloadType>)
    requires requested != [] && Orderly(ws, requested, types)
    ensures Closed(ws, Closure(ws, requested), types)
  {
    var names := Closure(ws, requested);
    ClosureGrows(ws, requested);
    forall m, u | m in ws && Goes(m, names, types) && u in ws && DependsOn(m, u)
                  && u.wtype != NetworkResource && u.wtype in types
      ensures u.name in names
    {
      DependencyDragged(ws, requested, m, u.name);
      ClosureIff(ws, requested, u.name);
    }
  }

  /** One pass is enough exactly if whatever hangs on the request over some machines also does over machines that
      come in that order in the deployment; nothing is followed when everything goes or machines are not meant. */
  lemma ClosedIff(ws: seq<Workload>, requested: seq<string>, types: set<WorkloadType>)
    ensures Closed(ws, FinalNames(ws, requested, types), types) <==>
            requested == [] || Zmachine !in types || Orderly(ws, requested, types)
  {
    if requested != [] && Zmachine in types {
      if Closed(ws, Closure(ws, requested), types) {
        ClosedIsOrderly(ws, requested, types);
      }
      if Orderly(ws, requested, types) {
        OrderlyIsClosed(ws, requested, types);
      }
    }
  }

  /** Equally, a second pass, started from the names of the first, would remove nothing more. */
  lemma SecondPassIff(ws: seq<Workload>, requested: seq<string>, types: set<WorkloadType>)
    requires Zmachine in types && requested != []
    ensures var names := Closure(ws, requested);
            Closed(ws, names, types) <==>
            Remaining(ws, Closure(ws, names), types) == Remaining(ws, names, types)
  {
    var names := Closure(ws, requested);
    var again := Closure(ws, names);
    ClosureGrows(ws, requested);
    ClosureGrows(ws, names);
    if Closed(ws, names, types) {
      forall w | w in ws ensures Goes(w, again, types) <==> Goes(w, names, types) {
        if Goes(w, again, types) && w.name !in names {
          SecondPassAddsNothing(ws, names, types, ws, w);
          assert false;
        }
      }
      SameRemaining(ws, names, again, types);
    }
    if Remaining(ws, again, types) == Remaining(ws, names, types) {
      Partition(ws, names, types);
      Partition(ws, again, types);
      forall m, u | m in ws && Goes(m, names, types) && u in ws && DependsOn(m, u)
                    && u.wtype != NetworkResource && u.wtype in types
        ensures Goes(u, names, types)
      {
        NamedMachineFollowed(ws, names, m, u.name);
        assert u !in Remaining(ws, again, types);
      }
    }
  }

  /** From closed names, a further pass reaches no workload of the given types that was not named already. */
  lemma {:induction false} SecondPassAddsNothing(all: seq<Workload>, names: seq<string>, types: set<WorkloadType>,
                                                 ws: seq<Workload>, w: Workload)
    requires Closed(all, names, types) && Zmachine in types && names != []
    requires forall x :: x in ws ==> x in all
    requires w in all && w.wtype != NetworkResource && w.wtype in types && w.name in Closure(ws, names)
    ensures w.name in names
  {
    if ws != [] {
      var before, m := Closure(Front(ws), names), Last(ws);
      assert ws == Front(ws) + [m] && m in ws;
      assert forall x :: x in Front(ws) ==> x in ws;
      if w.name in before {
        SecondPassAddsNothing(all, names, types, Front(ws), w);
      } else {
        SecondPassAddsNothing(all, names, types, Front(ws), m);
        assert Goes(m, names, types) && DependsOn(m, w);
      }
    }
  }

  lemma {:induction false} SameRemaining(ws: seq<Workload>, names: seq<string>, names': seq<string>,
                                         types: set<WorkloadType>)
    requires forall w :: w in ws ==> (Goes(w, names, types) <==> Goes(w, names', types))
    ensures Remaining(ws, names, types) == Remaining(ws, names', types)
  {
    if ws != [] {
      assert ws == Front(ws) + [Last(ws)] && Last(ws) in ws;
      SameRemaining(Front(ws), names, names', types);
    }
  }

  /** One pass can fall short: a machine named only by a later one goes without its disk. */
  lemma OnePassMayFallShort()
    ensures var a := Workload("a", Zmachine, 0, "", "", MachineData("net", 0, "", ["disk"], 0, 0, ""));
            var b := Workload("b", Zmachine, 0, "", "", MachineData("net", 1, "", ["a"], 0, 0, ""));
            var disk := Workload("disk", Zmount, 0, "", "", SizedData(1, ""));
            !Closed([a, b, disk], FinalNames([a, b, disk], ["b"], {Zmachine, Zmount}), {Zmachine, Zmount})
  {
    var a := Workload("a", Zmachine, 0, "", "", MachineData("net", 0, "", ["disk"], 0, 0, ""));
    var b := Workload("b", Zmachine, 0, "", "", MachineData("net", 1, "", ["a"], 0, 0, ""));
    var disk := Workload("disk", Zmount, 0, "", "", SizedData(1, ""));
    var ws, none: seq<Workload> := [a, b, disk], [];
    var types := {Zmachine, Zmount};
    assert Front(ws) == [a, b] && Front([a, b]) == [a] && Front([a]) == none;
    assert Closure(none, ["b"]) == ["b"] && Closure([a], ["b"]) == ["b"];
    assert Closure([a, b], ["b"]) == ["b", "a", ""];
    assert FinalNames(ws, ["b"], types) == ["b", "a", ""];
    assert a in ws && disk in ws && Dependencies(a) == ["disk", ""] && "disk" in Dependencies(a);
    assert Goes(a, ["b", "a", ""], types) && DependsOn(a, disk) && !Goes(disk, ["b", "a", ""], types);
  }

  /** The machines reported as deleted really go, except when everything is asked for and machines are not meant. */
  lemma ReportedMachinesGoIff(ws: seq<Workload>, requested: seq<string>, types: set<WorkloadType>)
    ensures var machines := if requested == [] then Machines(ws)
                            else if Zmachine in types then PassedMachines(ws, requested) else [];
            (forall m :: m in machines ==> Goes(m, FinalNames(ws, requested, types), types))
            <==> Zmachine in types || requested != [] || Machines(ws) == []
  {
    InMachines(ws);
    InPassed(ws, requested);
    if requested == [] && Machines(ws) != [] {
      var m := Machines(ws)[0];
      assert m in Machines(ws);
      assert Zmachine !in types ==> !Goes(m, FinalNames(ws, requested, types), types);
    }
  }

  lemma {:induction false} InMachines(ws: seq<Workload>)
    ensures forall m :: m in Machines(ws) <==> m in ws && m.wtype == Zmachine
  {
    if ws != [] {
      assert ws == Front(ws) + [Last(ws)];
      InMachines(Front(ws));
    }
  }

  lemma {:induction false} InPassed(ws: seq<Workload>, names: seq<string>)
    ensures forall m :: m in PassedMachines(ws, names) ==>
              m in ws && m.wtype == Zmachine && m.name in Closure(ws, names)
  {
    if ws != [] {
      assert ws == Front(ws) + [Last(ws)];
      InPassed(Front(ws), names);
    }
  }
}
