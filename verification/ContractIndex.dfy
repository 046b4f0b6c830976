/** The stored index of contracts per deployment (`BaseModule.save` and `_get`), kept in a file-system store. */
module ContractIndex {
  import opened Lists
  import opened Workloads
  import opened Readiness
  import opened FileStore

  type Files = map<Path, Document>

  /** What the chain and the node answer about a contract. */
  datatype Fetch = DeletedOnChain | Unreachable | Fetched(deployment: Reported)

  datatype Reported = Reported(contractId: nat, workloads: seq<(WorkloadType, ResultState)>)

  /** Where a module keeps its index. */
  datatype Location = Location(store: Path, project: string, moduleName: string) {
    function ModuleDir(): Path {
      store + [Folder(project), Folder(moduleName)]
    }

    function DeploymentDir(name: string): Path {
      ModuleDir() + [Folder(name)]
    }

    function ListPath(name: string): Path {
      DeploymentDir(name) + [ListFile]
    }

    function ConfPath(name: string): Path {
      DeploymentDir(name) + [ConfFile(name)]
    }

    function InfoPath(contractId: nat): Path {
      store + [Folder("contracts"), ContractFile(contractId)]
    }
  }

  function Entries(files: Files, at: Location, name: string): seq<Entry> {
    var p := at.ListPath(name);
    if p in files && files[p].Contracts? then files[p].entries else []
  }

  predicate Listed(files: Files, at: Location, name: string, id: nat) {
    exists e :: e in Entries(files, at, name) && e.contractId == id
  }

  predicate PointsTo(files: Files, at: Location, id: nat, name: string) {
    var p := at.InfoPath(id);
    p in files && files[p] == Info(at.project, at.moduleName, name)
  }

  function Lookup(files: Files, p: Path): Option<Document> {
    if p in files then Some(files[p]) else None
  }

  // ----- Saving, path by path

  function WithoutId(entries: seq<Entry>, id: nat): seq<Entry> {
    if entries == [] then []
    else WithoutId(Front(entries), id) + if Last(entries).contractId == id then [] else [Last(entries)]
  }

  function WithoutIds(entries: seq<Entry>, ids: seq<nat>): seq<Entry> {
    if ids == [] then entries else WithoutId(WithoutIds(entries, Front(ids)), Last(ids))
  }

  predicate Creates(created: seq<Entry>, id: nat) {
    exists e :: e in created && e.contractId == id
  }

  function SavedEntries(files: Files, at: Location, name: string, created: seq<Entry>, deleted: seq<nat>): seq<Entry> {
    WithoutIds(Entries(files, at, name) + created, deleted)
  }

  /** The document at `p` after a save. */
  function SavedAt(files: Files, at: Location, name: string, created: seq<Entry>, deleted: seq<nat>,
                   conf: Option<string>, p: Path): Option<Document> {
    var entries := SavedEntries(files, at, name, created, deleted);
    if p == at.ListPath(name) then
      if entries != [] then Some(Contracts(entries)) else None
    else if p == at.ConfPath(name) then
      if entries == [] then None else if conf.Some? then Some(Conf(conf.value)) else Lookup(files, p)
    else if |p| == |at.store| + 2 && p[|p| - 1].ContractFile? && p == at.InfoPath(p[|p| - 1].contractId) then
      var id := p[|p| - 1].contractId;
      if id in deleted then None
      else if Creates(created, id) then Some(Info(at.project, at.moduleName, name))
      else Lookup(files, p)
    else Lookup(files, p)
  }

  // ----- The invariant

  /** File names end paths, folder names lead to them. */
  predicate ShapedPath(p: Path) {
    p != [] && !Last(p).Folder? && forall i :: 0 <= i < |p| - 1 ==> p[i].Folder?
  }

  ghost predicate Shaped(files: Files) {
    forall p :: p in files ==> ShapedPath(p)
  }

  /** Under the module's directory there are only non-empty lists and, beside them, configurations. */
  ghost predicate Tidy(files: Files, at: Location) {
    && (forall p :: p in files && at.ModuleDir() < p ==>
          exists name :: p == at.ListPath(name) || p == at.ConfPath(name))
    && (forall name :: at.ListPath(name) in files ==> Entries(files, at, name) != [])
    && (forall name :: at.ConfPath(name) in files ==> at.ListPath(name) in files)
  }

  /** The entry stored for a contract names the deployment that lists it. */
  ghost predicate Agree(files: Files, at: Location) {
    forall id, name :: PointsTo(files, at, id, name) <==> Listed(files, at, name, id)
  }

  /** The store is not the only thing on the file system. */
  ghost predicate OthersStored(files: Files, at: Location) {
    exists p :: p in files && !(at.store <= p)
  }

  // ----- Paths do not get in each other's way

  lemma PathsDiffer(at: Location, a: string, b: string, id: nat, id': nat)
    ensures at.ListPath(a) == at.ListPath(b) <==> a == b
    ensures at.ConfPath(a) == at.ConfPath(b) <==> a == b
    ensures at.InfoPath(id) == at.InfoPath(id') <==> id == id'
    ensures at.ListPath(a) != at.ConfPath(b)
    ensures at.ListPath(a) != at.InfoPath(id) && at.ConfPath(a) != at.InfoPath(id)
  {
    var n := |at.store|;
    assert at.ListPath(a)[n + 2] == Folder(a) && at.ListPath(b)[n + 2] == Folder(b);
    assert at.ConfPath(a)[n + 2] == Folder(a) && at.ConfPath(b)[n + 2] == Folder(b);
    assert at.ListPath(a)[n + 3] == ListFile && at.ConfPath(b)[n + 3] == ConfFile(b);
    assert at.InfoPath(id)[n + 1] == ContractFile(id) && at.InfoPath(id')[n + 1] == ContractFile(id');
  }

  lemma {:induction false} InWithoutId(entries: seq<Entry>, id: nat, e: Entry)
    ensures e in WithoutId(entries, id) <==> e in entries && e.contractId != id
  {
    if entries != [] {
      assert entries == Front(entries) + [Last(entries)];
      InWithoutId(Front(entries), id, e);
    }
  }

  lemma {:induction false} InWithoutIds(entries: seq<Entry>, ids: seq<nat>, e: Entry)
    ensures e in WithoutIds(entries, ids) <==> e in entries && e.contractId !in ids
  {
    if ids != [] {
      assert ids == Front(ids) + [Last(ids)];
      InWithoutIds(entries, Front(ids), e);
      InWithoutId(WithoutIds(entries, Front(ids)), Last(ids), e);
    }
  }

  ghost predicate SavedFrom(was: Files, files: Files, at: Location, name: string, created: seq<Entry>,
                            deleted: seq<nat>, conf: Option<string>) {
    forall p :: Lookup(files, p) == SavedAt(was, at, name, created, deleted, conf, p)
  }

  /** What a save does to the lists and to the entries per contract. */
  lemma SaveEffect(was: Files, files: Files, at: Location, name: string, created: seq<Entry>, deleted: seq<nat>,
                   conf: Option<string>, other: string, id: nat)
    requires SavedFrom(was, files, at, name, created, deleted, conf)
    ensures Entries(files, at, name) == SavedEntries(was, at, name, created, deleted)
    ensures other != name ==> Lookup(files, at.ListPath(other)) == Lookup(was, at.ListPath(other))
                              && Lookup(files, at.ConfPath(other)) == Lookup(was, at.ConfPath(other))
    ensures Lookup(files, at.InfoPath(id))
            == if id in deleted then None
               else if Creates(created, id) then Some(Info(at.project, at.moduleName, name))
               else Lookup(was, at.InfoPath(id))
  {
    PathsDiffer(at, name, other, id, id);
    var p := at.InfoPath(id);
    assert p[|p| - 1] == ContractFile(id) && |p| == |at.store| + 2;
    assert Lookup(files, at.ListPath(name)) == SavedAt(was, at, name, created, deleted, conf, at.ListPath(name));
    assert Lookup(files, p) == SavedAt(was, at, name, created, deleted, conf, p);
    assert Lookup(files, at.ListPath(other)) == SavedAt(was, at, name, created, deleted, conf, at.ListPath(other));
    assert Lookup(files, at.ConfPath(other)) == SavedAt(was, at, name, created, deleted, conf, at.ConfPath(other));
  }

  /** Given entries that agree and contracts that are new, a save keeps them agreeing exactly if none of the
      contracts it deletes is listed under another deployment. */
  lemma SaveAgreesIff(was: Files, files: Files, at: Location, name: string, created: seq<Entry>, deleted: seq<nat>,
                      conf: Option<string>)
    requires SavedFrom(was, files, at, name, created, deleted, conf) && Agree(was, at)
    requires forall e, other :: e in created && other != name ==> !Listed(was, at, other, e.contractId)
    ensures Agree(files, at) <==> forall id, other :: id in deleted && other != name ==> !Listed(was, at, other, id)
  {
    forall id, other
      ensures Listed(files, at, other, id) <==>
              if other != name then Listed(was, at, other, id)
              else id !in deleted && (Listed(was, at, name, id) || Creates(created, id))
      ensures PointsTo(files, at, id, other) <==>
              id !in deleted && if Creates(created, id) then other == name else PointsTo(was, at, id, other)
    {
      SaveEffect(was, files, at, name, created, deleted, conf, other, id);
      ListedAfter(was, files, at, name, created, deleted, id);
    }
  }

  /** Deleting another deployment's contract leaves it listed there without an entry of its own. */
  lemma ForeignDelete(at: Location)
    ensures var listed := map[at.ListPath("a") := Contracts([Entry(1, 7)])];
            var was := listed[at.InfoPath(1) := Info(at.project, at.moduleName, "a")];
            Agree(was, at) && SavedFrom(was, listed, at, "b", [], [1], None) && !Agree(listed, at)
  {
    var e := Entry(1, 7);
    var listed: Files := map[at.ListPath("a") := Contracts([e])];
    var was := listed[at.InfoPath(1) := Info(at.project, at.moduleName, "a")];
    forall id, name ensures PointsTo(was, at, id, name) <==> Listed(was, at, name, id) {
      PathsDiffer(at, name, "a", id, 1);
      PathsDiffer(at, name, "a", 1, id);
      assert name == "a" ==> Entries(was, at, name) == [e] && e in [e];
    }
    PathsDiffer(at, "b", "a", 1, 1);
    assert SavedEntries(was, at, "b", [], [1]) == [] by {
      var none: seq<Entry> := [];
      assert at.ListPath("b") !in was && Entries(was, at, "b") + none == none;
      NothingWithout([1]);
    }
    forall p ensures Lookup(listed, p) == SavedAt(was, at, "b", [], [1], None, p) {
    }
    PathsDiffer(at, "a", "a", 1, 1);
    assert Entries(listed, at, "a") == [e] && Listed(listed, at, "a", 1) && !PointsTo(listed, at, 1, "a");
  }

  lemma ListedAfter(was: Files, files: Files, at: Location, name: string, created: seq<Entry>, deleted: seq<nat>,
                    id: nat)
    requires Entries(files, at, name) == SavedEntries(was, at, name, created, deleted)
    ensures Listed(files, at, name, id) <==> id !in deleted && (Listed(was, at, name, id) || Creates(created, id))
  {
    var before := Entries(was, at, name) + created;
    forall e ensures e in Entries(files, at, name) <==> e in before && e.contractId !in deleted {
      InWithoutIds(before, deleted, e);
    }
    if e :| e in created && e.contractId == id {
      assert e in before;
    }
    if e :| e in Entries(was, at, name) && e.contractId == id {
      assert e in before;
    }
  }

  /** A save leaves no empty list and no configuration without a list. */
  lemma SaveKeepsTidy(was: Files, files: Files, at: Location, name: string, created: seq<Entry>, deleted: seq<nat>,
                      conf: Option<string>)
    requires SavedFrom(was, files, at, name, created, deleted, conf) && Tidy(was, at)
    ensures Tidy(files, at)
  {
    forall other ensures at.ListPath(other) in files ==> Entries(files, at, other) != []
                 ensures at.ConfPath(other) in files ==> at.ListPath(other) in files
    {
      SaveEffect(was, files, at, name, created, deleted, conf, other, 0);
      PathsDiffer(at, name, other, 0, 0);
      assert Lookup(files, at.ListPath(name)) == SavedAt(was, at, name, created, deleted, conf, at.ListPath(name));
      assert Lookup(files, at.ConfPath(name)) == SavedAt(was, at, name, created, deleted, conf, at.ConfPath(name));
    }
    forall p | p in files && at.ModuleDir() < p
      ensures exists other :: p == at.ListPath(other) || p == at.ConfPath(other)
    {
      assert Lookup(files, p) == SavedAt(was, at, name, created, deleted, conf, p);
      if p !in was && p != at.ListPath(name) && p != at.ConfPath(name) {
        assert false;
      }
    }
  }

  // ----- Runs of saves

  datatype SaveCall = SaveCall(name: string, created: seq<Entry>, deleted: seq<nat>, conf: Option<string>)

  ghost predicate SaveRun(states: seq<Files>, calls: seq<SaveCall>, at: Location) {
    && |states| == |calls| + 1
    && forall i :: 0 <= i < |calls| ==>
         SavedFrom(states[i], states[i + 1], at, calls[i].name, calls[i].created, calls[i].deleted, calls[i].conf)
  }

  /** No contract created is listed under another deployment yet. */
  ghost predicate NewContracts(files: Files, at: Location, call: SaveCall) {
    forall e, other :: e in call.created && other != call.name ==> !Listed(files, at, other, e.contractId)
  }

  ghost predicate OwnDeletes(files: Files, at: Location, call: SaveCall) {
    forall id, other :: id in call.deleted && other != call.name ==> !Listed(files, at, other, id)
  }

  /** Over any run of saves of new contracts, the lists and the entries per contract agree at every point up to the
      first save that deletes a contract listed under another deployment, and disagree after it. */
  lemma {:induction false} RunAgreesIff(states: seq<Files>, calls: seq<SaveCall>, at: Location, n: nat)
    requires SaveRun(states, calls, at) && Agree(states[0], at) && n <= |calls|
    requires forall i :: 0 <= i < n ==> NewContracts(states[i], at, calls[i])
    ensures (forall i :: 0 <= i <= n ==> Agree(states[i], at)) <==>
            (forall i :: 0 <= i < n ==> OwnDeletes(states[i], at, calls[i]))
  {
    if n > 0 {
      RunAgreesIff(states, calls, at, n - 1);
      var call := calls[n - 1];
      assert NewContracts(states[n - 1], at, call);
      if Agree(states[n - 1], at) {
        assert states[n - 1 + 1] == states[n];
        SaveAgreesIff(states[n - 1], states[n], at, call.name, call.created, call.deleted, call.conf);
      }
    }
  }

  /** On the file system, a deployment is listed in the module's directory exactly if its list is not empty. */
  lemma ListedIffNotEmpty(fs: FS, at: Location, name: string)
    requires fs.Valid() && Tidy(fs.files, at)
    ensures at.DeploymentDir(name) in fs.Children(at.ModuleDir()) <==> Entries(fs.files, at, name) != []
  {
    var dir := at.DeploymentDir(name);
    assert Dirname(dir) == at.ModuleDir();
    fs.DirsAreAncestors(dir);
    if Entries(fs.files, at, name) != [] {
      var p := at.ListPath(name);
      assert p in fs.files && dir < p;
    }
    if dir in fs.Children(at.ModuleDir()) {
      if dir in fs.files {
        var other :| dir == at.ListPath(other) || dir == at.ConfPath(other);
        assert false;
      }
      var p :| p in fs.files && dir < p;
      BelowIsListed(fs.files, at, name, p);
    }
  }

  lemma BelowIsListed(files: Files, at: Location, name: string, p: Path)
    requires Tidy(files, at) && p in files && at.DeploymentDir(name) < p
    ensures Entries(files, at, name) != []
  {
    var n := |at.store|;
    assert at.DeploymentDir(name)[n + 2] == Folder(name) && p[n + 2] == Folder(name);
    assert at.ModuleDir() < p;
    var other :| p == at.ListPath(other) || p == at.ConfPath(other);
    assert p[n + 2] == Folder(other);
  }

  // ----- The module

  predicate Live(d: Reported, types: set<WorkloadType>) {
    exists w :: w in d.workloads && w.0 in types && w.1 != StateDeleted
  }

  /** Whether an entry survives a reading: the chain still has the contract, and the node a live workload of it. */
  predicate Persists(fetch: map<nat, Fetch>, types: set<WorkloadType>, id: nat) {
    id in fetch && fetch[id].Fetched? && Live(fetch[id].deployment, types)
  }

  predicate Answered(fetch: map<nat, Fetch>, id: nat) {
    id in fetch && !fetch[id].Unreachable?
  }

  predicate AllAnswered(fetch: map<nat, Fetch>, entries: seq<Entry>) {
    forall i :: 0 <= i < |entries| ==> Answered(fetch, entries[i].contractId)
  }

  function KeptEntries(fetch: map<nat, Fetch>, types: set<WorkloadType>, entries: seq<Entry>): seq<Entry> {
    if entries == [] then []
    else KeptEntries(fetch, types, Front(entries))
         + if Persists(fetch, types, Last(entries).contractId) then [Last(entries)] else []
  }

  function ForgottenIds(fetch: map<nat, Fetch>, types: set<WorkloadType>, entries: seq<Entry>): seq<nat> {
    if entries == [] then []
    else ForgottenIds(fetch, types, Front(entries))
         + if Persists(fetch, types, Last(entries).contractId) then [] else [Last(entries).contractId]
  }

  /** The deployments of the entries that survive, in the order of the list. */
  function KeptDeployments(fetch: map<nat, Fetch>, types: set<WorkloadType>, entries: seq<Entry>): seq<Reported> {
    if entries == [] then []
    else
      var id := Last(entries).contractId;
      KeptDeployments(fetch, types, Front(entries)) + if Persists(fetch, types, id) then [fetch[id].deployment] else []
  }

  /** The first `n` entries were answered, and those of them that did not survive forgotten. */
  ghost predicate ReadFirst(was: Files, files: Files, at: Location, name: string, fetch: map<nat, Fetch>,
                            types: set<WorkloadType>, entries: seq<Entry>, n: nat) {
    && n <= |entries| && AllAnswered(fetch, entries[..n])
    && SavedFrom(was, files, at, name, [], ForgottenIds(fetch, types, entries[..n]), None)
  }

  /** A reading ended at a contract nothing is heard of, the first such one in the list. */
  ghost predicate StoppedAt(was: Files, files: Files, at: Location, name: string, fetch: map<nat, Fetch>,
                            types: set<WorkloadType>, id: nat) {
    var entries := Entries(was, at, name);
    !Answered(fetch, id)
    && exists n: nat ::
         ReadFirst(was, files, at, name, fetch, types, entries, n) && n < |entries| && entries[n].contractId == id
  }

  lemma ReadStep(fetch: map<nat, Fetch>, types: set<WorkloadType>, entries: seq<Entry>, i: nat)
    requires i < |entries|
    ensures var id := entries[i].contractId;
            var before, kept := ForgottenIds(fetch, types, entries[..i]), KeptDeployments(fetch, types, entries[..i]);
            && ForgottenIds(fetch, types, entries[..i + 1])
               == (if Persists(fetch, types, id) then before else before + [id])
            && KeptDeployments(fetch, types, entries[..i + 1])
               == (if Persists(fetch, types, id) then kept + [fetch[id].deployment] else kept)
            && (AllAnswered(fetch, entries[..i + 1]) <==> AllAnswered(fetch, entries[..i]) && Answered(fetch, id))
  {
    TakeStep(entries, i);
  }

  /** A reading leaves just the contracts whose deployments it returns, one by one, all of them live. */
  lemma {:induction false} SurvivorsMatch(fetch: map<nat, Fetch>, types: set<WorkloadType>, entries: seq<Entry>)
    ensures |KeptDeployments(fetch, types, entries)| == |KeptEntries(fetch, types, entries)|
    ensures forall i :: 0 <= i < |KeptEntries(fetch, types, entries)| ==>
              var id := KeptEntries(fetch, types, entries)[i].contractId;
              Persists(fetch, types, id) && KeptDeployments(fetch, types, entries)[i] == fetch[id].deployment
  {
    if entries != [] {
      SurvivorsMatch(fetch, types, Front(entries));
    }
  }

  lemma ReadLeavesSurvivors(was: Files, files: Files, at: Location, name: string, fetch: map<nat, Fetch>,
                            types: set<WorkloadType>, dropped: seq<nat>)
    requires SavedFrom(was, files, at, name, [], dropped, None)
    requires dropped == ForgottenIds(fetch, types, Entries(was, at, name))
    ensures Entries(files, at, name) == KeptEntries(fetch, types, Entries(was, at, name))
  {
    var entries := Entries(was, at, name);
    ReadLeaves(was, files, at, name, dropped);
    DroppedLeavesSurvivors(fetch, types, entries, entries);
  }

  lemma ReadLeaves(was: Files, files: Files, at: Location, name: string, dropped: seq<nat>)
    requires SavedFrom(was, files, at, name, [], dropped, None)
    ensures Entries(files, at, name) == WithoutIds(Entries(was, at, name), dropped)
  {
    var none: seq<Entry> := [];
    SaveEffect(was, files, at, name, none, dropped, None, name, 0);
    assert Entries(was, at, name) + none == Entries(was, at, name);
  }

  /** Given entries that agree, forgetting contracts of one's own list keeps them agreeing: a listed contract is
      listed once. */
  lemma ForgettingAgrees(was: Files, files: Files, at: Location, name: string, ids: seq<nat>)
    requires SavedFrom(was, files, at, name, [], ids, None)
    requires forall id :: id in ids ==> Listed(was, at, name, id)
    ensures Agree(was, at) ==> Agree(files, at)
  {
    if Agree(was, at) {
      forall id, other | id in ids && other != name ensures !Listed(was, at, other, id) {
        assert PointsTo(was, at, id, name) && !PointsTo(was, at, id, other);
      }
      SaveAgreesIff(was, files, at, name, [], ids, None);
    }
  }

  lemma ReadAgrees(was: Files, files: Files, at: Location, name: string, fetch: map<nat, Fetch>,
                   types: set<WorkloadType>, n: nat)
    requires ReadFirst(was, files, at, name, fetch, types, Entries(was, at, name), n)
    ensures Agree(was, at) ==> Agree(files, at)
  {
    var some := Entries(was, at, name)[..n];
    forall id | id in ForgottenIds(fetch, types, some) ensures Listed(was, at, name, id) {
      InForgottenIds(fetch, types, some, id);
    }
    ForgettingAgrees(was, files, at, name, ForgottenIds(fetch, types, some));
  }

  lemma {:induction false} InForgottenIds(fetch: map<nat, Fetch>, types: set<WorkloadType>, entries: seq<Entry>,
                                          id: nat)
    ensures id in ForgottenIds(fetch, types, entries) <==> Creates(entries, id) && !Persists(fetch, types, id)
  {
    if entries != [] {
      assert entries == Front(entries) + [Last(entries)];
      InForgottenIds(fetch, types, Front(entries), id);
      CreatesStep(Front(entries), Last(entries), id);
    }
  }

  /** An entry is forgotten exactly if the chain has no such contract any more, or the node reports every workload of
      the module's kinds as deleted. */
  lemma ForgottenIff(fetch: map<nat, Fetch>, types: set<WorkloadType>, entries: seq<Entry>, id: nat)
    ensures id in ForgottenIds(fetch, types, entries) <==>
            && (exists i :: 0 <= i < |entries| && entries[i].contractId == id)
            && (id !in fetch || !fetch[id].Fetched?
                || forall w :: w in fetch[id].deployment.workloads && w.0 in types ==> w.1 == StateDeleted)
  {
    InForgottenIds(fetch, types, entries, id);
    assert forall i :: 0 <= i < |entries| ==> entries[i] in entries;
  }

  lemma {:induction false} WithoutIdConcat(a: seq<Entry>, b: seq<Entry>, id: nat)
    ensures WithoutId(a + b, id) == WithoutId(a, id) + WithoutId(b, id)
  {
    if b == [] {
      assert a + b == a;
    } else {
      assert Front(a + b) == a + Front(b) && Last(a + b) == Last(b);
      WithoutIdConcat(a, Front(b), id);
      var x, y, z := WithoutId(a, id), WithoutId(Front(b), id), if Last(b).contractId != id then [Last(b)] else [];
      assert (x + y) + z == x + (y + z);
    }
  }

  lemma {:induction false} WithoutIdsConcat(a: seq<Entry>, b: seq<Entry>, ids: seq<nat>)
    ensures WithoutIds(a + b, ids) == WithoutIds(a, ids) + WithoutIds(b, ids)
  {
    if ids != [] {
      WithoutIdsConcat(a, b, Front(ids));
      WithoutIdConcat(WithoutIds(a, Front(ids)), WithoutIds(b, Front(ids)), Last(ids));
    }
  }

  lemma {:induction false} WithoutIdsOfOne(e: Entry, ids: seq<nat>)
    ensures WithoutIds([e], ids) == if e.contractId in ids then [] else [e]
  {
    if ids != [] {
      assert ids == Front(ids) + [Last(ids)];
      WithoutIdsOfOne(e, Front(ids));
      var none: seq<Entry> := [];
      assert Front([e]) == none && WithoutId(none, Last(ids)) == none;
    }
  }

  /** Forgetting what did not survive leaves the survivors, in order. */
  lemma {:induction false} DroppedLeavesSurvivors(fetch: map<nat, Fetch>, types: set<WorkloadType>, all: seq<Entry>,
                                                  entries: seq<Entry>)
    requires entries <= all
    ensures WithoutIds(entries, ForgottenIds(fetch, types, all)) == KeptEntries(fetch, types, entries)
    decreases |entries|
  {
    var dropped := ForgottenIds(fetch, types, all);
    if entries == [] {
      NothingWithout(dropped);
    } else {
      var f, e := Front(entries), Last(entries);
      assert entries == f + [e] && f <= all;
      DroppedLeavesSurvivors(fetch, types, all, f);
      WithoutIdsConcat(f, [e], dropped);
      WithoutIdsOfOne(e, dropped);
      InForgottenIds(fetch, types, all, e.contractId);
      assert e == all[|entries| - 1] && e in all;
    }
  }

  lemma {:induction false} NothingWithout(ids: seq<nat>)
    ensures WithoutIds([], ids) == []
  {
    if ids != [] {
      NothingWithout(Front(ids));
    }
  }

  /** Saving nothing changes nothing. */
  lemma SavedNothing(was: Files, at: Location, name: string)
    requires Tidy(was, at)
    ensures SavedFrom(was, was, at, name, [], [], None)
  {
    forall p ensures Lookup(was, p) == SavedAt(was, at, name, [], [], None, p) {
      assert SavedEntries(was, at, name, [], []) == Entries(was, at, name);
      assert at.ListPath(name) in was ==> was[at.ListPath(name)].Contracts?;
    }
  }

  /** Two deletions in a row are one deletion of both. */
  lemma SaveAgain(was: Files, mid: Files, files: Files, at: Location, name: string, dropped: seq<nat>, id: nat)
    requires SavedFrom(was, mid, at, name, [], dropped, None) && SavedFrom(mid, files, at, name, [], [id], None)
    ensures SavedFrom(was, files, at, name, [], dropped + [id], None)
  {
    SaveEffect(was, mid, at, name, [], dropped, None, name, 0);
    ForgottenAgain(was, mid, at, name, dropped, id);
    forall p ensures Lookup(files, p) == SavedAt(was, at, name, [], dropped + [id], None, p) {
      assert Lookup(mid, p) == SavedAt(was, at, name, [], dropped, None, p);
      assert Lookup(files, p) == SavedAt(mid, at, name, [], [id], None, p);
      if p == at.ConfPath(name) && SavedEntries(was, at, name, [], dropped) == [] {
        NothingWithout([id]);
      }
    }
  }

  lemma ForgottenAgain(was: Files, mid: Files, at: Location, name: string, dropped: seq<nat>, id: nat)
    requires Entries(mid, at, name) == SavedEntries(was, at, name, [], dropped)
    ensures SavedEntries(mid, at, name, [], [id]) == SavedEntries(was, at, name, [], dropped + [id])
  {
    var none: seq<Entry>, noIds: seq<nat> := [], [];
    var left := Entries(mid, at, name);
    assert left + none == left && Front(dropped + [id]) == dropped && Front([id]) == noIds;
    assert WithoutIds(left, noIds) == left && WithoutIds(left, [id]) == WithoutId(left, id);
  }

  lemma KeyIsFree(fs: FS, key: Path)
    requires fs.Valid() && Shaped(fs.files) && ShapedPath(key)
    ensures key !in fs.dirs && !fs.Blocked(Dirname(key))
  {
    fs.DirsAreAncestors(key);
    forall q | q in fs.files ensures !(key < q) {
      assert ShapedPath(q);
      assert |key| < |q| ==> q[|key| - 1].Folder?;
    }
    var d := Dirname(key);
    forall n | 0 <= n <= |d| ensures d[..n] !in fs.files {
      if n > 0 {
        assert Last(d[..n]) == key[n - 1];
      }
      assert !ShapedPath(d[..n]);
    }
  }

  class BaseModule {
    const fs: FS
    const at: Location
    const types: set<WorkloadType>

    constructor (fs: FS, at: Location, types: set<WorkloadType>)
      ensures this.fs == fs && this.at == at && this.types == types
    {
      this.fs, this.at, this.types := fs, at, types;
    }

    ghost predicate Ready()
      reads fs
    {
      fs.Valid() && Shaped(fs.files) && OthersStored(fs.files, at)
    }

    method Dump(p: Path, value: Option<Document>)
      requires Ready() && at.store <= p && ShapedPath(p)
      modifies fs
      ensures Ready()
      ensures fs.files == if value.Some? then old(fs.files)[p := value.value] else old(fs.files) - {p}
    {
      KeyIsFree(fs, p);
      ghost var anchor :| anchor in fs.files && !(at.store <= anchor);
      var stored := fs.Set(p, value);
      assert anchor in fs.files;
    }

    method GetDeploymentContracts(name: string) returns (entries: seq<Entry>)
      requires Ready()
      ensures entries == Entries(fs.files, at, name)
    {
      assert ShapedPath(at.ListPath(name)) || at.ListPath(name) !in fs.files;
      var doc := fs.Get(at.ListPath(name));
      return if doc.Ok? && doc.value.Some? && doc.value.value.Contracts? then doc.value.value.entries else [];
    }

    lemma OurPathsAreShaped(name: string, id: nat)
      requires forall i :: 0 <= i < |at.store| ==> at.store[i].Folder?
      ensures ShapedPath(at.ListPath(name)) && ShapedPath(at.ConfPath(name)) && ShapedPath(at.InfoPath(id))
      ensures at.store <= at.ListPath(name) && at.store <= at.ConfPath(name) && at.store <= at.InfoPath(id)
    {
    }

    /** Notes the created contracts and forgets the deleted ones. */
    method Save(name: string, created: seq<Entry>, deleted: seq<nat>, conf: Option<string>)
      requires Ready() && forall i :: 0 <= i < |at.store| ==> at.store[i].Folder?
      modifies fs
      ensures Ready()
      ensures SavedFrom(old(fs.files), fs.files, at, name, created, deleted, conf)
    {
      ghost var was := fs.files;
      var entries := GetDeploymentContracts(name);
      for i := 0 to |created|
        invariant Ready() && entries == Entries(was, at, name) + created[..i]
        invariant InfosWritten(was, fs.files, at, name, created[..i], [])
      {
        TakeStep(created, i);
        OurPathsAreShaped(name, created[i].contractId);
        entries := entries + [created[i]];
        InfoWritten(was, fs.files, at, name, created[..i], created[i]);
        Dump(at.InfoPath(created[i].contractId), Some(Info(at.project, at.moduleName, name)));
      }
      TakeAll(created);
      for i := 0 to |deleted|
        invariant Ready() && entries == WithoutIds(Entries(was, at, name) + created, deleted[..i])
        invariant InfosWritten(was, fs.files, at, name, created, deleted[..i])
      {
        TakeStep(deleted, i);
        OurPathsAreShaped(name, deleted[i]);
        entries := WithoutId(entries, deleted[i]);
        InfoForgotten(was, fs.files, at, name, created, deleted[..i], deleted[i]);
        Dump(at.InfoPath(deleted[i]), None);
      }
      TakeAll(deleted);
      OurPathsAreShaped(name, 0);
      ghost var noted := fs.files;
      if conf.Some? {
        Dump(at.ConfPath(name), Some(Conf(conf.value)));
      }
      if entries != [] {
        Dump(at.ListPath(name), Some(Contracts(entries)));
      } else {
        Dump(at.ListPath(name), None);
        Dump(at.ConfPath(name), None);
      }
      ListsWritten(was, noted, fs.files, at, name, created, deleted, conf);
    }

    /** Is the deployment a folder of the module's directory? */
    method Exists(name: string) returns (found: bool)
      requires Ready() && Tidy(fs.files, at)
      ensures found <==> Entries(fs.files, at, name) != []
    {
      ListedIffNotEmpty(fs, at, name);
      var listed := fs.List(at.ModuleDir());
      if listed.Err? {
        return false;
      }
      found := at.DeploymentDir(name) in listed.value;
      if Entries(fs.files, at, name) != [] {
        fs.DirsAreAncestors(at.ModuleDir());
        assert at.ModuleDir() < at.ListPath(name);
      }
    }

    method Forget(name: string, id: nat, ghost was: Files, ghost dropped: seq<nat>)
      requires Ready() && Tidy(fs.files, at) && forall i :: 0 <= i < |at.store| ==> at.store[i].Folder?
      requires SavedFrom(was, fs.files, at, name, [], dropped, None)
      modifies fs
      ensures Ready() && Tidy(fs.files, at)
      ensures SavedFrom(was, fs.files, at, name, [], dropped + [id], None)
    {
      ghost var mid := fs.files;
      Save(name, [], [id], None);
      SaveAgain(was, mid, fs.files, at, name, dropped, id);
      SaveKeepsTidy(mid, fs.files, at, name, [], [id], None);
    }

    /** What one entry comes to: its deployment, nothing any more, or no answer. */
    function Answer(fetch: map<nat, Fetch>, id: nat): Result<Option<Reported>, nat> {
      if id !in fetch then Err(id)
      else match fetch[id]
        case DeletedOnChain => Ok(None)
        case Unreachable => Err(id)
        case Fetched(d) => Ok(if Live(d, types) then Some(d) else None)
    }

    method ReadEntries(name: string, entries: seq<Entry>, fetch: map<nat, Fetch>)
      returns (r: Result<seq<Reported>, nat>, ghost n: nat)
      requires Ready() && Tidy(fs.files, at) && forall i :: 0 <= i < |at.store| ==> at.store[i].Folder?
      modifies fs
      ensures Ready() && Tidy(fs.files, at)
      ensures ReadFirst(old(fs.files), fs.files, at, name, fetch, types, entries, n)
      ensures r.Ok? ==> n == |entries| && r.value == KeptDeployments(fetch, types, entries)
      ensures r.Err? ==> n < |entries| && entries[n].contractId == r.error && !Answered(fetch, r.error)
    {
      ghost var was := fs.files;
      SavedNothing(was, at, name);
      var deployments: seq<Reported> := [];
      for i := 0 to |entries|
        invariant Ready() && Tidy(fs.files, at)
        invariant ReadFirst(was, fs.files, at, name, fetch, types, entries, i)
        invariant deployments == KeptDeployments(fetch, types, entries[..i])
      {
        ReadStep(fetch, types, entries, i);
        var answer := Answer(fetch, entries[i].contractId);
        if answer.Err? {
          return Err(answer.error), i;
        }
        if answer.value.Some? {
          deployments := deployments + [answer.value.value];
        } else {
          Forget(name, entries[i].contractId, was, ForgottenIds(fetch, types, entries[..i]));
        }
      }
      TakeAll(entries);
      return Ok(deployments), |entries|;
    }

    /** Reads the deployments back, forgetting the contracts that are gone; stops at one nothing is heard of, with
        those before it forgotten. */
    method Get(name: string, fetch: map<nat, Fetch>) returns (r: Result<seq<Reported>, nat>)
      requires Ready() && Tidy(fs.files, at) && forall i :: 0 <= i < |at.store| ==> at.store[i].Folder?
      modifies fs
      ensures Ready() && Tidy(fs.files, at)
      ensures Agree(old(fs.files), at) ==> Agree(fs.files, at)
      ensures r.Ok? <==> AllAnswered(fetch, Entries(old(fs.files), at, name))
      ensures r.Ok? ==>
                var entries := Entries(old(fs.files), at, name);
                && Entries(fs.files, at, name) == KeptEntries(fetch, types, entries)
                && r.value == KeptDeployments(fetch, types, entries)
                && SavedFrom(old(fs.files), fs.files, at, name, [], ForgottenIds(fetch, types, entries), None)
      ensures r.Err? ==> StoppedAt(old(fs.files), fs.files, at, name, fetch, types, r.error)
    {
      ghost var was := fs.files;
      var found := Exists(name);
      if !found {
        SavedNothing(was, at, name);
        return Ok([]);
      }
      var entries := GetDeploymentContracts(name);
      ghost var n;
      r, n := ReadEntries(name, entries, fetch);
      ReadAgrees(was, fs.files, at, name, fetch, types, n);
      if r.Ok? {
        TakeAll(entries);
        ReadLeavesSurvivors(was, fs.files, at, name, fetch, types, ForgottenIds(fetch, types, entries));
      }
    }
  }

  /** The entries per contract have been brought up to date, and nothing else has been touched. */
  ghost predicate InfosWritten(was: Files, files: Files, at: Location, name: string, created: seq<Entry>,
                               deleted: seq<nat>)
  {
    && (forall id :: Lookup(files, at.InfoPath(id))
                     == if id in deleted then None
                        else if Creates(created, id) then Some(Info(at.project, at.moduleName, name))
                        else Lookup(was, at.InfoPath(id)))
    && forall p :: (forall id :: p != at.InfoPath(id)) ==> Lookup(files, p) == Lookup(was, p)
  }

  lemma CreatesStep(created: seq<Entry>, e: Entry, id: nat)
    ensures Creates(created + [e], id) <==> Creates(created, id) || e.contractId == id
  {
    assert e in created + [e];
    if x :| x in created && x.contractId == id {
      assert x in created + [e];
    }
  }

  lemma InfoWritten(was: Files, files: Files, at: Location, name: string, created: seq<Entry>, e: Entry)
    requires InfosWritten(was, files, at, name, created, [])
    ensures InfosWritten(was, files[at.InfoPath(e.contractId) := Info(at.project, at.moduleName, name)], at, name,
                         created + [e], [])
  {
    var files' := files[at.InfoPath(e.contractId) := Info(at.project, at.moduleName, name)];
    forall id ensures Lookup(files', at.InfoPath(id))
                      == if Creates(created + [e], id) then Some(Info(at.project, at.moduleName, name))
                         else Lookup(was, at.InfoPath(id)) {
      CreatesStep(created, e, id);
      PathsDiffer(at, name, name, id, e.contractId);
    }
  }

  lemma InfoForgotten(was: Files, files: Files, at: Location, name: string, created: seq<Entry>, deleted: seq<nat>,
                      d: nat)
    requires InfosWritten(was, files, at, name, created, deleted)
    ensures InfosWritten(was, files - {at.InfoPath(d)}, at, name, created, deleted + [d])
  {
    forall id ensures Lookup(files - {at.InfoPath(d)}, at.InfoPath(id))
                      == if id in deleted + [d] then None
                         else if Creates(created, id) then Some(Info(at.project, at.moduleName, name))
                         else Lookup(was, at.InfoPath(id)) {
      PathsDiffer(at, name, name, id, d);
    }
  }

  lemma ListsWritten(was: Files, noted: Files, files: Files, at: Location, name: string, created: seq<Entry>,
                     deleted: seq<nat>, conf: Option<string>)
    requires InfosWritten(was, noted, at, name, created, deleted)
    requires var entries := SavedEntries(was, at, name, created, deleted);
             var l, c := at.ListPath(name), at.ConfPath(name);
             var noted' := if conf.Some? then noted[c := Conf(conf.value)] else noted;
             files == if entries != [] then noted'[l := Contracts(entries)] else noted' - {l} - {c}
    ensures SavedFrom(was, files, at, name, created, deleted, conf)
  {
    forall p ensures Lookup(files, p) == SavedAt(was, at, name, created, deleted, conf, p) {
      PathsDiffer(at, name, name, 0, 0);
      if p != at.ListPath(name) && p != at.ConfPath(name) {
        assert Lookup(files, p) == Lookup(noted, p);
        NotedElsewhere(was, noted, at, name, created, deleted, conf, p);
      }
    }
  }

  lemma NotedElsewhere(was: Files, noted: Files, at: Location, name: string, created: seq<Entry>, deleted: seq<nat>,
                       conf: Option<string>, p: Path)
    requires InfosWritten(was, noted, at, name, created, deleted) && p != at.ListPath(name)
    ensures p != at.ConfPath(name) ==> Lookup(noted, p) == SavedAt(was, at, name, created, deleted, conf, p)
  {
    if id :| p == at.InfoPath(id) {
      assert p[|p| - 1] == ContractFile(id);
    }
  }
}
