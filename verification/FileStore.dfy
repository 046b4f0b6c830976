/** The file-system store (`FS`): files in directories that are made on demand and pruned when empty. */
module FileStore {
  import opened Lists

  datatype Entry = Entry(contractId: nat, nodeId: nat)

  /** A path component: folders have folder names, files have file names. */
  datatype Segment =
    | Folder(name: string)
    | ListFile
    | ConfFile(deployment: string)
    | ContractFile(contractId: nat)

  type Path = seq<Segment>

  datatype Document =
    | Contracts(entries: seq<Entry>)
    | Info(project: string, moduleName: string, deployment: string)
    | Conf(text: string)

  datatype StoreError = IsDirectory | NotADirectory | RootNotRemovable

  function Dirname(p: Path): Path {
    if p == [] then [] else p[..|p| - 1]
  }

  class FS {
    var files: map<Path, Document>
    var dirs: set<Path>

    constructor ()
      ensures Valid() && files == map[]
    {
      files, dirs := map[], {[]};
    }

    predicate Exists(p: Path)
      reads this
    {
      p in files || p in dirs
    }

    /** What `readdir` lists. */
    function Children(d: Path): set<Path>
      reads this
    {
      (set p | p in files && Dirname(p) == d) + (set e | e in dirs && e != [] && Dirname(e) == d)
    }

    /** Everything sits in a directory, and no path is both a file and a directory. */
    ghost predicate Rooted()
      reads this
    {
      && [] in dirs
      && (forall p :: p in files ==> p !in dirs && Dirname(p) in dirs)
      && (forall d :: d in dirs ==> Dirname(d) in dirs)
    }

    /** No directory but the root and possibly `spare` is empty. */
    ghost predicate PrunedBut(spare: Path)
      reads this
    {
      forall d :: d in dirs && d != [] && d != spare ==> Children(d) != {}
    }

    ghost predicate Valid()
      reads this
    {
      Rooted() && PrunedBut([])
    }

    // ----- The tree and the plain map

    lemma {:induction false} PrefixesAreDirs(d: Path, n: nat)
      requires Rooted() && d in dirs && n <= |d|
      ensures d[..n] in dirs
      decreases |d|
    {
      if n == |d| {
        assert d[..n] == d;
      } else {
        PrefixesAreDirs(Dirname(d), n);
        assert Dirname(d)[..n] == d[..n];
      }
    }

    /** Below every directory deeper than the one possibly empty there is a file. */
    lemma {:induction false} FileBelow(spare: Path, c: Path) returns (p: Path)
      requires Rooted() && PrunedBut(spare) && c in dirs && |c| > |spare|
      ensures p in files && c < p
      decreases |set e | e in dirs && c < e|
    {
      var child :| child in Children(c);
      if child in files {
        p := child;
      } else {
        assert c < child;
        var below, below' := set e | e in dirs && c < e, set e | e in dirs && child < e;
        assert below' <= below - {child};
        assert below == (below - below') + below';
        assert child in below - below';
        p := FileBelow(spare, child);
      }
    }

    /** In a tree in order the directories are no information of their own: they are the ancestors of the files. */
    lemma DirsAreAncestors(d: Path)
      requires Valid()
      ensures d in dirs <==> d == [] || exists p :: p in files && d < p
    {
      if d in dirs && d != [] {
        var p := FileBelow([], d);
      }
      if p :| p in files && d < p {
        assert d == Dirname(p)[..|d|];
        PrefixesAreDirs(Dirname(p), |d|);
      }
    }

    /** Listing a directory tells the first steps of the paths below it. */
    lemma ListingIsProjection(d: Path, child: Path)
      requires Valid() && d in dirs
      ensures child in Children(d) <==> child != [] && Dirname(child) == d && exists p :: p in files && child <= p
    {
      if child in dirs && child != [] {
        DirsAreAncestors(child);
      }
      if p :| p in files && child <= p && child != [] {
        DirsAreAncestors(child);
        if child != p {
          assert child < p;
        }
      }
    }

    lemma RootHasChild(p: Path)
      requires Rooted() && p in files
      ensures Children([]) != {}
    {
      if |p| == 1 {
        assert p in Children([]);
      } else {
        var d := Dirname(p);
        PrefixesAreDirs(d, 1);
        assert d[..1] in Children([]);
      }
    }

    // ----- Reading

    method Get(key: Path) returns (r: Result<Option<Document>, StoreError>)
      ensures r == if key in files then Ok(Some(files[key])) else if key in dirs then Err(IsDirectory) else Ok(None)
    {
      if !Exists(key) {
        return Ok(None);
      }
      return if key in files then Ok(Some(files[key])) else Err(IsDirectory);
    }

    method List(key: Path) returns (r: Result<set<Path>, StoreError>)
      ensures r == if key in dirs then Ok(Children(key)) else if key in files then Err(NotADirectory) else Ok({})
    {
      if !Exists(key) {
        return Ok({});
      }
      return if key in dirs then Ok(Children(key)) else Err(NotADirectory);
    }

    // ----- Writing

    /** The directory cannot be made, or is there as a file. */
    predicate Blocked(d: Path)
      reads this
    {
      exists n :: 0 <= n <= |d| && d[..n] in files
    }

    /** `mkdir` with all parents. */
    method MakeDirs(d: Path) returns (ok: bool)
      requires Rooted() && PrunedBut([])
      modifies this`dirs
      ensures ok <==> !Blocked(d)
      ensures ok ==> Rooted() && PrunedBut(d) && d in dirs
      ensures !ok ==> dirs == old(dirs)
      ensures forall e :: e in dirs && e !in old(dirs) ==> e <= d
    {
      if Blocked(d) {
        return false;
      }
      for n := 0 to |d|
        invariant Rooted() && d[..n] in dirs && PrunedBut(d[..n])
        invariant forall e :: e in dirs && e !in old(dirs) ==> e <= d[..n]
      {
        var next := d[..n + 1];
        assert Dirname(next) == d[..n];
        assert next !in files;
        ghost var before := dirs;
        dirs := dirs + {next};
        forall e | e in dirs && e != [] && e != next ensures Children(e) != {} {
          if e == d[..n] {
            assert next in Children(e);
          } else {
            ChildrenGrow(before, next, e);
          }
        }
      }
      assert d[..|d|] == d;
      return true;
    }

    lemma ChildrenGrow(before: set<Path>, added: Path, e: Path)
      requires dirs == before + {added} && e in before && e != []
      requires (set p | p in files && Dirname(p) == e) + (set x | x in before && x != [] && Dirname(x) == e) != {}
      ensures Children(e) != {}
    {
      var c :| c in (set p | p in files && Dirname(p) == e) + (set x | x in before && x != [] && Dirname(x) == e);
      assert c in Children(e);
    }

    /** Stores a document, making its directory if need be; nothing to store means removal. */
    method Set(key: Path, value: Option<Document>) returns (r: Result<(), StoreError>)
      requires Valid() && key != []
      modifies this
      ensures Valid()
      ensures value.Some? ==> (r.Ok? <==> !old(Blocked(Dirname(key))) && key !in old(dirs))
      ensures value.Some? && r.Ok? ==> files == old(files)[key := value.value]
      ensures value.Some? && r.Err? ==> files == old(files)
      ensures value.None? ==> files == old(files) - {key}
      ensures value.None? ==> (r.Ok? <==> key !in old(dirs) && !(key in old(files) && old(files).Keys == {key}))
    {
      if value.None? {
        r := Remove(key);
        return;
      }
      var d := Dirname(key);
      if key in dirs {
        return Err(IsDirectory);
      }
      if !Exists(d) {
        var ok := MakeDirs(d);
        if !ok {
          return Err(NotADirectory);
        }
      }
      if d in files {
        assert d[..|d|] == d;
        return Err(NotADirectory);
      }
      forall n | 0 <= n <= |d| ensures d[..n] !in files {
        PrefixesAreDirs(d, n);
      }
      label stored:
      files := files[key := value.value];
      forall e | e in dirs && e != [] ensures Children(e) != {} {
        if e == d {
          assert key in Children(d);
        } else {
          assert old@stored(Children(e)) != {};
          var c :| c in old@stored(Children(e));
          assert c in Children(e);
        }
      }
      return Ok(());
    }

    /** Removes a file and the directories this empties. */
    method Remove(key: Path) returns (r: Result<(), StoreError>)
      requires Valid() && key != []
      modifies this
      ensures Valid() && files == old(files) - {key}
      ensures r.Ok? <==> key !in old(dirs) && !(key in old(files) && old(files).Keys == {key})
    {
      if !Exists(key) {
        return Ok(());
      }
      if key in dirs {
        return Err(IsDirectory);
      }
      files := files - {key};
      var d := Dirname(key);
      while Children(d) == {}
        modifies this`dirs
        invariant Rooted() && PrunedBut(d) && d in dirs
        decreases |d|
      {
        if d == [] {
          if p :| p in files {
            RootHasChild(p);
          }
          return Err(RootNotRemovable);
        }
        dirs := dirs - {d};
        d := Dirname(d);
      }
      var c :| c in Children(d);
      if c in dirs {
        ghost var p := FileBelow(d, c);
      }
      return Ok(());
    }
  }
}
