/** The chunks a browser loads with the entry page: the import closure of a build manifest. */
module ImportClosure {
  import opened Ordering

  /** An entry of the manifest; anything but an object has no imports and no file. */
  datatype Entry = Malformed | Chunk(imports: seq<string>, file: string)

  type Manifest = map<string, Entry>

  const ENTRY := "index.html"

  function Imports(manifest: Manifest, key: string): seq<string> {
    if key in manifest && manifest[key].Chunk? then manifest[key].imports else []
  }

  lemma ImportsExact(manifest: Manifest, key: string, next: string)
    ensures next in Imports(manifest, key) <==>
      exists imports, file :: key in manifest && manifest[key] == Chunk(imports, file) && next in imports
  {
    if key in manifest && manifest[key].Chunk? { assert manifest[key] == Chunk(manifest[key].imports, manifest[key].file); }
  }

  ghost predicate ImportPath(manifest: Manifest, path: seq<string>) {
    path != [] && path[0] == "index.html" && forall i :: 0 < i < |path| ==> path[i] in Imports(manifest, path[i - 1])
  }

  /** A chain of imports leads from the entry page to the key. */
  ghost predicate Reachable(manifest: Manifest, key: string) {
    exists path :: ImportPath(manifest, path) && path[|path| - 1] == key
  }

  lemma ReachableImport(manifest: Manifest, key: string, next: string)
    requires Reachable(manifest, key) && next in Imports(manifest, key)
    ensures Reachable(manifest, next)
  {
    var path :| ImportPath(manifest, path) && path[|path| - 1] == key;
    assert ImportPath(manifest, path + [next]);
  }

  lemma EntryReachable(manifest: Manifest)
    ensures Reachable(manifest, ENTRY)
  {
    assert ImportPath(manifest, [ENTRY]);
  }

  /** A set that holds the entry and is closed under imports holds every key on a path. */
  lemma {:induction false} ClosedHoldsPath(manifest: Manifest, keys: set<string>, path: seq<string>)
    requires ENTRY in keys && forall k, m :: k in keys && m in Imports(manifest, k) ==> m in keys
    requires ImportPath(manifest, path)
    ensures path[|path| - 1] in keys
    decreases |path|
  {
    if |path| > 1 {
      var front := path[..|path| - 1];
      assert ImportPath(manifest, front);
      ClosedHoldsPath(manifest, keys, front);
    }
  }

  /** Every key some entry imports. */
  ghost function Imported(manifest: Manifest): set<string> {
    set k, m | k in manifest && m in Imports(manifest, k) :: m
  }

  /** What holds between two turns of the worklist. */
  ghost predicate Explored(manifest: Manifest, seen: set<string>, pending: seq<string>) {
    && ENTRY in seen
    && (forall k :: k in seen ==> Reachable(manifest, k))
    && (forall m :: m in pending ==> Reachable(manifest, m) && m in Imported(manifest))
    && (forall k, m :: k in seen && m in Imports(manifest, k) ==> m in seen || m in pending)
  }

  lemma PopSeen(manifest: Manifest, seen: set<string>, pending: seq<string>, key: string)
    requires Explored(manifest, seen, pending + [key]) && key in seen
    ensures Explored(manifest, seen, pending)
  {
    assert forall m :: m in pending + [key] <==> m in pending || m == key;
  }

  lemma PopNew(manifest: Manifest, seen: set<string>, pending: seq<string>, key: string)
    requires Explored(manifest, seen, pending + [key])
    ensures key in Imported(manifest)
    ensures Explored(manifest, seen + {key}, pending + Imports(manifest, key))
  {
    assert forall m :: m in pending + [key] <==> m in pending || m == key;
    assert key in pending + [key];
    forall m | m in Imports(manifest, key) ensures Reachable(manifest, m) && m in Imported(manifest) {
      ReachableImport(manifest, key, m);
    }
    assert forall m :: m in pending + Imports(manifest, key) <==> m in pending || m in Imports(manifest, key);
  }

  /** An empty worklist leaves exactly the reachable keys. */
  lemma ExploredAll(manifest: Manifest, seen: set<string>)
    requires Explored(manifest, seen, [])
    ensures forall k :: k in seen <==> Reachable(manifest, k)
  {
    forall k | Reachable(manifest, k) ensures k in seen {
      var path :| ImportPath(manifest, path) && path[|path| - 1] == k;
      ClosedHoldsPath(manifest, seen, path);
    }
  }

  lemma ExploredFirst(manifest: Manifest)
    requires ENTRY in manifest && manifest[ENTRY].Chunk?
    ensures Explored(manifest, {ENTRY}, manifest[ENTRY].imports)
  {
    EntryReachable(manifest);
    forall m | m in manifest[ENTRY].imports ensures Reachable(manifest, m) && m in Imported(manifest) {
      ReachableImport(manifest, ENTRY, m);
    }
  }

  /** The worklist over imports: none when the entry page is missing. Duplicates, cycles and keys absent
      from the manifest are allowed; the result is exactly what the entry page reaches. */
  method InitialKeys(manifest: Manifest) returns (keys: Option<set<string>>)
    ensures keys.None? <==> ENTRY !in manifest || manifest[ENTRY].Malformed?
    ensures keys.Some? ==> forall k :: k in keys.value <==> Reachable(manifest, k)
  {
    if ENTRY !in manifest || !manifest[ENTRY].Chunk? {
      return None;
    }
    var seen := {ENTRY};
    var pending := manifest[ENTRY].imports;
    ExploredFirst(manifest);
    while pending != []
      invariant Explored(manifest, seen, pending)
      decreases Imported(manifest) - seen, |pending|
    {
      var key := pending[|pending| - 1];
      assert pending == pending[..|pending| - 1] + [key];
      pending := pending[..|pending| - 1];
      if key in seen {
        PopSeen(manifest, seen, pending, key);
        continue;
      }
      PopNew(manifest, seen, pending, key);
      ghost var left := Imported(manifest) - seen;
      seen := seen + {key};
      assert key in left && Imported(manifest) - seen == left - {key};
      pending := pending + Imports(manifest, key);
    }
    ExploredAll(manifest, seen);
    keys := Some(seen);
  }

  predicate Contains(s: string, part: string) {
    exists i :: 0 <= i <= |s| - |part| && part <= s[i..]
  }

  lemma ContainsExact(s: string, part: string)
    ensures Contains(s, part) <==> exists a, b :: s == a + part + b
  {
    if i :| 0 <= i <= |s| - |part| && part <= s[i..] {
      assert s == s[..i] + part + s[i + |part|..];
    }
    if a, b :| s == a + part + b {
      assert s[|a|..] == part + b;
      assert part <= s[|a|..];
    }
  }

  const FORBIDDEN := "three-runtime"

  /** The verdict on forbidden chunks: raised exactly when a reachable chunk's file has the name. */
  method InitialFiles(manifest: Manifest) returns (files: Option<set<string>>)
    requires ENTRY in manifest && manifest[ENTRY].Chunk?
    ensures files.None? <==>
      exists k :: Reachable(manifest, k) && k in manifest && manifest[k].Chunk? && Contains(manifest[k].file, "three-runtime")
    ensures files.Some? ==> forall f :: f in files.value <==>
      f != "" && exists k :: Reachable(manifest, k) && k in manifest && manifest[k].Chunk? && manifest[k].file == f
  {
    var keys := InitialKeys(manifest);
    var all := set k | k in keys.value && k in manifest && manifest[k].Chunk? && manifest[k].file != "" :: manifest[k].file;
    if exists f :: f in all && Contains(f, FORBIDDEN) {
      return None;
    }
    files := Some(all);
    forall k | Reachable(manifest, k) && k in manifest && manifest[k].Chunk?
      ensures !Contains(manifest[k].file, FORBIDDEN) {
      if manifest[k].file != "" { assert manifest[k].file in all; }
    }
  }
}
