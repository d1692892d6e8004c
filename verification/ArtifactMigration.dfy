/** Moving evidence artifacts from S3 to the filesystem store, alone and beside other migrators. */
module ArtifactMigration {
  import opened Ordering
  import opened Texts

  type Bytes = seq<bv8>

  datatype Row = Row(uri: string, hash: string)

  /** The artifact table, and the two stores by storage URI. */
  datatype World = World(rows: map<string, Row>, s3: map<string, Bytes>, files: map<string, Bytes>)

  const ARTIFACT := "artifact://"
  const S3 := "s3://"

  /** The text before the first `/`, `?` or `#`: the network location of what follows the scheme. */
  function UntilDelimiter(s: string): (r: string)
    ensures '/' !in r
  {
    if s == "" || s[0] in "/?#" then "" else [s[0]] + UntilDelimiter(s[1..])
  }

  function Bucket(uri: string): string
    requires StartsWith(uri, S3)
  {
    UntilDelimiter(uri[|S3|..])
  }

  /** The part of a target URI after the bucket. */
  function HashPath(hash: string): string {
    "sha256/" + hash[..if |hash| < 2 then |hash| else 2] + "/" + hash
  }

  /** Where the filesystem store of a bucket puts content with a given hash. */
  function TargetUri(bucket: string, hash: string): string {
    ARTIFACT + (bucket + "/" + HashPath(hash))
  }

  lemma TargetIsArtifact(bucket: string, hash: string)
    ensures StartsWith(TargetUri(bucket, hash), ARTIFACT) && !StartsWith(TargetUri(bucket, hash), S3)
  {
    assert TargetUri(bucket, hash)[0] == 'a' && S3[0] == 's';
  }

  /** The bucket ends at the first slash after the scheme. */
  lemma {:induction false} FirstSlash(a: string, x: string, b: string, y: string)
    requires '/' !in a && '/' !in b && a + "/" + x == b + "/" + y
    ensures a == b && x == y
  {
    assert a == "" || a[0] != '/' by { assert a != "" ==> a[0] in a; }
    assert b == "" || b[0] != '/' by { assert b != "" ==> b[0] in b; }
    assert (a + "/" + x)[0] == if a == "" then '/' else a[0];
    assert (b + "/" + y)[0] == if b == "" then '/' else b[0];
    assert (a + "/" + x)[1..] == (b + "/" + y)[1..];
    if a != "" {
      assert (a + "/" + x)[1..] == a[1..] + "/" + x && (b + "/" + y)[1..] == b[1..] + "/" + y;
      FirstSlash(a[1..], x, b[1..], y);
    } else {
      assert (a + "/" + x)[1..] == x && (b + "/" + y)[1..] == y;
    }
  }

  lemma PathFixesHash(h1: string, h2: string)
    requires HashPath(h1) == HashPath(h2)
    ensures h1 == h2
  {
    var x, y := HashPath(h1), HashPath(h2);
    assert |h1| == |h2|;
    assert x[|x| - |h1|..] == h1 && y[|y| - |h2|..] == h2;
  }

  /** One file never stands for two hashes. */
  lemma TargetUriHash(b1: string, h1: string, b2: string, h2: string)
    requires '/' !in b1 && '/' !in b2 && TargetUri(b1, h1) == TargetUri(b2, h2)
    ensures h1 == h2
  {
    var u1, u2 := b1 + "/" + HashPath(h1), b2 + "/" + HashPath(h2);
    assert (ARTIFACT + u1)[|ARTIFACT|..] == u1 && (ARTIFACT + u2)[|ARTIFACT|..] == u2;
    FirstSlash(b1, HashPath(h1), b2, HashPath(h2));
    PathFixesHash(h1, h2);
  }

  /** The row's URI leads to bytes with its recorded hash. */
  predicate Resolves(digest: Bytes -> string, w: World, row: Row) {
    || (StartsWith(row.uri, S3) && row.uri in w.s3 && digest(w.s3[row.uri]) == row.hash)
    || (StartsWith(row.uri, ARTIFACT) && row.uri in w.files && digest(w.files[row.uri]) == row.hash)
  }

  lemma ResolvesExact(digest: Bytes -> string, w: World, row: Row)
    ensures Resolves(digest, w, row) <==>
      || (row.uri in w.s3 && digest(w.s3[row.uri]) == row.hash && exists path :: row.uri == "s3://" + path)
      || (row.uri in w.files && digest(w.files[row.uri]) == row.hash && exists path :: row.uri == "artifact://" + path)
  {
    if StartsWith(row.uri, S3) { assert row.uri == "s3://" + row.uri[|S3|..]; }
    if StartsWith(row.uri, ARTIFACT) { assert row.uri == "artifact://" + row.uri[|ARTIFACT|..]; }
  }

  // ---------------------------------------------------------------- several migrators, step by step

  /** Where one migrator stands with the row it read as `seen`, perhaps long ago. */
  datatype Migrator =
    | Idle
    | Fetched(id: string, seen: Row, body: Bytes)   // bytes read from S3, hash checked
    | Absent(id: string, seen: Row, body: Bytes)    // the put found no file
    | Stored(id: string, seen: Row)                 // the put returned
    | Verified(id: string, seen: Row)               // the file was seen to exist
    | Matched(id: string, seen: Row)                // the transaction read the row unchanged
  {
    function Target(): string
      requires !Idle? && StartsWith(seen.uri, S3)
    {
      TargetUri(Bucket(seen.uri), seen.hash)
    }
  }

  /** An S3 URI of a nonempty bucket, followed by a key. */
  predicate Fetchable(uri: string) {
    StartsWith(uri, S3) && Bucket(uri) != "" && StartsWith(uri, S3 + Bucket(uri) + "/")
  }

  /** One atomic step of a migrator. Any other outcome of an operation raises, which is a crash. */
  ghost predicate MigratorStep(digest: Bytes -> string, w: World, p: Migrator, w': World, p': Migrator) {
    match p
    case Idle =>
      w' == w && p'.Fetched? && p'.id in w.rows && w.rows[p'.id].hash == p'.seen.hash
      && Fetchable(p'.seen.uri) && p'.seen.uri in w.s3 && p'.body == w.s3[p'.seen.uri] && digest(p'.body) == p'.seen.hash
    case Fetched(id, seen, body) =>
      w' == w && StartsWith(seen.uri, S3) &&
      (|| (p' == Stored(id, seen) && p.Target() in w.files && digest(w.files[p.Target()]) == seen.hash)
       || (p' == Absent(id, seen, body) && p.Target() !in w.files))
    case Absent(id, seen, body) =>
      StartsWith(seen.uri, S3) && w' == w.(files := w.files[p.Target() := body]) && p' == Stored(id, seen)
    case Stored(id, seen) =>
      w' == w && StartsWith(seen.uri, S3) && p.Target() in w.files && p' == Verified(id, seen)
    case Verified(id, seen) =>
      w' == w && (p' == Idle  // a dry run stops here
                  || (p' == Matched(id, seen) && id in w.rows && w.rows[id].uri == seen.uri))
    case Matched(id, seen) =>
      StartsWith(seen.uri, S3) && id in w.rows
      && w' == w.(rows := w.rows[id := w.rows[id].(uri := p.Target())]) && p' == Idle
  }

  /** The migrators at work; those in `dry` only try the migration out. */
  datatype System = System(w: World, procs: map<nat, Migrator>, dry: set<nat>)

  /** A file is addressed by its content: where a put may leave it, its bytes have the hash in its URI. */
  ghost predicate Addressed(digest: Bytes -> string, uri: string, body: Bytes) {
    forall bucket, hash :: '/' !in bucket && uri == TargetUri(bucket, hash) ==> digest(body) == hash
  }

  /** Producers add artifacts, to either store, and rows, never touching existing ones. */
  ghost predicate ProducerStep(digest: Bytes -> string, w: World, w': World) {
    && (forall u :: u in w.files ==> u in w'.files && w'.files[u] == w.files[u])
    && (forall u :: u in w'.files && u !in w.files ==> Addressed(digest, u, w'.files[u]))
    && (forall u :: u in w.s3 ==> u in w'.s3 && w'.s3[u] == w.s3[u])
    && (forall id :: id in w.rows ==> id in w'.rows && w'.rows[id] == w.rows[id])
  }

  /** Migrator `i` crashes or starts afresh. */
  ghost predicate Restarts(s: System, s': System, i: nat) {
    s'.w == s.w && s'.procs == s.procs[i := Idle]
  }

  /** Migrator `i` takes a step; a dry one never gets as far as reading the row again. */
  ghost predicate Advances(digest: Bytes -> string, s: System, s': System, i: nat) {
    && i in s.procs && i in s'.procs && s'.procs == s.procs[i := s'.procs[i]]
    && MigratorStep(digest, s.w, s.procs[i], s'.w, s'.procs[i])
    && (s'.procs[i].Matched? ==> i !in s.dry)
  }

  ghost predicate Next(digest: Bytes -> string, s: System, s': System) {
    && s'.dry == s.dry
    && (|| (exists i :: Advances(digest, s, s', i))
        || (exists i :: Restarts(s, s', i))
        || (s'.procs == s.procs && ProducerStep(digest, s.w, s'.w)))
  }

  /** What holds of one migrator between steps. */
  predicate Sound(digest: Bytes -> string, w: World, p: Migrator) {
    p.Idle? ||
    (&& p.id in w.rows && w.rows[p.id].hash == p.seen.hash && Fetchable(p.seen.uri)
     && (p.Fetched? || p.Absent? ==> digest(p.body) == p.seen.hash)
     && (p.Absent? && p.Target() in w.files ==> digest(w.files[p.Target()]) == p.seen.hash)
     && (p.Stored? || p.Verified? || p.Matched? ==> p.Target() in w.files && digest(w.files[p.Target()]) == p.seen.hash)
     && (p.Matched? ==> w.rows[p.id].uri == p.seen.uri || w.rows[p.id].uri == p.Target()))
  }

  ghost predicate Inv(digest: Bytes -> string, s: System) {
    forall i :: i in s.procs ==> Sound(digest, s.w, s.procs[i])
  }

  /** What every step keeps about every row: its hash, its resolution, and its direction of travel. */
  ghost predicate Preserves(digest: Bytes -> string, w: World, w': World) {
    forall id :: id in w.rows ==>
      && id in w'.rows && w'.rows[id].hash == w.rows[id].hash
      && (Resolves(digest, w, w.rows[id]) ==> Resolves(digest, w', w'.rows[id]))
      && (w'.rows[id].uri == w.rows[id].uri
          || (StartsWith(w.rows[id].uri, S3) && StartsWith(w'.rows[id].uri, ARTIFACT) && Resolves(digest, w', w'.rows[id])))
  }

  /** A step of one migrator keeps its own invariant and every row. */
  lemma StepKeepsRows(digest: Bytes -> string, w: World, p: Migrator, w': World, p': Migrator)
    requires Sound(digest, w, p) && MigratorStep(digest, w, p, w', p')
    ensures Sound(digest, w', p') && Preserves(digest, w, w')
  {
    if p.Matched? {
      TargetIsArtifact(Bucket(p.seen.uri), p.seen.hash);
    }
  }

  /** It also keeps the invariant of every other migrator, whatever row that one works on. */
  lemma StepKeepsOthers(digest: Bytes -> string, w: World, p: Migrator, w': World, p': Migrator, q: Migrator)
    requires Sound(digest, w, p) && Sound(digest, w, q) && MigratorStep(digest, w, p, w', p')
    ensures Sound(digest, w', q)
  {
    if !q.Idle? && p.Absent? && p.Target() == q.Target() {
      TargetUriHash(Bucket(p.seen.uri), p.seen.hash, Bucket(q.seen.uri), q.seen.hash);
    }
    if !q.Idle? && p.Matched? {
      TargetIsArtifact(Bucket(p.seen.uri), p.seen.hash);
      TargetIsArtifact(Bucket(q.seen.uri), q.seen.hash);
    }
  }

  lemma ProducerKeeps(digest: Bytes -> string, w: World, w': World, q: Migrator)
    requires Sound(digest, w, q) && ProducerStep(digest, w, w')
    ensures Sound(digest, w', q)
  {
    if q.Absent? && q.Target() in w'.files && q.Target() !in w.files {
      assert Addressed(digest, TargetUri(Bucket(q.seen.uri), q.seen.hash), w'.files[q.Target()]);
    }
  }

  lemma NextSafe(digest: Bytes -> string, s: System, s': System)
    requires Inv(digest, s) && Next(digest, s, s')
    ensures Inv(digest, s') && Preserves(digest, s.w, s'.w)
  {
    if i :| Advances(digest, s, s', i) {
      StepKeepsRows(digest, s.w, s.procs[i], s'.w, s'.procs[i]);
      forall j | j in s'.procs ensures Sound(digest, s'.w, s'.procs[j]) {
        if j != i { StepKeepsOthers(digest, s.w, s.procs[i], s'.w, s'.procs[i], s.procs[j]); }
      }
    } else if s'.procs == s.procs && ProducerStep(digest, s.w, s'.w) {
      forall j | j in s'.procs ensures Sound(digest, s'.w, s'.procs[j]) { ProducerKeeps(digest, s.w, s'.w, s.procs[j]); }
    }
  }

  ghost predicate IsRun(digest: Bytes -> string, run: seq<System>) {
    |run| > 0 && forall i :: 0 < i < |run| ==> Next(digest, run[i - 1], run[i])
  }

  lemma PreservesTransitive(digest: Bytes -> string, a: World, b: World, c: World)
    requires Preserves(digest, a, b) && Preserves(digest, b, c)
    ensures Preserves(digest, a, c)
  {
    forall id | id in a.rows
      ensures id in c.rows && c.rows[id].hash == a.rows[id].hash
      ensures Resolves(digest, a, a.rows[id]) ==> Resolves(digest, c, c.rows[id])
      ensures c.rows[id].uri == a.rows[id].uri
           || (StartsWith(a.rows[id].uri, S3) && StartsWith(c.rows[id].uri, ARTIFACT) && Resolves(digest, c, c.rows[id]))
    {
      assert id in b.rows;
      if b.rows[id].uri != a.rows[id].uri { assert b.rows[id].uri[0] == 'a' && Resolves(digest, b, b.rows[id]); }
      if c.rows[id].uri != b.rows[id].uri { assert b.rows[id].uri[0] == 's'; }
    }
  }

  /** Whatever mix of migrators, crashes, restarts and producers runs: no row stops resolving, and a
      row whose URI changes has moved from S3 to a file with its recorded hash. */
  lemma {:induction false} RunSafe(digest: Bytes -> string, run: seq<System>)
    requires IsRun(digest, run) && Inv(digest, run[0])
    ensures Inv(digest, run[|run| - 1])
    ensures Preserves(digest, run[0].w, run[|run| - 1].w)
    decreases |run|
  {
    if |run| > 1 {
      var front := run[..|run| - 1];
      assert forall i :: 0 <= i < |front| ==> front[i] == run[i];
      RunSafe(digest, front);
      NextSafe(digest, front[|front| - 1], run[|run| - 1]);
      PreservesTransitive(digest, run[0].w, front[|front| - 1].w, run[|run| - 1].w);
    }
  }

  /** No dry migrator stands before a write. */
  ghost predicate DryHarmless(s: System) {
    forall i :: i in s.procs && i in s.dry ==> !s.procs[i].Matched?
  }

  /** A step keeps dry migrators harmless, and with only dry ones at work it changes no row. */
  lemma DryStep(digest: Bytes -> string, s: System, s': System)
    requires Next(digest, s, s') && DryHarmless(s)
    ensures DryHarmless(s')
    ensures s.procs.Keys <= s.dry ==> forall id :: id in s.w.rows ==> id in s'.w.rows && s'.w.rows[id] == s.w.rows[id]
  {
    if i :| Advances(digest, s, s', i) {
      assert s.procs.Keys <= s.dry ==> i in s.dry && !s.procs[i].Matched?;
    }
  }

  /** Beside any producers, and through any crashes, dry migrators change no row. */
  lemma {:induction false} DryRunsKeepRows(digest: Bytes -> string, run: seq<System>)
    requires IsRun(digest, run) && DryHarmless(run[0]) && forall k :: 0 <= k < |run| ==> run[k].procs.Keys <= run[k].dry
    ensures DryHarmless(run[|run| - 1])
    ensures forall id :: id in run[0].w.rows ==>
      id in run[|run| - 1].w.rows && run[|run| - 1].w.rows[id] == run[0].w.rows[id]
    decreases |run|
  {
    if |run| > 1 {
      var front := run[..|run| - 1];
      assert forall i :: 0 <= i < |front| ==> front[i] == run[i];
      DryRunsKeepRows(digest, front);
      DryStep(digest, front[|front| - 1], run[|run| - 1]);
    }
  }

  // ---------------------------------------------------------------- one migration, start to end

  datatype Outcome = AlreadyTarget | OtherScheme | Missing | Migrated | Raised

  /** What one iteration of the loop does for a row read earlier as `seen`. */
  function MigrateOne(digest: Bytes -> string, w: World, id: string, seen: Row, dry: bool): (World, Outcome) {
    if StartsWith(seen.uri, ARTIFACT) then (w, AlreadyTarget)
    else if !StartsWith(seen.uri, S3) then (w, OtherScheme)
    else if !Fetchable(seen.uri) then (w, Raised)
    else if seen.uri !in w.s3 then (w, Missing)
    else if digest(w.s3[seen.uri]) != seen.hash then (w, Raised)
    else
      var target := TargetUri(Bucket(seen.uri), seen.hash);
      if target in w.files && digest(w.files[target]) != seen.hash then (w, Raised)
      else
        var placed := if target in w.files then w else w.(files := w.files[target := w.s3[seen.uri]]);
        if dry then (placed, Migrated)
        else if id !in w.rows || w.rows[id].uri != seen.uri then (placed, Raised)
        else (placed.(rows := w.rows[id := w.rows[id].(uri := target)]), Migrated)
  }

  datatype Counters = Counters(selected: nat, migrated: nat, missing: nat, already: nat)

  function Count(c: Counters, o: Outcome): Counters {
    match o
    case AlreadyTarget => c.(already := c.already + 1)
    case Missing => c.(missing := c.missing + 1)
    case Migrated => c.(migrated := c.migrated + 1)
    case OtherScheme => c
    case Raised => c
  }

  /** The loop over the first rows of a snapshot: the world reached, and counters unless it raised. */
  function MigrateAll(digest: Bytes -> string, w: World, snapshot: seq<(string, Row)>, selected: nat, dry: bool)
    : (World, Option<Counters>)
  {
    if snapshot == [] then (w, Some(Counters(selected, 0, 0, 0)))
    else
      var last := snapshot[|snapshot| - 1];
      var (w1, c1) := MigrateAll(digest, w, snapshot[..|snapshot| - 1], selected, dry);
      if c1.None? then (w1, None)
      else
        var (w2, o) := MigrateOne(digest, w1, last.0, last.1, dry);
        (w2, if o.Raised? then None else Some(Count(c1.value, o)))
  }

  /** The rows selected by creation time, as they are when the migration starts. */
  function Snapshot(w: World, ids: seq<string>): seq<(string, Row)>
    requires forall i :: 0 <= i < |ids| ==> ids[i] in w.rows
  {
    seq(|ids|, i requires 0 <= i < |ids| => (ids[i], w.rows[ids[i]]))
  }

  /** The database and the stores a migration works on. */
  class Deployment {
    var world: World

    constructor (w: World)
      ensures world == w
    {
      world := w;
    }

    /** The body of the loop, for a row read earlier as `artifact`. */
    method MigrateRow(digest: Bytes -> string, id: string, artifact: Row, dry: bool) returns (outcome: Outcome)
      modifies this
      ensures (world, outcome) == MigrateOne(digest, old(world), id, artifact, dry)
    {
      if StartsWith(artifact.uri, ARTIFACT) {
        return AlreadyTarget;
      }
      if !StartsWith(artifact.uri, S3) {
        return OtherScheme;
      }
      if !Fetchable(artifact.uri) {
        return Raised;
      }
      if artifact.uri !in world.s3 {
        return Missing;
      }
      if digest(world.s3[artifact.uri]) != artifact.hash {
        return Raised;
      }
      var target := TargetUri(Bucket(artifact.uri), artifact.hash);
      if target in world.files {
        if digest(world.files[target]) != artifact.hash {
          return Raised;
        }
      } else {
        world := world.(files := world.files[target := world.s3[artifact.uri]]);
      }
      if !dry {
        if id !in world.rows || world.rows[id].uri != artifact.uri {
          return Raised;
        }
        world := world.(rows := world.rows[id := world.rows[id].(uri := target)]);
      }
      return Migrated;
    }

    /** `migrate`: `ids` are the rows created since the cut-off, in order. */
    method Migrate(digest: Bytes -> string, ids: seq<string>, dry: bool) returns (counters: Option<Counters>)
      requires forall i :: 0 <= i < |ids| ==> ids[i] in world.rows
      modifies this
      ensures (world, counters) == MigrateAll(digest, old(world), Snapshot(old(world), ids), |ids|, dry)
      ensures Distinct(ids) ==> Migrates(digest, old(world), world, ids, dry, counters)
    {
      var rows := Snapshot(world, ids);
      var c := Counters(|rows|, 0, 0, 0);
      for i := 0 to |rows|
        invariant (world, Some(c)) == MigrateAll(digest, old(world), rows[..i], |ids|, dry)
      {
        MigrateAllStep(digest, old(world), rows, i, |ids|, dry);
        var (id, artifact) := rows[i];
        var outcome := MigrateRow(digest, id, artifact, dry);
        match outcome {
          case Raised =>
            RaisedStays(digest, old(world), rows, i + 1, |ids|, dry);
            if Distinct(ids) { MigrationExact(digest, old(world), ids, dry); }
            return None;
          case AlreadyTarget => c := c.(already := c.already + 1);
          case Missing => c := c.(missing := c.missing + 1);
          case Migrated => c := c.(migrated := c.migrated + 1);
          case OtherScheme =>
        }
      }
      assert rows[..|rows|] == rows;
      if Distinct(ids) { MigrationExact(digest, old(world), ids, dry); }
      return Some(c);
    }
  }

  lemma MigrateAllStep(digest: Bytes -> string, w: World, rows: seq<(string, Row)>, i: nat, selected: nat, dry: bool)
    requires i < |rows|
    ensures MigrateAll(digest, w, rows[..i + 1], selected, dry)
      == (var (w1, c1) := MigrateAll(digest, w, rows[..i], selected, dry);
          if c1.None? then (w1, None)
          else
            var (w2, o) := MigrateOne(digest, w1, rows[i].0, rows[i].1, dry);
            (w2, if o.Raised? then None else Some(Count(c1.value, o))))
  {
    assert rows[..i + 1][..i] == rows[..i];
  }

  lemma {:induction false} RaisedStays(digest: Bytes -> string, w: World, rows: seq<(string, Row)>, n: nat,
                                       selected: nat, dry: bool)
    requires n <= |rows| && MigrateAll(digest, w, rows[..n], selected, dry).1.None?
    ensures MigrateAll(digest, w, rows, selected, dry) == MigrateAll(digest, w, rows[..n], selected, dry)
    decreases |rows|
  {
    if n == |rows| {
      assert rows[..n] == rows;
    } else {
      assert rows[..|rows| - 1][..n] == rows[..n];
      RaisedStays(digest, w, rows[..|rows| - 1], n, selected, dry);
    }
  }

  // ---------------------------------------------------------------- the loop body as atomic steps

  /** One migrator on its own. */
  ghost function Solo(w: World, p: Migrator, dry: bool): System { System(w, map[0 := p], if dry then {0} else {}) }

  lemma ExtendRun(digest: Bytes -> string, run: seq<System>, w: World, p: Migrator, w': World, p': Migrator, dry: bool)
    returns (run': seq<System>)
    requires IsRun(digest, run) && run[|run| - 1] == Solo(w, p, dry)
    requires MigratorStep(digest, w, p, w', p') && (p'.Matched? ==> !dry)
    ensures run' == run + [Solo(w', p', dry)] && IsRun(digest, run')
  {
    var s, s' := Solo(w, p, dry), Solo(w', p', dry);
    assert s'.procs == s.procs[0 := s'.procs[0]];
    assert Advances(digest, s, s', 0);
    run' := run + [s'];
  }

  /** The first steps of an iteration: the file is fetched and put in place. */
  lemma PlacingIsRun(digest: Bytes -> string, w: World, id: string, seen: Row, dry: bool) returns (run: seq<System>)
    requires id in w.rows && w.rows[id].hash == seen.hash
    requires Fetchable(seen.uri) && seen.uri in w.s3 && digest(w.s3[seen.uri]) == seen.hash
    requires var target := TargetUri(Bucket(seen.uri), seen.hash); target in w.files ==> digest(w.files[target]) == seen.hash
    ensures var target := TargetUri(Bucket(seen.uri), seen.hash);
      var placed := if target in w.files then w else w.(files := w.files[target := w.s3[seen.uri]]);
      IsRun(digest, run) && run[0] == Solo(w, Idle, dry) && run[|run| - 1] == Solo(placed, Stored(id, seen), dry)
  {
    var body, target := w.s3[seen.uri], TargetUri(Bucket(seen.uri), seen.hash);
    run := [Solo(w, Idle, dry)];
    run := ExtendRun(digest, run, w, Idle, w, Fetched(id, seen, body), dry);
    if target in w.files {
      run := ExtendRun(digest, run, w, Fetched(id, seen, body), w, Stored(id, seen), dry);
    } else {
      run := ExtendRun(digest, run, w, Fetched(id, seen, body), w, Absent(id, seen, body), dry);
      run := ExtendRun(digest, run, w, Absent(id, seen, body), w.(files := w.files[target := body]), Stored(id, seen), dry);
    }
  }

  /** An iteration is a run of atomic steps of one migrator. */
  lemma IterationIsRun(digest: Bytes -> string, w: World, id: string, seen: Row, dry: bool)
    returns (run: seq<System>)
    requires id in w.rows && w.rows[id].hash == seen.hash
    ensures IsRun(digest, run)
    ensures run[0] == Solo(w, Idle, dry) && run[|run| - 1] == Solo(MigrateOne(digest, w, id, seen, dry).0, Idle, dry)
  {
    assert StartsWith(seen.uri, S3) ==> seen.uri[0] == 's';
    if !Fetchable(seen.uri) || seen.uri !in w.s3 || digest(w.s3[seen.uri]) != seen.hash {
      run := [Solo(w, Idle, dry)];
      return;
    }
    var target := TargetUri(Bucket(seen.uri), seen.hash);
    if target in w.files && digest(w.files[target]) != seen.hash {
      run := [Solo(w, Idle, dry)];
      return;
    }
    var placed := if target in w.files then w else w.(files := w.files[target := w.s3[seen.uri]]);
    run := PlacingIsRun(digest, w, id, seen, dry);
    run := ExtendRun(digest, run, placed, Stored(id, seen), placed, Verified(id, seen), dry);
    if dry || w.rows[id].uri != seen.uri {
      run := ExtendRun(digest, run, placed, Verified(id, seen), placed, Idle, dry);
    } else {
      run := ExtendRun(digest, run, placed, Verified(id, seen), placed, Matched(id, seen), dry);
      run := ExtendRun(digest, run, placed, Matched(id, seen),
                       placed.(rows := placed.rows[id := placed.rows[id].(uri := target)]), Idle, dry);
    }
  }

  /** A whole migration, finished or raised part-way, preserves every row. */
  lemma {:induction false} MigrationPreserves(digest: Bytes -> string, w: World, snapshot: seq<(string, Row)>,
                                              selected: nat, dry: bool)
    requires forall i :: 0 <= i < |snapshot| ==> snapshot[i].0 in w.rows && w.rows[snapshot[i].0].hash == snapshot[i].1.hash
    ensures Preserves(digest, w, MigrateAll(digest, w, snapshot, selected, dry).0)
    decreases |snapshot|
  {
    if snapshot != [] {
      var front, last := snapshot[..|snapshot| - 1], snapshot[|snapshot| - 1];
      MigrationPreserves(digest, w, front, selected, dry);
      var (w1, c1) := MigrateAll(digest, w, front, selected, dry);
      if c1.Some? {
        var run := IterationIsRun(digest, w1, last.0, last.1, dry);
        RunSafe(digest, run);
        PreservesTransitive(digest, w, w1, run[|run| - 1].w);
      }
    }
  }

  /** A dry run changes no row. */
  lemma {:induction false} DryRunKeepsRows(digest: Bytes -> string, w: World, snapshot: seq<(string, Row)>,
                                           selected: nat)
    ensures MigrateAll(digest, w, snapshot, selected, true).0.rows == w.rows
  {
    if snapshot != [] { DryRunKeepsRows(digest, w, snapshot[..|snapshot| - 1], selected); }
  }

  function OtherSchemes(snapshot: seq<(string, Row)>): nat {
    if snapshot == [] then 0
    else OtherSchemes(snapshot[..|snapshot| - 1])
         + (var uri := snapshot[|snapshot| - 1].1.uri; if StartsWith(uri, ARTIFACT) || StartsWith(uri, S3) then 0 else 1)
  }

  /** Every selected row is counted once, rows of other schemes silently. */
  lemma {:induction false} CountersAddUp(digest: Bytes -> string, w: World, snapshot: seq<(string, Row)>,
                                         selected: nat, dry: bool)
    requires MigrateAll(digest, w, snapshot, selected, dry).1.Some?
    ensures var c := MigrateAll(digest, w, snapshot, selected, dry).1.value;
      c.selected == selected && |snapshot| == c.migrated + c.missing + c.already + OtherSchemes(snapshot)
  {
    if snapshot != [] { CountersAddUp(digest, w, snapshot[..|snapshot| - 1], selected, dry); }
  }

  /** What an iteration can come to, given the row it was read with and whatever others do meanwhile. */
  predicate Possible(seen: Row, o: Outcome) {
    && (o.AlreadyTarget? <==> StartsWith(seen.uri, ARTIFACT))
    && (o.OtherScheme? <==> !StartsWith(seen.uri, ARTIFACT) && !StartsWith(seen.uri, S3))
  }

  /** An undisturbed iteration comes to one of these. */
  lemma MigrateOnePossible(digest: Bytes -> string, w: World, id: string, seen: Row, dry: bool)
    ensures Possible(seen, MigrateOne(digest, w, id, seen, dry).1)
  {
  }

  function Tally(selected: nat, outcomes: seq<Outcome>): Counters {
    if outcomes == [] then Counters(selected, 0, 0, 0)
    else Count(Tally(selected, outcomes[..|outcomes| - 1]), outcomes[|outcomes| - 1])
  }

  /** However the world changes between and during the iterations, the counters add up. */
  lemma {:induction false} CountersAddUpDisturbed(snapshot: seq<(string, Row)>, outcomes: seq<Outcome>, selected: nat)
    requires |outcomes| == |snapshot|
    requires forall k :: 0 <= k < |snapshot| ==> Possible(snapshot[k].1, outcomes[k]) && !outcomes[k].Raised?
    ensures var c := Tally(selected, outcomes);
      c.selected == selected && |snapshot| == c.migrated + c.missing + c.already + OtherSchemes(snapshot)
  {
    if snapshot != [] {
      var m := |snapshot| - 1;
      CountersAddUpDisturbed(snapshot[..m], outcomes[..m], selected);
      assert Possible(snapshot[m].1, outcomes[m]);
    }
  }

  // ---------------------------------------------------------------- what an undisturbed migration does, row by row

  ghost predicate Plain(b: string) { forall c :: c in b ==> c !in "/?#" }

  /** A bucket's name and a key in it. */
  ghost predicate AtBucket(uri: string, b: string, key: string) {
    b != "" && Plain(b) && uri == "s3://" + b + "/" + key
  }

  ghost predicate HasBucket(uri: string) { exists b, key :: AtBucket(uri, b, key) }

  /** Where the row's content belongs: in its bucket, under the first two characters of its hash and the hash. */
  ghost predicate IsTarget(t: string, row: Row) {
    exists b, key :: AtBucket(row.uri, b, key) && IsPlace(t, b, row.hash)
  }

  ghost predicate IsPlace(t: string, b: string, hash: string) {
    t == "artifact://" + b + "/sha256/" + hash[..if |hash| < 2 then |hash| else 2] + "/" + hash
  }

  lemma {:induction false} UntilDelimiterIs(b: string, rest: string)
    requires Plain(b)
    ensures UntilDelimiter(b + "/" + rest) == b
  {
    if b != "" {
      assert b[0] in b;
      assert (b + "/" + rest)[1..] == b[1..] + "/" + rest && b == [b[0]] + b[1..];
      UntilDelimiterIs(b[1..], rest);
    }
  }

  lemma {:induction false} UntilDelimiterPlain(s: string)
    ensures Plain(UntilDelimiter(s))
  {
    if s != "" { UntilDelimiterPlain(s[1..]); }
  }

  lemma BucketIs(uri: string, b: string, key: string)
    requires AtBucket(uri, b, key)
    ensures Fetchable(uri) && Bucket(uri) == b
  {
    assert uri[..|S3|] == S3 && uri[|S3|..] == b + "/" + key;
    UntilDelimiterIs(b, key);
    assert uri[..|S3 + b + "/"|] == S3 + b + "/";
  }

  lemma FetchableExact(uri: string)
    ensures Fetchable(uri) <==> HasBucket(uri)
  {
    if Fetchable(uri) {
      var b := Bucket(uri);
      UntilDelimiterPlain(uri[|S3|..]);
      assert AtBucket(uri, b, uri[|S3 + b + "/"|..]);
    }
    if b, key :| AtBucket(uri, b, key) { BucketIs(uri, b, key); }
  }

  lemma PlaceIs(t: string, b: string, hash: string)
    ensures IsPlace(t, b, hash) <==> t == TargetUri(b, hash)
  {
    var path := hash[..if |hash| < 2 then |hash| else 2] + "/" + hash;
    assert ARTIFACT + b + "/sha256/" + path == ARTIFACT + (b + "/" + ("sha256/" + path));
    assert ARTIFACT + b + "/sha256/" + hash[..if |hash| < 2 then |hash| else 2] + "/" + hash == ARTIFACT + b + "/sha256/" + path;
    assert "sha256/" + path == HashPath(hash);
  }

  lemma TargetExact(t: string, row: Row)
    requires Fetchable(row.uri)
    ensures IsTarget(t, row) <==> t == TargetUri(Bucket(row.uri), row.hash)
  {
    FetchableExact(row.uri);
    var b, key :| AtBucket(row.uri, b, key);
    BucketIs(row.uri, b, key);
    PlaceIs(t, b, row.hash);
    if t == TargetUri(b, row.hash) { assert AtBucket(row.uri, b, key) && IsPlace(t, b, row.hash); }
    if b', key' :| AtBucket(row.uri, b', key') && IsPlace(t, b', row.hash) { BucketIs(row.uri, b', key'); }
  }

  ghost predicate IsMissing(w: World, row: Row) { HasBucket(row.uri) && row.uri !in w.s3 }

  ghost predicate IsMovable(w: World, row: Row) { HasBucket(row.uri) && row.uri in w.s3 }

  /** What makes a migration raise: an S3 row without a bucket, with bytes of another hash, or whose place in
      the filesystem is taken by a file of another hash. */
  ghost predicate IsBad(digest: Bytes -> string, w: World, row: Row) {
    StartsWith(row.uri, "s3://") &&
    (|| !HasBucket(row.uri)
     || (row.uri in w.s3 && digest(w.s3[row.uri]) != row.hash)
     || (row.uri in w.s3 && exists t :: IsTarget(t, row) && t in w.files && digest(w.files[t]) != row.hash))
  }

  /** The row has moved to its target, where its bytes are. */
  ghost predicate Moved(digest: Bytes -> string, w: World, w1: World, id: string)
    requires id in w.rows
  {
    && id in w1.rows && w1.rows[id].hash == w.rows[id].hash
    && IsTarget(w1.rows[id].uri, w.rows[id]) && Resolves(digest, w1, w1.rows[id])
  }

  /** What the first `n` iterations have done: rows whose object exists have moved, unless the run is dry, and
      everything else is as it was. */
  ghost predicate DoneUpTo(digest: Bytes -> string, w: World, w1: World, ids: seq<string>, n: nat, dry: bool)
    requires forall i :: 0 <= i < |ids| ==> ids[i] in w.rows
  {
    && w1.s3 == w.s3 && w1.rows.Keys == w.rows.Keys && FilesAdded(digest, w, w1)
    && (forall id :: id in w.rows && (dry || id !in ids) ==> w1.rows[id] == w.rows[id])
    && (forall i :: 0 <= i < |ids| && (i >= n || !IsMovable(w, w.rows[ids[i]])) ==> w1.rows[ids[i]] == w.rows[ids[i]])
    && (!dry ==> forall i :: 0 <= i < n && i < |ids| && IsMovable(w, w.rows[ids[i]]) ==> Moved(digest, w, w1, ids[i]))
  }

  /** Files are only added, each at the place of its content. */
  ghost predicate FilesAdded(digest: Bytes -> string, w: World, w1: World) {
    && (forall u :: u in w.files ==> u in w1.files && w1.files[u] == w.files[u])
    && (forall u :: u in w1.files && u !in w.files ==> Addressed(digest, u, w1.files[u]))
  }

  datatype Kind = Here | Gone | Movable | Else

  ghost function KindOf(w: World, row: Row): Kind {
    if IsMissing(w, row) then Gone
    else if IsMovable(w, row) then Movable
    else if StartsWith(row.uri, "artifact://") then Here
    else Else
  }

  /** How many of the first `n` rows are of a kind. */
  ghost function Number(w: World, ids: seq<string>, n: nat, kind: Kind): nat
    requires n <= |ids| && forall i :: 0 <= i < |ids| ==> ids[i] in w.rows
  {
    |set i | 0 <= i < n && KindOf(w, w.rows[ids[i]]) == kind|
  }

  /** Each counter is the number of rows of its kind. */
  ghost predicate Counted(w: World, ids: seq<string>, n: nat, c: Counters)
    requires n <= |ids| && forall i :: 0 <= i < |ids| ==> ids[i] in w.rows
  {
    && c.selected == |ids| && c.already == Number(w, ids, n, Here)
    && c.missing == Number(w, ids, n, Gone) && c.migrated == Number(w, ids, n, Movable)
  }

  /** An undisturbed migration comes through exactly when no row is bad, and then has moved what there is to
      move and counted every row. */
  ghost predicate Migrates(digest: Bytes -> string, w: World, w1: World, ids: seq<string>, dry: bool, c: Option<Counters>)
    requires forall i :: 0 <= i < |ids| ==> ids[i] in w.rows
  {
    && (c.Some? <==> forall i :: 0 <= i < |ids| ==> !IsBad(digest, w, w.rows[ids[i]]))
    && (c.Some? ==> DoneUpTo(digest, w, w1, ids, |ids|, dry) && Counted(w, ids, |ids|, c.value))
  }

  lemma MigrationExact(digest: Bytes -> string, w: World, ids: seq<string>, dry: bool)
    requires Distinct(ids) && forall i :: 0 <= i < |ids| ==> ids[i] in w.rows
    ensures var (w1, c) := MigrateAll(digest, w, Snapshot(w, ids), |ids|, dry); Migrates(digest, w, w1, ids, dry, c)
  {
    assert Snapshot(w, ids)[..|ids|] == Snapshot(w, ids);
    MigratesUpTo(digest, w, ids, |ids|, dry);
  }

  lemma {:induction false} MigratesUpTo(digest: Bytes -> string, w: World, ids: seq<string>, n: nat, dry: bool)
    requires n <= |ids| && Distinct(ids) && forall i :: 0 <= i < |ids| ==> ids[i] in w.rows
    ensures var (w1, c) := MigrateAll(digest, w, Snapshot(w, ids)[..n], |ids|, dry);
      && (c.Some? <==> forall i :: 0 <= i < n ==> !IsBad(digest, w, w.rows[ids[i]]))
      && (c.Some? ==> DoneUpTo(digest, w, w1, ids, n, dry) && Counted(w, ids, n, c.value))
    decreases n
  {
    if n > 0 {
      var m := n - 1;
      MigrateAllStep(digest, w, Snapshot(w, ids), m, |ids|, dry);
      MigratesUpTo(digest, w, ids, m, dry);
      var (w1, c) := MigrateAll(digest, w, Snapshot(w, ids)[..m], |ids|, dry);
      if c.Some? {
        IterationExact(digest, w, w1, ids, m, dry);
        var (w2, o) := MigrateOne(digest, w1, ids[m], w.rows[ids[m]], dry);
        if !o.Raised? { CountNext(w, ids, m, c.value, o); }
      }
    }
  }

  lemma NumberNext(w: World, ids: seq<string>, n: nat, kind: Kind)
    requires n < |ids| && forall i :: 0 <= i < |ids| ==> ids[i] in w.rows
    ensures Number(w, ids, n + 1, kind) == Number(w, ids, n, kind) + if KindOf(w, w.rows[ids[n]]) == kind then 1 else 0
  {
    assert (set i | 0 <= i < n + 1 && KindOf(w, w.rows[ids[i]]) == kind)
      == (set i | 0 <= i < n && KindOf(w, w.rows[ids[i]]) == kind) + if KindOf(w, w.rows[ids[n]]) == kind then {n} else {};
  }

  ghost predicate OfKind(kind: Kind, o: Outcome) {
    match kind
    case Here => o == AlreadyTarget
    case Gone => o == Missing
    case Movable => o == Migrated
    case Else => o == OtherScheme
  }

  lemma CountNext(w: World, ids: seq<string>, n: nat, c: Counters, o: Outcome)
    requires n < |ids| && forall i :: 0 <= i < |ids| ==> ids[i] in w.rows
    requires Counted(w, ids, n, c) && OfKind(KindOf(w, w.rows[ids[n]]), o)
    ensures Counted(w, ids, n + 1, Count(c, o))
  {
    NumberNext(w, ids, n, Here);
    NumberNext(w, ids, n, Gone);
    NumberNext(w, ids, n, Movable);
  }

  /** Content goes to its place. */
  lemma PlacedAddressed(digest: Bytes -> string, bucket: string, body: Bytes)
    requires '/' !in bucket
    ensures Addressed(digest, TargetUri(bucket, digest(body)), body)
  {
    forall b, hash | '/' !in b && TargetUri(bucket, digest(body)) == TargetUri(b, hash) ensures digest(body) == hash {
      TargetUriHash(bucket, digest(body), b, hash);
    }
  }

  /** Files added on the way are never in the way. */
  lemma BadExact(digest: Bytes -> string, w: World, w1: World, row: Row)
    requires Fetchable(row.uri) && w1.s3 == w.s3
    requires FilesAdded(digest, w, w1)
    ensures var t := TargetUri(Bucket(row.uri), row.hash);
      IsBad(digest, w, row) <==>
      row.uri in w1.s3 && (digest(w1.s3[row.uri]) != row.hash || (t in w1.files && digest(w1.files[t]) != row.hash))
  {
    var t := TargetUri(Bucket(row.uri), row.hash);
    FetchableExact(row.uri);
    forall u { TargetExact(u, row); }
    if t in w1.files && t !in w.files { assert Addressed(digest, t, w1.files[t]); }
  }

  lemma OutcomeExact(digest: Bytes -> string, w: World, w1: World, ids: seq<string>, n: nat, dry: bool)
    requires n < |ids| && Distinct(ids) && forall i :: 0 <= i < |ids| ==> ids[i] in w.rows
    requires DoneUpTo(digest, w, w1, ids, n, dry)
    ensures var row, o := w.rows[ids[n]], MigrateOne(digest, w1, ids[n], w.rows[ids[n]], dry).1;
      (o.Raised? <==> IsBad(digest, w, row)) && (!o.Raised? ==> OfKind(KindOf(w, row), o))
  {
    var row := w.rows[ids[n]];
    FetchableExact(row.uri);
    if Fetchable(row.uri) { BadExact(digest, w, w1, row); }
    assert StartsWith(row.uri, ARTIFACT) ==> row.uri[0] == 'a' && S3[0] == 's';
  }

  /** One more iteration. */
  lemma IterationExact(digest: Bytes -> string, w: World, w1: World, ids: seq<string>, n: nat, dry: bool)
    requires n < |ids| && Distinct(ids) && forall i :: 0 <= i < |ids| ==> ids[i] in w.rows
    requires DoneUpTo(digest, w, w1, ids, n, dry)
    ensures var (w2, o) := MigrateOne(digest, w1, ids[n], w.rows[ids[n]], dry);
      && (o.Raised? <==> IsBad(digest, w, w.rows[ids[n]]))
      && (!o.Raised? ==> OfKind(KindOf(w, w.rows[ids[n]]), o) && DoneUpTo(digest, w, w2, ids, n + 1, dry))
  {
    var row := w.rows[ids[n]];
    var (w2, o) := MigrateOne(digest, w1, ids[n], row, dry);
    OutcomeExact(digest, w, w1, ids, n, dry);
    if o.Migrated? {
      PlacedFiles(digest, w, w1, ids[n], row, dry);
      if !dry { MoveNext(digest, w, w1, w2, ids, n); }
    }
  }

  lemma MoveNext(digest: Bytes -> string, w: World, w1: World, w2: World, ids: seq<string>, n: nat)
    requires n < |ids| && Distinct(ids) && forall i :: 0 <= i < |ids| ==> ids[i] in w.rows
    requires DoneUpTo(digest, w, w1, ids, n, false)
    requires MigrateOne(digest, w1, ids[n], w.rows[ids[n]], false) == (w2, Migrated) && FilesAdded(digest, w, w2)
    requires forall u :: u in w1.files ==> u in w2.files && w2.files[u] == w1.files[u]
    requires IsMovable(w, w.rows[ids[n]])
    ensures DoneUpTo(digest, w, w2, ids, n + 1, false)
  {
    assert forall i :: 0 <= i < n ==> ids[i] != ids[n];
    MovedNow(digest, w, w1, w2, ids[n]);
    forall i | 0 <= i < n && IsMovable(w, w.rows[ids[i]]) ensures Moved(digest, w, w2, ids[i]) {
      MovedStays(digest, w, w1, w2, ids[i]);
    }
  }

  lemma PlacedFiles(digest: Bytes -> string, w: World, w1: World, id: string, row: Row, dry: bool)
    requires FilesAdded(digest, w, w1) && MigrateOne(digest, w1, id, row, dry).1.Migrated?
    ensures var w2 := MigrateOne(digest, w1, id, row, dry).0;
      FilesAdded(digest, w, w2) && w2.s3 == w1.s3 && (forall u :: u in w1.files ==> u in w2.files && w2.files[u] == w1.files[u])
  {
    PlacedAddressed(digest, Bucket(row.uri), w1.s3[row.uri]);
  }

  lemma MovedNow(digest: Bytes -> string, w: World, w1: World, w2: World, id: string)
    requires id in w.rows && id in w1.rows && w1.rows[id] == w.rows[id]
    requires MigrateOne(digest, w1, id, w.rows[id], false) == (w2, Migrated)
    ensures Moved(digest, w, w2, id)
  {
    var row := w.rows[id];
    TargetExact(TargetUri(Bucket(row.uri), row.hash), row);
    TargetIsArtifact(Bucket(row.uri), row.hash);
  }

  lemma MovedStays(digest: Bytes -> string, w: World, w1: World, w2: World, id: string)
    requires id in w.rows && Moved(digest, w, w1, id) && id in w2.rows && w2.rows[id] == w1.rows[id] && w2.s3 == w1.s3
    requires forall u :: u in w1.files ==> u in w2.files && w2.files[u] == w1.files[u]
    ensures Moved(digest, w, w2, id)
  {
  }

  /** A row a migration leaves alone without raising. */
  predicate Settled(w: World, row: Row) {
    || StartsWith(row.uri, ARTIFACT)
    || !StartsWith(row.uri, S3)
    || (Fetchable(row.uri) && row.uri !in w.s3)
  }

  /** One iteration that does not raise settles its row and touches no other. */
  lemma MigrateOneSettles(digest: Bytes -> string, w: World, id: string, seen: Row)
    requires id in w.rows && w.rows[id] == seen && !MigrateOne(digest, w, id, seen, false).1.Raised?
    ensures var w1 := MigrateOne(digest, w, id, seen, false).0;
      && w1.s3 == w.s3 && w1.rows.Keys == w.rows.Keys && Settled(w1, w1.rows[id])
      && forall other :: other in w.rows && other != id ==> w1.rows[other] == w.rows[other]
  {
    if Fetchable(seen.uri) { TargetIsArtifact(Bucket(seen.uri), seen.hash); }
  }

  /** The first `n` rows are settled and the others as they were. */
  ghost predicate SettledUpTo(w: World, w1: World, ids: seq<string>, n: nat)
    requires forall i :: 0 <= i < |ids| ==> ids[i] in w.rows
  {
    && w1.s3 == w.s3
    && (forall i :: 0 <= i < |ids| ==> ids[i] in w1.rows)
    && (forall i :: 0 <= i < n && i < |ids| ==> Settled(w1, w1.rows[ids[i]]))
    && (forall i :: n <= i < |ids| ==> w1.rows[ids[i]] == w.rows[ids[i]])
  }

  /** After a completed migration every row it covered is settled. */
  lemma {:induction false} CompletedSettles(digest: Bytes -> string, w: World, ids: seq<string>, n: nat)
    requires n <= |ids| && Distinct(ids) && forall i :: 0 <= i < |ids| ==> ids[i] in w.rows
    requires MigrateAll(digest, w, Snapshot(w, ids)[..n], |ids|, false).1.Some?
    ensures SettledUpTo(w, MigrateAll(digest, w, Snapshot(w, ids)[..n], |ids|, false).0, ids, n)
    decreases n
  {
    if n > 0 {
      var snapshot := Snapshot(w, ids);
      MigrateAllStep(digest, w, snapshot, n - 1, |ids|, false);
      CompletedSettles(digest, w, ids, n - 1);
      var before := MigrateAll(digest, w, snapshot[..n - 1], |ids|, false).0;
      MigrateOneSettles(digest, before, ids[n - 1], snapshot[n - 1].1);
    }
  }

  /** Migrating settled rows changes nothing and moves nothing. */
  lemma {:induction false} SettledIsStable(digest: Bytes -> string, w: World, snapshot: seq<(string, Row)>,
                                           selected: nat, dry: bool)
    requires forall i :: 0 <= i < |snapshot| ==> Settled(w, snapshot[i].1)
    ensures MigrateAll(digest, w, snapshot, selected, dry).0 == w
    ensures MigrateAll(digest, w, snapshot, selected, dry).1.Some?
    ensures MigrateAll(digest, w, snapshot, selected, dry).1.value.migrated == 0
  {
    if snapshot != [] { SettledIsStable(digest, w, snapshot[..|snapshot| - 1], selected, dry); }
  }

  /** A rerun after a complete run finishes, migrates nothing and leaves the world as it is. */
  lemma RerunMigratesNothing(digest: Bytes -> string, w: World, ids: seq<string>, dry: bool)
    requires Distinct(ids) && forall i :: 0 <= i < |ids| ==> ids[i] in w.rows
    requires MigrateAll(digest, w, Snapshot(w, ids), |ids|, false).1.Some?
    ensures var w1 := MigrateAll(digest, w, Snapshot(w, ids), |ids|, false).0;
      && (forall i :: 0 <= i < |ids| ==> ids[i] in w1.rows)
      && var (w2, c) := MigrateAll(digest, w1, Snapshot(w1, ids), |ids|, dry);
         w2 == w1 && c.Some? && c.value.migrated == 0
  {
    assert Snapshot(w, ids)[..|ids|] == Snapshot(w, ids);
    CompletedSettles(digest, w, ids, |ids|);
    var w1 := MigrateAll(digest, w, Snapshot(w, ids), |ids|, false).0;
    SettledIsStable(digest, w1, Snapshot(w1, ids), |ids|, dry);
  }

  /** Beside any migrators and producers a settled row stays settled, unless a producer stores the object it
      was missing, and then it is as it was. */
  lemma SettledBesideOthers(digest: Bytes -> string, run: seq<System>, id: string)
    requires IsRun(digest, run) && Inv(digest, run[0]) && id in run[0].w.rows && Settled(run[0].w, run[0].w.rows[id])
    ensures var w, w' := run[0].w, run[|run| - 1].w;
      && id in w'.rows
      && (Settled(w', w'.rows[id]) || (w'.rows[id] == w.rows[id] && w.rows[id].uri !in w.s3 && w.rows[id].uri in w'.s3))
  {
    RunSafe(digest, run);
    var w, w' := run[0].w, run[|run| - 1].w;
    if w'.rows[id].uri != w.rows[id].uri {
      assert StartsWith(w'.rows[id].uri, ARTIFACT);
    }
  }
}
