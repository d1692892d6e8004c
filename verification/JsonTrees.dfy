/** JSON values, and walks over the trees that arrays of objects form in them. */
module JsonTrees {
  import opened Ordering

  datatype Json =
    | Null
    | Bool(b: bool)
    | Number(n: real)
    | Str(s: string)
    | Arr(items: seq<Json>)
    | Obj(fields: map<string, Json>)
  {
    /** The items of an array-valued field of an object. */
    function Items(field: string): Option<seq<Json>> {
      if Obj? && field in fields && fields[field].Arr? then Some(fields[field].items) else None
    }
  }

  // ---------------------------------------------------------------- paths into a tree of nodes

  /** `path` indexes `node` through object nodes and the arrays in their field `key`. */
  predicate PathTo(key: string, nodes: seq<Json>, path: seq<int>, node: Json)
    decreases |path|
  {
    && path != [] && 0 <= path[0] < |nodes| && nodes[path[0]].Obj?
    && if |path| == 1 then node == nodes[path[0]]
       else nodes[path[0]].Items(key).Some? && PathTo(key, nodes[path[0]].Items(key).value, path[1..], node)
  }

  predicate IntLess(a: int, b: int) { a < b }

  /** Preorder: a node comes before its descendants, and siblings come with their subtrees in order. */
  predicate PathLess(a: seq<int>, b: seq<int>) { LexLess(IntLess, a, b) }

  lemma {:induction false} PathLessUnderPrefix(prefix: seq<int>, a: seq<int>, b: seq<int>)
    ensures PathLess(prefix + a, prefix + b) <==> PathLess(a, b)
  {
    if prefix == [] {
      assert prefix + a == a && prefix + b == b;
    } else {
      assert (prefix + a)[0] == (prefix + b)[0] == prefix[0];
      assert (prefix + a)[1..] == prefix[1..] + a && (prefix + b)[1..] == prefix[1..] + b;
      PathLessUnderPrefix(prefix[1..], a, b);
    }
  }

  type Found = (seq<int>, Json)

  /** `r` holds, in preorder, the nodes found at `prefix` followed by paths starting below `bound`. */
  ghost predicate WalkUpTo(key: string, nodes: seq<Json>, prefix: seq<int>, bound: int, r: seq<Found>) {
    && (forall k :: 0 <= k < |r| ==> Located(key, nodes, prefix, bound, r[k]))
    && (forall path, node :: PathTo(key, nodes, path, node) && path[0] < bound ==> (prefix + path, node) in r)
    && (forall i, j :: 0 <= i < j < |r| ==> PathLess(r[i].0, r[j].0))
  }

  predicate Located(key: string, nodes: seq<Json>, prefix: seq<int>, bound: int, f: Found) {
    && |prefix| < |f.0| && f.0[..|prefix|] == prefix && f.0[|prefix|] < bound
    && PathTo(key, nodes, f.0[|prefix|..], f.1)
  }

  lemma PathLessSplit(prefix: seq<int>, a: seq<int>, b: seq<int>)
    requires |prefix| < |a| && |prefix| < |b| && a[..|prefix|] == prefix && b[..|prefix|] == prefix
    requires a[|prefix|] < b[|prefix|]
    ensures PathLess(a, b)
  {
    assert a == prefix + a[|prefix|..] && b == prefix + b[|prefix|..];
    PathLessUnderPrefix(prefix, a[|prefix|..], b[|prefix|..]);
  }

  /** The subtree of one node, found below `prefix + [i]`, extends what was found before it. */
  lemma WalkExtends(key: string, nodes: seq<Json>, prefix: seq<int>, i: int, r: seq<Found>, below: seq<Found>)
    requires 0 <= i < |nodes| && nodes[i].Obj? && WalkUpTo(key, nodes, prefix, i, r)
    requires match nodes[i].Items(key)
      case None => below == []
      case Some(children) => WalkUpTo(key, children, prefix + [i], |children|, below)
    ensures WalkUpTo(key, nodes, prefix, i + 1, r + [(prefix + [i], nodes[i])] + below)
  {
    var here := (prefix + [i], nodes[i]);
    var all := r + [here] + below;
    assert here.0[|prefix|..] == [i];
    forall f | f in below ensures Located(key, nodes, prefix, i + 1, f) && f.0[|prefix|] == i && PathLess(here.0, f.0) {
      var k :| 0 <= k < |below| && below[k] == f;
      var children := nodes[i].Items(key).value;
      assert Located(key, children, prefix + [i], |children|, below[k]);
      assert f.0[..|prefix|] == f.0[..|prefix| + 1][..|prefix|] == prefix && f.0[|prefix|] == f.0[..|prefix| + 1][|prefix|] == i;
      assert f.0[|prefix|..][1..] == f.0[|prefix| + 1..];
      assert f.0 == here.0 + f.0[|prefix| + 1..] && here.0 == here.0 + [];
      PathLessUnderPrefix(here.0, [], f.0[|prefix| + 1..]);
    }
    forall path, node | PathTo(key, nodes, path, node) && path[0] < i + 1 ensures (prefix + path, node) in all {
      if path[0] == i {
        if |path| == 1 {
          assert path == [i];
        } else {
          assert PathTo(key, nodes[i].Items(key).value, path[1..], node);
          assert prefix + [i] + path[1..] == prefix + path;
          assert (prefix + path, node) in below;
        }
      } else {
        assert (prefix + path, node) in r;
      }
    }
    forall a, b | 0 <= a < b < |all| ensures PathLess(all[a].0, all[b].0) {
      if a < |r| && b >= |r| {
        assert Located(key, nodes, prefix, i, r[a]);
        if b > |r| { assert all[b] in below; }
        PathLessSplit(prefix, all[a].0, all[b].0);
      } else if a == |r| {
        assert all[b] in below;
      } else if a > |r| {
        assert PathLess(below[a - |r| - 1].0, below[b - |r| - 1].0);
      }
    }
    forall k | 0 <= k < |all| ensures Located(key, nodes, prefix, i + 1, all[k]) {
      if k < |r| { assert Located(key, nodes, prefix, i, r[k]); }
      if k > |r| { assert all[k] in below; }
    }
  }
}
