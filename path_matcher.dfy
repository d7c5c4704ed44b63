/**
 * `MiniExpress.match(route, path)`: both strings are split on '/', and the
 * route matches when the segment counts agree and every segment that does
 * not start with ':' is equal to the path's segment. Each ':name' segment
 * binds `name` to the raw path segment. No match is Java's `null`.
 */
module PathMatcher {
  import opened Wrappers
  import opened JavaStrings
  import opened HashMapPuts

  /** `seg.startsWith(":")`. */
  predicate IsParam(seg: string)
  {
    |seg| > 0 && seg[0] == ':'
  }

  /** Route segments line up with path segments, literals being equal. */
  predicate Agree(rParts: seq<string>, pParts: seq<string>)
  {
    |rParts| == |pParts| && forall i :: 0 <= i < |rParts| ==> IsParam(rParts[i]) || rParts[i] == pParts[i]
  }

  /** Position `i` of the route is the parameter segment ':k'. */
  predicate BindsAt(rParts: seq<string>, i: int, k: string)
  {
    0 <= i < |rParts| && IsParam(rParts[i]) && rParts[i][1..] == k
  }

  /** The `put` each loop iteration performs: `params.put(seg.substring(1), pParts[i])` or nothing. */
  function BindOps(rParts: seq<string>, pParts: seq<string>): (ops: seq<Option<(string, string)>>)
    requires |rParts| == |pParts|
    ensures |ops| == |rParts|
    ensures forall i, k :: 0 <= i < |rParts| ==> (PutsKey(ops[i], k) <==> BindsAt(rParts, i, k))
    ensures forall i :: 0 <= i < |rParts| && ops[i].Some? ==> ops[i].value.1 == pParts[i]
  {
    seq(|rParts|, i requires 0 <= i < |rParts| =>
      if IsParam(rParts[i]) then Some((rParts[i][1..], pParts[i])) else None)
  }

  function MatchSegments(rParts: seq<string>, pParts: seq<string>): Option<map<string, string>>
  {
    if Agree(rParts, pParts) then Some(PutAll(BindOps(rParts, pParts))) else None
  }

  /** What `match(route, path)` returns. */
  function MatchSpec(route: string, path: string): Option<map<string, string>>
  {
    MatchSegments(JavaSplit(route, '/'), JavaSplit(path, '/'))
  }

  /** `match` runs it as a loop that fills a map and may return early. */
  method Match(route: string, path: string) returns (params: Option<map<string, string>>)
    ensures params == MatchSpec(route, path)
    ensures |JavaSplit(route, '/')| != |JavaSplit(path, '/')| ==> params == None
    ensures params.Some? <==> Agree(JavaSplit(route, '/'), JavaSplit(path, '/'))
  {
    var rParts := JavaSplit(route, '/');
    var pParts := JavaSplit(path, '/');
    if |rParts| != |pParts| {
      return None;
    }
    ghost var ops := BindOps(rParts, pParts);
    var m := map[];
    for i := 0 to |rParts|
      invariant m == PutAll(ops[..i])
      invariant forall j :: 0 <= j < i ==> IsParam(rParts[j]) || rParts[j] == pParts[j]
    {
      assert ops[..i + 1][..i] == ops[..i];
      if IsParam(rParts[i]) {
        m := m[rParts[i][1..] := pParts[i]];
      } else if rParts[i] != pParts[i] {
        return None;
      }
    }
    assert ops[..|rParts|] == ops;
    return Some(m);
  }

  /**
   * On a match, a name is bound exactly when some ':name' segment carries it,
   * and it is bound to the path segment under the LAST such segment.
   */
  lemma MatchBindings(route: string, path: string, k: string)
    requires MatchSpec(route, path).Some?
    ensures var rParts, pParts := JavaSplit(route, '/'), JavaSplit(path, '/');
      var m := MatchSpec(route, path).value;
      && (k in m <==> exists i :: BindsAt(rParts, i, k))
      && forall i :: BindsAt(rParts, i, k) && (forall j :: i < j < |rParts| ==> !BindsAt(rParts, j, k))
           ==> k in m && m[k] == pParts[i]
  {
    var rParts, pParts := JavaSplit(route, '/'), JavaSplit(path, '/');
    var ops := BindOps(rParts, pParts);
    PutAllLastWins(ops, k);
    if k in MatchSpec(route, path).value {
      var i :| 0 <= i < |ops| && PutsKey(ops[i], k);
      assert BindsAt(rParts, i, k);
    }
  }

  /** A route with no ':' segment yields an empty map when it matches. */
  lemma LiteralRouteBindsNothing(route: string, path: string)
    requires MatchSpec(route, path).Some?
    requires forall i :: 0 <= i < |JavaSplit(route, '/')| ==> !IsParam(JavaSplit(route, '/')[i])
    ensures MatchSpec(route, path) == Some(map[])
  {
    NoPutsEmpty(BindOps(JavaSplit(route, '/'), JavaSplit(path, '/')));
  }

  lemma UserPathSplit(id: string)
    requires id != [] && '/' !in id
    ensures JavaSplit("/user/" + id, '/') == ["", "user", id]
  {
    var p := ["", "user", id];
    JavaSplitJoin(p, '/');
    assert Join(["user", id], '/') == "user" + "/" + id by { assert Join([id], '/') == id; }
    assert Join(p, '/') == "/user/" + id;
  }

  /** "/user/:id" against "/user/<id>" binds id to the segment, e.g. "/user/42" gives {id: "42"}. */
  lemma UserRouteMatches(id: string)
    requires id != [] && '/' !in id
    ensures MatchSpec("/user/:id", "/user/" + id) == Some(map["id" := id])
  {
    var r, p := ["", "user", ":id"], ["", "user", id];
    JavaSplitJoin(r, '/');
    assert Join(r, '/') == "/user/:id";
    UserPathSplit(id);
    assert Agree(r, p);
    var ops := BindOps(r, p);
    assert ops == [None, None, Some(("id", id))];
    assert PutAll(ops[..1]) == map[] by { assert ops[..1] == [None] && ops[..1][..0] == []; }
    assert PutAll(ops[..2]) == map[] by { assert ops[..2][..1] == ops[..1]; }
    assert PutAll(ops) == map["id" := id] by { assert ops[..2] == ops[..|ops| - 1]; }
  }

  /** The root route "/" has no segment, so it matches only paths that split to nothing. */
  lemma RootRouteMatchesOnlyEmpty(path: string)
    requires JavaSplit(path, '/') != []
    ensures MatchSpec("/", path) == None
  {
    LoneDelimiterSplitsToNothing('/');
  }

  /** "/user/:id" has three segments, so it fails on any path with another count. */
  lemma UserRouteNeedsThreeSegments(path: string)
    requires |JavaSplit(path, '/')| != 3
    ensures MatchSpec("/user/:id", path) == None
  {
    JavaSplitJoin(["", "user", ":id"], '/');
    assert Join(["", "user", ":id"], '/') == "/user/:id";
  }

  /** A trailing slash on the path changes nothing. */
  lemma UserRouteTrailingSlash()
    ensures MatchSpec("/user/:id", "/user/42/") == MatchSpec("/user/:id", "/user/42")
  {
    TrailingDelimiterIgnored("/user/42", '/');
    assert "/user/42" + "/" == "/user/42/";
  }

  /** One segment too many or too few: no match. */
  lemma UserRouteArity()
    ensures MatchSpec("/user/:id", "/user/42/x") == None
    ensures MatchSpec("/user/:id", "/user") == None
  {
    JavaSplitJoin(["", "user", ":id"], '/');
    assert Join(["", "user", ":id"], '/') == "/user/:id";
    JavaSplitJoin(["", "user", "42", "x"], '/');
    assert Join(["", "user", "42", "x"], '/') == "/user/42/x";
    JavaSplitJoin(["", "user"], '/');
    assert Join(["", "user"], '/') == "/user";
  }

  /** Both ':id' segments put into the same map: the second wins. */
  lemma DuplicateNameLastWins()
    ensures MatchSpec("/:id/:id", "/1/2") == Some(map["id" := "2"])
  {
    var r, p := ["", ":id", ":id"], ["", "1", "2"];
    JavaSplitJoin(r, '/');
    assert Join(r, '/') == "/:id/:id";
    JavaSplitJoin(p, '/');
    assert Join(p, '/') == "/1/2";
    assert Agree(r, p);
    var ops := BindOps(r, p);
    assert ops == [None, Some(("id", "1")), Some(("id", "2"))];
    assert PutAll(ops[..1]) == map[] by { assert ops[..1] == [None] && ops[..1][..0] == []; }
    assert PutAll(ops[..2]) == map["id" := "1"] by { assert ops[..2][..1] == ops[..1]; }
    assert PutAll(ops) == map["id" := "2"] by { assert ops[..2] == ops[..|ops| - 1]; }
  }

  /** "/" has no segment, so the root route matches only "/" (or "//"). */
  lemma RootExamples()
    ensures MatchSpec("/", "/") == Some(map[])
    ensures MatchSpec("/", "/x") == None
  {
    LoneDelimiterSplitsToNothing('/');
    JavaSplitJoin(["", "x"], '/');
    assert Join(["", "x"], '/') == "/x";
  }
}
