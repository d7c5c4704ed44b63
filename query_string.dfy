/**
 * `Request.parseQuery(rawQuery)`: the raw query is split on '&', each
 * segment on '='; a segment binds a key only when that second split gives
 * exactly two strings. A `null` query (none in the URI) gives an empty map.
 */
module QueryString {
  import opened Wrappers
  import opened JavaStrings
  import opened HashMapPuts

  /** `kv = seg.split("="); if (kv.length == 2) map.put(kv[0], kv[1])`. */
  function PairOf(seg: string): (op: Option<(string, string)>)
    ensures op.Some? ==> '=' !in op.value.0 && '=' !in op.value.1 && op.value.1 != []
  {
    var kv := JavaSplit(seg, '=');
    if |kv| == 2 then Some((kv[0], kv[1])) else None
  }

  function QueryOps(segs: seq<string>): (ops: seq<Option<(string, string)>>)
    ensures |ops| == |segs|
    ensures forall i :: 0 <= i < |segs| ==> ops[i] == PairOf(segs[i])
  {
    seq(|segs|, i requires 0 <= i < |segs| => PairOf(segs[i]))
  }

  /** The map `parseQuery` returns. */
  function QuerySpec(rawQuery: Option<string>): map<string, string>
  {
    match rawQuery
    case None => map[]
    case Some(q) => PutAll(QueryOps(JavaSplit(q, '&')))
  }

  /** `parseQuery` runs it as a loop over the '&'-segments. */
  method ParseQuery(rawQuery: Option<string>) returns (query: map<string, string>)
    ensures query == QuerySpec(rawQuery)
    ensures rawQuery.None? ==> query == map[]
    ensures forall k :: k in query ==> '=' !in k && '=' !in query[k] && query[k] != []
  {
    query := map[];
    if rawQuery.None? {
      return;
    }
    var segs := JavaSplit(rawQuery.value, '&');
    ghost var ops := QueryOps(segs);
    for i := 0 to |segs|
      invariant query == PutAll(ops[..i])
      invariant forall k :: k in query ==> '=' !in k && '=' !in query[k] && query[k] != []
    {
      assert ops[..i + 1][..i] == ops[..i];
      var kv := JavaSplit(segs[i], '=');
      if |kv| == 2 {
        query := query[kv[0] := kv[1]];
      }
    }
    assert ops[..|segs|] == ops;
  }

  /** Segment `i` of the query is a well-formed pair with key `k`. */
  predicate PairAt(segs: seq<string>, i: int, k: string)
  {
    0 <= i < |segs| && PairOf(segs[i]).Some? && PairOf(segs[i]).value.0 == k
  }

  /**
   * A key is present exactly when some '&'-segment is a two-part pair with
   * that key, and its value comes from the LAST such segment.
   */
  lemma QueryBindings(q: string, k: string)
    ensures var segs, m := JavaSplit(q, '&'), QuerySpec(Some(q));
      && (k in m <==> exists i :: PairAt(segs, i, k))
      && forall i :: PairAt(segs, i, k) && (forall j :: i < j < |segs| ==> !PairAt(segs, j, k))
           ==> k in m && m[k] == PairOf(segs[i]).value.1
  {
    var segs := JavaSplit(q, '&');
    var ops := QueryOps(segs);
    PutAllLastWins(ops, k);
    assert forall i :: 0 <= i < |segs| ==> (PutsKey(ops[i], k) <==> PairAt(segs, i, k));
    if k in QuerySpec(Some(q)) {
      var i :| 0 <= i < |ops| && PutsKey(ops[i], k);
      assert PairAt(segs, i, k);
    }
  }

  /** `k=v` is kept as (k, v) whenever neither side holds '=' and v is not empty. */
  lemma PairOfJoin(k: string, v: string)
    requires '=' !in k && '=' !in v && v != []
    ensures PairOf(k + "=" + v) == Some((k, v))
  {
    JavaSplitJoin([k, v], '=');
    assert Join([k, v], '=') == k + "=" + v;
  }

  /** A segment without '=' is dropped. */
  lemma PairOfNoEquals(seg: string)
    requires '=' !in seg
    ensures PairOf(seg) == None
  {
  }

  /** An empty key is kept, and so is a pair followed by a lone '='. */
  lemma PairKeptEdgeCases()
    ensures PairOf("=1") == Some(("", "1"))
    ensures PairOf("a=b=") == Some(("a", "b"))
  {
    PairOfJoin("", "1");
    assert "" + "=" + "1" == "=1";
    PairOfJoin("a", "b");
    TrailingDelimiterIgnored("a=b", '=');
    assert "a" + "=" + "b" == "a=b" && "a=b" + "=" == "a=b=";
  }

  /** An empty value and a doubled '=' are both dropped. */
  lemma PairDroppedEdgeCases()
    ensures PairOf("a=") == None
    ensures PairOf("a==b") == None
  {
    TrailingDelimiterIgnored("a", '=');
    assert "a" + "=" == "a=";
    assert JavaSplit("a=", '=') == ["a"];
    JavaSplitJoin(["a", "", "b"], '=');
    assert Join(["a", "", "b"], '=') == "a==b";
  }

  /** `a=1&b=2&bad` gives {a: "1", b: "2"}; `bad` is dropped. */
  lemma QueryExample()
    ensures QuerySpec(Some("a=1&b=2&bad")) == map["a" := "1", "b" := "2"]
  {
    var segs := ["a=1", "b=2", "bad"];
    JavaSplitJoin(segs, '&');
    assert Join(segs, '&') == "a=1&b=2&bad";
    PairOfJoin("a", "1");
    assert "a" + "=" + "1" == "a=1";
    PairOfJoin("b", "2");
    assert "b" + "=" + "2" == "b=2";
    PairOfNoEquals("bad");
    var ops := QueryOps(segs);
    assert ops == [Some(("a", "1")), Some(("b", "2")), None];
    assert PutAll(ops[..1]) == map["a" := "1"] by { assert ops[..1] == [Some(("a", "1"))] && ops[..1][..0] == []; }
    assert PutAll(ops[..2]) == map["a" := "1", "b" := "2"] by { assert ops[..2][..1] == ops[..1]; }
    assert PutAll(ops) == map["a" := "1", "b" := "2"] by { assert ops[..2] == ops[..|ops| - 1]; }
  }

  /** A later duplicate key overwrites an earlier one. */
  lemma DuplicateKeyLastWins()
    ensures QuerySpec(Some("a=1&a=2")) == map["a" := "2"]
  {
    var segs := ["a=1", "a=2"];
    JavaSplitJoin(segs, '&');
    assert Join(segs, '&') == "a=1&a=2";
    PairOfJoin("a", "1");
    assert "a" + "=" + "1" == "a=1";
    PairOfJoin("a", "2");
    assert "a" + "=" + "2" == "a=2";
    var ops := QueryOps(segs);
    assert ops == [Some(("a", "1")), Some(("a", "2"))];
    assert PutAll(ops[..1]) == map["a" := "1"] by { assert ops[..1] == [Some(("a", "1"))] && ops[..1][..0] == []; }
    assert PutAll(ops) == map["a" := "2"] by { assert ops[..1] == ops[..|ops| - 1]; }
  }
}
