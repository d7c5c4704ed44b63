/**
 * A local `HashMap` filled by a loop of `put` calls, as both `match` and
 * `parseQuery` do: each step either puts one key/value pair or skips.
 */
module HashMapPuts {
  import opened Wrappers

  /** The map left by running the puts of `ops` in order on an empty map. */
  function PutAll<K, V>(ops: seq<Option<(K, V)>>): map<K, V>
  {
    if ops == [] then map[]
    else
      var m := PutAll(ops[..|ops| - 1]);
      match ops[|ops| - 1]
      case None => m
      case Some((k, v)) => m[k := v]
  }

  predicate PutsKey<K(==), V>(op: Option<(K, V)>, k: K)
  {
    op.Some? && op.value.0 == k
  }

  /**
   * A key is bound exactly when some step puts it, and it is bound to the
   * value of the LAST step that puts it: `HashMap.put` overwrites.
   */
  lemma {:induction false} PutAllLastWins<K, V>(ops: seq<Option<(K, V)>>, k: K)
    ensures k in PutAll(ops) <==> exists i :: 0 <= i < |ops| && PutsKey(ops[i], k)
    ensures forall i :: 0 <= i < |ops| && PutsKey(ops[i], k) && (forall j :: i < j < |ops| ==> !PutsKey(ops[j], k))
                ==> k in PutAll(ops) && PutAll(ops)[k] == ops[i].value.1
  {
    if ops != [] {
      var n := |ops| - 1;
      var p := ops[..n];
      PutAllLastWins(p, k);
      assert forall i :: 0 <= i < n ==> p[i] == ops[i];
      if PutsKey(ops[n], k) {
        assert k in PutAll(ops);
      } else {
        assert k in PutAll(ops) <==> k in PutAll(p);
        if k in PutAll(ops) {
          var i :| 0 <= i < n && PutsKey(p[i], k);
          assert PutsKey(ops[i], k);
        }
      }
    }
  }

  /** With no step putting anything, the map stays empty. */
  lemma NoPutsEmpty<K, V>(ops: seq<Option<(K, V)>>)
    requires forall i :: 0 <= i < |ops| ==> ops[i].None?
    ensures PutAll(ops) == map[]
  {
    forall k | k in PutAll(ops)
      ensures false
    {
      PutAllLastWins(ops, k);
    }
  }
}
