/**
 * A map filled by a sequence of optional writes, where a later write to a
 * key replaces an earlier one. Both the SEO table (keyed by `custom_id`) and
 * the converter's output folder (keyed by file path) are built this way.
 */
module LastWins {
  import opened Wrappers

  /** The map after applying `writes` in order to an empty map; `None` writes nothing. */
  function Fill<K(==), V>(writes: seq<Option<(K, V)>>): map<K, V> {
    if writes == [] then map[]
    else
      var m := Fill(writes[..|writes| - 1]);
      match writes[|writes| - 1]
      case None => m
      case Some((k, v)) => m[k := v]
  }

  /** The `i`-th write sets key `k`. */
  predicate Writes<K(==), V>(writes: seq<Option<(K, V)>>, i: int, k: K) {
    0 <= i < |writes| && writes[i].Some? && writes[i].value.0 == k
  }

  /** The number of writes that set some key. */
  function CountWrites<K(==), V>(writes: seq<Option<(K, V)>>): (n: nat)
    ensures n <= |writes|
  {
    if writes == [] then 0
    else CountWrites(writes[..|writes| - 1]) + (if writes[|writes| - 1].Some? then 1 else 0)
  }

  /**
   * A key is present exactly when some write sets it, and it holds the value
   * of the last write that sets it.
   */
  lemma {:induction false} FillLastWriteWins<K, V>(writes: seq<Option<(K, V)>>, k: K)
    ensures k in Fill(writes) <==> exists i :: Writes(writes, i, k)
    ensures forall i :: (Writes(writes, i, k) && forall j :: i < j < |writes| ==> !Writes(writes, j, k))
                        ==> k in Fill(writes) && Fill(writes)[k] == writes[i].value.1
    decreases |writes|
  {
    if writes != [] {
      var n := |writes| - 1;
      var init := writes[..n];
      FillLastWriteWins(init, k);
      assert forall i :: 0 <= i < n ==> (Writes(init, i, k) <==> Writes(writes, i, k));
      if Writes(writes, n, k) {
        assert k in Fill(writes);
      } else {
        if k in Fill(writes) {
          var i :| Writes(init, i, k);
          assert Writes(writes, i, k);
        }
      }
    }
  }

  /** Each key present was set by at least one write, so there are no more keys than writes. */
  lemma {:induction false} FillSize<K, V>(writes: seq<Option<(K, V)>>)
    ensures |Fill(writes)| <= CountWrites(writes)
    decreases |writes|
  {
    if writes != [] {
      FillSize(writes[..|writes| - 1]);
    }
  }
}
