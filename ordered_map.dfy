/**
 * A JavaScript `Map`: a finite map that also remembers the order in which
 * its keys were first inserted, which is the order `entries()` and `keys()`
 * iterate in.
 */
module OrderedMaps {
  import opened Seqs

  datatype OMap<K, V> = OMap(keys: seq<K>, entries: map<K, V>) {
    ghost predicate Valid() {
      NoDups(keys) && (forall k :: k in keys ==> k in entries) && (forall k :: k in entries ==> k in keys)
    }

    /** `map.set(k, v)`: a new key goes to the end of the order, an existing key keeps its place. */
    function Put(k: K, v: V): (r: OMap<K, V>)
      requires Valid()
      ensures r.Valid()
      ensures r.entries == entries[k := v]
      ensures r.keys == if k in entries then keys else keys + [k]
    {
      if k in entries then OMap(keys, entries[k := v]) else OMap(keys + [k], entries[k := v])
    }
  }

  function Empty<K, V>(): (r: OMap<K, V>)
    ensures r.Valid() && r.keys == [] && r.entries == map[]
  {
    OMap([], map[])
  }

  // ---------------------------------------------------------------------------
  // A map of lists filled by pushing `(key, value)` pairs one at a time

  function Firsts<K, V>(occ: seq<(K, V)>): (r: seq<K>)
    ensures |r| == |occ|
    ensures forall i | 0 <= i < |occ| :: r[i] == occ[i].0
  {
    seq(|occ|, i requires 0 <= i < |occ| => occ[i].0)
  }

  /** The values pushed under `k`, in push order. */
  function ValuesFor<K(==), V>(occ: seq<(K, V)>, k: K): seq<V> {
    if |occ| == 0 then []
    else ValuesFor(occ[..|occ| - 1], k) + (if occ[|occ| - 1].0 == k then [occ[|occ| - 1].1] else [])
  }

  /**
   * The map that `if (!m.has(k)) m.set(k, []); m.get(k).push(v)` builds over
   * `occ`: keys in first-push order, each with the values pushed under it.
   */
  function GroupOf<K(!new), V>(occ: seq<(K, V)>): (r: OMap<K, seq<V>>) {
    OMap(Distinct(Firsts(occ)), map k | k in Firsts(occ) :: ValuesFor(occ, k))
  }

  lemma GroupOfValid<K(!new), V>(occ: seq<(K, V)>)
    ensures GroupOf(occ).Valid()
  {
  }

  lemma FirstsSnoc<K, V>(occ: seq<(K, V)>, k: K, v: V)
    ensures Firsts(occ + [(k, v)]) == Firsts(occ) + [k]
  {
  }

  lemma ValuesForSnoc<K, V>(occ: seq<(K, V)>, k: K, v: V, x: K)
    ensures ValuesFor(occ + [(k, v)], x) == ValuesFor(occ, x) + (if x == k then [v] else [])
  {
    assert (occ + [(k, v)])[..|occ|] == occ;
  }

  lemma GroupOfKeysSnoc<K(!new), V>(occ: seq<(K, V)>, k: K, v: V)
    ensures GroupOf(occ + [(k, v)]).keys ==
              if k in Firsts(occ) then GroupOf(occ).keys else GroupOf(occ).keys + [k]
  {
    FirstsSnoc(occ, k, v);
    DistinctSnoc(Firsts(occ), k);
  }

  lemma GroupOfEntryAt<K(!new), V>(occ: seq<(K, V)>, k: K, v: V, x: K)
    ensures var e' := GroupOf(occ + [(k, v)]).entries;
            var e := GroupOf(occ).entries[k := ValuesFor(occ, k) + [v]];
            (x in e' <==> x in e) && (x in e' ==> e'[x] == e[x])
  {
    FirstsSnoc(occ, k, v);
    ValuesForSnoc(occ, k, v, x);
  }

  lemma GroupOfEntriesSnoc<K(!new), V>(occ: seq<(K, V)>, k: K, v: V)
    ensures GroupOf(occ + [(k, v)]).entries ==
              GroupOf(occ).entries[k := ValuesFor(occ, k) + [v]]
  {
    var e' := GroupOf(occ + [(k, v)]).entries;
    var e := GroupOf(occ).entries[k := ValuesFor(occ, k) + [v]];
    forall x ensures (x in e' <==> x in e) && (x in e' ==> e'[x] == e[x]) {
      GroupOfEntryAt(occ, k, v, x);
    }
  }

  /** One push: the key joins the order if new, and its list grows by the value. */
  lemma GroupOfSnoc<K(!new), V>(occ: seq<(K, V)>, k: K, v: V)
    ensures var m := GroupOf(occ);
            GroupOf(occ + [(k, v)]) == m.Put(k, (if k in m.entries then m.entries[k] else []) + [v])
  {
    var m := GroupOf(occ);
    GroupOfValid(occ);
    GroupOfKeysSnoc(occ, k, v);
    GroupOfEntriesSnoc(occ, k, v);
    if k !in m.entries {
      ValuesForAbsent(occ, k);
    }
  }

  lemma {:induction false} ValuesForAbsent<K(!new), V>(occ: seq<(K, V)>, k: K)
    requires k !in Firsts(occ)
    ensures ValuesFor(occ, k) == []
  {
    if |occ| > 0 {
      var init := occ[..|occ| - 1];
      assert forall i | 0 <= i < |init| :: Firsts(init)[i] == Firsts(occ)[i];
      ValuesForAbsent(init, k);
      assert Firsts(occ)[|occ| - 1] == occ[|occ| - 1].0;
    }
  }

  /** A value is listed under a key exactly when that pair was pushed. */
  lemma {:induction false} ValuesForMembers<K(!new), V(!new)>(occ: seq<(K, V)>, k: K, v: V)
    ensures v in ValuesFor(occ, k) <==> (k, v) in occ
  {
    if |occ| > 0 {
      var init := occ[..|occ| - 1];
      ValuesForMembers(init, k, v);
      assert occ == init + [occ[|occ| - 1]];
    }
  }
}
