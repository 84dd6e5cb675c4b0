/** The behaviour of a `java.util.LinkedHashMap` that is filled by a sequence of `put`
    calls: the entries it ends with, and the order in which its key set is iterated. */
module LinkedMap {
  import opened Sequences

  /** The entries after `put(ks[0], vs[0])`, ..., `put(ks[n-1], vs[n-1])` on an empty map:
      a later `put` of an equal key replaces the value. */
  function Puts<K(==), V>(ks: seq<K>, vs: seq<V>): map<K, V>
    requires |ks| == |vs|
    decreases |ks|
  {
    if ks == [] then map[]
    else Puts(ks[..|ks| - 1], vs[..|vs| - 1])[ks[|ks| - 1] := vs[|vs| - 1]]
  }

  /** The key-set iteration order after the same calls: a key keeps the position of its
      first `put`; re-inserting it does not move it. */
  function KeyOrder<K(==)>(ks: seq<K>): seq<K>
    decreases |ks|
  {
    if ks == [] then []
    else
      var prior := KeyOrder(ks[..|ks| - 1]);
      if ks[|ks| - 1] in prior then prior else prior + [ks[|ks| - 1]]
  }

  /** No later `put` uses the key put at position `i`. */
  ghost predicate LastPut<K>(ks: seq<K>, i: int) {
    0 <= i < |ks| && forall j :: i < j < |ks| ==> ks[j] != ks[i]
  }

  /** One more `put`: the value is replaced or added, and the key order grows only when
      the key is new. */
  lemma PutStep<K, V>(ks: seq<K>, vs: seq<V>, k: K, v: V)
    requires |ks| == |vs|
    ensures Puts(ks + [k], vs + [v]) == Puts(ks, vs)[k := v]
    ensures KeyOrder(ks + [k]) == if k in Puts(ks, vs) then KeyOrder(ks) else KeyOrder(ks) + [k]
  {
    assert (ks + [k])[..|ks|] == ks;
    assert (vs + [v])[..|vs|] == vs;
    PutsDomain(ks, vs);
    KeyOrderMember(ks, k);
  }

  /** `PutStep` read along one sequence of `put` calls: the prefix of length `n + 1`. */
  lemma PutPrefix<K, V>(ks: seq<K>, vs: seq<V>, n: nat)
    requires |ks| == |vs| && n < |ks|
    ensures Puts(ks[..n + 1], vs[..n + 1]) == Puts(ks[..n], vs[..n])[ks[n] := vs[n]]
    ensures KeyOrder(ks[..n + 1]) == if ks[n] in Puts(ks[..n], vs[..n]) then KeyOrder(ks[..n]) else KeyOrder(ks[..n]) + [ks[n]]
  {
    assert ks[..n + 1] == ks[..n] + [ks[n]];
    assert vs[..n + 1] == vs[..n] + [vs[n]];
    PutStep(ks[..n], vs[..n], ks[n], vs[n]);
  }

  /** The map holds exactly the keys that were put. */
  lemma {:induction false} PutsDomain<K, V>(ks: seq<K>, vs: seq<V>)
    requires |ks| == |vs|
    ensures forall k :: k in Puts(ks, vs) <==> k in ks
    decreases |ks|
  {
    if ks != [] {
      var n := |ks| - 1;
      PutsDomain(ks[..n], vs[..n]);
      assert ks == ks[..n] + [ks[n]];
    }
  }

  /** Last write wins: a key maps to the value of its last `put`. */
  lemma {:induction false} PutsLastWins<K, V>(ks: seq<K>, vs: seq<V>, i: int)
    requires |ks| == |vs|
    requires LastPut(ks, i)
    ensures ks[i] in Puts(ks, vs) && Puts(ks, vs)[ks[i]] == vs[i]
    decreases |ks|
  {
    var n := |ks| - 1;
    if i < n {
      PutsLastWins(ks[..n], vs[..n], i);
    }
  }

  /** A key occurs in the key order exactly when it was put. */
  lemma {:induction false} KeyOrderMember<K>(ks: seq<K>, k: K)
    ensures k in KeyOrder(ks) <==> k in ks
    decreases |ks|
  {
    if ks != [] {
      var n := |ks| - 1;
      KeyOrderMember(ks[..n], k);
      assert ks == ks[..n] + [ks[n]];
    }
  }

  /** The key order lists every key that was put, each once. */
  lemma {:induction false} KeyOrderContents<K>(ks: seq<K>)
    ensures Distinct(KeyOrder(ks))
    ensures forall k :: k in KeyOrder(ks) <==> k in ks
    decreases |ks|
  {
    forall k ensures k in KeyOrder(ks) <==> k in ks {
      KeyOrderMember(ks, k);
    }
    if ks != [] {
      KeyOrderContents(ks[..|ks| - 1]);
    }
  }

  /** The key order is the order of first insertion. */
  lemma {:induction false} KeyOrderFirstInsertion<K>(ks: seq<K>)
    ensures forall p, q :: 0 <= p < q < |KeyOrder(ks)| ==> IndexOf(ks, KeyOrder(ks)[p]) < IndexOf(ks, KeyOrder(ks)[q])
    decreases |ks|
  {
    if ks != [] {
      var n := |ks| - 1;
      var prior := KeyOrder(ks[..n]);
      var before := ks[..n];
      assert ks == before + [ks[n]];
      KeyOrderFirstInsertion(before);
      KeyOrderContents(before);
      forall k | k in prior
        ensures IndexOf(ks, k) == IndexOf(before, k) < n
      {
        KeyOrderMember(before, k);
        IndexOfPrefix(before, [ks[n]], k);
      }
      if ks[n] !in prior {
        assert IndexOf(ks, ks[n]) == n;
      }
    }
  }

  /** When no key is put twice, the key order is the order of the puts. */
  lemma {:induction false} KeyOrderOfDistinct<K>(ks: seq<K>)
    requires Distinct(ks)
    ensures KeyOrder(ks) == ks
    decreases |ks|
  {
    if ks != [] {
      var n := |ks| - 1;
      var before := ks[..n];
      assert Distinct(before) by {
        forall i, j | 0 <= i < j < |before| ensures before[i] != before[j] {
          assert before[i] == ks[i] && before[j] == ks[j];
        }
      }
      KeyOrderOfDistinct(before);
      assert ks[n] !in before by {
        forall i | 0 <= i < n ensures before[i] != ks[n] {
          assert before[i] == ks[i];
        }
      }
      assert ks == before + [ks[n]];
    }
  }

  /** The map has one entry per position of the key order, so at most one per `put`. */
  lemma {:induction false} PutsSize<K, V>(ks: seq<K>, vs: seq<V>)
    requires |ks| == |vs|
    ensures |Puts(ks, vs)| == |KeyOrder(ks)| <= |ks|
    decreases |ks|
  {
    if ks != [] {
      var n := |ks| - 1;
      PutsSize(ks[..n], vs[..n]);
      PutsDomain(ks[..n], vs[..n]);
      KeyOrderContents(ks[..n]);
    }
  }

  /** Everything a reader of the filled map can observe, stated at once. */
  lemma PutsSpec<K, V>(ks: seq<K>, vs: seq<V>)
    requires |ks| == |vs|
    ensures forall k :: k in Puts(ks, vs) <==> k in ks
    ensures forall k :: k in KeyOrder(ks) <==> k in ks
    ensures Distinct(KeyOrder(ks))
    ensures |Puts(ks, vs)| == |KeyOrder(ks)| <= |ks|
    ensures forall i :: LastPut(ks, i) ==> Puts(ks, vs)[ks[i]] == vs[i]
    ensures forall p, q :: 0 <= p < q < |KeyOrder(ks)| ==> IndexOf(ks, KeyOrder(ks)[p]) < IndexOf(ks, KeyOrder(ks)[q])
  {
    PutsDomain(ks, vs);
    KeyOrderContents(ks);
    PutsSize(ks, vs);
    KeyOrderFirstInsertion(ks);
    forall i | LastPut(ks, i)
      ensures Puts(ks, vs)[ks[i]] == vs[i]
    {
      PutsLastWins(ks, vs, i);
    }
  }
}
