/**
 * A map filled by inserting pairs in order, as `HashMap::insert` in a loop
 * does: a later pair with the same key overwrites an earlier one.
 */
module Tables {

  function FromPairs<K, V>(pairs: seq<(K, V)>): map<K, V>
  {
    if pairs == [] then map[]
    else FromPairs(pairs[..|pairs| - 1])[pairs[|pairs| - 1].0 := pairs[|pairs| - 1].1]
  }

  function Firsts<K, V>(pairs: seq<(K, V)>): set<K>
  {
    set i | 0 <= i < |pairs| :: pairs[i].0
  }

  /** The keys are exactly the first components of the pairs. */
  lemma {:induction false} FromPairsKeys<K, V>(pairs: seq<(K, V)>)
    ensures FromPairs(pairs).Keys == Firsts(pairs)
  {
    if pairs != [] {
      var init := pairs[..|pairs| - 1];
      FromPairsKeys(init);
      assert Firsts(pairs) == Firsts(init) + {pairs[|pairs| - 1].0} by {
        forall k | k in Firsts(pairs) ensures k in Firsts(init) + {pairs[|pairs| - 1].0} {
          var i :| 0 <= i < |pairs| && pairs[i].0 == k;
          if i < |pairs| - 1 { assert init[i] == pairs[i]; }
        }
        forall k | k in Firsts(init) ensures k in Firsts(pairs) {
          var i :| 0 <= i < |init| && init[i].0 == k;
          assert pairs[i] == init[i];
        }
      }
    }
  }

  /** A key maps to the value of the last pair that carries it. */
  lemma {:induction false} FromPairsLastWins<K, V>(pairs: seq<(K, V)>, i: nat)
    requires i < |pairs|
    requires forall j :: i < j < |pairs| ==> pairs[j].0 != pairs[i].0
    ensures pairs[i].0 in FromPairs(pairs)
    ensures FromPairs(pairs)[pairs[i].0] == pairs[i].1
  {
    if i < |pairs| - 1 {
      var init := pairs[..|pairs| - 1];
      assert init[i] == pairs[i];
      FromPairsLastWins(init, i);
    }
  }

  /** Inserting one more pair. */
  lemma FromPairsSnoc<K, V>(pairs: seq<(K, V)>, k: K, v: V)
    ensures FromPairs(pairs + [(k, v)]) == FromPairs(pairs)[k := v]
  {
    assert (pairs + [(k, v)])[..|pairs|] == pairs;
  }
}
