/** Building a dictionary from key/value pairs, later pairs overwriting earlier ones. */
module Dictionaries {

  /**
   * `pairs.reduce((prev, [k, v]) => ({ ...prev, [k]: v }), {})`: a left fold
   * that keeps, for every key, the value of its last pair.
   */
  function FromPairs<K, V>(pairs: seq<(K, V)>): (m: map<K, V>)
    ensures m.Keys == set i | 0 <= i < |pairs| :: pairs[i].0
    decreases |pairs|
  {
    if |pairs| == 0 then map[]
    else
      var init := pairs[..|pairs| - 1];
      var m := FromPairs(init)[pairs[|pairs| - 1].0 := pairs[|pairs| - 1].1];
      assert m.Keys == (set i | 0 <= i < |init| :: init[i].0) + {pairs[|pairs| - 1].0};
      m
  }

  /** The value a key ends up with is the one of its last pair. */
  lemma {:induction false} LastWins<K, V>(pairs: seq<(K, V)>, i: nat)
    requires i < |pairs|
    requires forall j :: i < j < |pairs| ==> pairs[j].0 != pairs[i].0
    ensures pairs[i].0 in FromPairs(pairs) && FromPairs(pairs)[pairs[i].0] == pairs[i].1
    decreases |pairs|
  {
    if i < |pairs| - 1 {
      var init := pairs[..|pairs| - 1];
      assert init[i] == pairs[i];
      LastWins(init, i);
    }
  }

  /** Three pairs with distinct keys give each key its own value. */
  lemma FromThreePairs<K, V>(pairs: seq<(K, V)>, k1: K, k2: K, k3: K, v1: V, v2: V, v3: V)
    requires pairs == [(k1, v1), (k2, v2), (k3, v3)]
    requires k1 != k2 && k1 != k3 && k2 != k3
    ensures var m := FromPairs(pairs);
      k1 in m && m[k1] == v1 && k2 in m && m[k2] == v2 && k3 in m && m[k3] == v3
  {
    LastWins(pairs, 0);
    LastWins(pairs, 1);
    LastWins(pairs, 2);
  }
}
