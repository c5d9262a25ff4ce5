/** Lookup tables built by assigning `result[key] = value` for each entry of
    a list in turn (lib/index.ts createNetworkMap and createVolumeMap). */
module Tables {
  /** The table such a loop leaves behind: each value filed under its key, a
      later entry replacing an earlier one with the same key. */
  function Table<V>(keys: seq<string>, values: seq<V>): map<string, V>
    requires |keys| == |values|
  {
    if |keys| == 0 then map[]
    else Table(keys[..|keys| - 1], values[..|values| - 1])[keys[|keys| - 1] := values[|values| - 1]]
  }

  /** One more assignment extends the table. */
  lemma TableStep<V>(keys: seq<string>, values: seq<V>, k: nat)
    requires |keys| == |values| && k < |keys|
    ensures Table(keys[..k + 1], values[..k + 1]) == Table(keys[..k], values[..k])[keys[k] := values[k]]
  {
    assert keys[..k + 1][..k] == keys[..k];
    assert values[..k + 1][..k] == values[..k];
  }

  /** The keys of the table are exactly the keys of the list. */
  lemma {:induction false} TableKeys<V>(keys: seq<string>, values: seq<V>)
    requires |keys| == |values|
    ensures Table(keys, values).Keys == set i | 0 <= i < |keys| :: keys[i]
  {
    if |keys| > 0 {
      var n := |keys| - 1;
      TableKeys(keys[..n], values[..n]);
      assert forall i :: 0 <= i < n ==> keys[..n][i] == keys[i];
      assert (set i | 0 <= i < |keys| :: keys[i]) == (set i | 0 <= i < n :: keys[..n][i]) + {keys[n]};
    }
  }

  /** An entry whose key does not come again later is the one the table keeps. */
  lemma {:induction false} TableLastWins<V>(keys: seq<string>, values: seq<V>, i: nat)
    requires |keys| == |values| && i < |keys|
    requires forall j :: i < j < |keys| ==> keys[j] != keys[i]
    ensures keys[i] in Table(keys, values) && Table(keys, values)[keys[i]] == values[i]
  {
    var n := |keys| - 1;
    if i < n {
      assert keys[..n][i] == keys[i] && values[..n][i] == values[i];
      assert forall j :: i < j < n ==> keys[..n][j] == keys[j];
      TableLastWins(keys[..n], values[..n], i);
    }
  }

  /** Every value of the table was filed under its key by some entry of the list. */
  lemma {:induction false} TableValues<V>(keys: seq<string>, values: seq<V>)
    requires |keys| == |values|
    ensures forall key :: key in Table(keys, values) ==>
              exists i :: 0 <= i < |keys| && keys[i] == key && values[i] == Table(keys, values)[key]
  {
    if |keys| > 0 {
      var n := |keys| - 1;
      TableValues(keys[..n], values[..n]);
      assert forall i :: 0 <= i < n ==> keys[..n][i] == keys[i] && values[..n][i] == values[i];
    }
  }
}
