/** Keyed records of a published layer, in any order, and the history check that both
    scene restorations share. */
module SceneRecords {
  import opened Prelude

  ghost predicate DistinctKeys<K, V>(items: seq<(K, V)>) {
    forall i, j :: 0 <= i < j < |items| ==> items[i].0 != items[j].0
  }

  /** The items list the map: every entry once, in any order. */
  ghost predicate Lists<K, V>(items: seq<(K, V)>, m: map<K, V>) {
    && DistinctKeys(items)
    && (forall i {:trigger items[i]} :: 0 <= i < |items| ==> items[i].0 in m && m[items[i].0] == items[i].1)
    && forall k :: k in m ==> exists i {:trigger items[i]} :: 0 <= i < |items| && items[i].0 == k
  }

  /** A listing determines its map, whatever the order of the items. */
  lemma {:induction false} ListsIsUnique<K, V>(items: seq<(K, V)>, m: map<K, V>, n: map<K, V>)
    requires Lists(items, m) && Lists(items, n)
    ensures m == n
  {
    assert forall k :: k in m ==> k in n && m[k] == n[k];
    assert forall k :: k in n ==> k in m;
  }

  /** Index the items by identity; a repeated identity rejects the layer. */
  method Records<K(==), V>(items: seq<(K, V)>) returns (result: Option<map<K, V>>)
    ensures result.Some? <==> DistinctKeys(items)
    ensures result.Some? ==> Lists(items, result.value)
  {
    var found: map<K, V> := map[];
    for i := 0 to |items|
      invariant Lists(items[..i], found)
    {
      if items[i].0 in found {
        assert exists j :: 0 <= j < i && items[..i][j].0 == items[i].0;
        return None;
      }
      found := found[items[i].0 := items[i].1];
      RecordNext(items, i, found);
    }
    assert items[..|items|] == items;
    result := Some(found);
  }

  lemma {:induction false} RecordNext<K, V>(items: seq<(K, V)>, i: nat, found: map<K, V>)
    requires i < |items| && items[i].0 in found && found[items[i].0] == items[i].1
    requires Lists(items[..i], found - {items[i].0})
    ensures Lists(items[..i + 1], found)
  {
    var before, now := items[..i], items[..i + 1];
    assert forall j {:trigger now[j]} :: 0 <= j < i ==> now[j] == before[j];
    forall k | k in found ensures exists j {:trigger now[j]} :: 0 <= j < |now| && now[j].0 == k {
      if k == items[i].0 {
        assert now[i].0 == k;
      } else {
        assert k in found - {items[i].0};
        var j :| 0 <= j < |before| && before[j].0 == k;
        assert now[j].0 == k;
      }
    }
  }

  /** At most `memory` entries, dated after the start, in strictly increasing order. */
  ghost predicate ValidTicks(ticks: seq<nat>, memory: nat, tick: nat) {
    && |ticks| <= memory
    && (forall k :: 0 <= k < |ticks| ==> 1 <= ticks[k] <= tick)
    && forall j, k :: 0 <= j < k < |ticks| ==> ticks[j] < ticks[k]
  }

  /** The running check over one published memory. */
  method ValidateHistory(ticks: seq<nat>, memory: nat, tick: nat) returns (ok: bool)
    ensures ok <==> ValidTicks(ticks, memory, tick)
  {
    if |ticks| > memory {
      return false;
    }
    var previous := 0;
    for k := 0 to |ticks|
      invariant ValidTicks(ticks[..k], memory, tick)
      invariant previous == if k == 0 then 0 else ticks[k - 1]
    {
      if !(previous + 1 <= ticks[k] <= tick) {
        assert k == 0 || ticks[k - 1] >= ticks[k] || ticks[k] > tick;
        return false;
      }
      previous := ticks[k];
      assert forall j :: 0 <= j < k ==> ticks[..k][j] <= previous;
    }
    assert ticks[..|ticks|] == ticks;
    ok := true;
  }
}
