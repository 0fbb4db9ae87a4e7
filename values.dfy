/**
 * The Java values the matchers inspect: scalars, `null`, maps and lists.
 * A `java.util.Map` is an association list in its iteration order with
 * distinct keys; keys are compared through their `toString()` text.
 */
module Values {

  datatype Option<T> = None | Some(value: T)

  datatype Value =
    | Scalar(lit: string)
    | Null
    | MapV(entries: seq<(string, Value)>)
    | ListV(items: seq<Value>)

  /** The keys of an association list, in order. */
  function Keys<T>(kv: seq<(string, T)>): (r: seq<string>)
    ensures |r| == |kv|
    ensures forall i :: 0 <= i < |kv| ==> r[i] == kv[i].0
  {
    if |kv| == 0 then [] else Keys(kv[..|kv| - 1]) + [kv[|kv| - 1].0]
  }

  /** `keySet()`. */
  function KeySet<T>(kv: seq<(string, T)>): set<string>
  {
    set i | 0 <= i < |kv| :: kv[i].0
  }

  /** The keys of an entry followed by a map: that entry's key and the map's keys. */
  lemma KeySetCons<T>(e: (string, T), kv: seq<(string, T)>)
    ensures KeySet([e] + kv) == {e.0} + KeySet(kv)
  {
    var r := [e] + kv;
    forall x | x in KeySet(r) ensures x in {e.0} + KeySet(kv) {
      var i :| 0 <= i < |r| && r[i].0 == x;
      if i > 0 { assert kv[i - 1].0 == x; }
    }
    forall x | x in KeySet(kv) ensures x in KeySet(r) {
      var i :| 0 <= i < |kv| && kv[i].0 == x;
      assert r[i + 1].0 == x;
    }
    assert r[0].0 == e.0;
  }

  /** No key occurs twice, as in every `java.util.Map`. */
  predicate DistinctKeys<T>(kv: seq<(string, T)>)
  {
    forall i, j :: 0 <= i < j < |kv| ==> kv[i].0 != kv[j].0
  }

  /** The value stored under `k`, if any (`containsKey` then `get`). */
  function Lookup<T>(kv: seq<(string, T)>, k: string): (r: Option<T>)
    ensures r.None? <==> k !in KeySet(kv)
    ensures r.Some? ==> exists i :: 0 <= i < |kv| && kv[i] == (k, r.value)
    ensures DistinctKeys(kv) ==> forall i :: 0 <= i < |kv| && kv[i].0 == k ==> r == Some(kv[i].1)
  {
    if |kv| == 0 then None
    else if kv[0].0 == k then Some(kv[0].1)
    else
      var r := Lookup(kv[1..], k);
      assert KeySet(kv) == {kv[0].0} + KeySet(kv[1..]) by {
        forall x | x in KeySet(kv) ensures x in {kv[0].0} + KeySet(kv[1..]) {
          var i :| 0 <= i < |kv| && kv[i].0 == x;
          if i > 0 { assert kv[1..][i - 1].0 == x; }
        }
      }
      r
  }

  /** `Map.get(k)`: the stored value, or `null` when the key is absent. */
  function Get(kv: seq<(string, Value)>, k: string): (v: Value)
    ensures k !in KeySet(kv) ==> v == Null
    ensures DistinctKeys(kv) ==> forall i :: 0 <= i < |kv| && kv[i].0 == k ==> v == kv[i].1
  {
    match Lookup(kv, k)
    case Some(v) => v
    case None => Null
  }

  /** Every map inside `v`, at any depth, has distinct keys. */
  ghost predicate ValidValue(v: Value)
  {
    match v
    case Scalar(_) => true
    case Null => true
    case MapV(kv) => DistinctKeys(kv) && forall i :: 0 <= i < |kv| ==> ValidValue(kv[i].1)
    case ListV(vs) => forall i :: 0 <= i < |vs| ==> ValidValue(vs[i])
  }

  /** With distinct keys, a key set has exactly as many members as the map has entries. */
  lemma {:induction false} DistinctKeySetSize<T>(kv: seq<(string, T)>)
    requires DistinctKeys(kv)
    ensures |KeySet(kv)| == |kv|
  {
    if |kv| > 0 {
      var init := kv[..|kv| - 1];
      DistinctKeySetSize(init);
      assert KeySet(kv) == KeySet(init) + {kv[|kv| - 1].0} by {
        forall x | x in KeySet(kv) ensures x in KeySet(init) + {kv[|kv| - 1].0} {
          var i :| 0 <= i < |kv| && kv[i].0 == x;
          if i < |kv| - 1 { assert init[i].0 == x; }
        }
        forall x | x in KeySet(init) ensures x in KeySet(kv) {
          var i :| 0 <= i < |init| && init[i].0 == x;
          assert kv[i].0 == x;
        }
      }
      assert kv[|kv| - 1].0 !in KeySet(init);
    }
  }
}
