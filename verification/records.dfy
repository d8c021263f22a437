/** JavaScript plain objects as ordered records: the object's own
    string-keyed properties in insertion order. Assignment `o[k] = v`
    replaces the value of an existing key in place and appends a new key at
    the end; `Object.fromEntries` is a sequence of such assignments. */
module Records {
  import opened Wrappers

  type Record<V> = seq<(string, V)>

  /** `Object.keys`. */
  function Keys<V>(r: Record<V>): (ks: seq<string>)
    ensures |ks| == |r|
    ensures forall i :: 0 <= i < |r| ==> ks[i] == r[i].0
  {
    if |r| == 0 then [] else Keys(r[..|r| - 1]) + [r[|r| - 1].0]
  }

  /** No element occurs twice: each one is absent from those before it. */
  predicate NoRepeats(ks: seq<string>)
  {
    |ks| == 0 || (NoRepeats(ks[..|ks| - 1]) && ks[|ks| - 1] !in ks[..|ks| - 1])
  }

  /** No key occurs twice, as in every object JavaScript builds. */
  predicate Distinct<V>(r: Record<V>)
  {
    NoRepeats(Keys(r))
  }

  /** Keys are distinct exactly when no two positions hold the same key. */
  lemma {:induction false} DistinctPairwise<V>(r: Record<V>)
    ensures Distinct(r) <==> forall i, j :: 0 <= i < j < |r| ==> r[i].0 != r[j].0
  {
    if |r| > 0 {
      var init := r[..|r| - 1];
      var ks := Keys(r);
      assert ks[..|ks| - 1] == Keys(init);
      DistinctPairwise(init);
      assert forall i :: 0 <= i < |init| ==> init[i] == r[i];
      if forall i, j :: 0 <= i < j < |r| ==> r[i].0 != r[j].0 {
        assert forall j :: 0 <= j < |init| ==> Keys(init)[j] != r[|r| - 1].0;
      }
      if Distinct(r) {
        forall i, j | 0 <= i < j < |r| ensures r[i].0 != r[j].0 {
          if j == |r| - 1 {
            assert Keys(init)[i] == r[i].0;
          }
        }
      }
    }
  }

  /** The position of the last entry with key `k`. */
  function LastIndex<V>(r: Record<V>, k: string): (o: Option<nat>)
    ensures o.Some? ==> o.value < |r| && r[o.value].0 == k
    ensures o.Some? ==> forall j :: o.value < j < |r| ==> r[j].0 != k
    ensures o.None? <==> k !in Keys(r)
  {
    if |r| == 0 then None
    else if r[|r| - 1].0 == k then Some(|r| - 1)
    else
      var o := LastIndex(r[..|r| - 1], k);
      assert Keys(r) == Keys(r[..|r| - 1]) + [r[|r| - 1].0];
      o
  }

  /** Property read `o[k]`, with `None` for `undefined`. On a list of
      entries with repeated keys it reads the last one, which is the value
      `Object.fromEntries` and `JSON.parse` keep. */
  function Get<V>(r: Record<V>, k: string): (o: Option<V>)
    ensures o.Some? <==> k in Keys(r)
  {
    match LastIndex(r, k)
    case None => None
    case Some(i) => Some(r[i].1)
  }

  /** Property assignment `o[k] = v`. */
  function Put<V>(r: Record<V>, k: string, v: V): (r': Record<V>)
    ensures Get(r', k) == Some(v)
    ensures forall k' :: k' != k ==> Get(r', k') == Get(r, k')
    ensures k in Keys(r) ==> Keys(r') == Keys(r)
    ensures k !in Keys(r) ==> Keys(r') == Keys(r) + [k]
    ensures Distinct(r) ==> Distinct(r')
  {
    match LastIndex(r, k)
    case None =>
      assert (r + [(k, v)])[..|r|] == r;
      assert (Keys(r) + [k])[..|r|] == Keys(r);
      r + [(k, v)]
    case Some(i) =>
      var r' := r[i := (k, v)];
      KeysOfUpdate(r, i, (k, v));
      assert LastIndex(r', k) == Some(i) by { LastIndexUnique(r', k, i); }
      forall k' | k' != k ensures Get(r', k') == Get(r, k') {
        LastIndexAfterUpdate(r, i, k, v, k');
      }
      r'
  }

  /** Overwriting an entry with one of the same key keeps the keys. */
  lemma {:induction false} KeysOfUpdate<V>(r: Record<V>, i: nat, e: (string, V))
    requires i < |r| && e.0 == r[i].0
    ensures Keys(r[i := e]) == Keys(r)
  {
    var r' := r[i := e];
    if i < |r| - 1 {
      assert r'[..|r| - 1] == r[..|r| - 1][i := e];
      KeysOfUpdate(r[..|r| - 1], i, e);
    } else {
      assert r'[..|r| - 1] == r[..|r| - 1];
    }
  }

  /** The keys of a record are the keys of all but its last entry, then
      the last entry's key. */
  lemma KeysSnoc<V>(r: Record<V>)
    requires |r| > 0
    ensures Keys(r) == Keys(r[..|r| - 1]) + [r[|r| - 1].0]
  {
  }

  /** Assigning to a key not yet present appends it. */
  lemma PutNew<V>(r: Record<V>, k: string, v: V)
    requires k !in Keys(r)
    ensures Put(r, k, v) == r + [(k, v)]
  {
  }

  /** Dropping the last entry of a record without repeated keys leaves one
      without repeated keys, and that entry's key is not among the rest. */
  lemma DistinctInit<V>(r: Record<V>)
    requires |r| > 0 && Distinct(r)
    ensures Distinct(r[..|r| - 1]) && r[|r| - 1].0 !in Keys(r[..|r| - 1])
  {
    var ks := Keys(r);
    assert ks[..|ks| - 1] == Keys(r[..|r| - 1]);
  }

  /** Assigning to a key already present overwrites its entry in place. */
  lemma PutAt<V>(r: Record<V>, k: string, v: V, i: nat)
    requires LastIndex(r, k) == Some(i)
    ensures Put(r, k, v) == r[i := (k, v)]
  {
  }

  /** `Object.fromEntries` applies the entries one assignment at a time. */
  lemma FromEntriesSnoc<V>(es: seq<(string, V)>, k: string, v: V)
    ensures FromEntries(es + [(k, v)]) == Put(FromEntries(es), k, v)
  {
    assert (es + [(k, v)])[..|es|] == es;
  }

  lemma LastIndexUnique<V>(r: Record<V>, k: string, i: nat)
    requires i < |r| && r[i].0 == k
    requires forall j :: i < j < |r| ==> r[j].0 != k
    ensures LastIndex(r, k) == Some(i)
  {
    var o := LastIndex(r, k);
    assert o.Some? by { assert Keys(r)[i] == k; }
  }

  lemma LastIndexAfterUpdate<V>(r: Record<V>, i: nat, k: string, v: V, k': string)
    requires i < |r| && r[i].0 == k && k' != k
    ensures Get(r[i := (k, v)], k') == Get(r, k')
  {
    var r' := r[i := (k, v)];
    match LastIndex(r, k')
    case None =>
      assert k' !in Keys(r') by {
        assert forall j :: 0 <= j < |r| ==> Keys(r')[j] == Keys(r)[j];
      }
    case Some(m) =>
      assert m != i;
      LastIndexUnique(r', k', m);
  }

  /** A read of a key other than the last entry's ignores that entry. */
  lemma GetDropLast<V>(es: seq<(string, V)>, k: string)
    requires |es| > 0 && es[|es| - 1].0 != k
    ensures Get(es, k) == Get(es[..|es| - 1], k)
  {
    assert LastIndex(es, k) == LastIndex(es[..|es| - 1], k);
  }

  /** `Object.fromEntries`: assigns the entries in order, so each key sits at
      the position of its first occurrence and holds its last value. */
  function FromEntries<V>(es: seq<(string, V)>): (r: Record<V>)
    ensures Distinct(r)
    ensures forall k :: k in Keys(r) <==> k in Keys(es)
    ensures forall k :: Get(r, k) == Get(es, k)
  {
    if |es| == 0 then []
    else
      var init := es[..|es| - 1];
      var (k, v) := es[|es| - 1];
      var prev := FromEntries(init);
      var r := Put(prev, k, v);
      forall k' ensures Get(r, k') == Get(es, k') {
        if k' != k {
          GetDropLast(es, k');
        }
      }
      r
  }

  /** When no key repeats, assigning the entries in order rebuilds them. */
  lemma {:induction false} FromEntriesOfDistinct<V>(es: seq<(string, V)>)
    requires Distinct(es)
    ensures FromEntries(es) == es
  {
    if |es| > 0 {
      var init := es[..|es| - 1];
      var (k, v) := es[|es| - 1];
      assert init + [(k, v)] == es;
      DistinctInit(es);
      FromEntriesOfDistinct(init);
      FromEntriesSnoc(init, k, v);
      PutNew(init, k, v);
    }
  }

  /** The record seen as a map from key to value. */
  function ToMap<V>(r: Record<V>): (m: map<string, V>)
    ensures forall k :: k in m <==> k in Keys(r)
    ensures forall k :: k in m ==> Get(r, k) == Some(m[k])
  {
    if |r| == 0 then map[]
    else
      var init := r[..|r| - 1];
      var m := ToMap(init)[r[|r| - 1].0 := r[|r| - 1].1];
      forall k | k in m ensures Get(r, k) == Some(m[k]) {
        if k != r[|r| - 1].0 {
          assert LastIndex(r, k) == LastIndex(init, k);
        }
      }
      m
  }

  /** The map view of an assignment is the map update. */
  lemma ToMapPut<V>(r: Record<V>, k: string, v: V)
    ensures ToMap(Put(r, k, v)) == ToMap(r)[k := v]
  {
    var appended := r + [(k, v)];
    forall k' ensures Get(Put(r, k, v), k') == Get(appended, k') {
      if k' != k {
        GetDropLast(appended, k');
        assert appended[..|r|] == r;
      } else {
        assert LastIndex(appended, k) == Some(|r|);
      }
    }
    ToMapIffGet(Put(r, k, v), appended);
    ToMapSnoc(appended);
    assert appended[..|r|] == r;
  }

  /** The map view of a record is its last entry written over the map view
      of the rest. */
  lemma ToMapSnoc<V>(r: Record<V>)
    requires |r| > 0
    ensures ToMap(r) == ToMap(r[..|r| - 1])[r[|r| - 1].0 := r[|r| - 1].1]
  {
  }

  /** Two records have the same map view exactly when every read gives the
      same result on both. */
  lemma ToMapIffGet<V>(a: Record<V>, b: Record<V>)
    ensures ToMap(a) == ToMap(b) <==> forall k :: Get(a, k) == Get(b, k)
  {
    var ma, mb := ToMap(a), ToMap(b);
    if forall k :: Get(a, k) == Get(b, k) {
      forall k ensures k in ma <==> k in mb {
        assert Get(a, k) == Get(b, k);
      }
      forall k | k in ma ensures ma[k] == mb[k] {
        assert Get(a, k) == Get(b, k);
      }
    }
    if ma == mb {
      forall k ensures Get(a, k) == Get(b, k) {
        if k in ma {
          assert Get(a, k) == Some(ma[k]) && Get(b, k) == Some(mb[k]);
        }
      }
    }
  }

  /** Sum of the values, added front to back like `Array.prototype.reduce`. */
  function SumValues(r: Record<real>): real
  {
    if |r| == 0 then 0.0 else SumValues(r[..|r| - 1]) + r[|r| - 1].1
  }

  lemma SumValuesSnoc(r: Record<real>, k: string, v: real)
    ensures SumValues(r + [(k, v)]) == SumValues(r) + v
  {
    assert (r + [(k, v)])[..|r|] == r;
  }

  /** Some key of a non-empty map. */
  ghost function AnyKey(m: map<string, real>): (k: string)
    requires |m| > 0
    ensures k in m
  {
    assert m.Keys != {} by { assert |m.Keys| == |m|; }
    var k :| k in m; k
  }

  /** Removing a present key shrinks a map by one. */
  lemma RemoveShrinks(m: map<string, real>, k: string)
    requires k in m
    ensures |m - {k}| == |m| - 1
  {
    assert (m - {k}).Keys == m.Keys - {k};
  }

  /** The sum of a map's values, in no particular order. */
  ghost function MapSum(m: map<string, real>): real
    decreases |m|
  {
    if |m| == 0 then 0.0
    else
      var k := AnyKey(m);
      RemoveShrinks(m, k);
      m[k] + MapSum(m - {k})
  }

  /** Removing two keys in either order gives the same map. */
  lemma RemoveCommutes(m: map<string, real>, k: string, k': string)
    ensures m - {k} - {k'} == m - {k'} - {k}
  {
  }

  /** Removing a key just added to a map gives back the map. */
  lemma RemoveAdded(m: map<string, real>, k: string, v: real)
    requires k !in m
    ensures m[k := v] - {k} == m
  {
  }

  /** The order-free sum can start from any key. */
  lemma {:induction false} MapSumPick(m: map<string, real>, k: string)
    requires k in m
    ensures MapSum(m) == m[k] + MapSum(m - {k})
    decreases |m|
  {
    var k' := AnyKey(m);
    RemoveShrinks(m, k);
    RemoveShrinks(m, k');
    if k' != k {
      MapSumPick(m - {k'}, k);
      MapSumPick(m - {k}, k');
      RemoveCommutes(m, k, k');
    }
  }

  /** Adding the values of a record in insertion order gives its map's
      order-free sum. */
  lemma {:induction false} SumValuesIsMapSum(r: Record<real>)
    requires Distinct(r)
    ensures SumValues(r) == MapSum(ToMap(r))
  {
    if |r| > 0 {
      var init := r[..|r| - 1];
      var (k, v) := r[|r| - 1];
      DistinctInit(r);
      SumValuesIsMapSum(init);
      ToMapSnoc(r);
      MapSumPick(ToMap(r), k);
      RemoveAdded(ToMap(init), k, v);
    }
  }
}
