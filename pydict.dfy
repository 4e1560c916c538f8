/**
 * A Python `dict` with string keys, as an association list in insertion
 * order. Order matters to the core: the harmonizer walks `terms_map` and
 * the keyword arguments it accumulates in the order they were inserted.
 */
module PyDict {

  type Dict<V> = seq<(string, V)>

  function Keys<V>(d: Dict<V>): (ks: seq<string>)
    ensures |ks| == |d|
    ensures forall i :: 0 <= i < |d| ==> ks[i] == d[i].0
  {
    if d == [] then [] else [d[0].0] + Keys(d[1..])
  }

  predicate Distinct(ks: seq<string>)
  {
    forall i, j :: 0 <= i < j < |ks| ==> ks[i] != ks[j]
  }

  /** No key is stored twice, as in every real Python dict. */
  predicate WellFormed<V>(d: Dict<V>)
  {
    Distinct(Keys(d))
  }

  predicate HasKey<V>(d: Dict<V>, k: string)
  {
    k in Keys(d)
  }

  /** The position of the (first) entry for `k`. */
  function IndexOf<V>(d: Dict<V>, k: string): (i: nat)
    requires HasKey(d, k)
    ensures i < |d| && d[i].0 == k
    ensures forall j :: 0 <= j < i ==> d[j].0 != k
  {
    if d[0].0 == k then 0
    else
      assert Keys(d) == [d[0].0] + Keys(d[1..]);
      1 + IndexOf(d[1..], k)
  }

  /** `d[k]`. */
  function Get<V>(d: Dict<V>, k: string): V
    requires HasKey(d, k)
  {
    d[IndexOf(d, k)].1
  }

  /** `d.get(k, dflt)`. */
  function GetOr<V>(d: Dict<V>, k: string, dflt: V): V
  {
    if HasKey(d, k) then Get(d, k) else dflt
  }

  lemma GetAt<V>(d: Dict<V>, i: nat)
    requires WellFormed(d) && i < |d|
    ensures HasKey(d, d[i].0) && Get(d, d[i].0) == d[i].1
  {
    assert Keys(d)[i] == d[i].0;
    var j := IndexOf(d, d[i].0);
    assert Keys(d)[j] == Keys(d)[i];
  }

  /**
   * `d[k] = v`: an existing key keeps its position and takes the new value,
   * a new key goes at the end.
   */
  function Put<V>(d: Dict<V>, k: string, v: V): (r: Dict<V>)
    ensures HasKey(r, k) && Get(r, k) == v
    ensures forall k' :: k' != k ==> (HasKey(r, k') <==> HasKey(d, k'))
    ensures forall k' :: k' != k && HasKey(d, k') ==> Get(r, k') == Get(d, k')
    ensures |r| == if HasKey(d, k) then |d| else |d| + 1
    ensures WellFormed(d) ==> WellFormed(r)
  {
    if HasKey(d, k) then
      PutExisting(d, k, v);
      d[IndexOf(d, k) := (k, v)]
    else
      PutAppended(d, k, v);
      d + [(k, v)]
  }

  /** An existing key is overwritten in place. */
  lemma PutExisting<V>(d: Dict<V>, k: string, v: V)
    requires HasKey(d, k)
    ensures var r := d[IndexOf(d, k) := (k, v)];
            && HasKey(r, k) && Get(r, k) == v
            && (forall k' :: k' != k ==> (HasKey(r, k') <==> HasKey(d, k')))
            && (forall k' :: k' != k && HasKey(d, k') ==> Get(r, k') == Get(d, k'))
            && Keys(r) == Keys(d)
  {
    var i := IndexOf(d, k);
    var r := d[i := (k, v)];
    assert Keys(r) == Keys(d);
    assert r[IndexOf(r, k)].0 == k;
    assert IndexOf(r, k) == i;
    PutKeepsOthers(d, i, k, v);
  }

  /** A new key is appended. */
  lemma PutAppended<V>(d: Dict<V>, k: string, v: V)
    requires !HasKey(d, k)
    ensures var r := d + [(k, v)];
            && HasKey(r, k) && Get(r, k) == v
            && (forall k' :: k' != k ==> (HasKey(r, k') <==> HasKey(d, k')))
            && (forall k' :: k' != k && HasKey(d, k') ==> Get(r, k') == Get(d, k'))
            && Keys(r) == Keys(d) + [k]
  {
    var r := d + [(k, v)];
    assert Keys(r) == Keys(d) + [k];
    assert r[|d|].0 == k;
    assert IndexOf(r, k) == |d|;
    AppendKeepsOthers(d, k, v);
  }

  /** What a `Put` leaves under a given key. */
  lemma PutOther<V>(d: Dict<V>, k: string, v: V, k': string)
    requires HasKey(d, k')
    ensures HasKey(Put(d, k, v), k')
    ensures Get(Put(d, k, v), k') == if k' == k then v else Get(d, k')
  {
  }

  lemma PutKeepsOthers<V>(d: Dict<V>, i: nat, k: string, v: V)
    requires i < |d| && d[i].0 == k
    ensures forall k' :: k' != k && HasKey(d, k') ==> HasKey(d[i := (k, v)], k') && Get(d[i := (k, v)], k') == Get(d, k')
  {
    var r := d[i := (k, v)];
    assert Keys(r) == Keys(d);
    forall k' | k' != k && HasKey(d, k') ensures HasKey(r, k') && Get(r, k') == Get(d, k') {
      var j := IndexOf(d, k');
      assert r[j] == d[j];
      assert IndexOf(r, k') == j;
    }
  }

  lemma AppendKeepsOthers<V>(d: Dict<V>, k: string, v: V)
    ensures forall k' :: HasKey(d, k') ==> HasKey(d + [(k, v)], k') && Get(d + [(k, v)], k') == Get(d, k')
  {
    var r := d + [(k, v)];
    assert Keys(r) == Keys(d) + [k];
    forall k' | HasKey(d, k') ensures HasKey(r, k') && Get(r, k') == Get(d, k') {
      var j := IndexOf(d, k');
      assert r[j] == d[j];
      assert IndexOf(r, k') == j;
    }
  }

  /** `del d[k]` when `k` is present: the other entries stay, in their order. */
  function Del<V>(d: Dict<V>, k: string): (r: Dict<V>)
    ensures forall i :: 0 <= i < |r| ==> r[i] in d && r[i].0 != k
    ensures forall i :: 0 <= i < |d| && d[i].0 != k ==> d[i] in r
    ensures |r| <= |d|
    ensures forall k' :: k' != k ==> (HasKey(r, k') <==> HasKey(d, k'))
    ensures !HasKey(r, k)
  {
    if d == [] then []
    else
      var rest := Del(d[1..], k);
      assert Keys(d) == [d[0].0] + Keys(d[1..]);
      if d[0].0 == k then rest
      else
        assert Keys([d[0]] + rest) == [d[0].0] + Keys(rest);
        [d[0]] + rest
  }

  /** Storing a new key appends it. */
  lemma PutNew<V>(d: Dict<V>, k: string, v: V)
    requires !HasKey(d, k)
    ensures Put(d, k, v) == d + [(k, v)]
    ensures Keys(d + [(k, v)]) == Keys(d) + [k]
  {
    assert Keys(d + [(k, v)]) == Keys(d) + [k];
  }
}
