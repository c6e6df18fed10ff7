/** Python's `dict` as the modelled code uses it: string keys, insertion
    order (which decides the order of iteration), and assignment that
    overwrites an existing key in its place or appends a new key at the end. */
module OrderedDict {
  import opened Wrappers

  /** Entries in insertion order. */
  type Dict<V> = seq<(string, V)>

  function Keys<V>(d: Dict<V>): (r: seq<string>)
    ensures |r| == |d|
    ensures forall i | 0 <= i < |d| :: r[i] == d[i].0
  {
    if d == [] then [] else [d[0].0] + Keys(d[1..])
  }

  /** No key occurs twice, as in every Python dict. */
  predicate KeysDistinct<V>(d: Dict<V>) {
    forall i, j | 0 <= i < j < |d| :: d[i].0 != d[j].0
  }

  /** `k in d`. */
  predicate Contains<V>(d: Dict<V>, k: string) {
    exists i | 0 <= i < |d| :: d[i].0 == k
  }

  /** `d.get(k)`: the value of the first entry with key `k`. */
  function Lookup<V>(d: Dict<V>, k: string): (r: Option<V>)
    ensures r.None? <==> !Contains(d, k)
    ensures r.Some? ==> exists i | 0 <= i < |d| :: d[i] == (k, r.value)
  {
    if d == [] then None
    else if d[0].0 == k then Some(d[0].1)
    else
      var r := Lookup(d[1..], k);
      assert r.Some? ==> exists i | 0 <= i < |d| - 1 :: d[1..][i] == (k, r.value);
      r
  }

  /** In a dict with distinct keys, the entry at `i` is what lookup finds. */
  lemma {:induction false} LookupAt<V>(d: Dict<V>, i: nat)
    requires KeysDistinct(d) && i < |d|
    ensures Lookup(d, d[i].0) == Some(d[i].1)
  {
    if i > 0 {
      assert d[0].0 != d[i].0;
      LookupAt(d[1..], i - 1);
    }
  }

  /** Index of key `k`, which must be present. */
  function IndexOf<V>(d: Dict<V>, k: string): (i: nat)
    requires Contains(d, k)
    ensures i < |d| && d[i].0 == k
    ensures forall j | 0 <= j < i :: d[j].0 != k
  {
    if d[0].0 == k then 0
    else
      assert Contains(d[1..], k) by {
        var j :| 0 <= j < |d| && d[j].0 == k;
        assert d[1..][j - 1].0 == k;
      }
      1 + IndexOf(d[1..], k)
  }

  /** `d[k] = v`: an existing key keeps its position and gets the new
      value; a new key is appended. */
  function Put<V>(d: Dict<V>, k: string, v: V): (r: Dict<V>)
    ensures Contains(d, k) ==> |r| == |d| && Keys(r) == Keys(d)
    ensures !Contains(d, k) ==> r == d + [(k, v)]
    ensures forall i | 0 <= i < |d| && d[i].0 != k :: r[i] == d[i]
  {
    if Contains(d, k) then d[IndexOf(d, k) := (k, v)] else d + [(k, v)]
  }

  /** After `d[k] = v` the dict still has distinct keys, `k` maps to `v`
      and every other key keeps its value. */
  lemma PutLookup<V>(d: Dict<V>, k: string, v: V)
    requires KeysDistinct(d)
    ensures KeysDistinct(Put(d, k, v))
    ensures Lookup(Put(d, k, v), k) == Some(v)
    ensures forall j :: j != k ==> Lookup(Put(d, k, v), j) == Lookup(d, j)
  {
    var r := Put(d, k, v);
    assert KeysDistinct(r) by {
      if Contains(d, k) {
        var p := IndexOf(d, k);
        forall i, j | 0 <= i < j < |r| ensures r[i].0 != r[j].0 {
          assert r[i].0 == d[i].0 && r[j].0 == d[j].0;
        }
      }
    }
    var p :| 0 <= p < |r| && r[p] == (k, v) by {
      if Contains(d, k) { assert r[IndexOf(d, k)] == (k, v); } else { assert r[|d|] == (k, v); }
    }
    LookupAt(r, p);
    forall j | j != k ensures Lookup(r, j) == Lookup(d, j) {
      if Contains(d, j) {
        var q := IndexOf(d, j);
        LookupAt(d, q);
        assert r[q] == d[q];
        LookupAt(r, q);
      } else {
        forall q | 0 <= q < |r| ensures r[q].0 != j {
          if q < |d| && d[q].0 != k { assert r[q] == d[q]; }
        }
      }
    }
  }
}
