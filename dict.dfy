/**
 * Insertion-ordered dictionaries with string keys: Python's `dict` and the
 * property order of a parsed JSON object in the browser. Assigning to a key
 * that is present replaces its value where it stands; assigning to a new key
 * appends it.
 */
module Dict {

  import opened Wrappers

  type Dict<V> = seq<(string, V)>

  /** The keys, in insertion order. */
  function Keys<V>(d: Dict<V>): (ks: seq<string>)
    ensures |ks| == |d|
    ensures forall i :: 0 <= i < |d| ==> ks[i] == d[i].0
  {
    seq(|d|, i requires 0 <= i < |d| => d[i].0)
  }

  ghost predicate Distinct(ks: seq<string>) {
    forall i, j :: 0 <= i < j < |ks| ==> ks[i] != ks[j]
  }

  /** No key occurs twice, as in any dictionary built by assignment. */
  ghost predicate UniqueKeys<V>(d: Dict<V>) {
    Distinct(Keys(d))
  }

  /** `d.get(k)`: the value stored under `k`, if any. */
  function Get<V>(d: Dict<V>, k: string): (r: Option<V>)
    ensures r.Some? <==> k in Keys(d)
  {
    if d == [] then None
    else if d[0].0 == k then Some(d[0].1)
    else Get(d[1..], k)
  }

  /** `d[k] = v`. */
  function Set<V>(d: Dict<V>, k: string, v: V): (r: Dict<V>)
    ensures |r| == if k in Keys(d) then |d| else |d| + 1
  {
    if d == [] then [(k, v)]
    else if d[0].0 == k then [(k, v)] + d[1..]
    else [d[0]] + Set(d[1..], k, v)
  }

  /** After `d[k] = v`, `d[k]` is `v`. */
  lemma {:induction false} GetSetSame<V>(d: Dict<V>, k: string, v: V)
    ensures Get(Set(d, k, v), k) == Some(v)
  {
    if d != [] && d[0].0 != k {
      GetSetSame(d[1..], k, v);
      assert Set(d, k, v)[1..] == Set(d[1..], k, v);
    }
  }

  /** `d[k] = v` leaves every other key's value alone. */
  lemma {:induction false} GetSetOther<V>(d: Dict<V>, k: string, v: V, other: string)
    requires other != k
    ensures Get(Set(d, k, v), other) == Get(d, other)
  {
    if d != [] {
      if d[0].0 == k {
        assert Set(d, k, v)[1..] == d[1..];
      } else {
        GetSetOther(d[1..], k, v, other);
        assert Set(d, k, v)[1..] == Set(d[1..], k, v);
      }
    }
  }

  /** An existing key keeps its position; a new key goes last. */
  lemma {:induction false} KeysSet<V>(d: Dict<V>, k: string, v: V)
    ensures Keys(Set(d, k, v)) == if k in Keys(d) then Keys(d) else Keys(d) + [k]
  {
    if d != [] {
      KeysSet(d[1..], k, v);
      if d[0].0 != k {
        assert Set(d, k, v) == [d[0]] + Set(d[1..], k, v);
        assert Keys(d) == [d[0].0] + Keys(d[1..]);
        assert k in Keys(d) <==> k in Keys(d[1..]);
      }
    }
  }

  /** Assignment keeps the keys of a dictionary distinct. */
  lemma SetUnique<V>(d: Dict<V>, k: string, v: V)
    requires UniqueKeys(d)
    ensures UniqueKeys(Set(d, k, v))
  {
    KeysSet(d, k, v);
    var ks := Keys(d);
    if k !in ks {
      assert forall i :: 0 <= i < |ks| ==> (ks + [k])[i] == ks[i];
    }
  }

  /** With distinct keys, the entry at position i is what `Get` finds under its key. */
  lemma {:induction false} GetAt<V>(d: Dict<V>, i: nat)
    requires UniqueKeys(d) && i < |d|
    ensures Get(d, d[i].0) == Some(d[i].1)
  {
    if i > 0 {
      assert Keys(d[1..]) == Keys(d)[1..];
      GetAt(d[1..], i - 1);
      assert d[1..][i - 1] == d[i];
    }
  }

  /** The values, in insertion order. */
  function Values<V>(d: Dict<V>): (vs: seq<V>)
    ensures |vs| == |d|
    ensures forall i :: 0 <= i < |d| ==> vs[i] == d[i].1
  {
    if d == [] then [] else [d[0].1] + Values(d[1..])
  }

  /** Appending a pair appends its key. */
  lemma KeysAppend<V>(d: Dict<V>, k: string, v: V)
    ensures Keys(d + [(k, v)]) == Keys(d) + [k]
  {
    var r := Keys(d + [(k, v)]);
    forall i | 0 <= i < |r| ensures r[i] == (Keys(d) + [k])[i] {
      if i < |d| {
        assert (d + [(k, v)])[i] == d[i];
      }
    }
  }

  /** Lookup in a dictionary with one more pair at the end: earlier pairs win. */
  lemma {:induction false} GetAppend<V>(d: Dict<V>, k: string, v: V, q: string)
    ensures Get(d + [(k, v)], q) == if q in Keys(d) then Get(d, q) else if q == k then Some(v) else None
  {
    if d != [] {
      assert (d + [(k, v)])[1..] == d[1..] + [(k, v)];
      GetAppend(d[1..], k, v, q);
      assert Keys(d) == [d[0].0] + Keys(d[1..]);
    }
  }

  /** Dropping the last pair of a dictionary with distinct keys leaves distinct keys, without that key. */
  lemma UniqueInit<V>(d: Dict<V>)
    requires UniqueKeys(d) && d != []
    ensures UniqueKeys(d[..|d| - 1])
    ensures d[|d| - 1].0 !in Keys(d[..|d| - 1])
  {
    var init := d[..|d| - 1];
    assert forall i :: 0 <= i < |init| ==> Keys(init)[i] == Keys(d)[i];
  }

  /** A position at which a present key stands. */
  lemma KeyIndex<V>(d: Dict<V>, k: string) returns (j: nat)
    requires k in Keys(d)
    ensures j < |d| && d[j].0 == k
  {
    var ks := Keys(d);
    j :| 0 <= j < |ks| && ks[j] == k;
  }

  /** A non-empty dictionary is its pairs before the last one, then the last one. */
  lemma Snoc<V>(d: Dict<V>)
    requires d != []
    ensures d == d[..|d| - 1] + [d[|d| - 1]]
    ensures Keys(d) == Keys(d[..|d| - 1]) + [d[|d| - 1].0]
  {
    var n := |d| - 1;
    var last := d[n];
    assert d == d[..n] + [(last.0, last.1)];
    KeysAppend(d[..n], last.0, last.1);
  }
}
