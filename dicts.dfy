/**
 * Python dictionaries keyed by strings, in insertion order.
 *
 * A dictionary is an association list. Assigning to a key that is already
 * present replaces its value where it stands; assigning to a new key appends
 * it at the end; deleting a key drops its entry. This is the behaviour of
 * Python's `dict`, whose iteration order is insertion order.
 */
module Dicts {
  import opened Wrappers

  type Dict<V> = seq<(string, V)>

  /** The keys in iteration order. */
  function Keys<V>(d: Dict<V>): (ks: seq<string>)
    ensures |ks| == |d|
    ensures forall i :: 0 <= i < |d| ==> ks[i] == d[i].0
  {
    seq(|d|, i requires 0 <= i < |d| => d[i].0)
  }

  /** No key occurs twice. */
  predicate Distinct<V>(d: Dict<V>)
  {
    forall i, j :: 0 <= i < j < |d| ==> d[i].0 != d[j].0
  }

  /** The first position that holds key `k`. */
  function Find<V>(d: Dict<V>, k: string): (r: Option<nat>)
    ensures r.Some? ==> r.value < |d| && d[r.value].0 == k
    ensures r.Some? ==> forall j :: 0 <= j < r.value ==> d[j].0 != k
    ensures r.None? ==> forall j :: 0 <= j < |d| ==> d[j].0 != k
  {
    if d == [] then None
    else if d[0].0 == k then Some(0)
    else match Find(d[1..], k)
      case None => None
      case Some(i) => Some(i + 1)
  }

  /** `d.get(k)`: the value stored under `k`, if any. */
  function Get<V>(d: Dict<V>, k: string): Option<V>
  {
    match Find(d, k)
    case None => None
    case Some(i) => Some(d[i].1)
  }

  /** `k in d` */
  predicate Has<V>(d: Dict<V>, k: string)
  {
    Find(d, k).Some?
  }

  /** `d[k] = v`: in place when `k` is present, appended otherwise. */
  function Set<V>(d: Dict<V>, k: string, v: V): Dict<V>
  {
    match Find(d, k)
    case Some(i) => d[i := (k, v)]
    case None => d + [(k, v)]
  }

  /** `del d[k]` when `k` is present; the dictionary itself otherwise. */
  function Remove<V>(d: Dict<V>, k: string): Dict<V>
  {
    match Find(d, k)
    case Some(i) => d[..i] + d[i + 1..]
    case None => d
  }

  /** A key is found at the first position that holds it. */
  lemma FindAt<V>(d: Dict<V>, k: string, i: nat)
    requires i < |d| && d[i].0 == k
    requires forall j :: 0 <= j < i ==> d[j].0 != k
    ensures Find(d, k) == Some(i)
  {
  }

  /** In a dictionary without repeated keys, the entry at position `i` is what `Get` finds. */
  lemma GetAt<V>(d: Dict<V>, i: nat)
    requires Distinct(d) && i < |d|
    ensures Get(d, d[i].0) == Some(d[i].1)
  {
    FindAt(d, d[i].0, i);
  }

  /** After `d[k] = v`, `k` maps to `v`, every other key is unchanged, and the key order is
      that of `d`, with `k` at the end when it is new. */
  lemma SetGet<V>(d: Dict<V>, k: string, v: V)
    ensures Get(Set(d, k, v), k) == Some(v)
    ensures forall k' :: k' != k ==> Get(Set(d, k, v), k') == Get(d, k')
    ensures Keys(Set(d, k, v)) == if Has(d, k) then Keys(d) else Keys(d) + [k]
  {
    var r := Set(d, k, v);
    if Find(d, k).Some? {
      FindAt(r, k, Find(d, k).value);
    } else {
      FindAt(r, k, |d|);
    }
    forall k' | k' != k ensures Get(r, k') == Get(d, k') {
      match Find(d, k')
      case Some(i) => FindAt(r, k', i);
      case None =>
    }
  }

  /** After `d[k] = v` the keys are those of `d` and `k`. */
  lemma SetHas<V>(d: Dict<V>, k: string, v: V, j: string)
    ensures Has(Set(d, k, v), j) <==> j == k || Has(d, j)
  {
    SetGet(d, k, v);
    var r := Set(d, k, v);
    assert Has(r, j) <==> Get(r, j).Some?;
    assert Has(d, j) <==> Get(d, j).Some?;
  }

  /** Setting a key the dictionary does not hold appends it. */
  lemma SetAbsent<V>(d: Dict<V>, k: string, v: V)
    requires forall j :: 0 <= j < |d| ==> d[j].0 != k
    ensures Set(d, k, v) == d + [(k, v)]
  {
  }

  /** Assigning a key the value it already has changes nothing. */
  lemma SetSame<V>(d: Dict<V>, k: string, v: V)
    requires Get(d, k) == Some(v)
    ensures Set(d, k, v) == d
  {
    var i := Find(d, k).value;
    assert d[i] == (k, v);
  }

  /** A second assignment to the same key overrides the first. */
  lemma SetTwice<V>(d: Dict<V>, k: string, v: V, w: V)
    ensures Set(Set(d, k, v), k, w) == Set(d, k, w)
  {
    if Find(d, k).None? {
      FindAt(d + [(k, v)], k, |d|);
    } else {
      FindAt(Set(d, k, v), k, Find(d, k).value);
    }
  }

  /** Assignment never repeats a key. */
  lemma SetDistinct<V>(d: Dict<V>, k: string, v: V)
    requires Distinct(d)
    ensures Distinct(Set(d, k, v))
  {
  }

  /** Deleting from a dictionary without repeated keys removes exactly that key, keeps every
      other entry and shortens the dictionary by one; deleting an absent key changes nothing. */
  lemma RemoveGet<V>(d: Dict<V>, k: string)
    requires Distinct(d)
    ensures Distinct(Remove(d, k)) && !Has(Remove(d, k), k)
    ensures forall k' :: k' != k ==> Get(Remove(d, k), k') == Get(d, k')
    ensures |Remove(d, k)| == if Has(d, k) then |d| - 1 else |d|
  {
    var r := Remove(d, k);
    match Find(d, k)
    case None =>
    case Some(i) =>
      RemoveShape(d, i);
      forall k' | k' != k ensures Get(r, k') == Get(d, k') {
        RemoveKeeps(d, i, r, k');
      }
  }

  /** Deleting the entry at `i` shifts the later entries down by one. */
  lemma RemoveShape<V>(d: Dict<V>, i: nat)
    requires Distinct(d) && i < |d|
    ensures var r := d[..i] + d[i + 1..];
      |r| == |d| - 1 && (forall j :: 0 <= j < i ==> r[j] == d[j]) &&
      (forall j :: i <= j < |r| ==> r[j] == d[j + 1]) &&
      Distinct(r) && forall j :: 0 <= j < |r| ==> r[j].0 != d[i].0
  {
    var r := d[..i] + d[i + 1..];
    assert forall j :: i <= j < |r| ==> r[j] == d[j + 1];
  }

  /** ... which leaves every other key's value where `Get` finds it. */
  lemma RemoveKeeps<V>(d: Dict<V>, i: nat, r: Dict<V>, k: string)
    requires i < |d| && |r| == |d| - 1 && d[i].0 != k
    requires forall j :: 0 <= j < i ==> r[j] == d[j]
    requires forall j :: i <= j < |r| ==> r[j] == d[j + 1]
    ensures Get(r, k) == Get(d, k)
  {
    match Find(d, k)
    case Some(p) =>
      if p < i {
        assert r[p] == d[p];
        FindAt(r, k, p);
      } else {
        assert r[p - 1] == d[p];
        forall j | 0 <= j < p - 1 ensures r[j].0 != k {
          if j < i { assert r[j] == d[j]; } else { assert r[j] == d[j + 1]; }
        }
        FindAt(r, k, p - 1);
      }
    case None =>
      forall j | 0 <= j < |r| ensures r[j].0 != k {
        if j < i { assert r[j] == d[j]; } else { assert r[j] == d[j + 1]; }
      }
  }
}
