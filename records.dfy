/**
 * A plain JavaScript object used as a dictionary: its keys in insertion
 * order and the value under each key. JavaScript lists integer-like keys
 * first, in numeric order; this order does not single them out. Assignment `o[k] = v` keeps the
 * position of an existing key and appends a new one; `{ ...a, ...b }`
 * assigns every entry of `b`, in `b`'s order, onto a copy of `a`.
 */
module Records {
  import opened Wrappers

  datatype Record<V> = Record(order: seq<string>, values: map<string, V>) {

    /** Every key appears once in the order, and the order lists exactly the keys. */
    ghost predicate Valid() {
      (forall i, j :: 0 <= i < j < |order| ==> order[i] != order[j])
      && (forall k :: k in values <==> k in order)
    }

    /** `o[k]`. */
    function Get(k: string): Option<V> {
      if k in values then Some(values[k]) else None
    }

    /** `o[k] = v`. */
    function Put(k: string, v: V): (r: Record<V>)
      requires Valid()
      ensures r.Valid()
      ensures r.Get(k) == Some(v)
      ensures forall j :: j != k ==> r.Get(j) == Get(j)
      ensures r.order == if k in values then order else order + [k]
    {
      Record(if k in values then order else order + [k], values[k := v])
    }
  }

  function Empty<V>(): (r: Record<V>)
    ensures r.Valid() && r.order == [] && forall k :: r.Get(k) == None
  {
    Record([], map[])
  }

  /** `{ ...a, ...b }`: assigns the entries of `b`, from position `from` on, onto `a`. */
  function SpreadFrom<V>(a: Record<V>, b: Record<V>, from: nat): (r: Record<V>)
    requires a.Valid() && b.Valid() && from <= |b.order|
    ensures r.Valid()
    ensures forall k :: r.Get(k) == if k in b.order[from..] then b.Get(k) else a.Get(k)
    ensures |a.order| <= |r.order| && r.order[..|a.order|] == a.order
    decreases |b.order| - from
  {
    if from == |b.order| then a
    else
      var k := b.order[from];
      var a' := a.Put(k, b.values[k]);
      var r := SpreadFrom(a', b, from + 1);
      SpreadGetStep(a, b, from, r);
      r
  }

  /** Assigning the entry at `from` first, then the rest, is assigning the entries from `from` on. */
  lemma SpreadGetStep<V>(a: Record<V>, b: Record<V>, from: nat, r: Record<V>)
    requires a.Valid() && b.Valid() && from < |b.order|
    requires forall k :: r.Get(k) == if k in b.order[from + 1..] then b.Get(k)
                                     else a.Put(b.order[from], b.values[b.order[from]]).Get(k)
    requires var a' := a.Put(b.order[from], b.values[b.order[from]]);
      |a'.order| <= |r.order| && r.order[..|a'.order|] == a'.order
    ensures forall k :: r.Get(k) == if k in b.order[from..] then b.Get(k) else a.Get(k)
    ensures |a.order| <= |r.order| && r.order[..|a.order|] == a.order
  {
    SuffixMembers(b.order, from);
    var key := b.order[from];
    assert key in b.values;
    var a' := a.Put(key, b.values[key]);
    assert r.order[..|a.order|] == a'.order[..|a.order|];
    forall k ensures r.Get(k) == if k in b.order[from..] then b.Get(k) else a.Get(k) {
      if k != key {
        assert a'.Get(k) == a.Get(k);
      }
    }
  }

  lemma SuffixMembers(s: seq<string>, from: nat)
    requires from < |s|
    requires forall i, j :: 0 <= i < j < |s| ==> s[i] != s[j]
    ensures forall j :: j in s[from..] <==> j == s[from] || j in s[from + 1..]
    ensures s[from] !in s[from + 1..]
  {
    assert s[from..] == [s[from]] + s[from + 1..];
  }

  /** `{ ...a, ...b }`. */
  function Spread<V>(a: Record<V>, b: Record<V>): (r: Record<V>)
    requires a.Valid() && b.Valid()
    ensures r.Valid()
    ensures forall k :: r.Get(k) == if k in b.values then b.Get(k) else a.Get(k)
    ensures |a.order| <= |r.order| && r.order[..|a.order|] == a.order
  {
    assert b.order[0..] == b.order;
    SpreadFrom(a, b, 0)
  }
}
