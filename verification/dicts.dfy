/** Python dicts with string keys, as association lists in insertion order. Assigning
    `d[k] = v` to a key already present keeps the key's position and replaces its value;
    a new key goes last. Every dict the converter builds has each key once. */
module Dicts {
  import opened Results

  type Dict<V> = seq<(string, V)>

  /** The keys in iteration order. */
  function Keys<V>(d: Dict<V>): seq<string>
  {
    seq(|d|, i requires 0 <= i < |d| => d[i].0)
  }

  /** `k in d` */
  predicate Has<V>(d: Dict<V>, k: string)
  {
    exists i :: 0 <= i < |d| && d[i].0 == k
  }

  predicate UniqueKeys<V>(d: Dict<V>)
  {
    forall i, j :: 0 <= i < j < |d| ==> d[i].0 != d[j].0
  }

  /** The position of `k`, or -1 when `d` has no such key. */
  function Find<V>(d: Dict<V>, k: string): (i: int)
    ensures -1 <= i < |d|
    ensures 0 <= i ==> d[i].0 == k && forall j :: 0 <= j < i ==> d[j].0 != k
    ensures i < 0 <==> !Has(d, k)
  {
    if d == [] then -1
    else if d[0].0 == k then 0
    else
      var j := Find(d[1..], k);
      if j < 0 then -1 else j + 1
  }

  /** The position of the last entry with key `k`, or -1: the entry whose value a dict
      built by assigning the entries of `d` in order ends up holding. */
  function LastIndex<V>(d: Dict<V>, k: string): (i: int)
    ensures -1 <= i < |d|
    ensures 0 <= i ==> d[i].0 == k && forall j :: i < j < |d| ==> d[j].0 != k
    ensures i < 0 <==> !Has(d, k)
  {
    if d == [] then -1
    else
      var j := LastIndex(d[1..], k);
      if 0 <= j then j + 1
      else if d[0].0 == k then 0
      else -1
  }

  /** `d.get(k)`, as an option. */
  function Get<V>(d: Dict<V>, k: string): (r: Option<V>)
    ensures r.Some? <==> Has(d, k)
  {
    var i := Find(d, k);
    if i < 0 then None else Some(d[i].1)
  }

  /** `d[k] = v` */
  function Put<V>(d: Dict<V>, k: string, v: V): (r: Dict<V>)
    ensures Get(r, k) == Some(v)
    ensures forall k' :: k' != k ==> Get(r, k') == Get(d, k')
    ensures !Has(d, k) ==> r == d + [(k, v)]
    ensures Has(d, k) ==> |r| == |d| && forall i :: 0 <= i < |d| ==> r[i].0 == d[i].0
    ensures UniqueKeys(d) ==> UniqueKeys(r)
  {
    var i := Find(d, k);
    if i < 0 then
      var r := d + [(k, v)];
      FindAppended(d, k, v);
      r
    else
      var r := d[i := (k, v)];
      forall k' ensures Find(r, k') == Find(d, k') { FindOnKeys(r, d, k'); }
      r
  }

  lemma FindOnKeys<V>(a: Dict<V>, b: Dict<V>, k: string)
    requires |a| == |b| && forall i :: 0 <= i < |a| ==> a[i].0 == b[i].0
    ensures Find(a, k) == Find(b, k)
  {
    var i, j := Find(a, k), Find(b, k);
    if 0 <= i { assert b[i].0 == k; }
    if 0 <= j { assert a[j].0 == k; }
  }

  lemma FindAppended<V>(d: Dict<V>, k: string, v: V)
    requires !Has(d, k)
    ensures Find(d + [(k, v)], k) == |d|
    ensures forall k' :: k' != k ==> Find(d + [(k, v)], k') == Find(d, k')
  {
    var r := d + [(k, v)];
    assert r[|d|].0 == k;
    forall k' | k' != k ensures Find(r, k') == Find(d, k') {
      var i, j := Find(r, k'), Find(d, k');
      if 0 <= j { assert r[j].0 == k'; }
      if 0 <= i { assert i < |d| && d[i].0 == k'; }
    }
  }

  /** No key of `cs` is a key of `d`. */
  predicate Fresh<V, W>(d: Dict<V>, cs: Dict<W>)
  {
    forall i :: 0 <= i < |cs| ==> !Has(d, cs[i].0)
  }

  /** Moving the first entry of `cs`, with any value, to the end of `d` keeps the rest of
      `cs` fresh. */
  lemma FreshStep<V, W>(d: Dict<V>, v: V, cs: Dict<W>)
    requires cs != [] && UniqueKeys(cs) && Fresh(d, cs)
    ensures !Has(d, cs[0].0)
    ensures UniqueKeys(cs[1..]) && Fresh(d + [(cs[0].0, v)], cs[1..])
  {
    var d' := d + [(cs[0].0, v)];
    forall i | 0 <= i < |cs[1..]| ensures !Has(d', cs[1..][i].0) {
      var k := cs[1..][i].0;
      assert k == cs[i + 1].0 && k != cs[0].0;
      assert !Has(d, k);
    }
    assert forall i, j :: 0 <= i < j < |cs[1..]| ==> cs[1..][i].0 == cs[i + 1].0 && cs[1..][j].0 == cs[j + 1].0;
  }

  lemma AppendFirst<T>(a: seq<T>, b: seq<T>)
    requires b != []
    ensures (a + [b[0]]) + b[1..] == a + b
  {
    assert b == [b[0]] + b[1..];
  }

  /** Updating with a one-entry dict is one assignment. */
  lemma UpdateOne<V>(d: Dict<V>, k: string, v: V)
    ensures Update(d, [(k, v)]) == Put(d, k, v)
  {
    assert [(k, v)][1..] == [];
  }

  /** `d.update(e)`: the entries of `e` assigned one by one, in order. */
  function Update<V>(d: Dict<V>, e: Dict<V>): (r: Dict<V>)
    decreases e
    ensures forall k :: !Has(e, k) ==> Get(r, k) == Get(d, k)
    ensures forall k :: Has(e, k) ==> Has(r, k)
    ensures UniqueKeys(d) ==> UniqueKeys(r)
  {
    if e == [] then d
    else
      var r := Update(Put(d, e[0].0, e[0].1), e[1..]);
      assert forall k :: Has(e, k) <==> k == e[0].0 || Has(e[1..], k) by {
        forall k ensures Has(e, k) <==> k == e[0].0 || Has(e[1..], k) { HasStep(e, k); }
      }
      r
  }

  /** After `d.update(e)`, every key of `e` holds the last value `e` gives it. */
  lemma {:induction false} UpdateAssigns<V>(d: Dict<V>, e: Dict<V>, k: string)
    requires Has(e, k)
    ensures Get(Update(d, e), k) == Some(e[LastIndex(e, k)].1)
    decreases e
  {
    HasStep(e, k);
    LastIndexStep(e, k);
    if Has(e[1..], k) {
      UpdateAssigns(Put(d, e[0].0, e[0].1), e[1..], k);
    }
  }

  /** A key is in a non-empty dict exactly when it is its first key or a key of the rest. */
  lemma HasStep<V>(e: Dict<V>, k: string)
    requires e != []
    ensures Has(e, k) <==> k == e[0].0 || Has(e[1..], k)
  {
    if Has(e, k) && k != e[0].0 {
      var i :| 0 <= i < |e| && e[i].0 == k;
      assert e[1..][i - 1].0 == k;
    }
    if Has(e[1..], k) {
      var i :| 0 <= i < |e[1..]| && e[1..][i].0 == k;
      assert e[i + 1].0 == k;
    }
  }

  /** The last entry of a key is in the rest of the dict when the rest has the key, and is
      the first entry otherwise. */
  lemma LastIndexStep<V>(e: Dict<V>, k: string)
    requires e != [] && Has(e, k)
    ensures Has(e[1..], k) ==> LastIndex(e, k) == LastIndex(e[1..], k) + 1
    ensures !Has(e[1..], k) ==> LastIndex(e, k) == 0
  {
  }
}
