/** The two loops the log assembler is made of, stated once for any step that may raise:
    appending one result per item to a list, and storing one keyed result per item in a
    dict. A step that raises aborts the whole loop. */
module Folds {
  import opened Results
  import opened Dicts

  /** `for x in xs: out.append(f(x))`, starting from `acc`. */
  function MapAll<A, B>(f: A -> Result<B>, acc: seq<B>, xs: seq<A>): Result<seq<B>>
    decreases xs
  {
    if xs == [] then Ok(acc)
    else
      var y :- f(xs[0]);
      MapAll(f, acc + [y], xs[1..])
  }

  /** The list holds one result per item, in order, after `acc`; the loop raises exactly
      when some step raises. */
  lemma {:induction false} MapAllShape<A, B>(f: A -> Result<B>, acc: seq<B>, xs: seq<A>)
    ensures MapAll(f, acc, xs).Ok? <==> forall i :: 0 <= i < |xs| ==> f(xs[i]).Ok?
    ensures MapAll(f, acc, xs).Ok? ==>
            var ys := MapAll(f, acc, xs).value;
            && |ys| == |acc| + |xs|
            && ys[..|acc|] == acc
            && forall i :: 0 <= i < |xs| ==> ys[|acc| + i] == f(xs[i]).value
    decreases xs
  {
    if xs != [] {
      assert forall i :: 1 <= i < |xs| ==> xs[i] == xs[1..][i - 1];
      var y := f(xs[0]);
      if y.Ok? {
        MapAllShape(f, acc + [y.value], xs[1..]);
      }
    }
  }

  /** When every step gives the item at the same position of `ys`, the loop appends `ys`. */
  lemma MapAllExact<A, B>(f: A -> Result<B>, acc: seq<B>, xs: seq<A>, ys: seq<B>)
    requires |xs| == |ys| && forall i :: 0 <= i < |xs| ==> f(xs[i]) == Ok(ys[i])
    ensures MapAll(f, acc, xs) == Ok(acc + ys)
  {
    MapAllShape(f, acc, xs);
    var r := MapAll(f, acc, xs).value;
    assert forall i :: 0 <= i < |r| ==> r[i] == (acc + ys)[i] by {
      forall i | 0 <= i < |r| ensures r[i] == (acc + ys)[i] {
        if i < |acc| {
          assert r[..|acc|][i] == r[i];
        } else {
          assert r[|acc| + (i - |acc|)] == ys[i - |acc|];
        }
      }
    }
    assert r == acc + ys;
  }

  /** `for x in xs: k, v = f(x); out[k] = v`, starting from `acc`. */
  function PutAll<A, V>(f: A -> Result<(string, V)>, acc: Dict<V>, xs: seq<A>): Result<Dict<V>>
    decreases xs
  {
    if xs == [] then Ok(acc)
    else
      var e :- f(xs[0]);
      PutAll(f, Put(acc, e.0, e.1), xs[1..])
  }

  /** Some step stores under `k`. */
  predicate KeyedBy<A, V>(f: A -> Result<(string, V)>, xs: seq<A>, k: string)
  {
    exists i :: 0 <= i < |xs| && f(xs[i]).Ok? && f(xs[i]).value.0 == k
  }

  /** Every step of a loop that finishes succeeds; a key no step stores keeps its value
      from `acc`; distinct keys stay distinct. */
  lemma {:induction false} PutAllKeys<A, V>(f: A -> Result<(string, V)>, acc: Dict<V>, xs: seq<A>)
    requires PutAll(f, acc, xs).Ok?
    ensures forall i :: 0 <= i < |xs| ==> f(xs[i]).Ok?
    ensures forall k :: !KeyedBy(f, xs, k) ==> Get(PutAll(f, acc, xs).value, k) == Get(acc, k)
    ensures UniqueKeys(acc) ==> UniqueKeys(PutAll(f, acc, xs).value)
    decreases xs
  {
    if xs != [] {
      var e := f(xs[0]).value;
      var next := Put(acc, e.0, e.1);
      PutAllKeys(f, next, xs[1..]);
      assert PutAll(f, acc, xs) == PutAll(f, next, xs[1..]);
      assert forall i :: 1 <= i < |xs| ==> xs[i] == xs[1..][i - 1];
      forall k | !KeyedBy(f, xs, k) ensures !KeyedBy(f, xs[1..], k) && k != e.0 {
        KeyedByStep(f, xs, k);
      }
    }
  }

  /** A key some step stores holds, after the loop, the value of one of the steps that
      store it. */
  lemma {:induction false} PutAllStored<A, V>(f: A -> Result<(string, V)>, acc: Dict<V>, xs: seq<A>, k: string)
    requires PutAll(f, acc, xs).Ok? && KeyedBy(f, xs, k)
    ensures exists i :: 0 <= i < |xs| && f(xs[i]).Ok? && f(xs[i]).value.0 == k && Get(PutAll(f, acc, xs).value, k) == Some(f(xs[i]).value.1)
    decreases xs
  {
    var e := f(xs[0]).value;
    var next := Put(acc, e.0, e.1);
    var r := PutAll(f, acc, xs).value;
    assert r == PutAll(f, next, xs[1..]).value;
    KeyedByStep(f, xs, k);
    if KeyedBy(f, xs[1..], k) {
      PutAllStored(f, next, xs[1..], k);
      var i :| 0 <= i < |xs[1..]| && f(xs[1..][i]).Ok? && f(xs[1..][i]).value.0 == k && Get(r, k) == Some(f(xs[1..][i]).value.1);
      assert xs[1..][i] == xs[i + 1];
    } else {
      PutAllKeys(f, next, xs[1..]);
      assert Get(r, k) == Some(e.1);
    }
  }

  /** When no other item stores under the key of item `i`, the dict holds the value of
      step `i` under that key. */
  lemma PutAllOwnKey<A, V>(f: A -> Result<(string, V)>, acc: Dict<V>, xs: seq<A>, i: int)
    requires PutAll(f, acc, xs).Ok? && 0 <= i < |xs| && f(xs[i]).Ok?
    requires forall j :: 0 <= j < |xs| && f(xs[j]).Ok? && f(xs[j]).value.0 == f(xs[i]).value.0 ==> xs[j] == xs[i]
    ensures Get(PutAll(f, acc, xs).value, f(xs[i]).value.0) == Some(f(xs[i]).value.1)
  {
    PutAllStored(f, acc, xs, f(xs[i]).value.0);
  }

  /** After the loop a key is present exactly when `acc` had it or some step stores it. */
  lemma PutAllHas<A, V>(f: A -> Result<(string, V)>, acc: Dict<V>, xs: seq<A>)
    requires PutAll(f, acc, xs).Ok?
    ensures forall k :: Has(PutAll(f, acc, xs).value, k) <==> Has(acc, k) || KeyedBy(f, xs, k)
  {
    PutAllKeys(f, acc, xs);
    forall k | KeyedBy(f, xs, k) ensures Has(PutAll(f, acc, xs).value, k) {
      PutAllStored(f, acc, xs, k);
    }
  }

  /** When items that store under the same key are the same item, the dict holds every
      item's value under its key. */
  lemma PutAllEveryKey<A, V>(f: A -> Result<(string, V)>, acc: Dict<V>, xs: seq<A>)
    requires PutAll(f, acc, xs).Ok?
    requires forall i, j ::
               (0 <= i < |xs| && 0 <= j < |xs| && f(xs[i]).Ok? && f(xs[j]).Ok? && f(xs[i]).value.0 == f(xs[j]).value.0)
               ==> xs[i] == xs[j]
    ensures forall i :: 0 <= i < |xs| ==>
              f(xs[i]).Ok? && Get(PutAll(f, acc, xs).value, f(xs[i]).value.0) == Some(f(xs[i]).value.1)
  {
    PutAllKeys(f, acc, xs);
    forall i | 0 <= i < |xs|
      ensures Get(PutAll(f, acc, xs).value, f(xs[i]).value.0) == Some(f(xs[i]).value.1)
    {
      PutAllOwnKey(f, acc, xs, i);
    }
  }

  /** A key is stored by some step exactly when the first step or a later one stores it. */
  lemma KeyedByStep<A, V>(f: A -> Result<(string, V)>, xs: seq<A>, k: string)
    requires xs != [] && f(xs[0]).Ok?
    ensures KeyedBy(f, xs, k) <==> f(xs[0]).value.0 == k || KeyedBy(f, xs[1..], k)
  {
    if KeyedBy(f, xs[1..], k) {
      var i :| 0 <= i < |xs[1..]| && f(xs[1..][i]).Ok? && f(xs[1..][i]).value.0 == k;
      assert f(xs[i + 1]).Ok? && f(xs[i + 1]).value.0 == k;
    }
    if KeyedBy(f, xs, k) && f(xs[0]).value.0 != k {
      var i :| 0 <= i < |xs| && f(xs[i]).Ok? && f(xs[i]).value.0 == k;
      assert f(xs[1..][i - 1]).Ok? && f(xs[1..][i - 1]).value.0 == k;
    }
  }

  /** When every step stores the entry at the same position of `ys`, whose keys are
      distinct and new to `acc`, the loop appends `ys`. */
  lemma {:induction false} PutAllExact<A, V>(f: A -> Result<(string, V)>, acc: Dict<V>, xs: seq<A>, ys: Dict<V>)
    requires |xs| == |ys| && UniqueKeys(ys) && Fresh(acc, ys)
    requires forall i :: 0 <= i < |xs| ==> f(xs[i]) == Ok(ys[i])
    ensures PutAll(f, acc, xs) == Ok(acc + ys)
    decreases xs
  {
    if xs != [] {
      FreshStep(acc, ys[0].1, ys);
      var next := acc + [ys[0]];
      assert Put(acc, ys[0].0, ys[0].1) == next;
      forall i | 0 <= i < |xs[1..]| ensures f(xs[1..][i]) == Ok(ys[1..][i]) {
        assert xs[1..][i] == xs[i + 1] && ys[1..][i] == ys[i + 1];
      }
      PutAllExact(f, next, xs[1..], ys[1..]);
      AppendFirst(acc, ys);
    } else {
      assert acc + ys == acc;
    }
  }
}
