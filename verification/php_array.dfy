/**
 * PHP arrays with string keys: ordered maps in which a key occurs at most
 * once and assignment to an existing key keeps that key's position.
 *
 * `array_replace` and `array_merge` coincide on arrays whose keys are all
 * non-numeric strings, which is the only way the SDK uses them; `Replace`
 * models both.
 */
module PhpArray {
  import opened Base

  /** An array as its entries in iteration order. */
  type Arr<V> = seq<(string, V)>

  function KeysOf<V>(a: Arr<V>): (ks: seq<string>)
    ensures |ks| == |a|
    ensures forall i | 0 <= i < |a| :: ks[i] == a[i].0
  {
    seq(|a|, i requires 0 <= i < |a| => a[i].0)
  }

  /** What every PHP array satisfies: no key occurs twice. */
  predicate UniqueKeys<V>(a: Arr<V>)
  {
    forall i, j | 0 <= i < j < |a| :: a[i].0 != a[j].0
  }

  /** `$a[$k]`, with None when the key is absent. */
  function Get<V>(a: Arr<V>, k: string): (r: Option<V>)
    ensures r.Some? <==> k in KeysOf(a)
    decreases |a|
  {
    if |a| == 0 then None
    else
      KeysOfCons(a);
      if a[0].0 == k then Some(a[0].1) else Get(a[1..], k)
  }

  /** `$a[$k] = $v`: overwrite in place when `k` is present, append otherwise. */
  function Put<V>(a: Arr<V>, k: string, v: V): (r: Arr<V>)
    ensures |r| == if k in KeysOf(a) then |a| else |a| + 1
    decreases |a|
  {
    KeysOfCons(a);
    if |a| == 0 then [(k, v)]
    else if a[0].0 == k then [(k, v)] + a[1..]
    else [a[0]] + Put(a[1..], k, v)
  }

  /**
   * `array_replace($base, $over)`: the entries of `base` in their order with
   * the values `over` gives for their keys, followed by the keys only `over`
   * has, in `over`'s order.
   */
  function Replace<V>(base: Arr<V>, over: Arr<V>): (r: Arr<V>)
    decreases |over|
  {
    if |over| == 0 then base
    else Replace(Put(base, over[0].0, over[0].1), over[1..])
  }

  // ---------------------------------------------------------------------------
  // Lemmas

  lemma KeysOfCons<V>(a: Arr<V>)
    ensures |a| > 0 ==> KeysOf(a) == [a[0].0] + KeysOf(a[1..])
  {
  }

  /** Reading back after `$a[$k] = $v`: `k` holds `v`, every other key is as before. */
  lemma {:induction false} PutGet<V>(a: Arr<V>, k: string, v: V, j: string)
    ensures Get(Put(a, k, v), j) == if j == k then Some(v) else Get(a, j)
    decreases |a|
  {
    if |a| > 0 {
      var r := Put(a, k, v);
      if a[0].0 == k {
        assert r[0] == (k, v) && r[1..] == a[1..];
      } else {
        PutGet(a[1..], k, v, j);
        assert r[0] == a[0] && r[1..] == Put(a[1..], k, v);
      }
    }
  }

  /** Assignment keeps every key in place and appends a new key at the end. */
  lemma {:induction false} PutKeys<V>(a: Arr<V>, k: string, v: V)
    ensures KeysOf(Put(a, k, v)) == if k in KeysOf(a) then KeysOf(a) else KeysOf(a) + [k]
    decreases |a|
  {
    KeysOfCons(a);
    var r := Put(a, k, v);
    KeysOfCons(r);
    if |a| > 0 {
      if a[0].0 == k {
        assert r[1..] == a[1..];
      } else {
        PutKeys(a[1..], k, v);
        assert r[1..] == Put(a[1..], k, v);
      }
    }
  }

  lemma UniqueKeysOfKeys<V>(a: Arr<V>)
    ensures UniqueKeys(a) <==> forall i, j | 0 <= i < j < |a| :: KeysOf(a)[i] != KeysOf(a)[j]
  {
    var ks := KeysOf(a);
    assert forall i | 0 <= i < |a| :: ks[i] == a[i].0;
  }

  /** Assignment never introduces a duplicate key. */
  lemma PutUnique<V>(a: Arr<V>, k: string, v: V)
    requires UniqueKeys(a)
    ensures UniqueKeys(Put(a, k, v))
  {
    PutKeys(a, k, v);
    var r := Put(a, k, v);
    UniqueKeysOfKeys(a);
    UniqueKeysOfKeys(r);
  }

  /**
   * Lookup in `array_replace($base, $over)`: the caller's value when `over`
   * has the key, the default otherwise.
   */
  lemma {:induction false} ReplaceGet<V>(base: Arr<V>, over: Arr<V>, k: string)
    requires UniqueKeys(over)
    ensures Get(Replace(base, over), k) == if k in KeysOf(over) then Get(over, k) else Get(base, k)
    decreases |over|
  {
    if |over| > 0 {
      var (k0, v0) := over[0];
      KeysOfCons(over);
      assert k0 !in KeysOf(over[1..]) by {
        forall j | 0 <= j < |over| - 1
          ensures KeysOf(over[1..])[j] != k0
        {
          assert over[1..][j] == over[j + 1];
        }
      }
      assert UniqueKeys(over[1..]);
      ReplaceGet(Put(base, k0, v0), over[1..], k);
      PutGet(base, k0, v0, k);
    }
  }

  /**
   * The keys of `array_replace($base, $over)`: those of `base`, in their
   * original positions, then the new ones; nothing else.
   */
  lemma {:induction false} ReplaceKeys<V>(base: Arr<V>, over: Arr<V>)
    ensures KeysOf(base) <= KeysOf(Replace(base, over))
    ensures forall k :: k in KeysOf(Replace(base, over)) <==> k in KeysOf(base) || k in KeysOf(over)
    decreases |over|
  {
    if |over| > 0 {
      var (k0, v0) := over[0];
      KeysOfCons(over);
      PutKeys(base, k0, v0);
      ReplaceKeys(Put(base, k0, v0), over[1..]);
    }
  }

  /** `array_replace` of a proper array is a proper array. */
  lemma {:induction false} ReplaceUnique<V>(base: Arr<V>, over: Arr<V>)
    requires UniqueKeys(base)
    ensures UniqueKeys(Replace(base, over))
    decreases |over|
  {
    if |over| > 0 {
      PutUnique(base, over[0].0, over[0].1);
      ReplaceUnique(Put(base, over[0].0, over[0].1), over[1..]);
    }
  }

  /** Assigning to a key the array already has replaces that entry where it stands. */
  lemma {:induction false} PutExisting<V>(a: Arr<V>, i: nat, v: V)
    requires UniqueKeys(a) && i < |a|
    ensures Put(a, a[i].0, v) == a[i := (a[i].0, v)]
    decreases |a|
  {
    var k := a[i].0;
    if i == 0 {
      assert a[i := (k, v)] == [(k, v)] + a[1..];
    } else {
      var t := a[1..];
      assert a[0].0 != k;
      assert t[i - 1] == a[i];
      PutExisting(t, i - 1, v);
      assert a[i := (k, v)] == [a[0]] + t[i - 1 := (k, v)];
    }
  }

  /** In an array with unique keys, looking up the key of an entry yields that entry's value. */
  lemma {:induction false} GetAt<V>(a: Arr<V>, i: nat)
    requires UniqueKeys(a) && i < |a|
    ensures Get(a, a[i].0) == Some(a[i].1)
    decreases |a|
  {
    if i > 0 {
      assert a[0].0 != a[i].0;
      assert a[1..][i - 1] == a[i];
      GetAt(a[1..], i - 1);
    }
  }
}
