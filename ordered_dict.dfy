/**
 * Python dictionaries with string keys as the converter builds and reads
 * them: the sequence of their (key, value) items in insertion order.
 */
module OrderedDict {
  import opened Basics

  type Dict<V> = seq<(string, V)>

  /** `list(d)`: the keys of `d` in insertion order. */
  function Keys<V>(d: Dict<V>): (ks: seq<string>)
    ensures |ks| == |d| && forall i {:trigger ks[i]} :: 0 <= i < |d| ==> ks[i] == d[i].0
  {
    if d == [] then [] else [d[0].0] + Keys(d[1..])
  }

  /** No string occurs twice in `ks`. */
  predicate Distinct(ks: seq<string>)
  {
    forall i, j :: 0 <= i < j < |ks| ==> ks[i] != ks[j]
  }

  /** A Python dictionary never holds the same key twice. */
  predicate UniqueKeys<V>(d: Dict<V>)
  {
    Distinct(Keys(d))
  }

  /** `d.get(key)`: the value stored under `key`, if there is one. */
  function Get<V>(d: Dict<V>, key: string): (r: Option<V>)
    ensures r.None? <==> key !in Keys(d)
  {
    if d == [] then None
    else if d[0].0 == key then Some(d[0].1)
    else Get(d[1..], key)
  }

  /** In a dictionary, the lookup of an item's key finds that item's value. */
  lemma {:induction false} GetItem<V>(d: Dict<V>, i: nat)
    requires UniqueKeys(d) && i < |d|
    ensures Get(d, d[i].0) == Some(d[i].1)
  {
    if i > 0 {
      assert Keys(d[1..]) == Keys(d)[1..];
      assert Keys(d)[0] != Keys(d)[i];
      GetItem(d[1..], i - 1);
    }
  }

  /**
   * `d[key] = value`: a present key keeps its position and gets the new
   * value, an absent one is appended; no other key's value changes.
   */
  function Assign<V>(d: Dict<V>, key: string, value: V): (r: Dict<V>)
    ensures Keys(r) == if key in Keys(d) then Keys(d) else Keys(d) + [key]
    ensures Get(r, key) == Some(value)
    ensures forall k {:trigger Get(r, k)} :: k != key ==> Get(r, k) == Get(d, k)
  {
    if d == [] then [(key, value)]
    else if d[0].0 == key then
      var r := [(key, value)] + d[1..];
      assert r[1..] == d[1..];
      r
    else
      var rest := Assign(d[1..], key, value);
      var r := [d[0]] + rest;
      assert r[0] == d[0] && r[1..] == rest;
      assert Keys(d) == [d[0].0] + Keys(d[1..]);
      assert Keys(r) == [d[0].0] + Keys(rest);
      r
  }

  /** Assigning to an absent key appends the item at the end. */
  lemma {:induction false} AssignAppends<V>(d: Dict<V>, key: string, value: V)
    requires forall i :: 0 <= i < |d| ==> d[i].0 != key
    ensures Assign(d, key, value) == d + [(key, value)]
  {
    if d != [] {
      assert d[0].0 != key;
      forall i | 0 <= i < |d| - 1
        ensures d[1..][i].0 != key
      {
        assert d[1..][i] == d[i + 1];
      }
      calc {
        Assign(d, key, value);
        [d[0]] + Assign(d[1..], key, value);
        { AssignAppends(d[1..], key, value); }
        [d[0]] + (d[1..] + [(key, value)]);
        { assert d == [d[0]] + d[1..]; }
        d + [(key, value)];
      }
    }
  }

  /** Assigning to a dictionary keeps its keys unique. */
  lemma AssignUnique<V>(d: Dict<V>, key: string, value: V)
    requires UniqueKeys(d)
    ensures UniqueKeys(Assign(d, key, value))
  {
    var ks := Keys(d);
    if key !in ks {
      forall i, j | 0 <= i < j < |ks| + 1
        ensures (ks + [key])[i] != (ks + [key])[j]
      {
        if j == |ks| {
          assert (ks + [key])[i] == ks[i];
        }
      }
    }
  }

  /** Storing the value a key already has changes nothing. */
  lemma {:induction false} AssignSame<V>(d: Dict<V>, key: string, value: V)
    requires Get(d, key) == Some(value)
    ensures Assign(d, key, value) == d
  {
    if d[0].0 != key {
      AssignSame(d[1..], key, value);
    }
  }

  /**
   * The dictionary that `new = {}; for k, v in d.items(): new[rename(k)] = v`
   * builds: the items of `d` assigned one by one under their renamed keys.
   * It never holds a key twice and never has more items than `d`.
   */
  function Renamed<V>(d: Dict<V>, rename: string -> string): (r: Dict<V>)
    ensures UniqueKeys(r)
    ensures |r| <= |d|
    decreases |d|
  {
    if d == [] then []
    else
      var (key, value) := d[|d| - 1];
      var before := Renamed(d[..|d| - 1], rename);
      AssignUnique(before, rename(key), value);
      Assign(before, rename(key), value)
  }

  /**
   * The reference meaning of a rename with overwrites: the value of the last
   * item of `d`, in iteration order, whose key `rename` maps to `key`.
   */
  function LastValue<V>(d: Dict<V>, rename: string -> string, key: string): Option<V>
    decreases |d|
  {
    if d == [] then None
    else if rename(d[|d| - 1].0) == key then Some(d[|d| - 1].1)
    else LastValue(d[..|d| - 1], rename, key)
  }

  /** `LastValue` finds nothing exactly when no item is renamed to `key`. */
  lemma {:induction false} LastValueNone<V>(d: Dict<V>, rename: string -> string, key: string)
    ensures LastValue(d, rename, key).None? <==> forall i :: 0 <= i < |d| ==> rename(d[i].0) != key
    decreases |d|
  {
    if d != [] {
      var n := |d| - 1;
      LastValueNone(d[..n], rename, key);
      assert forall i :: 0 <= i < n ==> d[..n][i] == d[i];
    }
  }

  /** A value `LastValue` finds belongs to an item renamed to `key` after which no item is. */
  lemma {:induction false} LastValueSome<V>(d: Dict<V>, rename: string -> string, key: string)
    requires LastValue(d, rename, key).Some?
    ensures exists i :: 0 <= i < |d| && rename(d[i].0) == key && d[i].1 == LastValue(d, rename, key).value &&
                        forall j :: i < j < |d| ==> rename(d[j].0) != key
    decreases |d|
  {
    var n := |d| - 1;
    if rename(d[n].0) == key {
      assert 0 <= n < |d| && rename(d[n].0) == key && d[n].1 == LastValue(d, rename, key).value;
    } else {
      var prefix := d[..n];
      LastValueSome(prefix, rename, key);
      var i :| 0 <= i < n && rename(prefix[i].0) == key && prefix[i].1 == LastValue(prefix, rename, key).value &&
        forall j :: i < j < n ==> rename(prefix[j].0) != key;
      assert prefix[i] == d[i];
      forall j | i < j < |d|
        ensures rename(d[j].0) != key
      {
        if j < n {
          assert prefix[j] == d[j];
        }
      }
    }
  }

  /**
   * `LastValue` finds nothing exactly when no item is renamed to `key`, and
   * otherwise the value of an item renamed to `key` after which no item is.
   */
  lemma LastValueMeaning<V>(d: Dict<V>, rename: string -> string, key: string)
    ensures LastValue(d, rename, key).None? <==> forall i :: 0 <= i < |d| ==> rename(d[i].0) != key
    ensures LastValue(d, rename, key).Some? ==>
      exists i :: 0 <= i < |d| && rename(d[i].0) == key && d[i].1 == LastValue(d, rename, key).value &&
        forall j :: i < j < |d| ==> rename(d[j].0) != key
  {
    LastValueNone(d, rename, key);
    if LastValue(d, rename, key).Some? {
      LastValueSome(d, rename, key);
    }
  }

  /** Renaming keeps, under each new key, the value of the last item renamed to it. */
  lemma {:induction false} RenamedGet<V>(d: Dict<V>, rename: string -> string, key: string)
    ensures Get(Renamed(d, rename), key) == LastValue(d, rename, key)
    decreases |d|
  {
    if d != [] {
      RenamedGet(d[..|d| - 1], rename, key);
    }
  }

  /** The keys of a renamed dictionary are exactly the renamed keys of the input. */
  lemma RenamedKeys<V>(d: Dict<V>, rename: string -> string, k: string)
    ensures k in Keys(Renamed(d, rename)) <==> exists i :: 0 <= i < |d| && rename(d[i].0) == k
  {
    RenamedGet(d, rename, k);
    LastValueMeaning(d, rename, k);
  }

  /**
   * Every item of a renamed dictionary comes from an item of the input: its
   * key is that item's renamed key, its value that item's value, and no later
   * input item is renamed to the same key.
   */
  lemma RenamedItemOrigin<V>(d: Dict<V>, rename: string -> string, j: nat)
    requires j < |Renamed(d, rename)|
    ensures var (key, value) := Renamed(d, rename)[j];
      exists i :: 0 <= i < |d| && rename(d[i].0) == key && d[i].1 == value &&
        forall i' :: i < i' < |d| ==> rename(d[i'].0) != key
  {
    var r := Renamed(d, rename);
    GetItem(r, j);
    RenamedGet(d, rename, r[j].0);
    LastValueMeaning(d, rename, r[j].0);
  }

  /** Dropping the last item of a dictionary drops its last key. */
  lemma {:induction false} KeysOfPrefix<V>(d: Dict<V>)
    requires d != []
    ensures Keys(d) == Keys(d[..|d| - 1]) + [d[|d| - 1].0]
    ensures UniqueKeys(d) ==> UniqueKeys(d[..|d| - 1]) && d[|d| - 1].0 !in Keys(d[..|d| - 1])
  {
    var n := |d| - 1;
    var ks := Keys(d[..n]);
    forall i | 0 <= i < n
      ensures ks[i] == Keys(d)[i]
    {
      assert d[..n][i] == d[i];
    }
    assert Keys(d) == ks + [d[n].0];
    if UniqueKeys(d) {
      forall i | 0 <= i < n
        ensures ks[i] != d[n].0
      {
        assert Keys(d)[n] == d[n].0;
      }
    }
  }

  /** A last item whose renamed key is new is appended, at the end, under that key. */
  lemma RenamedFreshLast<V>(d: Dict<V>, rename: string -> string)
    requires d != [] && rename(d[|d| - 1].0) !in Keys(Renamed(d[..|d| - 1], rename))
    ensures Renamed(d, rename) == Renamed(d[..|d| - 1], rename) + [(rename(d[|d| - 1].0), d[|d| - 1].1)]
  {
    var before := Renamed(d[..|d| - 1], rename);
    forall i | 0 <= i < |before|
      ensures before[i].0 != rename(d[|d| - 1].0)
    {
      assert Keys(before)[i] == before[i].0;
    }
    AssignAppends(before, rename(d[|d| - 1].0), d[|d| - 1].1);
  }

  /** Every item under its renamed key, in the original order. */
  function RenamedEach<V>(d: Dict<V>, rename: string -> string): (r: Dict<V>)
    ensures |r| == |d| && forall i :: 0 <= i < |d| ==> r[i] == (rename(d[i].0), d[i].1)
  {
    if d == [] then [] else RenamedEach(d[..|d| - 1], rename) + [(rename(d[|d| - 1].0), d[|d| - 1].1)]
  }

  /** A key that no item is renamed to is not among the renamed keys. */
  lemma RenamedEachMisses<V>(d: Dict<V>, rename: string -> string, key: string)
    requires forall i :: 0 <= i < |d| ==> rename(d[i].0) != key
    ensures key !in Keys(RenamedEach(d, rename))
  {
    var r := RenamedEach(d, rename);
    forall i | 0 <= i < |d|
      ensures Keys(r)[i] != key
    {
      assert r[i].0 == rename(d[i].0);
    }
  }

  /** One more item whose renamed key collides with no earlier one is appended under it. */
  lemma RenamedWithoutCollisionStep<V>(d: Dict<V>, rename: string -> string)
    requires d != [] && Renamed(d[..|d| - 1], rename) == RenamedEach(d[..|d| - 1], rename)
    requires rename(d[|d| - 1].0) !in Keys(RenamedEach(d[..|d| - 1], rename))
    ensures Renamed(d, rename) == RenamedEach(d, rename)
  {
    RenamedFreshLast(d, rename);
  }

  /**
   * When no two items collide under the rename, nothing is overwritten: the
   * rebuilt dictionary holds every item under its new key, in the original
   * order.
   */
  lemma {:induction false} RenamedWithoutCollision<V>(d: Dict<V>, rename: string -> string)
    requires forall i, j :: 0 <= i < j < |d| ==> rename(d[i].0) != rename(d[j].0)
    ensures Renamed(d, rename) == RenamedEach(d, rename)
    decreases |d|
  {
    if d != [] {
      var n := |d| - 1;
      NoCollisionFront(d, rename);
      RenamedWithoutCollision(d[..n], rename);
      RenamedEachMisses(d[..n], rename, rename(d[n].0));
      RenamedWithoutCollisionStep(d, rename);
    }
  }

  /** Without collisions in `d`, there are none among its first items, and none with its last. */
  lemma NoCollisionFront<V>(d: Dict<V>, rename: string -> string)
    requires d != []
    requires forall i, j :: 0 <= i < j < |d| ==> rename(d[i].0) != rename(d[j].0)
    ensures var front := d[..|d| - 1];
      forall i, j :: 0 <= i < j < |front| ==> rename(front[i].0) != rename(front[j].0)
    ensures var front := d[..|d| - 1];
      forall i :: 0 <= i < |front| ==> rename(front[i].0) != rename(d[|d| - 1].0)
  {
    var n := |d| - 1;
    var front := d[..n];
    forall i, j | 0 <= i < j < n
      ensures rename(front[i].0) != rename(front[j].0)
    {
      assert front[i] == d[i] && front[j] == d[j];
    }
    forall i | 0 <= i < n
      ensures rename(front[i].0) != rename(d[n].0)
    {
      assert front[i] == d[i];
    }
  }

  /** Renaming one more item adds one key unless its renamed key is already there. */
  lemma RenamedStep<V>(d: Dict<V>, rename: string -> string)
    requires d != []
    ensures var before := Renamed(d[..|d| - 1], rename);
      |Renamed(d, rename)| == |before| + if rename(d[|d| - 1].0) in Keys(before) then 0 else 1
  {
    var before := Renamed(d[..|d| - 1], rename);
    assert |Keys(Renamed(d, rename))| == |Renamed(d, rename)| && |Keys(before)| == |before|;
  }

  /** `rename` maps distinct keys of `d` to distinct keys. */
  ghost predicate InjectiveOn<V>(d: Dict<V>, rename: string -> string)
  {
    forall i, j :: 0 <= i < |d| && 0 <= j < |d| && d[i].0 != d[j].0 ==> rename(d[i].0) != rename(d[j].0)
  }

  /** An injective rename of a dictionary keeps every item. */
  lemma {:induction false} InjectiveRenamedSize<V>(d: Dict<V>, rename: string -> string)
    requires UniqueKeys(d) && InjectiveOn(d, rename)
    ensures |Renamed(d, rename)| == |d|
    decreases |d|
  {
    if d != [] {
      var n := |d| - 1;
      var prefix := d[..n];
      KeysOfPrefix(d);
      assert InjectiveOn(prefix, rename) by {
        assert forall i :: 0 <= i < n ==> prefix[i] == d[i];
      }
      InjectiveRenamedSize(prefix, rename);
      RenamedStep(d, rename);
      var newKey := rename(d[n].0);
      forall i | 0 <= i < n
        ensures rename(prefix[i].0) != newKey
      {
        assert prefix[i] == d[i];
        assert Keys(d)[i] != Keys(d)[n];
      }
      RenamedKeys(prefix, rename, newKey);
    }
  }

  /** A rename of a dictionary that keeps every item is injective on its keys. */
  lemma {:induction false} SizeKeepingRenameInjective<V>(d: Dict<V>, rename: string -> string)
    requires UniqueKeys(d) && |Renamed(d, rename)| == |d|
    ensures InjectiveOn(d, rename)
    decreases |d|
  {
    if d != [] {
      var n := |d| - 1;
      var prefix := d[..n];
      var newKey := rename(d[n].0);
      KeysOfPrefix(d);
      RenamedStep(d, rename);
      assert |Renamed(prefix, rename)| == n && newKey !in Keys(Renamed(prefix, rename));
      SizeKeepingRenameInjective(prefix, rename);
      RenamedKeys(prefix, rename, newKey);
      forall i | 0 <= i < n
        ensures rename(d[i].0) != newKey
      {
        assert prefix[i] == d[i];
      }
      InjectiveExtend(d, rename);
    }
  }

  /** An injective rename stays injective when the next key's new name is fresh. */
  lemma InjectiveExtend<V>(d: Dict<V>, rename: string -> string)
    requires d != [] && InjectiveOn(d[..|d| - 1], rename)
    requires forall i :: 0 <= i < |d| - 1 ==> rename(d[i].0) != rename(d[|d| - 1].0)
    ensures InjectiveOn(d, rename)
  {
    var n := |d| - 1;
    var prefix := d[..n];
    forall i, j | 0 <= i < |d| && 0 <= j < |d| && d[i].0 != d[j].0
      ensures rename(d[i].0) != rename(d[j].0)
    {
      if i < n && j < n {
        assert prefix[i] == d[i] && prefix[j] == d[j];
      } else if i < n {
        assert prefix[i] == d[i];
      } else if j < n {
        assert prefix[j] == d[j];
      }
    }
  }

  /**
   * Renaming a dictionary loses no item exactly when the rename is injective
   * on its keys; otherwise the colliding items are silently overwritten.
   */
  lemma RenamedSize<V>(d: Dict<V>, rename: string -> string)
    requires UniqueKeys(d)
    ensures |Renamed(d, rename)| == |d| <==> InjectiveOn(d, rename)
  {
    if InjectiveOn(d, rename) {
      InjectiveRenamedSize(d, rename);
    }
    if |Renamed(d, rename)| == |d| {
      SizeKeepingRenameInjective(d, rename);
    }
  }

  /** A dictionary is its items but the last, followed by the last. */
  lemma PrefixAndLast<V>(d: Dict<V>)
    requires d != []
    ensures d[..|d| - 1] + [(d[|d| - 1].0, d[|d| - 1].1)] == d
  {
    assert (d[|d| - 1].0, d[|d| - 1].1) == d[|d| - 1];
  }

  /** Appending a fixed, fresh key to a dictionary that renames to itself keeps that property. */
  lemma RenamedIdentityStep<V>(d: Dict<V>, rename: string -> string)
    requires d != [] && UniqueKeys(d)
    requires Renamed(d[..|d| - 1], rename) == d[..|d| - 1]
    requires rename(d[|d| - 1].0) == d[|d| - 1].0
    ensures Renamed(d, rename) == d
  {
    var n := |d| - 1;
    KeysOfPrefix(d);
    assert Renamed(d, rename) == Assign(d[..n], d[n].0, d[n].1);
    forall i | 0 <= i < n
      ensures d[..n][i].0 != d[n].0
    {
      assert Keys(d[..n])[i] == d[..n][i].0;
    }
    AssignAppends(d[..n], d[n].0, d[n].1);
    PrefixAndLast(d);
  }

  /** A rename that fixes every key of a dictionary gives back the dictionary itself. */
  lemma {:induction false} RenamedIdentity<V>(d: Dict<V>, rename: string -> string)
    requires UniqueKeys(d)
    requires forall i :: 0 <= i < |d| ==> rename(d[i].0) == d[i].0
    ensures Renamed(d, rename) == d
    decreases |d|
  {
    if d != [] {
      var n := |d| - 1;
      var prefix := d[..n];
      KeysOfPrefix(d);
      forall i | 0 <= i < n
        ensures rename(prefix[i].0) == prefix[i].0
      {
        assert prefix[i] == d[i];
      }
      RenamedIdentity(prefix, rename);
      RenamedIdentityStep(d, rename);
    }
  }

  /**
   * Renaming twice is renaming once when `rename` fixes every key it
   * produces from the keys of `d`.
   */
  lemma RenamedIdempotent<V>(d: Dict<V>, rename: string -> string)
    requires forall i :: 0 <= i < |d| ==> rename(rename(d[i].0)) == rename(d[i].0)
    ensures Renamed(Renamed(d, rename), rename) == Renamed(d, rename)
  {
    var r := Renamed(d, rename);
    forall j | 0 <= j < |r|
      ensures rename(r[j].0) == r[j].0
    {
      assert Keys(r)[j] == r[j].0;
      RenamedKeys(d, rename, r[j].0);
    }
    RenamedIdentity(r, rename);
  }

  /** Folding in one more item assigns it under its renamed key. */
  lemma RenamedExtend<V>(d: Dict<V>, i: nat, rename: string -> string)
    requires i < |d|
    ensures Renamed(d[..i + 1], rename) == Assign(Renamed(d[..i], rename), rename(d[i].0), d[i].1)
  {
    assert d[..i + 1][..i] == d[..i];
  }

  /**
   * The loop every key rewrite of the converter runs: a fresh dictionary
   * filled item by item under the renamed keys.
   */
  method RenameKeys<V>(d: Dict<V>, rename: string -> string) returns (r: Dict<V>)
    ensures r == Renamed(d, rename)
  {
    r := [];
    var i := 0;
    while i < |d|
      invariant 0 <= i <= |d|
      invariant r == Renamed(d[..i], rename)
    {
      RenamedExtend(d, i, rename);
      r := Assign(r, rename(d[i].0), d[i].1);
      i := i + 1;
    }
    assert d[..|d|] == d;
  }
}
