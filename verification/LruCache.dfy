/** The least-recently-used cache of the hierarchical query. */
module LruCache {
  import opened Bytes

  predicate Distinct<K(==)>(keys: seq<K>)
  {
    forall i, j :: 0 <= i < j < |keys| ==> keys[i] != keys[j]
  }

  function Without<K(==)>(keys: seq<K>, key: K): seq<K>
    decreases |keys|
  {
    if keys == [] then []
    else
      var n := |keys| - 1;
      Without(keys[..n], key) + if keys[n] == key then [] else [keys[n]]
  }

  /** The order after a use of the key: it is now the most recent one, and the others stay as they were. */
  function Used<K(==)>(keys: seq<K>, key: K): seq<K>
  {
    Without(keys, key) + [key]
  }

  /** The last `n` keys. */
  function Last<K>(keys: seq<K>, n: nat): seq<K>
  {
    if |keys| <= n then keys else keys[|keys| - n..]
  }

  /** The distinct keys of a history of uses, each at the place of its last use. */
  function Recent<K(==)>(uses: seq<K>): seq<K>
    decreases |uses|
  {
    if uses == [] then [] else Used(Recent(uses[..|uses| - 1]), uses[|uses| - 1])
  }

  lemma {:induction false} WithoutAppend<K>(a: seq<K>, b: seq<K>, key: K)
    ensures Without(a + b, key) == Without(a, key) + Without(b, key)
    decreases |b|
  {
    if b == [] {
      assert a + b == a;
    } else {
      var n := |b| - 1;
      assert (a + b)[..|a| + n] == a + b[..n];
      WithoutAppend(a, b[..n], key);
    }
  }

  lemma {:induction false} WithoutAbsent<K>(keys: seq<K>, key: K)
    ensures key !in Without(keys, key)
    ensures key !in keys ==> Without(keys, key) == keys
    decreases |keys|
  {
    if keys != [] {
      WithoutAbsent(keys[..|keys| - 1], key);
    }
  }

  lemma WithoutOnly<K>(key: K)
    ensures Without([key], key) == []
  {
    assert [key][..0] == [];
  }

  lemma WithoutParts<K>(a: seq<K>, key: K, b: seq<K>)
    requires key !in a && key !in b
    ensures Without(a + ([key] + b), key) == a + b
  {
    hide Without;
    WithoutAppend(a, [key] + b, key);
    WithoutAppend([key], b, key);
    WithoutOnly(key);
    WithoutAbsent(a, key);
    WithoutAbsent(b, key);
    assert [] + b == b;
  }

  lemma Cut<K>(keys: seq<K>, pos: nat)
    requires pos < |keys|
    ensures keys == keys[..pos] + ([keys[pos]] + keys[pos + 1..])
  {
  }

  lemma WithoutAt<K>(keys: seq<K>, pos: nat)
    requires Distinct(keys) && pos < |keys|
    ensures Without(keys, keys[pos]) == keys[..pos] + keys[pos + 1..]
  {
    assert keys[pos] !in keys[..pos] && keys[pos] !in keys[pos + 1..];
    hide *;
    Cut(keys, pos);
    WithoutParts(keys[..pos], keys[pos], keys[pos + 1..]);
  }

  /** A use keeps the keys and adds its own. */
  lemma UsedKeys<K>(keys: seq<K>, key: K)
    requires Distinct(keys)
    ensures Distinct(Used(keys, key)) && |Used(keys, key)| == |keys| + if key in keys then 0 else 1
    ensures forall k :: k in Used(keys, key) <==> k in keys || k == key
  {
    WithoutAbsent(keys, key);
    if key in keys {
      var pos :| 0 <= pos < |keys| && keys[pos] == key;
      WithoutAt(keys, pos);
      var used := Used(keys, key);
      assert used == keys[..pos] + keys[pos + 1..] + [key];
      forall k ensures k in used <==> k in keys {
        if k in keys {
          var i :| 0 <= i < |keys| && keys[i] == k;
          assert used[if i < pos then i else if i == pos then |keys| - 1 else i - 1] == k;
        }
      }
    }
  }

  lemma {:induction false} RecentDistinct<K>(uses: seq<K>)
    ensures Distinct(Recent(uses))
    decreases |uses|
  {
    if uses != [] {
      RecentDistinct(uses[..|uses| - 1]);
      UsedKeys(Recent(uses[..|uses| - 1]), uses[|uses| - 1]);
    }
  }

  lemma LastAll<K>(keys: seq<K>, n: nat)
    requires |keys| <= n
    ensures Last(keys, n) == keys
  {
  }

  lemma LastOfTail<K>(a: seq<K>, b: seq<K>, n: nat)
    requires |b| >= n
    ensures Last(a + b, n) == Last(b, n)
  {
  }

  /** To know the last `n` keys after a use, the last `n` before it are enough. */
  lemma LastUsed<K>(keys: seq<K>, n: nat, key: K)
    requires Distinct(keys)
    ensures Last(Used(keys, key), n) == Last(Used(Last(keys, n), key), n)
  {
    hide Without;
    if |keys| > n {
      var before, kept := keys[..|keys| - n], keys[|keys| - n..];
      assert keys == before + kept;
      WithoutAppend(before, kept, key);
      assert Used(keys, key) == Without(before, key) + Used(kept, key);
      UsedKeys(kept, key);
      LastOfTail(Without(before, key), Used(kept, key), n);
    }
  }

  /** The order lists every key once. */
  ghost predicate Consistent<V>(entries: map<string, V>, order: seq<string>)
  {
    Distinct(order) && |order| == |entries| && forall k :: k in entries <==> k in order
  }

  lemma Touched<V>(entries: map<string, V>, order: seq<string>, key: string, value: V)
    requires Consistent(entries, order) && key in entries
    ensures Consistent(entries[key := value], Used(order, key)) && |Used(order, key)| == |entries[key := value]| == |entries|
    ensures key in order && Distinct(order)
  {
    UsedKeys(order, key);
    SameSize(entries, key, value);
  }

  lemma Pushed<V>(entries: map<string, V>, order: seq<string>, key: string, value: V)
    requires Consistent(entries, order) && key !in entries
    ensures Consistent(entries[key := value], order + [key]) && |entries[key := value]| == |entries| + 1
  {
    GrowSize(entries, key, value);
  }

  lemma Evicted<V>(entries: map<string, V>, order: seq<string>)
    requires Consistent(entries, order) && order != []
    ensures Consistent(entries - {order[0]}, order[1..]) && |entries - {order[0]}| == |entries| - 1
  {
    assert order[0] in entries;
    ShrinkSize(entries, order[0]);
    forall k ensures k in entries - {order[0]} <==> k in order[1..] {
      assert order == [order[0]] + order[1..];
    }
  }

  class LruCache<V(==)> {
    const cap: nat
    var entries: map<string, V>
    /** Keys, least recently used first. */
    var order: seq<string>
    /** The keys that were found or inserted, from the first use to the last. */
    ghost var uses: seq<string>

    /** The cache holds the `cap` distinct keys that were used last. */
    ghost predicate Valid()
      reads this
    {
      Consistent(entries, order) && |entries| <= cap && order == Last(Recent(uses), cap)
    }

    constructor (cap: nat)
      ensures Valid() && entries == map[] && uses == [] && this.cap == cap
    {
      this.cap, entries, order, uses := cap, map[], [], [];
    }

    method Touch(key: string)
      requires Distinct(order)
      modifies this`order
      ensures order == if key in old(order) then Used(old(order), key) else old(order)
    {
      var i := 0;
      while i < |order| && order[i] != key
        invariant i <= |order| && forall j :: 0 <= j < i ==> order[j] != key
      {
        i := i + 1;
      }
      if i < |order| {
        WithoutAt(order, i);
        order := order[..i] + order[i + 1..] + [order[i]];
      }
    }

    /** A lookup finds what was inserted, and makes the key the most recently used; a miss changes nothing. */
    method Get(key: string) returns (r: Option<V>)
      requires Valid()
      modifies this`order, this`uses
      ensures Valid() && r == if key in entries then Some(entries[key]) else None
      ensures order == if r.Some? then Used(old(order), key) else old(order)
      ensures uses == if r.Some? then old(uses) + [key] else old(uses)
    {
      if key in entries {
        Touched(entries, order, key, entries[key]);
        assert entries[key := entries[key]] == entries;
        OneMoreUse(order, uses, cap, key);
        Touch(key);
        uses := uses + [key];
        return Some(entries[key]);
      }
      r := None;
    }

    /** With room for at least one entry the new one is there afterwards, and at most the least recently used one is gone. */
    method Insert(key: string, value: V)
      requires Valid()
      modifies this`entries, this`order, this`uses
      ensures Valid()
      ensures uses == if cap == 0 then old(uses) else old(uses) + [key]
      ensures order == if cap == 0 then old(order) else Last(Used(old(order), key), cap)
      ensures forall k :: k in entries ==>
        (k == key && cap > 0 && entries[k] == value) || (k in old(entries) && entries[k] == old(entries)[k])
      ensures cap == 0 ==> entries == old(entries)
      ensures cap > 0 ==> key in entries && entries[key] == value
      ensures cap > 0 && (key in old(entries) || |old(entries)| < cap) ==> entries == old(entries)[key := value]
      ensures cap > 0 && key !in old(entries) && |old(entries)| == cap ==>
        old(order) != [] && entries == (old(entries) - {old(order)[0]})[key := value]
    {
      if cap == 0 {
        return;
      }
      hide Recent, Used, Without, Last, Distinct, Consistent;
      OneMoreUse(order, uses, cap, key);
      uses := uses + [key];
      if key in entries {
        Touched(entries, order, key, value);
        LastAll(Used(order, key), cap);
        entries := entries[key := value];
        Touch(key);
      } else {
        PushNew(key, value);
      }
    }

    /** Adds a key and evicts from the front of the order while there are too many. */
    method PushNew(key: string, value: V)
      requires Consistent(entries, order) && |entries| <= cap && cap > 0 && key !in entries
      modifies this`entries, this`order
      ensures Consistent(entries, order) && |entries| <= cap && order == Last(Used(old(order), key), cap)
      ensures if |old(entries)| < cap then entries == old(entries)[key := value]
              else old(order) != [] && old(order)[0] != key && entries == (old(entries) - {old(order)[0]})[key := value]
    {
      NewKey(order, key);
      Pushed(entries, order, key, value);
      ghost var before := order;
      Ends(entries[key := value], order + [key], entries, order, key, value);
      hide Consistent, Used;
      entries := entries[key := value];
      order := order + [key];
      ghost var all, keys := entries, order;
      while |entries| > cap
        invariant Consistent(entries, order) && |entries| <= cap + 1
        invariant if |all| > cap && |entries| <= cap then entries == all - {keys[0]} && order == keys[1..]
                  else entries == all && order == keys
        decreases |entries|
      {
        if order == [] {
          break;
        }
        Evicted(entries, order);
        entries, order := entries - {order[0]}, order[1..];
      }
    }
  }

  /** After one more use, the last keys are those of the longer history. */
  lemma OneMoreUse(order: seq<string>, uses: seq<string>, cap: nat, key: string)
    requires order == Last(Recent(uses), cap)
    ensures Last(Recent(uses + [key]), cap) == Last(Used(order, key), cap)
  {
    assert (uses + [key])[..|uses|] == uses;
    RecentDistinct(uses);
    LastUsed(Recent(uses), cap, key);
  }

  lemma NewKey(order: seq<string>, key: string)
    ensures key !in order ==> Used(order, key) == order + [key]
  {
    WithoutAbsent(order, key);
  }

  lemma Ends<V>(all: map<string, V>, keys: seq<string>, before: map<string, V>, order: seq<string>, key: string, value: V)
    requires Consistent(before, order) && key !in before && all == before[key := value] && keys == order + [key]
    ensures Consistent(all, keys) && |all| == |before| + 1 == |keys|
    ensures order != [] ==> keys[0] == order[0] && order[0] != key && all - {keys[0]} == (before - {order[0]})[key := value]
    ensures |before| > 0 ==> order != []
  {
    Pushed(before, order, key, value);
  }

  lemma SameSize<V>(m: map<string, V>, key: string, value: V)
    requires key in m
    ensures |m[key := value]| == |m|
  {
    assert m[key := value].Keys == m.Keys;
    assert |m[key := value].Keys| == |m[key := value]|;
  }

  lemma GrowSize<V>(m: map<string, V>, key: string, value: V)
    requires key !in m
    ensures |m[key := value]| == |m| + 1
  {
    assert m[key := value].Keys == m.Keys + {key};
    assert |m[key := value].Keys| == |m[key := value]| && |m.Keys| == |m|;
  }

  lemma ShrinkSize<V>(m: map<string, V>, key: string)
    requires key in m
    ensures |m - {key}| == |m| - 1
  {
    assert (m - {key}).Keys == m.Keys - {key};
    assert |(m - {key}).Keys| == |m - {key}| && |m.Keys| == |m|;
  }
}
