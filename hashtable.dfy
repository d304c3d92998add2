/**
 * The chained hash table of hashtable.c / hashtable.h.
 *
 * The entries array holds one chain per bucket. A chain is modelled by its
 * contents from the first entry to the last (a `seq` of key/value pairs
 * that the operations reassign); the ghost map `Contents` is the table's
 * abstract value.
 */
module Hashtable {
  import opened Util

  /** 2^64: `hash` computes in `unsigned long`. */
  const ULONG_MODULUS: int := 0x1_0000_0000_0000_0000
  const HASH_MAGIC_NUM: int := 5381

  /** djb2 over the characters of key, wrapping modulo 2^64. */
  function Djb2(key: string): (h: int)
    ensures 0 <= h < ULONG_MODULUS
  {
    if key == [] then HASH_MAGIC_NUM
    else (Djb2(key[..|key| - 1]) * 33 + key[|key| - 1] as int) % ULONG_MODULUS
  }

  /** The bucket a key lives in. */
  function BucketOf(key: string, size: nat): (b: nat)
    requires size > 0
    ensures b < size
  {
    Mod(Djb2(key), size)
  }

  /**
   * hash: h starts at 5381 and becomes (h << 5) + h + c for each character;
   * the result is h modulo the table size.
   */
  method Hash(key: string, size: nat) returns (index: nat)
    requires size > 0
    ensures index == BucketOf(key, size)
    ensures index < size
  {
    var h := HASH_MAGIC_NUM;
    var i := 0;
    while i < |key|
      invariant 0 <= i <= |key|
      invariant h == Djb2(key[..i])
    {
      assert key[..i + 1][..i] == key[..i];
      h := (h * 32 + h + key[i] as int) % ULONG_MODULUS;
      i := i + 1;
    }
    assert key[..|key|] == key;
    index := h % size;
    ModIsRemainder(h, size);
  }

  datatype Entry<V> = Entry(key: string, value: V)

  /** The value of the first entry of chain with this key. */
  function Lookup<V>(chain: seq<Entry<V>>, key: string): (r: Option<V>)
    ensures r.None? <==> forall j :: 0 <= j < |chain| ==> chain[j].key != key
    ensures r.Some? ==> exists j :: 0 <= j < |chain| && chain[j] == Entry(key, r.value)
  {
    if chain == [] then None
    else if chain[0].key == key then Some(chain[0].value)
    else Lookup(chain[1..], key)
  }

  /** No key occurs twice in chain. */
  ghost predicate DistinctKeys<V>(chain: seq<Entry<V>>) {
    forall i, j :: 0 <= i < j < |chain| ==> chain[i].key != chain[j].key
  }

  /** The chain without the first entry having this key. */
  function Unlink<V>(chain: seq<Entry<V>>, key: string): (r: seq<Entry<V>>)
    ensures (forall j :: 0 <= j < |chain| ==> chain[j].key != key) ==> r == chain
    ensures forall e :: e in r ==> e in chain
  {
    if chain == [] then []
    else if chain[0].key == key then chain[1..]
    else [chain[0]] + Unlink(chain[1..], key)
  }

  function MapGet<V>(m: map<string, V>, key: string): Option<V> {
    if key in m then Some(m[key]) else None
  }

  /**
   * The chains hold exactly m: each key sits only in chain hash(key), at
   * most once, and looking it up there gives its value in m.
   */
  ghost predicate TableOf<V>(chains: seq<seq<Entry<V>>>, size: nat, m: map<string, V>)
  {
    && size > 0
    && |chains| == size
    && (forall b, j :: 0 <= b < |chains| && 0 <= j < |chains[b]| ==> BucketOf(chains[b][j].key, size) == b)
    && (forall b :: 0 <= b < |chains| ==> DistinctKeys(chains[b]))
    && (forall k :: Lookup(chains[BucketOf(k, size)], k) == MapGet(m, k))
  }

  /** Replacing one chain keeps the table consistent when the new chain answers for its bucket. */
  lemma ReplaceChain<V>(chains: seq<seq<Entry<V>>>, size: nat, m: map<string, V>,
                        b: nat, chain: seq<Entry<V>>, m': map<string, V>)
    requires TableOf(chains, size, m) && b < size
    requires forall j :: 0 <= j < |chain| ==> BucketOf(chain[j].key, size) == b
    requires DistinctKeys(chain)
    requires forall k :: BucketOf(k, size) == b ==> Lookup(chain, k) == MapGet(m', k)
    requires forall k :: BucketOf(k, size) != b ==> MapGet(m', k) == MapGet(m, k)
    ensures TableOf(chains[b := chain], size, m')
  {
    var after: seq<seq<Entry<V>>> := chains[b := chain];
    forall c, j | 0 <= c < |after| && 0 <= j < |after[c]|
      ensures BucketOf(after[c][j].key, size) == c
    {
      if c != b {
        assert after[c] == chains[c];
      }
    }
    forall c | 0 <= c < |after|
      ensures DistinctKeys(after[c])
    {
      if c != b {
        assert after[c] == chains[c];
      }
    }
    forall k
      ensures Lookup(after[BucketOf(k, size)], k) == MapGet(m', k)
    {
      if BucketOf(k, size) != b {
        assert after[BucketOf(k, size)] == chains[BucketOf(k, size)];
      }
    }
  }

  /** Overwriting the value of the first entry with its key. */
  lemma {:induction false} LookupReplaced<V>(chain: seq<Entry<V>>, i: nat, v: V, k: string)
    requires i < |chain|
    requires forall j :: 0 <= j < i ==> chain[j].key != chain[i].key
    ensures Lookup(chain[i := Entry(chain[i].key, v)], k)
         == if k == chain[i].key then Some(v) else Lookup(chain, k)
  {
    var after := chain[i := Entry(chain[i].key, v)];
    if i == 0 {
      assert after[1..] == chain[1..];
    } else {
      assert after[1..] == chain[1..][i - 1 := Entry(chain[i].key, v)];
      LookupReplaced(chain[1..], i - 1, v, k);
    }
  }

  /** Unlinking the entry of key from a chain without repeated keys. */
  lemma {:induction false} LookupUnlinked<V>(chain: seq<Entry<V>>, key: string, k: string)
    requires DistinctKeys(chain)
    ensures Lookup(Unlink(chain, key), k) == if k == key then None else Lookup(chain, k)
  {
    if chain != [] {
      if chain[0].key == key {
        if k == key {
          assert forall j :: 0 <= j < |chain[1..]| ==> chain[1..][j].key != k by {
            forall j | 0 <= j < |chain[1..]| ensures chain[1..][j].key != k {
              assert chain[1..][j] == chain[j + 1];
            }
          }
        }
      } else {
        LookupUnlinked(chain[1..], key, k);
      }
    }
  }

  class HashTable<V> {
    var size: nat
    var entries: array<seq<Entry<V>>>
    ghost var Contents: map<string, V>

    ghost predicate Valid()
      reads this, entries
    {
      entries.Length == size && TableOf(entries[..], size, Contents)
    }

    /** new_hashtable: size buckets, all empty. */
    constructor (size: nat)
      requires size > 0
      ensures Valid() && fresh(entries)
      ensures this.size == size && Contents == map[]
      ensures forall b :: 0 <= b < entries.Length ==> entries[b] == []
    {
      this.size := size;
      entries := new seq<Entry<V>>[size](_ => []);
      Contents := map[];
    }

    /**
     * ht_get: the value paired with key, or None when the key is absent.
     * Nothing is changed.
     */
    method Get(key: string) returns (r: Option<V>)
      requires Valid()
      ensures r == MapGet(Contents, key)
      ensures r.Some? ==> key in Contents && r.value == Contents[key]
      ensures r.None? ==> key !in Contents
    {
      var index := Hash(key, size);
      var chain := entries[index];
      assert Lookup(chain, key) == MapGet(Contents, key) by {
        assert entries[..][BucketOf(key, size)] == chain;
      }
      var i := 0;
      while i < |chain|
        invariant 0 <= i <= |chain|
        invariant Lookup(chain[i..], key) == Lookup(chain, key)
      {
        if chain[i].key == key {
          return Some(chain[i].value);
        }
        assert chain[i..][1..] == chain[i + 1..];
        i := i + 1;
      }
      return None;
    }

    /**
     * ht_put. An existing key has its value replaced in place and the old
     * value is returned; a new key is prepended to its bucket and None is
     * returned. Every other bucket is untouched.
     */
    method Put(key: string, value: V) returns (old_value: Option<V>)
      requires Valid()
      modifies this, entries
      ensures Valid() && entries == old(entries) && size == old(size)
      ensures old_value == MapGet(old(Contents), key)
      ensures Contents == old(Contents)[key := value]
      ensures var b := BucketOf(key, size);
        && (old_value.None? ==> entries[b] == [Entry(key, value)] + old(entries[b]))
        && (old_value.Some? ==>
              exists j :: (0 <= j < |old(entries[b])| && old(entries[b])[j].key == key &&
                           entries[b] == old(entries[b])[j := Entry(key, value)]))
        && (forall c :: 0 <= c < entries.Length && c != b ==> entries[c] == old(entries[c]))
    {
      var index := Hash(key, size);
      var chain := entries[index];
      ghost var chains := entries[..];
      var i := 0;
      while i < |chain|
        invariant 0 <= i <= |chain|
        invariant forall j :: 0 <= j < i ==> chain[j].key != key
      {
        if chain[i].key == key {
          old_value := Some(chain[i].value);
          var updated := chain[i := Entry(key, value)];
          PutExisting(chains, size, Contents, key, value, i);
          entries[index] := updated;
          Contents := Contents[key := value];
          assert entries[..] == chains[index := updated];
          return;
        }
        i := i + 1;
      }
      old_value := None;
      var updated := [Entry(key, value)] + chain;
      PutNew(chains, size, Contents, key, value);
      entries[index] := updated;
      Contents := Contents[key := value];
      assert entries[..] == chains[index := updated];
    }

    /**
     * ht_remove: the key's entry is unlinked from its chain; every other
     * entry, and the order of every chain, is unchanged. An absent key
     * changes nothing.
     */
    method Remove(key: string)
      requires Valid()
      modifies this, entries
      ensures Valid() && entries == old(entries) && size == old(size)
      ensures Contents == old(Contents) - {key}
      ensures var b := BucketOf(key, size);
        && entries[b] == Unlink(old(entries[b]), key)
        && (forall c :: 0 <= c < entries.Length && c != b ==> entries[c] == old(entries[c]))
    {
      var index := Hash(key, size);
      var chain := entries[index];
      ghost var chains := entries[..];
      RemoveKey(chains, size, Contents, key);
      var i := 0;
      while i < |chain|
        invariant 0 <= i <= |chain|
        invariant forall j :: 0 <= j < i ==> chain[j].key != key
      {
        if chain[i].key == key {
          var updated := chain[..i] + chain[i + 1..];
          UnlinkAt(chain, i);
          entries[index] := updated;
          Contents := Contents - {key};
          assert entries[..] == chains[index := updated];
          return;
        }
        i := i + 1;
      }
      assert chains[index := chain] == chains;
      AbsentKey(chains, size, Contents, key);
      Contents := Contents - {key};
    }
  }

  /** ht_put on a key already in the table: the first entry with the key gets the new value. */
  lemma PutExisting<V>(chains: seq<seq<Entry<V>>>, size: nat, m: map<string, V>, key: string, value: V, i: nat)
    requires TableOf(chains, size, m)
    requires i < |chains[BucketOf(key, size)]| && chains[BucketOf(key, size)][i].key == key
    requires forall j :: 0 <= j < i ==> chains[BucketOf(key, size)][j].key != key
    ensures MapGet(m, key) == Some(chains[BucketOf(key, size)][i].value)
    ensures TableOf(chains[BucketOf(key, size) := chains[BucketOf(key, size)][i := Entry(key, value)]],
                    size, m[key := value])
  {
    var b := BucketOf(key, size);
    var chain := chains[b];
    LookupAt(chain, i);
    var updated := chain[i := Entry(key, value)];
    var m' := m[key := value];
    forall k | BucketOf(k, size) == b
      ensures Lookup(updated, k) == MapGet(m', k)
    {
      LookupReplaced(chain, i, value, k);
    }
    ReplaceChain(chains, size, m, b, updated, m');
  }

  /** ht_put on a key not in the table: a new entry heads its chain. */
  lemma PutNew<V>(chains: seq<seq<Entry<V>>>, size: nat, m: map<string, V>, key: string, value: V)
    requires TableOf(chains, size, m)
    requires forall j :: 0 <= j < |chains[BucketOf(key, size)]| ==> chains[BucketOf(key, size)][j].key != key
    ensures key !in m
    ensures TableOf(chains[BucketOf(key, size) := [Entry(key, value)] + chains[BucketOf(key, size)]],
                    size, m[key := value])
  {
    var b := BucketOf(key, size);
    var chain := chains[b];
    var updated := [Entry(key, value)] + chain;
    var m' := m[key := value];
    assert Lookup(chain, key) == MapGet(m, key);
    forall k | BucketOf(k, size) == b
      ensures Lookup(updated, k) == MapGet(m', k)
    {
      assert updated[1..] == chain;
    }
    ReplaceChain(chains, size, m, b, updated, m');
  }

  /** ht_remove: unlinking the key's entry removes exactly that key. */
  lemma RemoveKey<V>(chains: seq<seq<Entry<V>>>, size: nat, m: map<string, V>, key: string)
    requires TableOf(chains, size, m)
    ensures TableOf(chains[BucketOf(key, size) := Unlink(chains[BucketOf(key, size)], key)],
                    size, m - {key})
  {
    var b := BucketOf(key, size);
    var chain := chains[b];
    var m' := m - {key};
    var updated := Unlink(chain, key);
    assert DistinctKeys(chain);
    forall k | BucketOf(k, size) == b
      ensures Lookup(updated, k) == MapGet(m', k)
    {
      LookupUnlinked(chain, key, k);
    }
    UnlinkBucket(chain, key, size, b);
    forall k | BucketOf(k, size) != b
      ensures MapGet(m', k) == MapGet(m, k)
    {
      assert k != key;
    }
    UnlinkDistinct(chain, key);
    ReplaceChain(chains, size, m, b, updated, m');
  }

  /** Unlinking keeps every entry of a chain in the chain's bucket. */
  lemma UnlinkBucket<V>(chain: seq<Entry<V>>, key: string, size: nat, b: nat)
    requires size > 0
    requires forall j :: 0 <= j < |chain| ==> BucketOf(chain[j].key, size) == b
    ensures forall j :: 0 <= j < |Unlink(chain, key)| ==> BucketOf(Unlink(chain, key)[j].key, size) == b
  {
    var updated := Unlink(chain, key);
    forall j | 0 <= j < |updated|
      ensures BucketOf(updated[j].key, size) == b
    {
      assert updated[j] in chain;
      var t :| 0 <= t < |chain| && chain[t] == updated[j];
    }
  }

  /** A key found in no entry of its chain is not in the table. */
  lemma AbsentKey<V>(chains: seq<seq<Entry<V>>>, size: nat, m: map<string, V>, key: string)
    requires TableOf(chains, size, m)
    requires forall j :: 0 <= j < |chains[BucketOf(key, size)]| ==> chains[BucketOf(key, size)][j].key != key
    ensures key !in m
  {
    assert Lookup(chains[BucketOf(key, size)], key) == MapGet(m, key);
  }

  /** Unlinking keeps a chain free of repeated keys. */
  lemma {:induction false} UnlinkDistinct<V>(chain: seq<Entry<V>>, key: string)
    requires DistinctKeys(chain)
    ensures DistinctKeys(Unlink(chain, key))
  {
    if chain != [] {
      assert DistinctKeys(chain[1..]) by {
        forall i, j | 0 <= i < j < |chain[1..]| ensures chain[1..][i].key != chain[1..][j].key {
          assert chain[1..][i] == chain[i + 1] && chain[1..][j] == chain[j + 1];
        }
      }
      if chain[0].key != key {
        UnlinkDistinct(chain[1..], key);
        var rest := Unlink(chain[1..], key);
        forall j | 0 <= j < |rest| ensures chain[0].key != rest[j].key {
          assert rest[j] in rest;
          var t :| 0 <= t < |chain[1..]| && chain[1..][t] == rest[j];
          assert chain[1..][t] == chain[t + 1];
        }
      }
    }
  }

  /** Unlinking the first entry with its key removes exactly that position. */
  lemma {:induction false} UnlinkAt<V>(chain: seq<Entry<V>>, i: nat)
    requires i < |chain|
    requires forall j :: 0 <= j < i ==> chain[j].key != chain[i].key
    ensures Unlink(chain, chain[i].key) == chain[..i] + chain[i + 1..]
  {
    if i > 0 {
      UnlinkAt(chain[1..], i - 1);
      assert chain[1..][..i - 1] + chain[1..][i..] == chain[1..i] + chain[i + 1..];
      assert chain[..i] == [chain[0]] + chain[1..i];
    }
  }

  /** Lookup finds the first entry with the key. */
  lemma {:induction false} LookupAt<V>(chain: seq<Entry<V>>, i: nat)
    requires i < |chain|
    requires forall j :: 0 <= j < i ==> chain[j].key != chain[i].key
    ensures Lookup(chain, chain[i].key) == Some(chain[i].value)
  {
    if i > 0 {
      LookupAt(chain[1..], i - 1);
    }
  }
}
