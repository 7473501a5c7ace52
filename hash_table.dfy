/**
 * The chained hash table: an array of buckets, each a list of entries with
 * the most recently inserted entry at the head. A key's bucket is its hash
 * modulo the number of buckets. Data may be absent (a null item).
 */
module HashTables {
  import opened Wrappers

  /** Sizes and hashes are unsigned machine words; their sums wrap at 2^64. */
  const WordModulus: nat := 0x1_0000_0000_0000_0000

  datatype Entry<T> = Entry(key: string, data: Option<T>)

  /** Some entry of the bucket has the key. */
  predicate HasKey<T>(b: seq<Entry<T>>, key: string) {
    exists i :: 0 <= i < |b| && b[i].key == key
  }

  /** The data of the first entry with the key, walking from the head; None when no entry has it. */
  function Find<T>(b: seq<Entry<T>>, key: string): (r: Option<Option<T>>)
    ensures r.Some? <==> HasKey(b, key)
    ensures r.Some? ==> exists i :: 0 <= i < |b| && b[i].key == key && b[i].data == r.value
  {
    if b == [] then None
    else if b[0].key == key then Some(b[0].data)
    else
      var r := Find(b[1..], key);
      assert HasKey(b, key) ==> HasKey(b[1..], key) by {
        if HasKey(b, key) {
          var i :| 0 <= i < |b| && b[i].key == key;
          assert b[1..][i - 1].key == key;
        }
      }
      r
  }

  /** The entries of the bucket with the key's data replaced, in every entry with that key. */
  function Overwrite<T>(b: seq<Entry<T>>, key: string, data: Option<T>): (r: seq<Entry<T>>)
    ensures |r| == |b|
    ensures forall i :: 0 <= i < |b| ==> r[i] == (if b[i].key == key then b[i].(data := data) else b[i])
  {
    if b == [] then []
    else [if b[0].key == key then b[0].(data := data) else b[0]] + Overwrite(b[1..], key, data)
  }

  /** What an insert does to a bucket: data of entries with the key replaced, then a new entry at the head. */
  function InsertBucket<T>(b: seq<Entry<T>>, key: string, data: Option<T>): (r: seq<Entry<T>>)
    ensures |r| == |b| + 1 && r[0] == Entry(key, data)
    ensures forall i :: 0 <= i < |b| ==> r[i + 1].key == b[i].key
  {
    [Entry(key, data)] + Overwrite(b, key, data)
  }

  /** The bucket without its first entry with the key. */
  function RemoveFirst<T>(b: seq<Entry<T>>, key: string): (r: seq<Entry<T>>)
    ensures HasKey(b, key) ==> |r| == |b| - 1
    ensures !HasKey(b, key) ==> r == b
    ensures forall e :: e in r ==> e in b
  {
    if b == [] then []
    else if b[0].key == key then b[1..]
    else
      var rest := RemoveFirst(b[1..], key);
      assert HasKey(b, key) ==> HasKey(b[1..], key) by {
        if HasKey(b, key) {
          var i :| 0 <= i < |b| && b[i].key == key;
          assert b[1..][i - 1].key == key;
        }
      }
      assert HasKey(b[1..], key) ==> HasKey(b, key) by {
        if HasKey(b[1..], key) {
          var i :| 0 <= i < |b[1..]| && b[1..][i].key == key;
          assert b[i + 1].key == key;
        }
      }
      [b[0]] + rest
  }

  /** Removing at the first index holding the key is what RemoveFirst does. */
  lemma {:induction false} RemoveFirstAt<T>(b: seq<Entry<T>>, key: string, i: nat)
    requires i < |b| && b[i].key == key
    requires forall j :: 0 <= j < i ==> b[j].key != key
    ensures RemoveFirst(b, key) == b[..i] + b[i + 1..]
    ensures Find(b, key) == Some(b[i].data)
  {
    FindFirstAt(b, key, i);
    if i > 0 {
      var tail := b[1..];
      assert b[0].key != key;
      forall j | 0 <= j < i - 1
        ensures tail[j].key != key
      {
        assert tail[j] == b[j + 1];
      }
      RemoveFirstAt(tail, key, i - 1);
      assert RemoveFirst(b, key) == [b[0]] + RemoveFirst(tail, key);
      DropAtCons(b, i);
    }
  }

  /** Dropping index `i > 0` keeps the head in front of the tail with index `i - 1` dropped. */
  lemma DropAtCons<E>(s: seq<E>, i: nat)
    requires 0 < i < |s|
    ensures s[..i] + s[i + 1..] == [s[0]] + (s[1..][..i - 1] + s[1..][i..])
  {
    assert s[1..][..i - 1] == s[1..i] && s[1..][i..] == s[i + 1..];
    assert s[..i] == [s[0]] + s[1..i];
  }

  /** A search stops at the first index holding the key. */
  lemma {:induction false} FindFirstAt<T>(b: seq<Entry<T>>, key: string, i: nat)
    requires i < |b| && b[i].key == key
    requires forall j :: 0 <= j < i ==> b[j].key != key
    ensures Find(b, key) == Some(b[i].data)
  {
    if i > 0 {
      var tail := b[1..];
      assert b[0].key != key;
      forall j | 0 <= j < i - 1
        ensures tail[j].key != key
      {
        assert tail[j] == b[j + 1];
      }
      FindFirstAt(tail, key, i - 1);
    }
  }

  /** Overwriting one key's data leaves what every other key finds unchanged. */
  lemma {:induction false} FindOverwriteOther<T>(b: seq<Entry<T>>, key: string, data: Option<T>, other: string)
    requires other != key
    ensures Find(Overwrite(b, key, data), other) == Find(b, other)
  {
    if b != [] {
      FindOverwriteOther(b[1..], key, data, other);
      assert Overwrite(b, key, data)[1..] == Overwrite(b[1..], key, data);
    }
  }

  /** After an insert the key finds the new data, and every other key finds what it found before. */
  lemma FindAfterInsert<T>(b: seq<Entry<T>>, key: string, data: Option<T>, other: string)
    ensures Find(InsertBucket(b, key, data), key) == Some(data)
    ensures other != key ==> Find(InsertBucket(b, key, data), other) == Find(b, other)
  {
    if other != key {
      FindOverwriteOther(b, key, data, other);
      assert InsertBucket(b, key, data)[1..] == Overwrite(b, key, data);
    }
  }

  /** Removing one key's first entry leaves what every other key finds unchanged. */
  lemma {:induction false} FindAfterRemove<T>(b: seq<Entry<T>>, key: string, other: string)
    requires other != key
    ensures Find(RemoveFirst(b, key), other) == Find(b, other)
  {
    if b != [] && b[0].key != key {
      FindAfterRemove(b[1..], key, other);
      assert RemoveFirst(b, key)[1..] == RemoveFirst(b[1..], key);
    }
  }

  /**
   * Inserting a key twice and removing it once leaves the key in the
   * table: the remove reports success, yet the key still finds the data.
   */
  lemma InsertTwiceRemoveOnce<T>(b: seq<Entry<T>>, key: string, d1: Option<T>, d2: Option<T>)
    ensures var twice := InsertBucket(InsertBucket(b, key, d1), key, d2);
      HasKey(twice, key) && Find(RemoveFirst(twice, key), key) == Some(d2)
  {
    var twice := InsertBucket(InsertBucket(b, key, d1), key, d2);
    assert twice[0].key == key && twice[1] == Entry(key, d2);
    assert RemoveFirst(twice, key) == twice[1..];
  }

  /** No two entries of the bucket share a key. */
  predicate UniqueKeys<T>(b: seq<Entry<T>>) {
    forall i, j :: 0 <= i < j < |b| ==> b[i].key != b[j].key
  }

  /** The bucket with the data of its first entry with the key replaced. */
  function SetFirst<T>(b: seq<Entry<T>>, key: string, data: Option<T>): (r: seq<Entry<T>>)
    ensures |r| == |b| && forall i :: 0 <= i < |b| ==> r[i].key == b[i].key
  {
    if b == [] then []
    else if b[0].key == key then [b[0].(data := data)] + b[1..]
    else [b[0]] + SetFirst(b[1..], key, data)
  }

  /** The corrected insert: replace the data of an existing entry, or else add an entry at the head. */
  function PutBucket<T>(b: seq<Entry<T>>, key: string, data: Option<T>): (r: seq<Entry<T>>)
  {
    if HasKey(b, key) then SetFirst(b, key, data) else [Entry(key, data)] + b
  }

  lemma {:induction false} FindSetFirst<T>(b: seq<Entry<T>>, key: string, data: Option<T>, other: string)
    requires HasKey(b, key)
    ensures Find(SetFirst(b, key, data), key) == Some(data)
    ensures other != key ==> Find(SetFirst(b, key, data), other) == Find(b, other)
  {
    if b[0].key != key {
      assert HasKey(b[1..], key) by {
        var i :| 0 <= i < |b| && b[i].key == key;
        assert b[1..][i - 1].key == key;
      }
      FindSetFirst(b[1..], key, data, other);
      assert SetFirst(b, key, data)[1..] == SetFirst(b[1..], key, data);
    }
  }

  /** Setting the first entry at index i is replacing entry i. */
  lemma {:induction false} SetFirstAt<T>(b: seq<Entry<T>>, key: string, data: Option<T>, i: nat)
    requires i < |b| && b[i].key == key
    requires forall j :: 0 <= j < i ==> b[j].key != key
    ensures SetFirst(b, key, data) == b[i := b[i].(data := data)]
  {
    if i > 0 {
      var tail := b[1..];
      assert b[0].key != key;
      forall j | 0 <= j < i - 1
        ensures tail[j].key != key
      {
        assert tail[j] == b[j + 1];
      }
      SetFirstAt(tail, key, data, i - 1);
      assert SetFirst(b, key, data) == [b[0]] + SetFirst(tail, key, data);
      UpdateAtCons(b, i, b[i].(data := data));
    }
  }

  /** Replacing index `i > 0` keeps the head in front of the tail with index `i - 1` replaced. */
  lemma UpdateAtCons<E>(s: seq<E>, i: nat, x: E)
    requires 0 < i < |s|
    ensures s[i := x] == [s[0]] + s[1..][i - 1 := x]
  {
  }

  /** The corrected insert keeps keys unique, finds the new data, and leaves other keys alone. */
  lemma PutProperties<T>(b: seq<Entry<T>>, key: string, data: Option<T>, other: string)
    requires UniqueKeys(b)
    ensures UniqueKeys(PutBucket(b, key, data))
    ensures Find(PutBucket(b, key, data), key) == Some(data)
    ensures other != key ==> Find(PutBucket(b, key, data), other) == Find(b, other)
  {
    if HasKey(b, key) {
      FindSetFirst(b, key, data, other);
    } else {
      var r := PutBucket(b, key, data);
      assert r == [Entry(key, data)] + b;
      assert r[1..] == b;
      forall i, j | 0 <= i < j < |r|
        ensures r[i].key != r[j].key
      {
        if i > 0 {
          assert r[i] == b[i - 1] && r[j] == b[j - 1];
        } else {
          assert r[j] == b[j - 1];
        }
      }
    }
  }

  /** In a bucket with unique keys, removing a key's first entry removes the key. */
  lemma {:induction false} RemoveFirstUnique<T>(b: seq<Entry<T>>, key: string)
    requires UniqueKeys(b)
    ensures !HasKey(RemoveFirst(b, key), key)
  {
    if b != [] {
      if b[0].key == key {
        forall i | 0 <= i < |b[1..]|
          ensures b[1..][i].key != key
        {
          assert b[1..][i] == b[i + 1];
        }
      } else {
        assert UniqueKeys(b[1..]) by {
          forall i, j | 0 <= i < j < |b[1..]|
            ensures b[1..][i].key != b[1..][j].key
          {
            assert b[1..][i] == b[i + 1] && b[1..][j] == b[j + 1];
          }
        }
        RemoveFirstUnique(b[1..], key);
        var r := RemoveFirst(b, key);
        assert r == [b[0]] + RemoveFirst(b[1..], key);
        forall i | 0 <= i < |r|
          ensures r[i].key != key
        {
          if i > 0 {
            assert r[i] == RemoveFirst(b[1..], key)[i - 1];
          }
        }
      }
    }
  }

  /** With the corrected insert, a key put any number of times is gone after one remove. */
  lemma PutThenRemove<T>(b: seq<Entry<T>>, key: string, data: Option<T>)
    requires UniqueKeys(b)
    ensures Find(RemoveFirst(PutBucket(b, key, data), key), key) == None
  {
    PutProperties(b, key, data, key);
    RemoveFirstUnique(PutBucket(b, key, data), key);
  }

  /** The sum of the key's characters, each read as an unsigned byte. */
  function ByteSum(key: string): nat {
    if key == [] then 0 else ByteSum(key[..|key| - 1]) + (key[|key| - 1] as int) % 256
  }

  /** The default hash: the byte sum in a wrapping machine word. */
  function DefaultHashValue(key: string): nat {
    ByteSum(key) % WordModulus
  }

  lemma {:induction false} ByteSumConcat(a: string, b: string)
    ensures ByteSum(a + b) == ByteSum(a) + ByteSum(b)
  {
    if b != [] {
      assert (a + b)[..|a + b| - 1] == a + b[..|b| - 1];
      ByteSumConcat(a, b[..|b| - 1]);
    } else {
      assert a + b == a;
    }
  }

  /** The default hash ignores order: a key and its rotation share a bucket. */
  lemma RotationCollides(a: string, b: string)
    ensures DefaultHashValue(a + b) == DefaultHashValue(b + a)
  {
    ByteSumConcat(a, b);
    ByteSumConcat(b, a);
  }

  /** Reducing a partial sum before adding to it does not change the reduced total. */
  lemma AddMod(a: nat, b: nat)
    ensures (a % WordModulus + b) % WordModulus == (a + b) % WordModulus
  {
    var q := a / WordModulus;
    assert a == WordModulus * q + a % WordModulus;
  }

  /** Sums the bytes of the key up to its end, wrapping as a machine word does. */
  method DefaultHash(key: string) returns (hash: nat)
    ensures hash == DefaultHashValue(key) && hash < WordModulus
  {
    hash := 0;
    var i := 0;
    while i < |key|
      invariant 0 <= i <= |key|
      invariant hash == ByteSum(key[..i]) % WordModulus
    {
      assert key[..i + 1][..i] == key[..i];
      AddMod(ByteSum(key[..i]), (key[i] as int) % 256);
      hash := (hash + (key[i] as int) % 256) % WordModulus;
      i := i + 1;
    }
    assert key[..i] == key;
  }

  class HashTable<T> {
    const size: nat
    const buckets: array<seq<Entry<T>>>
    const hash: string -> nat
    const destroyItems: bool
    /** The items handed to the item destructor so far. */
    var destroyed: seq<T>

    /** The bucket a key belongs in. */
    function Slot(key: string): (h: nat)
      requires size > 0
      ensures h < size
    {
      hash(key) % size
    }

    /** Every entry sits in its key's bucket. */
    ghost predicate Valid()
      reads this, buckets
    {
      && size > 0 && buckets.Length == size
      && forall h, i :: 0 <= h < size && 0 <= i < |buckets[h]| ==> Slot(buckets[h][i].key) == h
    }

    /** What a get finds for the key: None when absent, else the stored data. */
    ghost function Lookup(key: string): Option<Option<T>>
      reads this, buckets
      requires Valid()
    {
      Find(buckets[Slot(key)], key)
    }

    /** A new table has `size` empty buckets; without a hash function the default one is used. */
    constructor(size: nat, hashFunc: Option<string -> nat>, itemDestructor: bool)
      requires size > 0
      ensures Valid() && fresh(buckets) && this.size == size
      ensures forall h :: 0 <= h < size ==> buckets[h] == []
      ensures hash == (if hashFunc.Some? then hashFunc.value else DefaultHashValue)
      ensures destroyItems == itemDestructor && destroyed == []
    {
      this.size := size;
      buckets := new seq<Entry<T>>[size](_ => []);
      var chosen: string -> nat := if hashFunc.Some? then hashFunc.value else DefaultHashValue;
      hash := chosen;
      destroyItems := itemDestructor;
      destroyed := [];
    }

    /**
     * Sets the data of every entry with the key, then adds a new entry at
     * the head of the bucket in any case. Other buckets are untouched.
     */
    method Insert(key: string, data: Option<T>)
      requires Valid()
      modifies buckets
      ensures Valid()
      ensures buckets[Slot(key)] == InsertBucket(old(buckets[Slot(key)]), key, data)
      ensures forall h :: 0 <= h < size && h != Slot(key) ==> buckets[h] == old(buckets[h])
    {
      var h := Slot(key);
      var b := buckets[h];
      var i := 0;
      while i < |b|
        invariant 0 <= i <= |b| && |b| == |old(buckets[h])|
        invariant forall j :: 0 <= j < i ==>
          b[j] == (if old(buckets[h])[j].key == key then old(buckets[h])[j].(data := data) else old(buckets[h])[j])
        invariant forall j :: i <= j < |b| ==> b[j] == old(buckets[h])[j]
      {
        if b[i].key == key {
          b := b[i := b[i].(data := data)];
        }
        i := i + 1;
      }
      assert b == Overwrite(old(buckets[h]), key, data);
      buckets[h] := [Entry(key, data)] + b;
    }

    /**
     * The corrected insert: sets the data of the first entry with the key
     * and stops there; only a key not yet present gets a new entry.
     */
    method Put(key: string, data: Option<T>)
      requires Valid()
      modifies buckets
      ensures Valid()
      ensures buckets[Slot(key)] == PutBucket(old(buckets[Slot(key)]), key, data)
      ensures forall h :: 0 <= h < size && h != Slot(key) ==> buckets[h] == old(buckets[h])
    {
      var h := Slot(key);
      var b := buckets[h];
      var i := 0;
      while i < |b|
        invariant 0 <= i <= |b|
        invariant forall j :: 0 <= j < i ==> b[j].key != key
      {
        if b[i].key == key {
          SetFirstAt(b, key, data, i);
          buckets[h] := b[i := b[i].(data := data)];
          return;
        }
        i := i + 1;
      }
      buckets[h] := [Entry(key, data)] + b;
    }

    /** The data of the first entry with the key in its bucket; None when there is none. */
    method Get(key: string) returns (data: Option<T>)
      requires Valid()
      ensures data == (if Lookup(key).Some? then Lookup(key).value else None)
    {
      var b := buckets[Slot(key)];
      var i := 0;
      while i < |b|
        invariant 0 <= i <= |b|
        invariant Find(b, key) == Find(b[i..], key)
      {
        if b[i].key == key {
          return b[i].data;
        }
        assert b[i..][1..] == b[i + 1..];
        i := i + 1;
      }
      return None;
    }

    /**
     * Unlinks the first entry with the key, handing its data to the item
     * destructor when there is one and the data is present. Reports
     * whether the key was found.
     */
    method Remove(key: string) returns (found: bool)
      requires Valid()
      modifies this, buckets
      ensures Valid()
      ensures found <==> old(Lookup(key)).Some?
      ensures buckets[Slot(key)] == RemoveFirst(old(buckets[Slot(key)]), key)
      ensures forall h :: 0 <= h < size && h != Slot(key) ==> buckets[h] == old(buckets[h])
      ensures destroyed == old(destroyed) +
        (if found && destroyItems && old(Lookup(key)).value.Some? then [old(Lookup(key)).value.value] else [])
    {
      var h := Slot(key);
      var b := buckets[h];
      var i := 0;
      while i < |b|
        invariant 0 <= i <= |b|
        invariant forall j :: 0 <= j < i ==> b[j].key != key
      {
        if b[i].key == key {
          RemoveFirstAt(b, key, i);
          buckets[h] := b[..i] + b[i + 1..];
          if destroyItems && b[i].data.Some? {
            destroyed := destroyed + [b[i].data.value];
          }
          return true;
        }
        i := i + 1;
      }
      return false;
    }
  }

  /** A key looked up in a new table finds nothing; after an insert it finds the data. */
  method InsertThenGet<T>(key: string, data: Option<T>) returns (before: Option<T>, after: Option<T>)
    ensures before == None && after == data
  {
    var table := new HashTable<T>(16, None, true);
    before := table.Get(key);
    table.Insert(key, data);
    FindAfterInsert([], key, data, key);
    after := table.Get(key);
  }
}
