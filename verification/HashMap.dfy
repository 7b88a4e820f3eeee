/** hash_map.c: buckets of linked entries that stand for a finite map. */
module HashMap {
  import opened Bytes
  import opened Sequences
  import OsiList

  /** hash_map_entry_t */
  datatype Entry = Entry(key: nat, data: nat)

  // ----- buckets as sequences

  /** What find_bucket_entry_ compares */
  function Keys(s: seq<Entry>): (r: seq<nat>)
    ensures |r| == |s| && forall i :: 0 <= i < |r| ==> r[i] == s[i].key
  {
    seq(|s|, i requires 0 <= i < |s| => s[i].key)
  }

  ghost predicate Unique(s: seq<Entry>) {
    forall i, j :: 0 <= i < j < |s| ==> s[i].key != s[j].key
  }

  /** Every entry hashes to bucket b of n, and is in m. */
  ghost predicate Listed(s: seq<Entry>, hash: nat -> nat, n: nat, b: nat, m: map<nat, nat>)
    requires n > 0
  {
    forall i :: 0 <= i < |s| ==> hash(s[i].key) % n == b && s[i].key in m && m[s[i].key] == s[i].data
  }

  /** Bucket b of n holds just the entries of m whose key hashes to it. */
  ghost predicate Holds(s: seq<Entry>, hash: nat -> nat, n: nat, b: nat, m: map<nat, nat>)
    requires n > 0
  {
    && Unique(s) && Listed(s, hash, n, b, m)
    && (forall k :: k in m && hash(k) % n == b ==> Find(Keys(s), k) < |s|)
  }

  /** The entry for key, if there is one, taken out. */
  function Cleared(s: seq<Entry>, key: nat): seq<Entry> {
    if Find(Keys(s), key) == |s| then s else Without(s, Find(Keys(s), key))
  }

  lemma ClearedHas(s: seq<Entry>, key: nat, e: Entry)
    requires Unique(s)
    ensures e in Cleared(s, key) <==> e in s && e.key != key
  {
    var i, r := Find(Keys(s), key), Cleared(s, key);
    if i < |s| && e in r {
      var a :| 0 <= a < |r| && r[a] == e;
      assert s[if a < i then a else a + 1] == e;
    }
    if i < |s| && e in s && e.key != key {
      var a :| 0 <= a < |s| && s[a] == e;
      assert r[if a < i then a else a - 1] == e;
    }
  }

  lemma ClearedUnique(s: seq<Entry>, key: nat)
    requires Unique(s)
    ensures Unique(Cleared(s, key))
  {
    var i, r := Find(Keys(s), key), Cleared(s, key);
    if i < |s| {
      forall a, b | 0 <= a < b < |r| ensures r[a].key != r[b].key {
        assert r[a] == s[if a < i then a else a + 1] && r[b] == s[if b < i then b else b + 1];
      }
    }
  }

  lemma ClearedFinds(s: seq<Entry>, key: nat, k: nat)
    requires Unique(s)
    ensures Find(Keys(Cleared(s, key)), k) < |Cleared(s, key)| <==> k != key && Find(Keys(s), k) < |s|
    ensures forall e :: e in Cleared(s, key) <==> e in s && e.key != key
  {
    forall e ensures e in Cleared(s, key) <==> e in s && e.key != key {
      ClearedHas(s, key, e);
    }
    FoundIff(s, k);
    FoundIff(Cleared(s, key), k);
  }

  lemma FoundIff(s: seq<Entry>, key: nat)
    ensures Find(Keys(s), key) < |s| <==> exists e :: e in s && e.key == key
  {
    if Find(Keys(s), key) < |s| { assert s[Find(Keys(s), key)] in s; }
  }

  lemma Erased(s: seq<Entry>, hash: nat -> nat, n: nat, b: nat, m: map<nat, nat>, key: nat)
    requires n > 0 && Holds(s, hash, n, b, m) && hash(key) % n == b
    ensures Holds(Cleared(s, key), hash, n, b, m - {key})
    ensures Find(Keys(s), key) < |s| <==> key in m
    ensures |m - {key}| == if key in m then |m| - 1 else |m|
  {
    ClearedUnique(s, key);
    ClearedFinds(s, key, key);
    var r := Cleared(s, key);
    forall i | 0 <= i < |r|
      ensures hash(r[i].key) % n == b && r[i].key in m - {key} && (m - {key})[r[i].key] == r[i].data
    {
      assert r[i] in r;
    }
    forall k | k in m - {key} && hash(k) % n == b ensures Find(Keys(r), k) < |r| {
      ClearedFinds(s, key, k);
    }
    assert (m - {key}).Keys == m.Keys - {key};
  }

  lemma FindAppend(s: seq<Entry>, e: Entry, k: nat)
    requires k == e.key || Find(Keys(s), k) < |s|
    ensures Find(Keys(s + [e]), k) < |s + [e]|
  {
    var r := s + [e];
    assert r[|s|] == e;
    if Find(Keys(s), k) < |s| { assert r[Find(Keys(s), k)] == s[Find(Keys(s), k)]; }
    FoundIff(r, k);
  }

  lemma AddedListed(s: seq<Entry>, hash: nat -> nat, n: nat, b: nat, m: map<nat, nat>, e: Entry)
    requires n > 0 && Listed(s, hash, n, b, m) && hash(e.key) % n == b && e.key !in m
    ensures Listed(s + [e], hash, n, b, m[e.key := e.data])
  {
  }

  lemma Added(s: seq<Entry>, hash: nat -> nat, n: nat, b: nat, m: map<nat, nat>, e: Entry)
    requires n > 0 && Holds(s, hash, n, b, m) && hash(e.key) % n == b && e.key !in m
    ensures Holds(s + [e], hash, n, b, m[e.key := e.data])
    ensures |m[e.key := e.data]| == |m| + 1
  {
    var r, m' := s + [e], m[e.key := e.data];
    assert Unique(r) by {
      assert forall i :: 0 <= i < |s| ==> s[i].key != e.key;
    }
    AddedListed(s, hash, n, b, m, e);
    forall k | k in m' && hash(k) % n == b ensures Find(Keys(r), k) < |r| {
      FindAppend(s, e, k);
    }
    assert m'.Keys == m.Keys + {e.key};
  }

  /** Other buckets do not see the key. */
  lemma Elsewhere(s: seq<Entry>, hash: nat -> nat, n: nat, b: nat, m: map<nat, nat>, key: nat, data: nat)
    requires n > 0 && Holds(s, hash, n, b, m) && hash(key) % n != b
    ensures Holds(s, hash, n, b, m - {key}) && Holds(s, hash, n, b, m[key := data])
  {
  }

  /** The rows of a table stand for m. */
  ghost predicate Represents(rows: seq<seq<Entry>>, hash: nat -> nat, m: map<nat, nat>) {
    |rows| > 0 && forall b :: 0 <= b < |rows| ==> Holds(rows[b], hash, |rows|, b, m)
  }

  lemma RowErased(rows: seq<seq<Entry>>, hash: nat -> nat, m: map<nat, nat>, key: nat)
    requires Represents(rows, hash, m)
    ensures var b := hash(key) % |rows|;
      && Represents(rows[b := Cleared(rows[b], key)], hash, m - {key})
      && (Find(Keys(rows[b]), key) < |rows[b]| <==> key in m)
    ensures |m - {key}| == if key in m then |m| - 1 else |m|
  {
    var b := hash(key) % |rows|;
    Erased(rows[b], hash, |rows|, b, m, key);
    var r := rows[b := Cleared(rows[b], key)];
    forall c | 0 <= c < |r| ensures Holds(r[c], hash, |r|, c, m - {key}) {
      if c != b { Elsewhere(rows[c], hash, |rows|, c, m, key, 0); }
    }
  }

  lemma RowAdded(rows: seq<seq<Entry>>, hash: nat -> nat, m: map<nat, nat>, e: Entry)
    requires Represents(rows, hash, m) && e.key !in m
    ensures var b := hash(e.key) % |rows|; Represents(rows[b := rows[b] + [e]], hash, m[e.key := e.data])
    ensures |m[e.key := e.data]| == |m| + 1
  {
    var b := hash(e.key) % |rows|;
    Added(rows[b], hash, |rows|, b, m, e);
    var r := rows[b := rows[b] + [e]];
    forall c | 0 <= c < |r| ensures Holds(r[c], hash, |r|, c, m[e.key := e.data]) {
      if c != b { Elsewhere(rows[c], hash, |rows|, c, m, e.key, e.data); }
    }
  }

  lemma RowSet(rows: seq<seq<Entry>>, hash: nat -> nat, m: map<nat, nat>, key: nat, data: nat)
    requires Represents(rows, hash, m)
    ensures var b := hash(key) % |rows|;
      && Represents(rows[b := Cleared(rows[b], key)][b := Cleared(rows[b], key) + [Entry(key, data)]], hash,
                    m[key := data])
      && |m[key := data]| == if Find(Keys(rows[b]), key) < |rows[b]| then |m| else |m| + 1
  {
    RowErased(rows, hash, m, key);
    var b := hash(key) % |rows|;
    var r := rows[b := Cleared(rows[b], key)];
    assert r[b] == Cleared(rows[b], key) && |r| == |rows|;
    RowAdded(r, hash, m - {key}, Entry(key, data));
    PutBack(m, key, data);
  }

  lemma PutBack(m: map<nat, nat>, key: nat, data: nat)
    ensures (m - {key})[key := data] == m[key := data]
  {
  }

  /** Every key is met once in the whole table, and only in the bucket it hashes to. */
  lemma OncePerTable(rows: seq<seq<Entry>>, hash: nat -> nat, m: map<nat, nat>, b: nat, i: nat, c: nat, j: nat)
    requires Represents(rows, hash, m) && b < |rows| && i < |rows[b]| && c < |rows| && j < |rows[c]|
    requires rows[b][i].key == rows[c][j].key
    ensures b == c == hash(rows[b][i].key) % |rows| && i == j
  {
    assert Holds(rows[b], hash, |rows|, b, m) && Holds(rows[c], hash, |rows|, c, m);
  }

  // ----- the table

  class Table {
    const bucket: array<OsiList.List?<Entry>>
    const numBucket: nat
    const hashFn: nat -> nat
    var hashSize: int
    ghost var contents: map<nat, nat>     // the map it stands for
    ghost var rows: seq<seq<Entry>>       // the entries of each bucket
    ghost var repr: set<object>

    ghost predicate Valid()
      reads this, repr
    {
      Shape() && Represents(rows, hashFn, contents) && hashSize == |contents|
    }

    ghost predicate Shape()
      reads this`rows, this`repr, repr - {this}
    {
      && this in repr && bucket in repr && bucket.Length == numBucket == |rows|
      && numBucket > 0
      && (forall b :: 0 <= b < numBucket ==> BucketOk(bucket[b], rows[b]))
      && (forall b, c :: 0 <= b < c < numBucket && bucket[b] != null && bucket[c] != null ==>
            bucket[b].repr !! bucket[c].repr)
    }

    ghost predicate BucketOk(list: OsiList.List?<Entry>, row: seq<Entry>)
      reads this`repr, repr - {this}
    {
      if list == null then row == []
      else
        && list in repr && list.repr <= repr && this !in list.repr && bucket !in list.repr
        && list.Valid() && list.items == row
    }

    /** hash_map_new */
    constructor (numBucket: nat, hashFn: nat -> nat)
      requires numBucket > 0
      ensures Valid() && contents == map[] && fresh(repr) && this.hashFn == hashFn
    {
      this.numBucket, this.hashFn := numBucket, hashFn;
      bucket := new OsiList.List?<Entry>[numBucket](i => null);
      hashSize, contents, rows := 0, map[], seq(numBucket, i => []);
      new;
      repr := {this, bucket};
    }

    /** hash_map_get */
    method Get(key: nat) returns (data: Option<nat>)
      requires Valid()
      ensures data == if key in contents then Some(contents[key]) else None
    {
      var b := hashFn(key) % numBucket;
      assert BucketOk(bucket[b], rows[b]) && Holds(rows[b], hashFn, numBucket, b, contents);
      var e := FindBucketEntry(bucket[b], key);
      data := if e.Some? then Some(e.value.data) else None;
    }

    /** hash_map_has_key */
    method HasKey(key: nat) returns (found: bool)
      requires Valid()
      ensures found <==> key in contents
    {
      var b := hashFn(key) % numBucket;
      assert BucketOk(bucket[b], rows[b]) && Holds(rows[b], hashFn, numBucket, b, contents);
      var e := FindBucketEntry(bucket[b], key);
      found := e.Some?;
    }

    /** hash_map_set */
    method Set(key: nat, data: nat)
      requires Valid()
      modifies repr
      ensures Valid() && contents == old(contents)[key := data] && fresh(repr - old(repr))
    {
      RowSet(rows, hashFn, contents, key, data);
      var b := hashFn(key) % numBucket;
      var removed := Put(b, key, data);
      Settle(if removed then hashSize else hashSize + 1, contents[key := data]);
    }

    /** The entry takes the place of any other for its key, at the end of the bucket. */
    method Put(b: nat, key: nat, data: nat) returns (removed: bool)
      requires Shape() && b < numBucket
      modifies this`rows, this`repr, repr - {this}
      ensures Shape() && fresh(repr - old(repr))
      ensures rows == old(rows)[b := Cleared(old(rows[b]), key)][b := Cleared(old(rows[b]), key) + [Entry(key, data)]]
      ensures removed <==> Find(Keys(old(rows[b])), key) < |old(rows[b])|
    {
      if bucket[b] == null {
        NewBucket(b);
      }
      removed := Drop(b, key);
      Append(bucket[b], b, Entry(key, data));
    }

    /** hash_map_erase */
    method Erase(key: nat) returns (erased: bool)
      requires Valid()
      modifies repr
      ensures Valid() && contents == old(contents) - {key} && repr == old(repr)
      ensures erased <==> key in old(contents)
    {
      RowErased(rows, hashFn, contents, key);
      var b := hashFn(key) % numBucket;
      erased := Drop(b, key);
      Settle(if erased then hashSize - 1 else hashSize, contents - {key});
    }

    /** The size is brought up to date with the entries. */
    method Settle(size: int, ghost m: map<nat, nat>)
      requires Shape() && Represents(rows, hashFn, m) && size == |m|
      modifies this`hashSize, this`contents
      ensures Valid() && contents == m
    {
      hashSize := size;
      contents := m;
      assert Shape();
    }

    /** The entry for the key is looked up in its bucket and removed. */
    method Drop(b: nat, key: nat) returns (found: bool)
      requires Shape() && b < numBucket
      modifies this`rows, repr - {this, bucket}
      ensures Shape() && rows == old(rows)[b := Cleared(old(rows[b]), key)] && bucket[b] == old(bucket[b])
      ensures found <==> Find(Keys(old(rows[b])), key) < |old(rows[b])|
    {
      assert BucketOk(bucket[b], rows[b]);
      var e := FindBucketEntry(bucket[b], key);
      if e.None? {
        assert rows[b := Cleared(rows[b], key)] == rows;
        return false;
      }
      Remove(bucket[b], b, key, e.value);
      found := true;
    }

    /** A list for a bucket that has none */
    method NewBucket(b: nat)
      requires Shape() && b < numBucket && bucket[b] == null
      modifies bucket, this`repr
      ensures Shape() && bucket[b] != null && fresh(repr - old(repr)) && old(repr) <= repr
    {
      assert BucketOk(bucket[b], rows[b]);
      var list := new OsiList.List<Entry>();
      ghost var was := repr;
      repr := repr + list.repr;
      bucket[b] := list;
      forall c | 0 <= c < numBucket ensures BucketOk(bucket[c], rows[c]) {
        assert old(BucketOk(bucket[c], rows[c]));
      }
    }

    /** list_remove of the entry for the key */
    method Remove(list: OsiList.List<Entry>, b: nat, key: nat, e: Entry)
      requires Shape() && b < numBucket && bucket[b] == list
      requires Find(Keys(rows[b]), key) < |rows[b]| && e == rows[b][Find(Keys(rows[b]), key)]
      modifies list.repr, this`rows
      ensures Shape() && rows == old(rows)[b := Cleared(old(rows[b]), key)]
    {
      assert BucketOk(bucket[b], rows[b]);
      RemoveEntry(list, rows[b], key, e);
      rows := rows[b := Cleared(rows[b], key)];
      forall c | 0 <= c < numBucket ensures BucketOk(bucket[c], rows[c]) {
        assert old(BucketOk(bucket[c], rows[c]));
      }
    }

    /** list_append */
    method Append(list: OsiList.List<Entry>, b: nat, e: Entry)
      requires Shape() && b < numBucket && bucket[b] == list
      modifies list.repr, this`rows, this`repr
      ensures Shape() && rows == old(rows)[b := old(rows[b]) + [e]] && fresh(repr - old(repr))
    {
      assert BucketOk(bucket[b], rows[b]);
      list.Append(e);
      rows, repr := rows[b := rows[b] + [e]], repr + list.repr;
      forall c | 0 <= c < numBucket ensures BucketOk(bucket[c], rows[c]) {
        assert old(BucketOk(bucket[c], rows[c]));
      }
    }
  }

  /** find_bucket_entry_ */
  method FindBucketEntry(list: OsiList.List?<Entry>, key: nat) returns (e: Option<Entry>)
    requires list != null ==> list.Valid()
    ensures list == null ==> e == None
    ensures list != null ==>
      var i := Find(Keys(list.items), key); e == if i < |list.items| then Some(list.items[i]) else None
  {
    if list == null {
      return None;
    }
    var iter := list.head;
    ghost var i := 0;
    while iter != null
      invariant 0 <= i <= |list.nodes| && iter == if i < |list.nodes| then list.nodes[i] else null
      invariant forall j :: 0 <= j < i ==> list.items[j].key != key
      decreases |list.nodes| - i
    {
      if iter.data.key == key {
        FindIs(Keys(list.items), key, i);
        return Some(iter.data);
      }
      iter := iter.next;
      i := i + 1;
    }
    FindIs(Keys(list.items), key, i);
    e := None;
  }

  method RemoveEntry(list: OsiList.List<Entry>, ghost row: seq<Entry>, key: nat, e: Entry)
    requires list.Valid() && list.items == row
    requires Find(Keys(row), key) < |row| && e == row[Find(Keys(row), key)]
    modifies list.repr
    ensures list.Valid() && list.repr <= old(list.repr) && list.items == Cleared(row, key)
  {
    SameFind(row, key);
    var rc := list.Remove(e);
  }

  /** Looking for the entry finds the same place as looking for the key. */
  lemma SameFind(s: seq<Entry>, key: nat)
    requires Find(Keys(s), key) < |s|
    ensures Find(s, s[Find(Keys(s), key)]) == Find(Keys(s), key)
  {
    FindIs(s, s[Find(Keys(s), key)], Find(Keys(s), key));
  }
}
