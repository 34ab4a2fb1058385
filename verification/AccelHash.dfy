/** The shared hash table: fixed size, chained through slots of one array, with indirect entries that stand for
    other entries. */
module AccelHash {
  import opened Options

  type Key = string

  /** data is a payload, or, in an indirect entry, the slot of another entry. next is -1 for NULL. */
  datatype Entry = Entry(hashValue: nat, key: Key, next: int, data: int, indirect: bool)

  datatype Table = Table(hashTable: seq<int>, entries: seq<Entry>, num: nat, direct: int)

  // ---- chains

  /** The slots on a chain, in order. */
  function Chain(entries: seq<Entry>, from: int): (c: seq<nat>)
    ensures forall i {:trigger c[i]} :: 0 <= i < |c| ==> c[i] < |entries| && c[i] <= from
    ensures 0 <= from < |entries| ==> |c| > 0 && c[0] == from
    decreases from
  {
    if !(0 <= from < |entries|) then []
    else [from] + if entries[from].next < from then Chain(entries, entries[from].next) else []
  }

  predicate SameKey(e: Entry, hv: nat, key: Key) { e.hashValue == hv && e.key == key }

  /** The search along a chain: the slot with the key, or -1. */
  function Search(entries: seq<Entry>, from: int, hv: nat, key: Key): (r: int)
    decreases from
  {
    if !(0 <= from < |entries|) then -1
    else if SameKey(entries[from], hv, key) then from
    else if entries[from].next < from then Search(entries, entries[from].next, hv, key)
    else -1
  }

  lemma {:induction false} SearchIs(entries: seq<Entry>, from: int, hv: nat, key: Key)
    ensures var r := Search(entries, from, hv, key);
      && (r >= 0 ==> r in Chain(entries, from) && r < |entries| && SameKey(entries[r], hv, key))
      && (r < 0 ==> r == -1 && forall e: nat {:trigger e in Chain(entries, from)} :: e in Chain(entries, from) ==>
            !SameKey(entries[e], hv, key))
    decreases from
  {
    if 0 <= from < |entries| && !SameKey(entries[from], hv, key) && entries[from].next < from {
      SearchIs(entries, entries[from].next, hv, key);
    }
  }

  /** Entries elsewhere do not matter to a chain. */
  lemma {:induction false} ChainFrame(a: seq<Entry>, b: seq<Entry>, from: int)
    requires |a| == |b| && forall e: nat {:trigger e in Chain(a, from)} :: e in Chain(a, from) ==>
      a[e].next == b[e].next
    ensures Chain(b, from) == Chain(a, from)
    decreases from
  {
    if 0 <= from < |a| {
      assert from in Chain(a, from);
      if a[from].next < from {
        forall e: nat | e in Chain(a, a[from].next) ensures a[e].next == b[e].next {
          assert e in Chain(a, from);
        }
        ChainFrame(a, b, a[from].next);
      }
    }
  }

  lemma {:induction false} SearchFrame(a: seq<Entry>, b: seq<Entry>, from: int, hv: nat, key: Key)
    requires |a| == |b| && forall e: nat {:trigger e in Chain(a, from)} :: e in Chain(a, from) ==>
      a[e].next == b[e].next && a[e].hashValue == b[e].hashValue && a[e].key == b[e].key
    ensures Search(b, from, hv, key) == Search(a, from, hv, key)
    decreases from
  {
    if 0 <= from < |a| {
      assert from in Chain(a, from);
      if a[from].next < from {
        forall e: nat | e in Chain(a, a[from].next)
          ensures a[e].next == b[e].next && a[e].hashValue == b[e].hashValue && a[e].key == b[e].key
        {
          assert e in Chain(a, from);
        }
        SearchFrame(a, b, a[from].next, hv, key);
      }
    }
  }

  // ---- the table

  function Bucket(t: Table, hv: nat): nat
    requires |t.hashTable| > 0
  {
    hv % |t.hashTable|
  }

  function ChainAt(t: Table, i: nat): seq<nat>
    requires i < |t.hashTable|
  {
    Chain(t.entries, t.hashTable[i])
  }

  /** Entry e is on the chain of its bucket. */
  ghost predicate Linked(t: Table, e: nat) {
    e < |t.entries| && |t.hashTable| > 0 && e in ChainAt(t, Bucket(t, t.entries[e].hashValue))
  }

  ghost function LinkedDirect(t: Table): set<nat> {
    set e: nat | e < |t.entries| && Linked(t, e) && !t.entries[e].indirect
  }

  /** Chain links go to strictly lower slots, so that searches end, and chains hold used entries of their own
      bucket. */
  ghost predicate ChainsDown(t: Table, hash: Key -> nat) {
    && |t.hashTable| == |t.entries| > 0 && t.num <= |t.entries|
    && (forall i {:trigger t.hashTable[i]} :: 0 <= i < |t.hashTable| ==> -1 <= t.hashTable[i] < t.num)
    && (forall e {:trigger t.entries[e]} :: 0 <= e < t.num ==>
          -1 <= t.entries[e].next < e && t.entries[e].hashValue == hash(t.entries[e].key))
    && (forall i: nat, e: nat {:trigger e in ChainAt(t, i)} :: i < |t.hashTable| && e in ChainAt(t, i) ==>
          e < t.num && Bucket(t, t.entries[e].hashValue) == i)
  }

  /** No two linked entries have the same key. */
  ghost predicate OneEach(t: Table) {
    forall a: nat, b: nat {:trigger Linked(t, a), Linked(t, b)} ::
      Linked(t, a) && Linked(t, b) && t.entries[a].key == t.entries[b].key ==> a == b
  }

  ghost predicate Chained(t: Table, hash: Key -> nat) {
    ChainsDown(t, hash) && OneEach(t) && t.direct == |LinkedDirect(t)|
  }

  /** An indirect entry stands for a used entry that is not itself indirect. */
  ghost predicate AliasesDirect(t: Table) {
    t.num <= |t.entries| && forall e {:trigger t.entries[e]} :: 0 <= e < t.num && t.entries[e].indirect ==>
      0 <= t.entries[e].data < t.num && !t.entries[t.entries[e].data].indirect
  }

  ghost predicate Valid(t: Table, hash: Key -> nat) { Chained(t, hash) && AliasesDirect(t) }

  /** The entry for a key; -1 for NULL. */
  function Slot(t: Table, hash: Key -> nat, key: Key): int
    requires |t.hashTable| > 0
  {
    Search(t.entries, t.hashTable[Bucket(t, hash(key))], hash(key), key)
  }

  /** zend_accel_hash_find_entry: the shared cell that a key leads to. */
  function FindEntry(t: Table, hash: Key -> nat, key: Key): int
    requires |t.hashTable| > 0
  {
    var e := Slot(t, hash, key);
    if 0 <= e < |t.entries| && t.entries[e].indirect then t.entries[e].data else e
  }

  /** zend_accel_hash_find */
  function Find(t: Table, hash: Key -> nat, key: Key): Option<int>
    requires |t.hashTable| > 0
  {
    var e := FindEntry(t, hash, key);
    if 0 <= e < |t.entries| then Some(t.entries[e].data) else None
  }

  /** The entry that an entry stands for, following indirect ones. */
  function Resolve(t: Table, e: nat): int
    requires e < |t.entries|
  {
    if t.entries[e].indirect then t.entries[e].data else e
  }

  function SetEntry(t: Table, e: nat, entry: Entry): Table
    requires e < |t.entries|
  {
    t.(entries := t.entries[e := entry])
  }

  /** zend_accel_hash_update for data; -1 if the table is full. */
  function Update(t: Table, hash: Key -> nat, key: Key, data: int): (r: (Table, int))
    requires Valid(t, hash)
  {
    var e := Slot(t, hash, key);
    SearchIs(t.entries, t.hashTable[Bucket(t, hash(key))], hash(key), key);
    if e >= 0 then
      var cell := Resolve(t, e);
      (if 0 <= cell < |t.entries| then SetEntry(t, cell, t.entries[cell].(data := data)) else t, e)
    else if t.num == |t.entries| then (t, -1)
    else (Push(t, hash, key, data, false).(direct := t.direct + 1), t.num)
  }

  /** A new entry in front of its chain. */
  function Push(t: Table, hash: Key -> nat, key: Key, data: int, indirect: bool): Table
    requires |t.hashTable| > 0 && t.num < |t.entries|
  {
    var i := Bucket(t, hash(key));
    Table(t.hashTable[i := t.num], t.entries[t.num := Entry(hash(key), key, t.hashTable[i], data, indirect)],
      t.num + 1, t.direct)
  }

  /** zend_accel_hash_update with indirect set: key becomes another name for entry to. */
  function UpdateAlias(t: Table, hash: Key -> nat, key: Key, to: nat): (r: (Table, int))
    requires Valid(t, hash) && to < t.num
  {
    var e, target := Slot(t, hash, key), Resolve(t, to);
    SearchIs(t.entries, t.hashTable[Bucket(t, hash(key))], hash(key), key);
    if e >= 0 then
      (SetEntry(t, e, t.entries[e].(data := target, indirect := true)).(direct := if t.entries[e].indirect then
        t.direct else t.direct - 1), e)
    else if t.num == |t.entries| then (t, -1)
    else (Push(t, hash, key, target, true), t.num)
  }

  /** zend_accel_hash_update */
  function UpdateAny(t: Table, hash: Key -> nat, key: Key, indirect: bool, data: int): (r: (Table, int))
    requires Valid(t, hash) && (indirect ==> 0 <= data < t.num)
  {
    if indirect then UpdateAlias(t, hash, key, data) else Update(t, hash, key, data)
  }

  // ---- lookups by what is linked

  lemma SlotIs(t: Table, hash: Key -> nat, key: Key)
    requires Chained(t, hash)
    ensures var e := Slot(t, hash, key);
      && (e >= 0 ==> e < t.num && Linked(t, e) && t.entries[e].key == key)
      && (e < 0 ==> e == -1 && forall x: nat {:trigger Linked(t, x)} :: Linked(t, x) ==> t.entries[x].key != key)
  {
    var i := Bucket(t, hash(key));
    SearchIs(t.entries, t.hashTable[i], hash(key), key);
    var e := Slot(t, hash, key);
    if e >= 0 {
      assert e in ChainAt(t, i);
    } else {
      forall x: nat | Linked(t, x) ensures t.entries[x].key != key {
        assert x in ChainAt(t, Bucket(t, t.entries[x].hashValue)) && x < t.num;
        assert t.entries[x].hashValue == hash(t.entries[x].key);
      }
    }
  }

  /** A lookup finds the linked entry with the key, whichever it is. */
  lemma SlotByLinked(t: Table, hash: Key -> nat, key: Key, e: nat)
    requires Chained(t, hash) && Linked(t, e) && t.entries[e].key == key
    ensures Slot(t, hash, key) == e
  {
    SlotIs(t, hash, key);
  }

  lemma LinkedUsed(t: Table, hash: Key -> nat, e: nat)
    requires Chained(t, hash) && Linked(t, e)
    ensures e < t.num
  {
    assert e in ChainAt(t, Bucket(t, t.entries[e].hashValue));
  }

  /** Tables with the same linked entries, under the same keys, find the same slots. */
  lemma SameSlots(t: Table, t2: Table, hash: Key -> nat, key: Key)
    requires Chained(t, hash) && Chained(t2, hash) && |t2.entries| == |t.entries|
    requires forall x: nat {:trigger Linked(t2, x)} {:trigger Linked(t, x)} ::
      x < |t.entries| && t.entries[x].key == key && Linked(t, x) ==> Linked(t2, x) && t2.entries[x].key == key
    requires forall x: nat {:trigger Linked(t2, x)} {:trigger Linked(t, x)} ::
      x < |t.entries| && t2.entries[x].key == key && Linked(t2, x) ==> Linked(t, x) && t.entries[x].key == key
    ensures Slot(t2, hash, key) == Slot(t, hash, key)
  {
    SlotIs(t, hash, key);
    SlotIs(t2, hash, key);
    var e := Slot(t, hash, key);
    if e >= 0 {
      SlotByLinked(t2, hash, key, e);
    }
  }

  // ---- new contents of an entry

  lemma SetKeepsChain(t: Table, hash: Key -> nat, e: nat, entry: Entry, i: nat)
    requires Chained(t, hash) && e < |t.entries| && entry.next == t.entries[e].next && i < |t.hashTable|
    ensures ChainAt(SetEntry(t, e, entry), i) == ChainAt(t, i)
  {
    ChainFrame(t.entries, SetEntry(t, e, entry).entries, t.hashTable[i]);
  }

  lemma SetKeepsLinks(t: Table, hash: Key -> nat, e: nat, entry: Entry, x: nat)
    requires Chained(t, hash) && e < |t.entries| && entry.next == t.entries[e].next
    requires entry.hashValue == t.entries[e].hashValue && entry.key == t.entries[e].key
    ensures Linked(SetEntry(t, e, entry), x) == Linked(t, x)
  {
    if x < |t.entries| {
      SetKeepsChain(t, hash, e, entry, Bucket(t, t.entries[x].hashValue));
    }
  }

  lemma SizeWithout(a: set<nat>, e: nat)
    ensures |a - {e}| == |a| - if e in a then 1 else 0
  {
    if e in a {
      assert a == (a - {e}) + {e};
    } else {
      assert a - {e} == a;
    }
  }

  lemma CountSets(a: set<nat>, b: set<nat>, e: nat)
    requires forall x: nat {:trigger x in a} {:trigger x in b} :: x != e ==> (x in a <==> x in b)
    ensures |b| == |a| - (if e in a then 1 else 0) + (if e in b then 1 else 0)
  {
    assert a - {e} == b - {e};
    SizeWithout(a, e);
    SizeWithout(b, e);
  }

  lemma InLinkedDirect(t: Table, x: nat)
    ensures x in LinkedDirect(t) <==> x < |t.entries| && Linked(t, x) && !t.entries[x].indirect
  {
  }

  lemma SetKeepsCount(t: Table, e: nat, t2: Table, a: set<nat>, b: set<nat>)
    requires |t2.entries| == |t.entries| && e < |t.entries| && a == LinkedDirect(t) && b == LinkedDirect(t2)
    requires forall x: nat {:trigger t2.entries[x]} :: x < |t.entries| && x != e ==> t2.entries[x] == t.entries[x]
    requires forall x: nat {:trigger Linked(t2, x)} {:trigger Linked(t, x)} :: Linked(t2, x) == Linked(t, x)
    ensures |b| == |a| - (if Linked(t, e) && !t.entries[e].indirect then 1 else 0)
                       + (if Linked(t, e) && !t2.entries[e].indirect then 1 else 0)
  {
    forall x: nat | x != e ensures x in a <==> x in b {
      InLinkedDirect(t, x);
      InLinkedDirect(t2, x);
    }
    InLinkedDirect(t, e);
    InLinkedDirect(t2, e);
    CountSets(a, b, e);
  }

  ghost predicate Replaces(t: Table, e: nat, entry: Entry, t2: Table) {
    && e < t.num <= |t.entries| && entry.next == t.entries[e].next
    && entry.hashValue == t.entries[e].hashValue && entry.key == t.entries[e].key
    && t2 == SetEntry(t, e, entry).(direct := t2.direct)
  }

  lemma SetKeepsChains(t: Table, hash: Key -> nat, e: nat, entry: Entry, t2: Table)
    requires Chained(t, hash) && Replaces(t, e, entry, t2)
    ensures forall x: nat {:trigger Linked(t2, x)} {:trigger Linked(t, x)} :: Linked(t2, x) == Linked(t, x)
    ensures forall i: nat {:trigger ChainAt(t2, i)} :: i < |t.hashTable| ==> ChainAt(t2, i) == ChainAt(t, i)
  {
    var s := SetEntry(t, e, entry);
    forall x: nat ensures Linked(t2, x) == Linked(t, x) {
      SetKeepsLinks(t, hash, e, entry, x);
      assert Linked(t2, x) == Linked(s, x);
    }
    forall i: nat | i < |t.hashTable| ensures ChainAt(t2, i) == ChainAt(t, i) {
      SetKeepsChain(t, hash, e, entry, i);
    }
  }

  lemma SetKeepsDown(t: Table, hash: Key -> nat, e: nat, entry: Entry, t2: Table)
    requires Chained(t, hash) && Replaces(t, e, entry, t2)
    ensures ChainsDown(t2, hash)
  {
    SetKeepsChains(t, hash, e, entry, t2);
    forall i: nat, x: nat | i < |t.hashTable| && x in ChainAt(t2, i)
      ensures x < t.num && Bucket(t2, t2.entries[x].hashValue) == i
    {
      assert x in ChainAt(t, i);
    }
  }

  lemma SetKeepsOneEach(t: Table, e: nat, entry: Entry, t2: Table)
    requires OneEach(t) && Replaces(t, e, entry, t2)
    requires forall x: nat {:trigger Linked(t2, x)} {:trigger Linked(t, x)} :: Linked(t2, x) == Linked(t, x)
    ensures OneEach(t2)
  {
    forall a: nat, b: nat | Linked(t2, a) && Linked(t2, b) && t2.entries[a].key == t2.entries[b].key ensures a == b {
      assert Linked(t, a) && Linked(t, b);
    }
  }

  lemma SetKeepsChained(t: Table, hash: Key -> nat, e: nat, entry: Entry, t2: Table)
    requires Chained(t, hash) && Replaces(t, e, entry, t2)
    requires t2.direct == t.direct - (if Linked(t, e) && !t.entries[e].indirect then 1 else 0)
      + (if Linked(t, e) && !entry.indirect then 1 else 0)
    ensures Chained(t2, hash)
  {
    SetKeepsChains(t, hash, e, entry, t2);
    SetKeepsDown(t, hash, e, entry, t2);
    SetKeepsOneEach(t, e, entry, t2);
    SetKeepsCount(t, e, t2, LinkedDirect(t), LinkedDirect(t2));
  }

  // ---- a new entry

  /** The table with one more entry, in front of its chain. */
  ghost predicate Pushes(t: Table, hash: Key -> nat, key: Key, data: int, indirect: bool, t2: Table) {
    && Chained(t, hash) && t.num < |t.entries| && Slot(t, hash, key) < 0
    && t2 == Push(t, hash, key, data, indirect).(direct := t2.direct)
    && t2.direct == t.direct + if indirect then 0 else 1
  }

  lemma PushChains(t: Table, hash: Key -> nat, key: Key, data: int, indirect: bool, t2: Table, j: nat)
    requires Pushes(t, hash, key, data, indirect, t2) && j < |t.hashTable|
    ensures ChainAt(t2, j) == (if j == Bucket(t, hash(key)) then [t.num] + ChainAt(t, j) else ChainAt(t, j))
  {
    ChainFrame(t.entries, t2.entries, t.hashTable[j]) by {
      forall e: nat | e in ChainAt(t, j) ensures t.entries[e].next == t2.entries[e].next {
        assert e < t.num;
      }
    }
  }

  lemma PushLinks(t: Table, hash: Key -> nat, key: Key, data: int, indirect: bool, t2: Table, x: nat)
    requires Pushes(t, hash, key, data, indirect, t2)
    ensures Linked(t2, x) == (Linked(t, x) || x == t.num)
    ensures Linked(t, x) ==> x < t.num
  {
    if x < |t.entries| {
      PushChains(t, hash, key, data, indirect, t2, Bucket(t, t2.entries[x].hashValue));
      if Linked(t, x) {
        LinkedUsed(t, hash, x);
      } else if x == t.num {
        assert ChainAt(t2, Bucket(t, hash(key)))[0] == t.num;
      }
    }
  }

  lemma PushDown(t: Table, hash: Key -> nat, key: Key, data: int, indirect: bool, t2: Table)
    requires Pushes(t, hash, key, data, indirect, t2)
    ensures ChainsDown(t2, hash)
  {
    forall i: nat, x: nat | i < |t.hashTable| && x in ChainAt(t2, i)
      ensures x < t2.num && Bucket(t2, t2.entries[x].hashValue) == i
    {
      PushChains(t, hash, key, data, indirect, t2, i);
      assert x == t.num || x in ChainAt(t, i);
    }
  }

  lemma PushOneEach(t: Table, hash: Key -> nat, key: Key, data: int, indirect: bool, t2: Table)
    requires Pushes(t, hash, key, data, indirect, t2)
    ensures OneEach(t2)
  {
    SlotIs(t, hash, key);
    forall a: nat, b: nat | Linked(t2, a) && Linked(t2, b) && t2.entries[a].key == t2.entries[b].key ensures a == b {
      PushLinks(t, hash, key, data, indirect, t2, a);
      PushLinks(t, hash, key, data, indirect, t2, b);
      assert Linked(t, a) || a == t.num;
      assert Linked(t, b) || b == t.num;
    }
  }

  lemma PushCount(t: Table, hash: Key -> nat, key: Key, data: int, indirect: bool, t2: Table, a: set<nat>, b: set<nat>)
    requires Pushes(t, hash, key, data, indirect, t2) && a == LinkedDirect(t) && b == LinkedDirect(t2)
    ensures |b| == t2.direct
  {
    forall x: nat | x != t.num ensures x in a <==> x in b {
      InLinkedDirect(t, x);
      InLinkedDirect(t2, x);
      PushLinks(t, hash, key, data, indirect, t2, x);
    }
    InLinkedDirect(t, t.num);
    InLinkedDirect(t2, t.num);
    PushLinks(t, hash, key, data, indirect, t2, t.num);
    CountSets(a, b, t.num);
  }

  lemma PushChained(t: Table, hash: Key -> nat, key: Key, data: int, indirect: bool, t2: Table)
    requires Pushes(t, hash, key, data, indirect, t2)
    ensures Chained(t2, hash)
    ensures forall x: nat {:trigger Linked(t2, x)} :: Linked(t2, x) == (Linked(t, x) || x == t.num)
  {
    PushDown(t, hash, key, data, indirect, t2);
    PushOneEach(t, hash, key, data, indirect, t2);
    PushCount(t, hash, key, data, indirect, t2, LinkedDirect(t), LinkedDirect(t2));
    forall x: nat ensures Linked(t2, x) == (Linked(t, x) || x == t.num) {
      PushLinks(t, hash, key, data, indirect, t2, x);
    }
  }

  // ---- update

  /** Every other key leads where it led. */
  ghost predicate OthersSame(t: Table, t2: Table, hash: Key -> nat, key: Key)
    requires |t.hashTable| > 0 && |t2.hashTable| > 0
  {
    forall k: Key {:trigger FindEntry(t2, hash, k)} :: k != key ==> FindEntry(t2, hash, k) == FindEntry(t, hash, k)
  }

  lemma FindEntryIs(t: Table, hash: Key -> nat, key: Key)
    requires Valid(t, hash)
    ensures var e := FindEntry(t, hash, key);
      -1 <= e < t.num && (e >= 0 ==> !t.entries[e].indirect) && (e >= 0 <==> Slot(t, hash, key) >= 0)
  {
    SlotIs(t, hash, key);
  }

  /** New data in a direct entry: every key leads where it led. */
  lemma StoreKeeps(t: Table, hash: Key -> nat, cell: nat, data: int)
    requires Valid(t, hash) && cell < t.num && !t.entries[cell].indirect
    ensures var t2 := SetEntry(t, cell, t.entries[cell].(data := data));
      Valid(t2, hash) && forall k: Key {:trigger FindEntry(t2, hash, k)} ::
        FindEntry(t2, hash, k) == FindEntry(t, hash, k)
  {
    var entry := t.entries[cell].(data := data);
    var t2 := SetEntry(t, cell, entry);
    SetKeepsChained(t, hash, cell, entry, t2);
    SetKeepsChains(t, hash, cell, entry, t2);
    forall k: Key ensures FindEntry(t2, hash, k) == FindEntry(t, hash, k) {
      StoreFinds(t, hash, cell, data, t2, k);
    }
  }

  lemma StoreFinds(t: Table, hash: Key -> nat, cell: nat, data: int, t2: Table, k: Key)
    requires Valid(t, hash) && cell < t.num && t2 == SetEntry(t, cell, t.entries[cell].(data := data))
    requires Chained(t2, hash)
    requires forall x: nat {:trigger Linked(t2, x)} {:trigger Linked(t, x)} :: Linked(t2, x) == Linked(t, x)
    requires !t.entries[cell].indirect
    ensures FindEntry(t2, hash, k) == FindEntry(t, hash, k)
  {
    SameSlots(t, t2, hash, k);
    SlotIs(t, hash, k);
  }

  lemma PushKeeps(t: Table, hash: Key -> nat, key: Key, data: int, indirect: bool, t2: Table)
    requires Valid(t, hash) && Pushes(t, hash, key, data, indirect, t2)
    requires indirect ==> 0 <= data < t.num && !t.entries[data].indirect
    ensures Valid(t2, hash) && OthersSame(t, t2, hash, key)
    ensures FindEntry(t2, hash, key) == if indirect then data else t.num
  {
    PushChained(t, hash, key, data, indirect, t2);
    SlotByLinked(t2, hash, key, t.num);
    forall k: Key | k != key ensures FindEntry(t2, hash, k) == FindEntry(t, hash, k) {
      SameSlots(t, t2, hash, k);
      SlotIs(t, hash, k);
    }
  }

  /** An update with data is seen through every key that leads to the same cell, and nothing else changes. It
      fails just when the key is new and the table is full. */
  lemma UpdateSeen(t: Table, hash: Key -> nat, key: Key, data: int)
    requires Valid(t, hash)
    ensures var (t2, r) := Update(t, hash, key, data);
      && (r < 0 <==> FindEntry(t, hash, key) < 0 && t.num == |t.entries|) && (r < 0 ==> t2 == t)
      && Valid(t2, hash) && OthersSame(t, t2, hash, key)
      && (r >= 0 ==>
           var cell := FindEntry(t2, hash, key);
           && (FindEntry(t, hash, key) >= 0 ==> cell == FindEntry(t, hash, key))
           && forall k: Key {:trigger Find(t2, hash, k)} ::
                Find(t2, hash, k) == if FindEntry(t2, hash, k) == cell then Some(data) else Find(t, hash, k))
  {
    var (t2, r) := Update(t, hash, key, data);
    SlotIs(t, hash, key);
    FindEntryIs(t, hash, key);
    if r >= 0 {
      if Slot(t, hash, key) >= 0 {
        StoreKeeps(t, hash, FindEntry(t, hash, key), data);
      } else {
        PushKeeps(t, hash, key, data, false, t2);
      }
      forall k: Key ensures Find(t2, hash, k) ==
        if FindEntry(t2, hash, k) == FindEntry(t2, hash, key) then Some(data) else Find(t, hash, k)
      {
        FindEntryIs(t2, hash, k);
        FindEntryIs(t, hash, k);
      }
    }
  }

  // ---- aliases

  /** The entry of the key, if it is a direct one, is not what any indirect entry stands for, and is not to
      become another name for itself. */
  ghost predicate NotATarget(t: Table, hash: Key -> nat, key: Key, to: nat)
    requires |t.hashTable| > 0 && to < |t.entries| && t.num <= |t.entries|
  {
    var e := Slot(t, hash, key);
    0 <= e < |t.entries| && !t.entries[e].indirect ==>
      e != Resolve(t, to) && forall x {:trigger t.entries[x]} :: 0 <= x < t.num && t.entries[x].indirect ==>
        t.entries[x].data != e
  }

  lemma AliasStoreKeeps(t: Table, hash: Key -> nat, key: Key, to: nat, t2: Table)
    requires Valid(t, hash) && to < t.num && Slot(t, hash, key) >= 0 && t2 == UpdateAlias(t, hash, key, to).0
    ensures Chained(t2, hash) && OthersSame(t, t2, hash, key) && FindEntry(t2, hash, key) == Resolve(t, to)
  {
    SlotIs(t, hash, key);
    var e := Slot(t, hash, key);
    var entry := t.entries[e].(data := Resolve(t, to), indirect := true);
    SetKeepsChained(t, hash, e, entry, t2);
    SetKeepsChains(t, hash, e, entry, t2);
    SameSlots(t, t2, hash, key);
    forall k: Key | k != key ensures FindEntry(t2, hash, k) == FindEntry(t, hash, k) {
      SameSlots(t, t2, hash, k);
      SlotIs(t, hash, k);
    }
  }

  lemma AliasStoreDirect(t: Table, hash: Key -> nat, key: Key, to: nat, t2: Table)
    requires Valid(t, hash) && to < t.num && Slot(t, hash, key) >= 0 && t2 == UpdateAlias(t, hash, key, to).0
    ensures AliasesDirect(t2) <==> NotATarget(t, hash, key, to)
  {
    SlotIs(t, hash, key);
    var e, target := Slot(t, hash, key), Resolve(t, to);
    assert forall x {:trigger t2.entries[x]} {:trigger t.entries[x]} :: 0 <= x < t.num && x != e ==>
      t2.entries[x] == t.entries[x];
    assert t2.entries[e].indirect && t2.entries[e].data == target;
    if NotATarget(t, hash, key, to) {
      forall x | 0 <= x < t2.num && t2.entries[x].indirect
        ensures 0 <= t2.entries[x].data < t2.num && !t2.entries[t2.entries[x].data].indirect
      {
      }
    } else if e != target {
      var x :| 0 <= x < t.num && t.entries[x].indirect && t.entries[x].data == e;
      assert t2.entries[x].indirect && t2.entries[x].data == e;
    }
  }

  /** An update with indirect set makes the key one more name for the cell; other keys and all data stay. The
      indirect entries still stand for direct ones afterwards if and only if the key's own entry was not a
      target. */
  lemma AliasSeen(t: Table, hash: Key -> nat, key: Key, to: nat)
    requires Valid(t, hash) && to < t.num
    ensures var (t2, r) := UpdateAlias(t, hash, key, to);
      && (r < 0 <==> FindEntry(t, hash, key) < 0 && t.num == |t.entries|) && (r < 0 ==> t2 == t)
      && (r >= 0 ==> Chained(t2, hash) && OthersSame(t, t2, hash, key) && FindEntry(t2, hash, key) == Resolve(t, to))
      && (Valid(t2, hash) <==> NotATarget(t, hash, key, to))
      && (Valid(t2, hash) && r >= 0 ==> forall k: Key {:trigger Find(t2, hash, k)} ::
            Find(t2, hash, k) == if k == key then Some(t.entries[Resolve(t, to)].data) else Find(t, hash, k))
  {
    var (t2, r) := UpdateAlias(t, hash, key, to);
    SlotIs(t, hash, key);
    FindEntryIs(t, hash, key);
    if r >= 0 {
      if Slot(t, hash, key) >= 0 {
        AliasStoreKeeps(t, hash, key, to, t2);
        AliasStoreDirect(t, hash, key, to, t2);
      } else {
        PushKeeps(t, hash, key, Resolve(t, to), true, t2);
      }
      if Valid(t2, hash) {
        forall k: Key
          ensures Find(t2, hash, k) == if k == key then Some(t.entries[Resolve(t, to)].data) else Find(t, hash, k)
        {
          FindEntryIs(t2, hash, k);
          FindEntryIs(t, hash, k);
        }
      }
    }
  }

  // ---- what an update does, whichever kind it is

  /** There is no room for the key. */
  ghost predicate NoRoomFor(t: Table, hash: Key -> nat, key: Key)
    requires |t.hashTable| > 0
  {
    FindEntry(t, hash, key) < 0 && t.num == |t.entries|
  }

  /** data is found under the key and all other names of its cell; everything else is found as before. */
  ghost predicate DataStored(t: Table, hash: Key -> nat, key: Key, data: int, t2: Table)
    requires |t.hashTable| > 0 && |t2.hashTable| > 0
  {
    && Valid(t2, hash) && OthersSame(t, t2, hash, key) && Find(t2, hash, key) == Some(data)
    && (FindEntry(t, hash, key) >= 0 ==> FindEntry(t2, hash, key) == FindEntry(t, hash, key))
    && forall k: Key {:trigger Find(t2, hash, k)} :: Find(t2, hash, k) ==
         if FindEntry(t2, hash, k) == FindEntry(t2, hash, key) then Some(data) else Find(t, hash, k)
  }

  /** The entry that an entry is or stands for. */
  function Cell(t: Table, e: nat): int
    requires e < |t.entries|
  {
    if t.entries[e].indirect then t.entries[e].data else e
  }

  /** The key leads to the cell of entry to; every other key leads where it led. If the key's own entry was not a
      target, the key finds what is in the cell and all other keys find what they found. */
  ghost predicate NameStored(t: Table, hash: Key -> nat, key: Key, to: nat, t2: Table)
    requires |t.hashTable| > 0 && |t2.hashTable| > 0 && to < |t.entries| && t.num <= |t.entries|
  {
    && Chained(t2, hash) && OthersSame(t, t2, hash, key) && FindEntry(t2, hash, key) == Cell(t, to)
    && (Valid(t2, hash) <==> NotATarget(t, hash, key, to))
    && (NotATarget(t, hash, key, to) ==> OnlyNamed(t, hash, key, Cell(t, to), t2))
  }

  ghost predicate OnlyNamed(t: Table, hash: Key -> nat, key: Key, cell: int, t2: Table)
    requires |t.hashTable| > 0 && |t2.hashTable| > 0
  {
    && 0 <= cell < |t.entries| && Find(t2, hash, key) == Some(t.entries[cell].data)
    && forall k: Key {:trigger Find(t2, hash, k)} :: k != key ==> Find(t2, hash, k) == Find(t, hash, k)
  }

  lemma DataSeen(t: Table, hash: Key -> nat, key: Key, data: int, t2: Table, r: int)
    requires Valid(t, hash) && (t2, r) == Update(t, hash, key, data)
    ensures |t2.hashTable| == |t.hashTable| && |t2.entries| == |t.entries|
    ensures if NoRoomFor(t, hash, key) then t2 == t && r == -1 else r >= 0 && DataStored(t, hash, key, data, t2)
  {
    UpdateSeen(t, hash, key, data);
    FindEntryIs(t, hash, key);
    if !NoRoomFor(t, hash, key) {
      assert Find(t2, hash, key) == Some(data);
    }
  }

  lemma NameSeen(t: Table, hash: Key -> nat, key: Key, to: nat, t2: Table, r: int)
    requires Valid(t, hash) && to < t.num && (t2, r) == UpdateAlias(t, hash, key, to)
    ensures |t2.hashTable| == |t.hashTable| && |t2.entries| == |t.entries|
    ensures if NoRoomFor(t, hash, key) then t2 == t && r == -1 else r >= 0 && NameStored(t, hash, key, to, t2)
  {
    AliasSeen(t, hash, key, to);
    FindEntryIs(t, hash, key);
    if !NoRoomFor(t, hash, key) && Valid(t2, hash) {
      assert Find(t2, hash, key) == Some(t.entries[Cell(t, to)].data);
      assert OnlyNamed(t, hash, key, Cell(t, to), t2);
    }
  }

  /** zend_accel_hash_update as its callers see it: without room nothing happens; otherwise data is stored under the
      key, or the key becomes one more name, as indirect says. What is returned is the key's entry. */
  lemma StoreSeen(t: Table, hash: Key -> nat, key: Key, indirect: bool, data: int, t2: Table, r: int)
    requires Valid(t, hash) && (indirect ==> 0 <= data < t.num) && (t2, r) == UpdateAny(t, hash, key, indirect, data)
    ensures |t2.hashTable| == |t.hashTable| && |t2.entries| == |t.entries|
    ensures NoRoomFor(t, hash, key) ==> t2 == t && r == -1
    ensures !NoRoomFor(t, hash, key) ==> 0 <= r == Slot(t2, hash, key)
    ensures !NoRoomFor(t, hash, key) ==>
      if indirect then NameStored(t, hash, key, data, t2) else DataStored(t, hash, key, data, t2)
  {
    if indirect {
      NameSeen(t, hash, key, data, t2, r);
    } else {
      DataSeen(t, hash, key, data, t2, r);
    }
    if !NoRoomFor(t, hash, key) {
      StoreSlot(t, hash, key, indirect, data, t2, r);
    }
  }

  lemma StoreSlot(t: Table, hash: Key -> nat, key: Key, indirect: bool, data: int, t2: Table, r: int)
    requires Valid(t, hash) && (indirect ==> 0 <= data < t.num) && (t2, r) == UpdateAny(t, hash, key, indirect, data)
    requires r >= 0 && |t2.hashTable| == |t.hashTable|
    ensures Slot(t2, hash, key) == r
  {
    SlotIs(t, hash, key);
    if Slot(t, hash, key) >= 0 {
      SearchFrame(t.entries, t2.entries, t.hashTable[Bucket(t, hash(key))], hash(key), key);
    }
  }

  // ---- unlink

  /** The slot before e on the chain from a slot, -1 if e comes first or not at all. */
  function Before(entries: seq<Entry>, from: int, e: int): (p: int)
    decreases from
  {
    if !(0 <= from < |entries|) || !(entries[from].next < from) then -1
    else if entries[from].next == e then from
    else Before(entries, entries[from].next, e)
  }

  function Unlink(t: Table, hash: Key -> nat, key: Key): (r: (Table, bool))
    requires Valid(t, hash)
  {
    var i := Bucket(t, hash(key));
    SlotIs(t, hash, key);
    var e := Slot(t, hash, key);
    if e < 0 then (t, false)
    else
      var direct := if t.entries[e].indirect then t.direct else t.direct - 1;
      var p := Before(t.entries, t.hashTable[i], e);
      if 0 <= p < |t.entries| && t.hashTable[i] != e then
        (SetEntry(t, p, t.entries[p].(next := t.entries[e].next)).(direct := direct), true)
      else (t.(hashTable := t.hashTable[i := t.entries[e].next], direct := direct), true)
  }

  /** Taking slot e out from behind slot p. */
  lemma {:induction false} CutChain(a: seq<Entry>, b: seq<Entry>, from: int, p: nat, e: nat)
    requires |a| == |b| && p < |a| && e < p && a[p].next == e && a[e].next < e && -1 <= a[e].next
    requires b == a[p := a[p].(next := a[e].next)]
    ensures forall x: nat {:trigger x in Chain(b, from)} ::
      x in Chain(b, from) <==> x in Chain(a, from) && (p in Chain(a, from) ==> x != e)
    decreases from
  {
    if 0 <= from < |a| {
      if from == p {
        LowerChain(a, a[e].next, e);
        ChainFrame(a, b, a[e].next) by {
          LowerChain(a, a[e].next, p);
        }
        LowerChain(a, e, p);
        assert Chain(a, from) == [p] + ([e] + Chain(a, a[e].next));
        assert Chain(b, from) == [p] + Chain(a, a[e].next);
      } else if a[from].next < from {
        CutChain(a, b, a[from].next, p, e);
        assert Chain(a, from) == [from] + Chain(a, a[from].next);
        assert Chain(b, from) == [from] + Chain(b, a[from].next);
        if from == e {
          LowerChain(a, a[from].next, e);
        }
      }
    }
  }

  lemma LowerChain(a: seq<Entry>, from: int, x: nat)
    requires from < x
    ensures x !in Chain(a, from)
  {
  }

  lemma {:induction false} BeforeIs(entries: seq<Entry>, from: int, e: nat)
    requires e in Chain(entries, from) && from != e
    ensures var p := Before(entries, from, e);
      0 <= p < |entries| && p in Chain(entries, from) && entries[p].next == e && e < p
    decreases from
  {
    if entries[from].next != e {
      BeforeIs(entries, entries[from].next, e);
    }
  }

  /** Only the first entry of a chain has none before it. */
  lemma BeforeInBucket(t: Table, hash: Key -> nat, key: Key)
    requires Valid(t, hash) && Slot(t, hash, key) >= 0
    ensures var i := Bucket(t, hash(key));
      Before(t.entries, t.hashTable[i], Slot(t, hash, key)) < 0 ==> t.hashTable[i] == Slot(t, hash, key)
  {
    SlotIs(t, hash, key);
    var i := Bucket(t, hash(key));
    var e := Slot(t, hash, key);
    assert e in ChainAt(t, i);
    if t.hashTable[i] != e {
      BeforeIs(t.entries, t.hashTable[i], e);
    }
  }

  ghost predicate Unlinks(t: Table, hash: Key -> nat, key: Key, e: nat, t2: Table) {
    Valid(t, hash) && Slot(t, hash, key) == e && t2 == Unlink(t, hash, key).0
  }

  lemma UnlinkChains(t: Table, hash: Key -> nat, key: Key, e: nat, t2: Table, j: nat, x: nat)
    requires Unlinks(t, hash, key, e, t2) && j < |t.hashTable|
    ensures x in ChainAt(t2, j) <==> x in ChainAt(t, j) && x != e
  {
    SlotIs(t, hash, key);
    var i := Bucket(t, hash(key));
    assert e in ChainAt(t, i);
    assert e in ChainAt(t, j) ==> j == i;
    var from := t.hashTable[i];
    if from == e {
      LowerChain(t.entries, t.entries[e].next, e);
    } else {
      BeforeIs(t.entries, from, e);
      var p := Before(t.entries, from, e);
      CutChain(t.entries, t2.entries, t.hashTable[j], p, e);
      assert p in ChainAt(t, i);
      assert p in ChainAt(t, j) ==> j == i;
    }
  }

  lemma UnlinkLinks(t: Table, hash: Key -> nat, key: Key, e: nat, t2: Table, x: nat)
    requires Unlinks(t, hash, key, e, t2)
    ensures Linked(t2, x) <==> Linked(t, x) && x != e
  {
    if x < |t.entries| {
      UnlinkChains(t, hash, key, e, t2, Bucket(t, t.entries[x].hashValue), x);
    }
  }

  lemma UnlinkDown(t: Table, hash: Key -> nat, key: Key, e: nat, t2: Table)
    requires Unlinks(t, hash, key, e, t2)
    ensures ChainsDown(t2, hash) && AliasesDirect(t2)
  {
    UnlinkNext(t, hash, key, e, t2);
    forall x: nat | x < |t.entries| ensures t2.entries[x] == t.entries[x].(next := t2.entries[x].next) {
      UnlinkFields(t, hash, key, e, t2, x);
    }
    forall j: nat, x: nat | j < |t.hashTable| && x in ChainAt(t2, j)
      ensures x < t2.num && Bucket(t2, t2.entries[x].hashValue) == j
    {
      UnlinkChains(t, hash, key, e, t2, j, x);
      assert x in ChainAt(t, j);
    }
  }

  lemma UnlinkNext(t: Table, hash: Key -> nat, key: Key, e: nat, t2: Table)
    requires Unlinks(t, hash, key, e, t2)
    ensures forall x {:trigger t2.entries[x]} :: 0 <= x < t.num ==> -1 <= t2.entries[x].next < x
    ensures |t2.hashTable| == |t.hashTable| && t2.num == t.num && |t2.entries| == |t.entries|
    ensures forall i {:trigger t2.hashTable[i]} :: 0 <= i < |t.hashTable| ==> -1 <= t2.hashTable[i] < t.num
  {
    SlotIs(t, hash, key);
    var i := Bucket(t, hash(key));
    assert e in ChainAt(t, i);
    if t.hashTable[i] != e {
      BeforeIs(t.entries, t.hashTable[i], e);
    }
  }

  lemma UnlinkCount(t: Table, hash: Key -> nat, key: Key, e: nat, t2: Table, a: set<nat>, b: set<nat>)
    requires Unlinks(t, hash, key, e, t2) && a == LinkedDirect(t) && b == LinkedDirect(t2)
    ensures |b| == t2.direct
  {
    SlotIs(t, hash, key);
    forall x: nat | x != e ensures x in a <==> x in b {
      InLinkedDirect(t, x);
      InLinkedDirect(t2, x);
      UnlinkLinks(t, hash, key, e, t2, x);
    }
    InLinkedDirect(t, e);
    InLinkedDirect(t2, e);
    UnlinkLinks(t, hash, key, e, t2, e);
    CountSets(a, b, e);
  }

  lemma UnlinkOneEach(t: Table, hash: Key -> nat, key: Key, e: nat, t2: Table)
    requires Unlinks(t, hash, key, e, t2)
    ensures OneEach(t2)
  {
    forall a: nat, b: nat | Linked(t2, a) && Linked(t2, b) && t2.entries[a].key == t2.entries[b].key ensures a == b {
      UnlinkLinks(t, hash, key, e, t2, a);
      UnlinkLinks(t, hash, key, e, t2, b);
      UnlinkFields(t, hash, key, e, t2, a);
      UnlinkFields(t, hash, key, e, t2, b);
    }
  }

  lemma UnlinkValid(t: Table, hash: Key -> nat, key: Key, e: nat, t2: Table)
    requires Unlinks(t, hash, key, e, t2)
    ensures Valid(t2, hash)
  {
    UnlinkDown(t, hash, key, e, t2);
    UnlinkCount(t, hash, key, e, t2, LinkedDirect(t), LinkedDirect(t2));
    UnlinkOneEach(t, hash, key, e, t2);
  }

  /** Unlinking a key removes that key and nothing else. */
  lemma UnlinkSeen(t: Table, hash: Key -> nat, key: Key)
    requires Valid(t, hash)
    ensures var (t2, ok) := Unlink(t, hash, key);
      && (ok <==> FindEntry(t, hash, key) >= 0) && (!ok ==> t2 == t)
      && Valid(t2, hash) && OthersSame(t, t2, hash, key) && FindEntry(t2, hash, key) == -1
      && forall k: Key {:trigger Find(t2, hash, k)} :: k != key ==> Find(t2, hash, k) == Find(t, hash, k)
  {
    var (t2, ok) := Unlink(t, hash, key);
    SlotIs(t, hash, key);
    FindEntryIs(t, hash, key);
    if ok {
      var e := Slot(t, hash, key);
      UnlinkValid(t, hash, key, e, t2);
      SlotIsNot(t, hash, key, e, t2);
      forall k: Key | k != key
        ensures FindEntry(t2, hash, k) == FindEntry(t, hash, k) && Find(t2, hash, k) == Find(t, hash, k)
      {
        UnlinkFinds(t, hash, key, e, t2, k);
      }
    }
  }

  lemma SlotIsNot(t: Table, hash: Key -> nat, key: Key, e: nat, t2: Table)
    requires Unlinks(t, hash, key, e, t2) && Valid(t2, hash)
    ensures Slot(t2, hash, key) == -1
  {
    SlotIs(t, hash, key);
    SlotIs(t2, hash, key);
    forall x: nat | Linked(t2, x) ensures t2.entries[x].key != key {
      UnlinkLinks(t, hash, key, e, t2, x);
      UnlinkFields(t, hash, key, e, t2, x);
    }
  }

  /** Entries keep everything but their place on the chain. */
  lemma UnlinkFields(t: Table, hash: Key -> nat, key: Key, e: nat, t2: Table, x: nat)
    requires Unlinks(t, hash, key, e, t2) && x < |t.entries|
    ensures |t2.entries| == |t.entries| && t2.entries[x] == t.entries[x].(next := t2.entries[x].next) && t2.num == t.num
  {
  }

  lemma UnlinkFinds(t: Table, hash: Key -> nat, key: Key, e: nat, t2: Table, k: Key)
    requires Unlinks(t, hash, key, e, t2) && Valid(t2, hash) && k != key
    ensures FindEntry(t2, hash, k) == FindEntry(t, hash, k) && Find(t2, hash, k) == Find(t, hash, k)
  {
    SlotIs(t, hash, key);
    forall x: nat | x < |t.entries|
      ensures t2.entries[x] == t.entries[x].(next := t2.entries[x].next) && (Linked(t2, x) <==> Linked(t, x) && x != e)
    {
      UnlinkLinks(t, hash, key, e, t2, x);
      UnlinkFields(t, hash, key, e, t2, x);
    }
    UnlinkFindsSame(t, hash, key, e, t2, k);
  }

  lemma UnlinkSlot(t: Table, hash: Key -> nat, key: Key, e: nat, t2: Table, k: Key)
    requires Chained(t, hash) && Chained(t2, hash) && k != key && |t2.entries| == |t.entries|
    requires e < |t.entries| && t.entries[e].key == key
    requires forall x: nat {:trigger t2.entries[x]} :: x < |t.entries| ==>
      t2.entries[x] == t.entries[x].(next := t2.entries[x].next) && (Linked(t2, x) <==> Linked(t, x) && x != e)
    ensures Slot(t2, hash, k) == Slot(t, hash, k)
  {
    forall x: nat | x < |t.entries| && t.entries[x].key == k && Linked(t, x)
      ensures Linked(t2, x) && t2.entries[x].key == k
    {
      assert t2.entries[x] == t.entries[x].(next := t2.entries[x].next);
    }
    forall x: nat | x < |t.entries| && t2.entries[x].key == k && Linked(t2, x)
      ensures Linked(t, x) && t.entries[x].key == k
    {
      assert t2.entries[x] == t.entries[x].(next := t2.entries[x].next);
    }
    SameSlots(t, t2, hash, k);
  }

  lemma UnlinkFindsSame(t: Table, hash: Key -> nat, key: Key, e: nat, t2: Table, k: Key)
    requires Valid(t, hash) && Valid(t2, hash) && k != key && Linked(t, e) && t.entries[e].key == key
    requires |t2.entries| == |t.entries|
    requires forall x: nat {:trigger t2.entries[x]} :: x < |t.entries| ==>
      t2.entries[x] == t.entries[x].(next := t2.entries[x].next) && (Linked(t2, x) <==> Linked(t, x) && x != e)
    ensures FindEntry(t2, hash, k) == FindEntry(t, hash, k) && Find(t2, hash, k) == Find(t, hash, k)
  {
    UnlinkSlot(t, hash, key, e, t2, k);
    SlotIs(t, hash, k);
  }

  // ---- the table in memory

  const PRIMES: seq<nat> := [5, 11, 19, 53, 107, 223, 463, 983, 1979, 3907, 7963, 16229, 32531, 65407, 130987, 262237,
    524521, 1048793]

  /** The table size is the first listed prime that is large enough, or the size asked for if none is. */
  ghost predicate Rounds(asked: nat, size: nat) {
    || (exists i :: 0 <= i < |PRIMES| && size == PRIMES[i] && asked <= size && forall j :: 0 <= j < i ==>
          PRIMES[j] < asked)
    || (size == asked && forall j :: 0 <= j < |PRIMES| ==> PRIMES[j] < asked)
  }

  class SharedHash {
    const hash: Key -> nat
    var hashTable: array<int>
    var entries: array<Entry>
    var num: nat
    var direct: int

    ghost function View(): Table
      reads this, hashTable, entries
    {
      Table(hashTable[..], entries[..], num, direct)
    }

    ghost predicate Sound()
      reads this, hashTable, entries
    {
      Valid(View(), hash)
    }

    /** zend_accel_hash_init */
    constructor (asked: nat, hash: Key -> nat)
      ensures Sound() && fresh(hashTable) && fresh(entries) && this.hash == hash
      ensures Rounds(asked, entries.Length) && num == 0
      ensures forall k: Key {:trigger FindEntry(View(), hash, k)} :: FindEntry(View(), hash, k) == -1
    {
      var size, i := asked, 0;
      while i < |PRIMES|
        invariant 0 <= i <= |PRIMES| && forall j :: 0 <= j < i ==> PRIMES[j] < asked
        invariant size == asked && (i > 0 ==> asked > 5)
      {
        if size <= PRIMES[i] {
          size := PRIMES[i];
          break;
        }
        i := i + 1;
      }
      this.hash := hash;
      num, direct := 0, 0;
      hashTable := new int[size](_ => -1);
      entries := new Entry[size](_ => Entry(0, "", -1, 0, false));
      new;
      EmptyIs(View(), hash);
    }

    /** zend_accel_hash_clean */
    method Clean()
      requires Sound()
      modifies this, hashTable
      ensures Sound() && num == 0 && entries == old(entries) && hashTable == old(hashTable)
      ensures forall k: Key {:trigger FindEntry(View(), hash, k)} :: FindEntry(View(), hash, k) == -1
    {
      num, direct := 0, 0;
      forall i | 0 <= i < hashTable.Length {
        hashTable[i] := -1;
      }
      EmptyIs(View(), hash);
    }

    /** The search loop. */
    method Lookup(key: Key) returns (entry: int)
      requires Sound()
      ensures entry == Slot(View(), hash, key)
    {
      var hashValue := hash(key);
      entry := hashTable[hashValue % hashTable.Length];
      while entry >= 0 && !(entries[entry].hashValue == hashValue && entries[entry].key == key)
        invariant -1 <= entry < num && Search(View().entries, entry, hashValue, key) == Slot(View(), hash, key)
        decreases entry
      {
        assert View().entries[entry] == entries[entry];
        entry := entries[entry].next;
      }
    }

    /** zend_accel_hash_find_entry */
    method FindCell(key: Key) returns (e: int)
      requires Sound()
      ensures e == FindEntry(View(), hash, key)
    {
      ghost var t := View();
      SlotIs(t, hash, key);
      e := Lookup(key);
      if e >= 0 && entries[e].indirect {
        assert t.entries[e] == entries[e];
        e := entries[e].data;
      }
    }

    /** zend_accel_hash_find */
    method FindData(key: Key) returns (data: Option<int>)
      requires Sound()
      ensures data == Find(View(), hash, key)
    {
      SlotIs(View(), hash, key);
      FindEntryIs(View(), hash, key);
      var e := Lookup(key);
      if e < 0 {
        data := None;
      } else if entries[e].indirect {
        assert View().entries[e] == entries[e];
        data := Some(entries[entries[e].data].data);
      } else {
        data := Some(entries[e].data);
      }
    }

    /** From an indirect entry to the direct one behind it. */
    method FollowAlias(e: nat) returns (target: nat)
      requires Sound() && e < num
      ensures target == Resolve(View(), e) && target < num
    {
      target := e;
      while entries[target].indirect
        invariant target < num && Resolve(View(), target) == Resolve(View(), e)
        decreases entries[target].indirect
      {
        assert View().entries[target] == entries[target];
        target := entries[target].data;
      }
      assert View().entries[target] == entries[target];
    }

    /** New contents for the entry of a key that exists. */
    method Overwrite(entry: nat, indirect: bool, data: int)
      requires Sound() && entry < num
      modifies this`direct, entries
      ensures var t := old(View());
        View() == if indirect then SetEntry(t, entry, t.entries[entry].(data := data,
          indirect := true)).(direct := if t.entries[entry].indirect then t.direct else t.direct - 1)
                  else SetEntry(t, Resolve(t, entry), t.entries[Resolve(t, entry)].(data := data))
    {
      assert View().entries[entry] == entries[entry];
      if entries[entry].indirect {
        if indirect {
          entries[entry] := entries[entry].(data := data);
        } else {
          var cell := entries[entry].data;
          entries[cell] := entries[cell].(data := data);
        }
      } else if indirect {
        direct := direct - 1;
        entries[entry] := entries[entry].(data := data, indirect := true);
      } else {
        entries[entry] := entries[entry].(data := data);
      }
    }

    /** zend_accel_hash_update; -1 is NULL, for a full table. */
    method Store(key: Key, indirect: bool, data: int) returns (entry: int)
      requires Sound() && (indirect ==> 0 <= data < num)
      modifies this, hashTable, entries
      ensures hashTable == old(hashTable) && entries == old(entries)
      ensures (View(), entry) == old(UpdateAny(View(), hash, key, indirect, data))
      ensures old(NoRoomFor(View(), hash, key)) ==> View() == old(View()) && entry == -1
      ensures !old(NoRoomFor(View(), hash, key)) ==> 0 <= entry == Slot(View(), hash, key)
      ensures !old(NoRoomFor(View(), hash, key)) ==>
        if indirect then NameStored(old(View()), hash, key, data, View())
        else DataStored(old(View()), hash, key, data, View())
    {
      ghost var t := View();
      entry := StoreInto(key, indirect, data);
      StoreSeen(t, hash, key, indirect, data, View(), entry);
    }

    method StoreInto(key: Key, indirect: bool, data: int) returns (entry: int)
      requires Sound() && (indirect ==> 0 <= data < num)
      modifies this, hashTable, entries
      ensures hashTable == old(hashTable) && entries == old(entries)
      ensures (View(), entry) == old(UpdateAny(View(), hash, key, indirect, data))
    {
      var target := data;
      if indirect {
        target := FollowAlias(data);
      }
      SlotIs(View(), hash, key);
      entry := Lookup(key);
      if entry >= 0 {
        Overwrite(entry, indirect, target);
      } else {
        entry := StoreNew(key, indirect, target);
      }
    }

    /** A key that does not exist, if there is room. */
    method StoreNew(key: Key, indirect: bool, data: int) returns (entry: int)
      requires hashTable.Length == entries.Length > 0 && num <= entries.Length
      modifies this, hashTable, entries
      ensures hashTable == old(hashTable) && entries == old(entries)
      ensures old(num) == entries.Length ==> View() == old(View()) && entry == -1
      ensures entry == if old(num) < entries.Length then old(num) else -1
      ensures old(num) < entries.Length ==>
        (View() == Push(old(View()), hash, key, data, indirect).(direct := View().direct)
         && direct == if indirect then old(direct) else old(direct) + 1)
    {
      if num == entries.Length {
        return -1;
      }
      if !indirect {
        direct := direct + 1;
      }
      entry := Append(key, indirect, data);
    }

    /** The next free entry is put in front of its chain. */
    method Append(key: Key, indirect: bool, data: int) returns (entry: int)
      requires hashTable.Length == entries.Length && num < entries.Length
      modifies this, hashTable, entries
      ensures hashTable == old(hashTable) && entries == old(entries) && entry == old(num)
      ensures View() == old(Push(View(), hash, key, data, indirect))
    {
      var index := hash(key) % hashTable.Length;
      entry := num;
      num := num + 1;
      entries[entry] := Entry(hash(key), key, hashTable[index], data, indirect);
      hashTable[index] := entry;
    }

    /** The search loop with the entry before. */
    method LookupBefore(key: Key) returns (entry: int, last: int)
      requires Sound()
      ensures entry == Slot(View(), hash, key)
      ensures var from := hashTable[hash(key) % hashTable.Length]; entry >= 0 ==>
        -1 <= last < num && if entry == from then last == -1 else last == Before(View().entries, from, entry)
    {
      var hashValue := hash(key);
      ghost var t := View();
      SlotIs(t, hash, key);
      var from := hashTable[hashValue % hashTable.Length];
      entry, last := from, -1;
      while entry >= 0 && !(entries[entry].hashValue == hashValue && entries[entry].key == key)
        invariant -1 <= entry < num && -1 <= last < num && entry <= from
        invariant Search(t.entries, entry, hashValue, key) == Slot(t, hash, key)
        invariant if last < 0 then last == -1 && entry == from else entries[last].next == entry && from > entry
        invariant last >= 0 && Slot(t, hash, key) >= 0 ==>
          Before(t.entries, from, Slot(t, hash, key)) == Before(t.entries, last, Slot(t, hash, key))
        decreases entry
      {
        assert t.entries[entry] == entries[entry];
        last := entry;
        entry := entries[entry].next;
      }
      if last >= 0 {
        assert t.entries[last] == entries[last];
      }
    }

    /** zend_accel_hash_unlink */
    method Remove(key: Key) returns (ok: bool)
      requires Sound()
      modifies this, hashTable, entries
      ensures hashTable == old(hashTable) && entries == old(entries)
      ensures (View(), ok) == old(Unlink(View(), hash, key))
    {
      ghost var t := View();
      SlotIs(t, hash, key);
      var entry, last := LookupBefore(key);
      ok := entry >= 0;
      if ok {
        BeforeInBucket(t, hash, key);
        CutOut(hash(key) % hashTable.Length, entry, last);
      }
    }

    /** An entry is taken out of its chain, from behind another one or from the front. */
    method CutOut(index: nat, entry: nat, last: int)
      requires index < hashTable.Length && entry < entries.Length && -1 <= last < entries.Length
      modifies this`direct, hashTable, entries
      ensures var t := old(View());
        var d := if t.entries[entry].indirect then t.direct else t.direct - 1;
        View() == if last >= 0 then SetEntry(t, last, t.entries[last].(next := t.entries[entry].next)).(direct := d)
                  else t.(hashTable := t.hashTable[index := t.entries[entry].next], direct := d)
    {
      if !entries[entry].indirect {
        direct := direct - 1;
      }
      if last >= 0 {
        entries[last] := entries[last].(next := entries[entry].next);
      } else {
        hashTable[index] := entries[entry].next;
      }
    }

    /** The restart of the include_path table. */
    method KeepFirst()
      requires Sound()
      modifies this, hashTable
      ensures hashTable == old(hashTable) && entries == old(entries) && View() == old(Cut(View(), hash))
    {
      if num > 1 {
        num, direct := 1, 1;
        forall i | 0 <= i < hashTable.Length {
          hashTable[i] := -1;
        }
        hashTable[hash(entries[0].key) % hashTable.Length] := 0;
      }
    }

    /** Registering an include path: its letter, or none if the table is full. */
    method RegisterPath(path: Key) returns (letter: Option<int>)
      requires Sound()
      modifies this, hashTable, entries
      ensures hashTable == old(hashTable) && entries == old(entries) && Sound()
      ensures View() == old(Register(View(), hash, path)) && letter == Find(View(), hash, path)
      ensures Registered(old(View()), hash, path, View())
    {
      ghost var t := View();
      letter := RegisterInto(path);
      RegisterSeen(t, hash, path, View());
    }

    method RegisterInto(path: Key) returns (letter: Option<int>)
      requires Sound()
      modifies this, hashTable, entries
      ensures hashTable == old(hashTable) && entries == old(entries) && Sound()
      ensures View() == old(Register(View(), hash, path)) && letter == Find(View(), hash, path)
    {
      ghost var t := View();
      UpdateSeen(t, hash, path, LETTER_A + num);
      FindEntryIs(t, hash, path);
      letter := FindData(path);
      if letter.None? && num < entries.Length {
        letter := Some(LETTER_A + num);
        var entry := StoreInto(path, false, LETTER_A + num);
      }
    }
  }

  lemma EmptyIs(t: Table, hash: Key -> nat)
    requires |t.hashTable| == |t.entries| > 0 && t.num == 0 && t.direct == 0
    requires forall i {:trigger t.hashTable[i]} :: 0 <= i < |t.hashTable| ==> t.hashTable[i] == -1
    ensures Valid(t, hash) && forall k: Key {:trigger FindEntry(t, hash, k)} :: FindEntry(t, hash, k) == -1
  {
    assert forall i: nat {:trigger ChainAt(t, i)} :: i < |t.hashTable| ==> ChainAt(t, i) == [];
    assert LinkedDirect(t) == {};
  }

  // ---- the include_path table

  /** The restart keeps only the first path: the chains are cleared and the first entry is put back, its next
      pointer untouched. */
  function Cut(t: Table, hash: Key -> nat): Table
    requires |t.entries| > 0 && |t.hashTable| > 0
  {
    if t.num <= 1 then t
    else
      var clear := seq(|t.hashTable|, i => -1);
      Table(clear[Bucket(t, hash(t.entries[0].key)) := 0], t.entries, 1, 1)
  }

  lemma CutChains(t: Table, hash: Key -> nat, t2: Table, i: nat)
    requires Valid(t, hash) && t.num > 1 && t2 == Cut(t, hash) && i < |t.hashTable|
    ensures ChainAt(t2, i) == if i == Bucket(t, hash(t.entries[0].key)) then [0] else []
  {
    assert t.entries[0].next == -1;
  }

  /** What is left is a well-formed table that finds exactly the first path. */
  lemma CutFindsFirst(t: Table, hash: Key -> nat)
    requires Valid(t, hash) && t.num > 0 && !t.entries[0].indirect && (t.num == 1 ==> Linked(t, 0))
    ensures var t2 := Cut(t, hash);
      Valid(t2, hash) && t2.num == 1 && Linked(t2, 0)
      && forall k: Key {:trigger Find(t2, hash, k)} ::
            Find(t2, hash, k) == if k == t.entries[0].key then Some(t.entries[0].data) else None
  {
    var t2 := Cut(t, hash);
    if t.num > 1 {
      forall x: nat ensures Linked(t2, x) <==> x == 0 {
        CutChains(t, hash, t2, Bucket(t, if x < |t.entries| then t.entries[x].hashValue else 0));
        CutChains(t, hash, t2, Bucket(t, t.entries[0].hashValue));
        assert t.entries[0].hashValue == hash(t.entries[0].key);
      }
      CutDown(t, hash, t2);
      assert LinkedDirect(t2) == {0};
    }
    assert t2.entries == t.entries;
    forall k: Key ensures Find(t2, hash, k) == if k == t.entries[0].key then Some(t.entries[0].data) else None {
      SlotIs(t2, hash, k);
      if k == t.entries[0].key {
        SlotByLinked(t2, hash, k, 0);
      }
    }
  }

  lemma CutDown(t: Table, hash: Key -> nat, t2: Table)
    requires Valid(t, hash) && t.num > 1 && t2 == Cut(t, hash)
    ensures ChainsDown(t2, hash)
  {
    forall i: nat, e: nat | i < |t2.hashTable| && e in ChainAt(t2, i)
      ensures e < t2.num && Bucket(t2, t2.entries[e].hashValue) == i
    {
      CutChains(t, hash, t2, i);
      assert t.entries[0].hashValue == hash(t.entries[0].key);
    }
  }

  // ---- the letters that stand for include paths

  const LETTER_A: nat := 65

  /** Entry e is a path whose letter is the one e places after 'A'. */
  ghost predicate Lettered(t: Table, hash: Key -> nat) {
    && Valid(t, hash)
    && (t.num == 1 ==> Linked(t, 0))
    && forall e {:trigger t.entries[e]} :: 0 <= e < t.num ==>
          !t.entries[e].indirect && t.entries[e].data == LETTER_A + e
  }

  /** Registering a path: found again, added with the next letter, or not added because the table is full. */
  function Register(t: Table, hash: Key -> nat, path: Key): Table
    requires Valid(t, hash)
  {
    if Find(t, hash, path).Some? || t.num == |t.entries| then t else Update(t, hash, path, LETTER_A + t.num).0
  }

  /** A path that was found keeps its letter; a new one is found afterwards under the next letter, unless the table was
      full; no other path is concerned. */
  ghost predicate Registered(t: Table, hash: Key -> nat, path: Key, t2: Table)
    requires |t.hashTable| > 0 && |t2.hashTable| > 0
  {
    && Valid(t2, hash)
    && (forall k: Key {:trigger Find(t2, hash, k)} :: k != path ==> Find(t2, hash, k) == Find(t, hash, k))
    && Find(t2, hash, path) ==
         if Find(t, hash, path).Some? then Find(t, hash, path)
         else if t.num == |t.entries| then None
         else Some(LETTER_A + t.num)
  }

  lemma RegisterSeen(t: Table, hash: Key -> nat, path: Key, t2: Table)
    requires Valid(t, hash) && t2 == Register(t, hash, path)
    ensures |t2.hashTable| > 0 && Registered(t, hash, path, t2)
  {
    if Find(t, hash, path).None? && t.num < |t.entries| {
      var (u, r) := Update(t, hash, path, LETTER_A + t.num);
      FindEntryIs(t, hash, path);
      RegisterNew(t, hash, path, u, r);
    }
  }

  lemma RegisterNew(t: Table, hash: Key -> nat, path: Key, t2: Table, r: int)
    requires Valid(t, hash) && FindEntry(t, hash, path) == -1 && t.num < |t.entries|
    requires (t2, r) == Update(t, hash, path, LETTER_A + t.num)
    ensures Valid(t2, hash) && Find(t2, hash, path) == Some(LETTER_A + t.num)
    ensures forall k: Key {:trigger Find(t2, hash, k)} :: k != path ==> Find(t2, hash, k) == Find(t, hash, k)
  {
    DataSeen(t, hash, path, LETTER_A + t.num, t2, r);
    SlotIs(t, hash, path);
    PushKeeps(t, hash, path, LETTER_A + t.num, false, t2);
    forall k: Key | k != path ensures Find(t2, hash, k) == Find(t, hash, k) {
      FindEntryIs(t, hash, k);
    }
  }

  datatype Turn = Registers(path: Key) | Restarts

  function Turned(t: Table, hash: Key -> nat, turn: Turn): Table
    requires Valid(t, hash)
  {
    match turn
    case Registers(path) => Register(t, hash, path)
    case Restarts => Cut(t, hash)
  }

  lemma TurnKeepsLetters(t: Table, hash: Key -> nat, turn: Turn)
    requires Lettered(t, hash)
    ensures Lettered(Turned(t, hash, turn), hash)
  {
    match turn
    case Registers(path) =>
      FindEntryIs(t, hash, path);
      if !Find(t, hash, path).Some? && t.num < |t.entries| {
        SlotIs(t, hash, path);
        var t2 := Register(t, hash, path);
        PushKeeps(t, hash, path, LETTER_A + t.num, false, t2);
        PushChained(t, hash, path, LETTER_A + t.num, false, t2);
        assert Linked(t2, t.num);
      }
    case Restarts =>
      if t.num > 1 {
        CutFindsFirst(t, hash);
      }
  }

  ghost predicate Letters(ts: seq<Table>, hash: Key -> nat, turns: seq<Turn>) {
    && |ts| == |turns| + 1 && ts[0].num == 0 && (forall i {:trigger ts[i]} :: 0 <= i < |ts| ==> Valid(ts[i], hash))
    && forall i, j {:trigger ts[i], ts[j]} :: 0 <= i < |turns| && j == i + 1 ==> ts[j] == Turned(ts[i], hash, turns[i])
  }

  lemma {:induction false} RunKeepsLetters(ts: seq<Table>, hash: Key -> nat, turns: seq<Turn>, n: nat)
    requires Letters(ts, hash, turns) && n <= |turns|
    ensures Lettered(ts[n], hash)
    decreases n
  {
    if n > 0 {
      RunKeepsLetters(ts, hash, turns, n - 1);
      var i := n - 1;
      assert ts[n] == Turned(ts[i], hash, turns[i]);
      TurnKeepsLetters(ts[i], hash, turns[i]);
    }
  }

  /** At any time, whatever was registered and however often the cache restarted, two paths that are found
      with the same letter are the same path. */
  lemma LettersDistinct(ts: seq<Table>, hash: Key -> nat, turns: seq<Turn>, n: nat, p: Key, q: Key)
    requires Letters(ts, hash, turns) && n <= |turns|
    requires Find(ts[n], hash, p).Some? && Find(ts[n], hash, p) == Find(ts[n], hash, q)
    ensures p == q && LETTER_A <= Find(ts[n], hash, p).value < LETTER_A + |ts[n].entries|
  {
    RunKeepsLetters(ts, hash, turns, n);
    FindEntryIs(ts[n], hash, p);
    FindEntryIs(ts[n], hash, q);
    SlotIs(ts[n], hash, p);
    SlotIs(ts[n], hash, q);
  }
}
