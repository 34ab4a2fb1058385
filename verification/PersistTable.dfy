/** zend_hash_persist and zend_persist_zval_ptr step by step. */
module PersistTable {
  import opened Alignment
  import opened PersistHash
  import opened PersistLinks
  import opened PersistNested
  import opened TableSteps
  import opened TablesMoved

  // ---- what the steps need

  lemma SinceStart(w: World, h0: Heap, h: Heap, t: nat)
    requires Fresh(h0, h)
    ensures Since(h.xlat, Order(w, t), h0.mem)
  {
  }

  /** The turn of the k-th bucket of table t, which is open. */
  ghost predicate Ready(w: World, h0: Heap, h: Heap, t: nat, k: nat, open: set<nat>, d: nat) {
    && Inv(w, h0, h, open) && t in open && IsTable(h0, t) && TableOf(w, h0, t) && Rank(w, t) <= d
    && Above(w, open, Rank(w, t)) && Progress(w.interned, h0, h, Order(w, t), k)
  }

  /** The bucket is there, and so is its key. */
  lemma KeyReady(w: World, h0: Heap, h: Heap, t: nat, k: nat, open: set<nat>, d: nat, q: nat)
    requires Ready(w, h0, h, t, k, open, d) && k < |Order(w, t)| && q == Order(w, t)[k]
    ensures q in h0.entries && q in h.entries && q !in h.xlat && Home(w, q) == t
    ensures h.entries[q] == Linked(h.xlat, h0.entries[q])
    ensures var e, r := h.entries[q], CopyEntry(w.size, h, q);
      h.mem in r.entries && r.entries[h.mem] == e
        && (e.key != 0 && !w.interned(e.key) ==> e.key in r.xlat || e.key in r.strings)
  {
    assert EntryNow(w.interned, h0, h, q, false);
    KeyThere(w, h0, q);
    StringThere(h0, h, h.entries[q].key);
  }

  lemma StringThere(h0: Heap, h: Heap, a: nat)
    requires ContentsKept(h0, h)
    ensures a in h0.strings ==> a in h.xlat || a in h.strings
  {
  }

  /** When its key has been copied, its data is there. */
  lemma DataReady(w: World, h0: Heap, h: Heap, t: nat, k: nat, open: set<nat>, d: nat, q: nat)
    requires Ready(w, h0, h, t, k, open, d) && k < |Order(w, t)| && q == Order(w, t)[k] && q in h.entries
    ensures var r := CopyKey(w.interned, w.size, CopyEntry(w.size, h, q), h.mem);
      h.mem in r.entries && DataFits(w, h0, r, h.mem, q, open, d)
  {
    KeyReady(w, h0, h, t, k, open, d, q);
    KeyedKeeps(w, h0, h, q, open);
    DataRank(w, h0, t, k, open);
    var r := CopyKey(w.interned, w.size, CopyEntry(w.size, h, q), h.mem);
    assert h.xlat[q := h.mem][q] == h.mem;
    assert r.xlat[q] == h.mem;
  }

  ghost predicate DataFits(w: World, h0: Heap, h: Heap, p: nat, q: nat, open: set<nat>, d: nat)
    requires p in h.entries
  {
    && Inv(w, h0, h, open) && h0.mem <= p < h.mem && q in h.xlat && h.xlat[q] == p && Home(w, q) in open
    && var e := h.entries[p];
       if e.inside then e.data in h0.zvals && Rank(w, e.data) <= d && Above(w, open, Rank(w, e.data))
         else e.data in h0.blocks
  }

  /** The bucket that has just been moved leads to the next one that has not. */
  lemma NextToMove(interned: nat -> bool, h0: Heap, r: Heap, order: seq<nat>, k: nat)
    requires Fresh(h0, r) && Table(h0, order) && Progress(interned, h0, r, order, k + 1) && k < |order|
    ensures order[k] in r.xlat && r.xlat[order[k]] in r.entries
    ensures r.entries[r.xlat[order[k]]].listNext == if k + 1 < |order| then order[k + 1] else 0
  {
    assert EntryNow(interned, h0, r, order[k], true);
    if k + 1 < |order| {
      assert EntryNow(interned, h0, r, order[k + 1], false);
    }
  }

  lemma BucketDone(w: World, h0: Heap, h: Heap, t: nat, k: nat, open: set<nat>, d: nat, q: nat) returns (r: Heap)
    requires Ready(w, h0, h, t, k, open, d) && k < |Order(w, t)| && q == Order(w, t)[k]
    ensures q in h.entries && r == MoveEntry(w, h, q, d)
    ensures Ready(w, h0, r, t, k + 1, open, d) && h.mem in r.entries
    ensures r.entries[h.mem].listNext == if k + 1 < |Order(w, t)| then Order(w, t)[k + 1] else 0
  {
    r := MoveEntry(w, h, q, d);
    SinceStart(w, h0, h, t);
    KeyReady(w, h0, h, t, k, open, d, q);
    MoveKeeps(w, h0, h, t, k, open, d, h0.mem, q);
    PlaceOf(w, h0, h, t, k, open, d, q);
    NextToMove(w.interned, h0, MoveEntry(w, h, q, d), Order(w, t), k);
  }

  lemma BucketLinks(w: World, h0: Heap, h: Heap, t: nat, k: nat, open: set<nat>, d: nat, q: nat) returns (m: Heap,
          r: Heap)
    requires Ready(w, h0, h, t, k, open, d) && k < |Order(w, t)| && q == Order(w, t)[k]
    ensures q in h.entries && m == CopyBucket(w, h, q, d) && r == MoveEntry(w, h, q, d)
    ensures q != h.mem && h.mem in m.entries && Neighbours(m.entries, h.mem)
    ensures r == m.(entries := Relink(m.entries, h.mem) - {q})
    ensures h.mem in r.entries && r.entries[h.mem] == m.entries[h.mem]
  {
    m, r := CopyBucket(w, h, q, d), MoveEntry(w, h, q, d);
    KeyReady(w, h0, h, t, k, open, d, q);
    HalfMove(w, h0, h, t, k, open, d, q);
    MovedNeighbours(w, t, h0, h, Order(w, t), k, m);
    RelinkAt(m.entries, h.mem, h.mem);
  }

  lemma PlaceOf(w: World, h0: Heap, h: Heap, t: nat, k: nat, open: set<nat>, d: nat, q: nat)
    requires Ready(w, h0, h, t, k, open, d) && k < |Order(w, t)| && q == Order(w, t)[k] && q in h.entries
    ensures q in MoveEntry(w, h, q, d).xlat && MoveEntry(w, h, q, d).xlat[q] == h.mem
  {
    HalfMove(w, h0, h, t, k, open, d, q);
    WorkingPlace(w, t, h0, h, Order(w, t), k, CopyBucket(w, h, q, d));
  }

  lemma WorkingPlace(w: World, t: nat, h0: Heap, h: Heap, order: seq<nat>, k: nat, m: Heap)
    requires Working(w, t, h0, h, order, k, m)
    ensures order[k] in m.xlat && m.xlat[order[k]] == h.mem
  {
    assert h.xlat[order[k] := h.mem][order[k]] == h.mem;
  }

  lemma ZvalCopiedAt(w: World, h0: Heap, h: Heap, z: nat, open: set<nat>, d: nat)
    requires Inv(w, h0, h, open) && z in h0.zvals && Rank(w, z) <= d && Above(w, open, Rank(w, z))
    ensures Translate(CopyZval(w, h, z, d).xlat, z) == if z in h.xlat then h.xlat[z] else h.mem
  {
    var r := CopyZvalKeeps(w, h0, h, z, open, d);
    assert z in r.xlat;
  }

  lemma ZvalThere(w: World, h0: Heap, h: Heap, z: nat, open: set<nat>)
    requires Inv(w, h0, h, open) && z in h0.zvals && z !in h.xlat
    ensures z in h.zvals && h.zvals[z] == h0.zvals[z] && h.mem !in h.zvals && z != h.mem
    ensures h.zvals[z].Chars? && !w.interned(h.zvals[z].val) ==> h.zvals[z].val in h.xlat || h.zvals[z].val in h.strings
  {
    if h0.zvals[z].Chars? && !w.interned(h0.zvals[z].val) {
      StringThere(h0, h, h0.zvals[z].val);
    }
  }

  /** A table in an array zval that has been stored, ready to be persisted. */
  lemma ArrayReady(w: World, h0: Heap, h: Heap, z: nat, t: nat, open: set<nat>, d: nat, u: Heap)
    requires Inv(w, h0, h, open) && z in h0.zvals && z !in h.xlat && h0.zvals[z] == Arr(t) && z in h.zvals
    requires Rank(w, z) <= d + 1 && Above(w, open, Rank(w, z))
    requires u == StoreTable(w.size, StoreZval(w.size, h, z), h.mem, t)
    ensures TableFits(w, h0, u, t, Translate(u.xlat, t), open + {t}, d)
  {
    AboveMore(w, h0, z, t, open);
    TableOpened(w, h0, h, z, t, open, u, h.mem + Aligned(w.size(z)));
    assert u.xlat[t] == h.mem + Aligned(w.size(z));
  }

  /** The table at a can be persisted. */
  ghost predicate TableFits(w: World, h0: Heap, h: Heap, t: nat, a: nat, open: set<nat>, d: nat) {
    && Inv(w, h0, h, open) && t in open && IsTable(h0, t) && Begun(w, h0, h, t, a) && a == Translate(h.xlat, t)
    && Rank(w, t) <= d && Above(w, open, Rank(w, t)) && (a == t || h0.mem <= a)
  }

  lemma LoopStarts(w: World, h0: Heap, h: Heap, t: nat, a: nat, open: set<nat>, d: nat)
    requires TableFits(w, h0, h, t, a, open, d)
    ensures Ready(w, h0, h, t, 0, open, d) && a in h.parts && h.parts[a] == h0.parts[t]
    ensures h.parts[a].listHead == if Order(w, t) == [] then 0 else Order(w, t)[0]
  {
    assert TableOf(w, h0, t) by { assert Order(w, t) == Order(w, t); }
    NothingMoved(w, h0, h, t, h0.mem);
  }

  lemma LoopEnds(w: World, h0: Heap, h: Heap, t: nat, a: nat, open: set<nat>, d: nat)
    requires TableFits(w, h0, h, t, a, open, d)
    ensures Looped(w, h0, MoveAll(w, h, Order(w, t), 0, d), t, a)
  {
    LoopStarts(w, h0, h, t, a, open, d);
    SinceStart(w, h0, h, t);
    MoveAllKeeps(w, h0, h, t, 0, open, d, h0.mem, h.mem);
    AfterLoop(w, h0, h, MoveAll(w, h, Order(w, t), 0, d), t, a, open);
  }

  class Persister {
    const interned: nat -> bool
    const size: nat -> nat
    ghost const order: map<nat, seq<nat>>
    ghost const home: map<nat, nat>
    ghost const rank: map<nat, nat>
    var entries: map<nat, Entry>
    var parts: map<nat, Part>
    var strings: map<nat, string>
    var zvals: map<nat, Value>
    var blocks: map<nat, int>
    var xlat: map<nat, nat>
    var mem: nat

    ghost function State(): Heap
      reads this
    {
      Heap(entries, parts, strings, zvals, blocks, xlat, mem)
    }

    ghost function W(): World { World(interned, size, order, home, rank) }

    constructor (interned: nat -> bool, size: nat -> nat, ghost order: map<nat, seq<nat>>, ghost home: map<nat, nat>,
                 ghost rank: map<nat, nat>, h: Heap)
      ensures W() == World(interned, size, order, home, rank) && State() == h
    {
      this.interned, this.size, this.order, this.home, this.rank := interned, size, order, home, rank;
      entries, parts, strings, zvals, blocks := h.entries, h.parts, h.strings, h.zvals, h.blocks;
      xlat, mem := h.xlat, h.mem;
    }

    /** _zend_shared_memdup: room at the cursor, and the entry in the translation table. */
    method Reserve(source: nat) returns (retval: nat)
      modifies `xlat, `mem
      ensures retval == old(mem) && mem == old(mem) + Aligned(size(source)) && xlat == old(xlat)[source := old(mem)]
    {
      retval := mem;
      mem := mem + Aligned(size(source));
      xlat := xlat[source := retval];
    }

    method DupString(source: nat, free: bool) returns (retval: nat)
      modifies this
      ensures State() == CopyString(size, old(State()), source, free)
      ensures source in old(xlat) || source in old(strings) ==> retval == Translate(xlat, source)
    {
      retval := source;
      if source in xlat { return xlat[source]; }
      if source in strings {
        var content := strings[source];
        retval := Reserve(source);
        strings := strings[retval := content];
        if free { strings := strings - {source}; }
      }
    }

    method StoreBlock(source: nat) returns (retval: nat)
      modifies this
      ensures State() == CopyBlock(size, old(State()), source)
      ensures retval == Translate(xlat, source)
    {
      retval := source;
      if source in xlat { return xlat[source]; }
      if source in blocks {
        var content := blocks[source];
        retval := Reserve(source);
        blocks := blocks[retval := content] - {source};
      }
    }

    method StorePartAt(source: nat) returns (retval: nat)
      modifies this
      ensures State() == StorePart(size, old(State()), source)
      ensures retval == Translate(xlat, source)
    {
      retval := source;
      if source in xlat { return xlat[source]; }
      if source in parts {
        var content := parts[source];
        retval := Reserve(source);
        parts := parts[retval := content] - {source};
      }
    }

    method StoreZvalAt(zp: nat) returns (r: nat)
      requires zp in zvals && zp !in xlat
      modifies this
      ensures r == old(mem) && State() == StoreZval(size, old(State()), zp)
    {
      var v := zvals[zp];
      r := Reserve(zp);
      zvals := zvals[r := v] - {zp};
    }

    /** zend_persist_zval, for a string */
    method PersistChars(z: nat)
      requires z in zvals && zvals[z].Chars? && (zvals[z].val in xlat || zvals[z].val in strings)
      modifies this
      ensures State() == StoreChars(size, old(State()), z, old(zvals)[z].val)
    {
      var s := zvals[z].val;
      var copy := DupString(s, true);
      zvals := zvals[z := Chars(copy)];
    }

    /** zend_persist_zval, for an array; h is the memory before the zval was stored. */
    method PersistArray(z: nat, ghost h0: Heap, ghost h: Heap, ghost zp: nat, ghost open: set<nat>, ghost d: nat)
      requires zp in h.zvals && State() == StoreZval(size, h, zp) && z == h.mem && z in zvals && zvals[z].Arr?
      requires Inv(W(), h0, h, open) && zp in h0.zvals && zp !in h.xlat && h0.zvals[zp] == zvals[z]
      requires Rank(W(), zp) <= d + 1 && Above(W(), open, Rank(W(), zp))
      modifies this
      ensures State() == CopyTable(W(), h, zp, old(zvals)[z].table, d)
      decreases d, 7
    {
      var t := zvals[z].table;
      var copy := StorePartAt(t);
      zvals := zvals[z := Arr(copy)];
      assert State() == StoreTable(size, old(State()), z, t);
      ArrayReady(W(), h0, h, zp, t, open, d, State());
      HashPersist(copy, h0, t, open + {t}, d);
    }

    /** zend_persist_zval_ptr: what *zp is made to point to */
    method PersistZvalPtr(zp: nat, ghost h0: Heap, ghost open: set<nat>, ghost d: nat) returns (r: nat)
      requires Inv(W(), h0, State(), open) && zp in h0.zvals
      requires Rank(W(), zp) <= d && Above(W(), open, Rank(W(), zp))
      modifies this
      ensures State() == CopyZval(W(), old(State()), zp, d)
      ensures r == if zp in old(xlat) then old(xlat)[zp] else old(mem)
      decreases d, 0
    {
      if zp in xlat {
        r := xlat[zp];
      } else {
        ZvalThere(W(), h0, State(), zp, open);
        r := StoreZvalAt(zp);
        match zvals[r]
        case Other(_) =>
        case Chars(s) => if !interned(s) { PersistChars(r); }
        case Arr(t) =>
          AboveMore(W(), h0, zp, t, open);
          PersistArray(r, h0, old(State()), zp, open, d - 1);
      }
    }

    method PersistKey(p: nat)
      requires p in entries
      requires var key := entries[p].key; key != 0 && !interned(key) ==> key in xlat || key in strings
      modifies this
      ensures State() == CopyKey(interned, size, old(State()), p)
    {
      var key := entries[p].key;
      if key != 0 && !interned(key) {
        var copy := DupString(key, false);
        entries := entries[p := entries[p].(key := copy)];
      }
    }

    /** The data pointer of the bucket at p, and what it points to. */
    method PersistData(p: nat, ghost h0: Heap, ghost q: nat, ghost open: set<nat>, ghost d: nat)
      requires p in entries && DataFits(W(), h0, State(), p, q, open, d)
      modifies this
      ensures State() == CopyData(W(), old(State()), p, d)
      decreases d, 1
    {
      var e, copy := entries[p], 0;
      if !e.inside {
        copy := StoreBlock(e.data);
      } else {
        ZvalCopiedAt(W(), h0, State(), e.data, open, d);
        copy := PersistZvalPtr(e.data, h0, open, d);
      }
      entries := entries[p := e.(data := copy)];
    }

    /** update linked lists */
    method UpdateNeighbours(p: nat)
      requires p in entries && Neighbours(entries, p)
      modifies `entries
      ensures entries == Relink(old(entries), p)
    {
      if entries[p].last != 0 {
        entries := entries[entries[p].last := entries[entries[p].last].(next := p)];
      }
      if entries[p].next != 0 {
        entries := entries[entries[p].next := entries[entries[p].next].(last := p)];
      }
      if entries[p].listLast != 0 {
        entries := entries[entries[p].listLast := entries[entries[p].listLast].(listNext := p)];
      }
      if entries[p].listNext != 0 {
        entries := entries[entries[p].listNext := entries[entries[p].listNext].(listLast := p)];
      }
    }

    method DupBucket(q: nat) returns (p: nat)
      requires q in entries
      modifies this
      ensures p == old(mem) && State() == CopyEntry(size, old(State()), q)
    {
      var bucket := entries[q];
      p := Reserve(q);
      entries := entries[p := bucket];
    }

    /** The bucket itself, its key and its data. */
    method PersistContents(q: nat, ghost h0: Heap, ghost t: nat, ghost k: nat, ghost open: set<nat>, ghost d: nat)
      returns (p: nat)
      requires Ready(W(), h0, State(), t, k, open, d) && k < |Order(W(), t)| && q == Order(W(), t)[k] && q in entries
      modifies this
      ensures p == old(mem) && State() == PersistNested.CopyBucket(W(), old(State()), q, d)
      decreases d, 2
    {
      KeyReady(W(), h0, State(), t, k, open, d, q);
      DataReady(W(), h0, State(), t, k, open, d, q);
      p := DupBucket(q);
      PersistKey(p);
      PersistData(p, h0, q, open, d);
    }

    /** The neighbours now lead to the copy, and the old bucket is freed. */
    method LinkTo(p: nat, q: nat) returns (next: nat)
      requires p in entries && Neighbours(entries, p) && p != q
      modifies `entries
      ensures State() == old(State()).(entries := Relink(old(entries), p) - {q}) && next == entries[p].listNext
    {
      UpdateNeighbours(p);
      next := entries[p].listNext;
      entries := entries - {q};
    }

    /** One turn of the loop: the bucket at q, and which one is next. */
    method PersistBucket(q: nat, ghost h0: Heap, ghost t: nat, ghost k: nat, ghost open: set<nat>, ghost d: nat)
      returns (next: nat)
      requires Ready(W(), h0, State(), t, k, open, d) && k < |Order(W(), t)| && q == Order(W(), t)[k] && q in entries
      modifies this
      ensures State() == MoveEntry(W(), old(State()), q, d)
      ensures old(mem) in entries && next == entries[old(mem)].listNext
      decreases d, 3
    {
      ghost var m, r := BucketLinks(W(), h0, State(), t, k, open, d, q);
      var p := PersistContents(q, h0, t, k, open, d);
      assert State() == m;
      next := LinkTo(p, q);
      assert State() == r;
    }

    method PersistBuckets(head: nat, ghost h0: Heap, ghost t: nat, ghost open: set<nat>, ghost d: nat)
      requires Ready(W(), h0, State(), t, 0, open, d)
      requires head == if Order(W(), t) == [] then 0 else Order(W(), t)[0]
      modifies this
      ensures State() == MoveAll(W(), old(State()), Order(W(), t), 0, d)
      decreases d, 4
    {
      var p := head;
      ghost var k := 0;
      while p != 0
        invariant k <= |Order(W(), t)| && p == (if k < |Order(W(), t)| then Order(W(), t)[k] else 0)
        invariant Ready(W(), h0, State(), t, k, open, d)
        invariant MoveAll(W(), State(), Order(W(), t), k, d) == MoveAll(W(), old(State()), Order(W(), t), 0, d)
        decreases |Order(W(), t)| - k
      {
        ghost var r := BucketDone(W(), h0, State(), t, k, open, d, p);
        p := PersistBucket(p, h0, t, k, open, d);
        k := k + 1;
      }
    }

    /** zend_shared_alloc_get_xlat_entry */
    method GetXlatEntry(a: nat) returns (r: nat)
      ensures r == Lookup(xlat, a)
    {
      r := if a in xlat then xlat[a] else 0;
    }

    method UpdatePointers(at: nat)
      requires at in parts && parts[at].Head?
      modifies `parts
      ensures parts == old(parts)[at := AimHead(xlat, old(parts)[at])]
    {
      var head, tail, pointer := parts[at].listHead, parts[at].listTail, parts[at].internalPointer;
      if head != 0 { head := GetXlatEntry(head); }
      if tail != 0 { tail := GetXlatEntry(tail); }
      if pointer != 0 { pointer := GetXlatEntry(pointer); }
      parts := parts[at := parts[at].(listHead := head, listTail := tail, internalPointer := pointer)];
    }

    /** update hash table */
    method AimEach(b: nat)
      requires b in parts && parts[b].Slots?
      modifies `parts
      ensures parts == old(parts)[b := AimSlots(xlat, old(parts)[b])]
    {
      var n := |parts[b].slots|;
      for i := 0 to n
        invariant b in parts && parts[b].Slots? && |parts[b].slots| == n && parts == old(parts)[b := parts[b]]
        invariant forall j :: 0 <= j < i ==> parts[b].slots[j] == Aim(xlat, old(parts[b]).slots[j])
        invariant forall j :: i <= j < n ==> parts[b].slots[j] == old(parts[b]).slots[j]
      {
        if parts[b].slots[i] != 0 {
          var copy := GetXlatEntry(parts[b].slots[i]);
          parts := parts[b := Slots(parts[b].slots[i := copy])];
        }
      }
      assert parts[b].slots == AimAll(xlat, old(parts[b]).slots);
    }

    method StoreArray(b: nat, count: nat) returns (copy: nat)
      requires b in parts && parts[b].Slots?
      modifies this
      ensures State() == StoreSlots(W(), old(State()), b, count) && copy == Translate(xlat, b)
    {
      if count != 0 { AimEach(b); }
      copy := StorePartAt(b);
    }

    method AimBuckets(at: nat)
      requires at in parts && parts[at].Head?
      requires parts[at].tableMask != 0 ==> parts[at].buckets in parts && parts[parts[at].buckets].Slots?
      modifies this
      ensures State() == UpdateTable(W(), old(State()), at)
    {
      UpdatePointers(at);
      var p := parts[at];
      if p.tableMask != 0 {
        var copy := StoreArray(p.buckets, p.numOfElements);
        parts := parts[at := p.(buckets := copy)];
      } else {
        parts := parts[at := p.(buckets := UNINITIALIZED_BUCKET)];
      }
    }

    /** zend_hash_persist of the table at address at, which is table t or its copy */
    method HashPersist(at: nat, ghost h0: Heap, ghost t: nat, ghost open: set<nat>, ghost d: nat)
      requires TableFits(W(), h0, State(), t, at, open, d)
      modifies this
      ensures State() == PersistNested.HashPersist(W(), old(State()), Order(W(), t), at, d)
      ensures Inv(W(), h0, State(), open) && DoneTable(W(), h0, State(), t, at)
      decreases d, 5
    {
      LoopStarts(W(), h0, State(), t, at, open, d);
      LoopEnds(W(), h0, State(), t, at, open, d);
      PersistKeeps(W(), h0, State(), t, at, open, d, h0.mem);
      PersistBuckets(parts[at].listHead, h0, t, open, d);
      AimBuckets(at);
    }
  }
}
