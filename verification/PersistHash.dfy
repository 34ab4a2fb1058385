/** What zend_hash_persist and zend_persist_zval work on: memory by address, and what of it a copy keeps. Strings, zvals
    and outside blocks are here; the buckets are in PersistLinks, tables within tables in PersistNested. */
module PersistHash {
  import opened Alignment

  /** Links are addresses, 0 for NULL. data is the zval pointer kept inside the bucket, or an outside block. */
  datatype Entry = Entry(h: nat, key: nat, inside: bool, data: nat, next: nat, last: nat, listNext: nat, listLast: nat)

  datatype Value = Other(v: int) | Chars(val: nat) | Arr(table: nat)

  /** A hash table without its buckets, and the array arBuckets, whose address is in buckets. */
  datatype Part = Head(listHead: nat, listTail: nat, internalPointer: nat, tableMask: nat, numOfElements: nat,
    buckets: nat)
                | Slots(slots: seq<nat>)

  /** What is allocated, by address; the translation table; the cursor in shared memory. */
  datatype Heap = Heap(entries: map<nat, Entry>, parts: map<nat, Part>, strings: map<nat, string>,
                       zvals: map<nat, Value>, blocks: map<nat, int>, xlat: map<nat, nat>, mem: nat)

  // ---- keys, zvals and blocks

  function Translate(xlat: map<nat, nat>, a: nat): nat { if a in xlat then xlat[a] else a }

  /** A copied address is new, and no two addresses have the same copy. */
  ghost predicate Fresh(h0: Heap, h: Heap) {
    && h0.mem <= h.mem
    && (forall a: nat {:trigger h.xlat[a]} :: a in h.xlat ==> h0.mem <= h.xlat[a] < h.mem && 0 < a < h0.mem)
    && (forall a: nat, b: nat {:trigger h.xlat[a], h.xlat[b]} ::
          a in h.xlat && b in h.xlat && h.xlat[a] == h.xlat[b] ==> a == b)
  }

  /** The address kinds do not mix. */
  ghost predicate Apart(h0: Heap) {
    && h0.entries.Keys !! h0.strings.Keys && h0.entries.Keys !! h0.zvals.Keys && h0.entries.Keys !! h0.blocks.Keys
    && h0.strings.Keys !! h0.zvals.Keys && h0.strings.Keys !! h0.blocks.Keys && h0.zvals.Keys !! h0.blocks.Keys
    && h0.parts.Keys !! h0.entries.Keys && h0.parts.Keys !! h0.strings.Keys && h0.parts.Keys !! h0.zvals.Keys
    && h0.parts.Keys !! h0.blocks.Keys
  }

  /** Everything lies below the cursor. */
  ghost predicate Below(h: Heap) {
    && (forall a: nat {:trigger a in h.entries} :: a in h.entries ==> 0 < a < h.mem)
    && (forall a: nat {:trigger a in h.parts} :: a in h.parts ==> 0 < a < h.mem)
    && (forall a: nat {:trigger a in h.strings} :: a in h.strings ==> 0 < a < h.mem)
    && (forall a: nat {:trigger a in h.zvals} :: a in h.zvals ==> 0 < a < h.mem)
    && (forall a: nat {:trigger a in h.blocks} :: a in h.blocks ==> 0 < a < h.mem)
  }

  /** Strings and blocks: a copy has the content of the original, and what has not been copied is still there. */
  ghost predicate ContentsKept(h0: Heap, h: Heap) {
    && (forall a: nat {:trigger a in h0.strings} :: a in h0.strings ==>
          Translate(h.xlat, a) in h.strings && h.strings[Translate(h.xlat, a)] == h0.strings[a])
    && (forall a: nat {:trigger a in h0.blocks} :: a in h0.blocks ==>
          Translate(h.xlat, a) in h.blocks && h.blocks[Translate(h.xlat, a)] == h0.blocks[a])
  }

  /** A copied zval: a string or an array in it is the copy of what it was. */
  ghost predicate SameValue(interned: nat -> bool, h: Heap, v0: Value, v: Value) {
    match v0
    case Other(n) => v == v0
    case Chars(s) => v.Chars? && v.val == (if interned(s) then s else Translate(h.xlat, s))
      && (!interned(s) ==> s in h.xlat)
    case Arr(t) => v.Arr? && t in h.xlat && v.table == h.xlat[t]
  }

  ghost predicate ValuesKept(interned: nat -> bool, h0: Heap, h: Heap) {
    forall a: nat {:trigger a in h0.zvals} :: a in h0.zvals ==>
      if a in h.xlat then h.xlat[a] in h.zvals && SameValue(interned, h, h0.zvals[a], h.zvals[h.xlat[a]])
      else a in h.zvals && h.zvals[a] == h0.zvals[a]
  }

  ghost predicate DataKept(interned: nat -> bool, h0: Heap, h: Heap) {
    Fresh(h0, h) && Below(h) && ContentsKept(h0, h) && ValuesKept(interned, h0, h)
  }

  /** memdup of a string, which is freed or not. */
  function CopyString(size: nat -> nat, h: Heap, a: nat, free: bool): Heap {
    if a in h.xlat || a !in h.strings then h
    else
      var strings := h.strings[h.mem := h.strings[a]];
      h.(strings := if free then strings - {a}
        else strings, xlat := h.xlat[a := h.mem], mem := h.mem + Aligned(size(a)))
  }

  function CopyBlock(size: nat -> nat, h: Heap, a: nat): Heap {
    if a in h.xlat || a !in h.blocks then h
    else h.(blocks := h.blocks[h.mem := h.blocks[a]] - {a}, xlat := h.xlat[a := h.mem], mem := h.mem + Aligned(size(a)))
  }

  ghost predicate Sizes(size: nat -> nat) { forall a: nat {:trigger size(a)} :: size(a) > 0 }

  ghost predicate Grows(x: map<nat, nat>, y: map<nat, nat>) {
    forall b: nat {:trigger y[b]} {:trigger x[b]} :: b in x ==> b in y && y[b] == x[b]
  }

  /** One more address is translated, to the cursor, and the cursor moves on. */
  lemma FreshMore(h0: Heap, h: Heap, r: Heap, a: nat, n: nat)
    requires Fresh(h0, h) && a !in h.xlat && 0 < a < h0.mem && n > 0
    requires r.xlat == h.xlat[a := h.mem] && r.mem == h.mem + n
    ensures Fresh(h0, r) && Grows(h.xlat, r.xlat)
  {
  }

  lemma ValuesGrow(interned: nat -> bool, h0: Heap, h: Heap, r: Heap, a: nat)
    requires ValuesKept(interned, h0, h) && Grows(h.xlat, r.xlat) && a !in h0.zvals && r.zvals == h.zvals
    requires forall b: nat {:trigger r.xlat[b]} :: b in r.xlat && b !in h.xlat ==> b == a
    ensures ValuesKept(interned, h0, r)
  {
    forall b: nat | b in h0.zvals
      ensures if b in r.xlat then r.xlat[b] in r.zvals && SameValue(interned, r, h0.zvals[b], r.zvals[r.xlat[b]])
              else b in r.zvals && r.zvals[b] == h0.zvals[b]
    {
      if b in r.xlat {
        assert b in h.xlat;
        SameValueGrows(interned, h, r, h0.zvals[b], h.zvals[h.xlat[b]]);
      }
    }
  }

  lemma SameValueGrows(interned: nat -> bool, h: Heap, r: Heap, v0: Value, v: Value)
    requires SameValue(interned, h, v0, v) && Grows(h.xlat, r.xlat)
    ensures SameValue(interned, r, v0, v)
  {
  }

  lemma StringContents(h0: Heap, h: Heap, r: Heap, a: nat, free: bool)
    requires ContentsKept(h0, h) && Fresh(h0, h) && Apart(h0) && Below(h0) && Below(h) && a in h0.strings
    requires a !in h.xlat
    requires r.strings == (if free then h.strings[h.mem := h.strings[a]] - {a} else h.strings[h.mem := h.strings[a]])
    requires r.xlat == h.xlat[a := h.mem] && r.blocks == h.blocks
    ensures ContentsKept(h0, r)
  {
    forall b: nat | b in h0.strings
      ensures Translate(r.xlat, b) in r.strings && r.strings[Translate(r.xlat, b)] == h0.strings[b]
    {
      assert Translate(h.xlat, b) in h.strings;
    }
    forall b: nat | b in h0.blocks
      ensures Translate(r.xlat, b) in r.blocks && r.blocks[Translate(r.xlat, b)] == h0.blocks[b]
    {
      assert b != a && Translate(r.xlat, b) == Translate(h.xlat, b);
    }
  }

  lemma CopyStringBasics(size: nat -> nat, h0: Heap, h: Heap, a: nat, free: bool)
    requires Sizes(size) && Apart(h0) && Below(h0) && Fresh(h0, h) && Below(h) && ContentsKept(h0, h)
    requires (a in h0.strings || a in h.xlat)
    ensures var r := CopyString(size, h, a, free);
      && Fresh(h0, r) && Below(r) && ContentsKept(h0, r) && a in r.xlat && Grows(h.xlat, r.xlat)
      && r.entries == h.entries && r.zvals == h.zvals && r.blocks == h.blocks && r.mem >= h.mem
      && forall b: nat {:trigger r.xlat[b]} :: b in r.xlat && b !in h.xlat ==> b == a
  {
    var r := CopyString(size, h, a, free);
    if a !in h.xlat {
      assert Translate(h.xlat, a) == a && a in h.strings;
      assert a in h0.strings;
      FreshMore(h0, h, r, a, Aligned(size(a)));
      StringContents(h0, h, r, a, free);
    }
  }

  lemma CopyStringKeeps(interned: nat -> bool, size: nat -> nat, h0: Heap, h: Heap, a: nat, free: bool)
    requires Sizes(size) && Apart(h0) && Below(h0) && DataKept(interned, h0, h) && a in h0.strings
    ensures var r := CopyString(size, h, a, free);
      DataKept(interned, h0, r) && a in r.xlat && r.entries == h.entries && Grows(h.xlat, r.xlat)
  {
    var r := CopyString(size, h, a, free);
    CopyStringBasics(size, h0, h, a, free);
    ValuesGrow(interned, h0, h, r, a);
  }

  lemma BlockContents(h0: Heap, h: Heap, r: Heap, a: nat)
    requires ContentsKept(h0, h) && Fresh(h0, h) && Apart(h0) && Below(h0) && Below(h) && a in h0.blocks && a !in h.xlat
    requires r.blocks == h.blocks[h.mem := h.blocks[a]] - {a} && r.xlat == h.xlat[a := h.mem] && r.strings == h.strings
    ensures ContentsKept(h0, r)
  {
    forall b: nat | b in h0.blocks
      ensures Translate(r.xlat, b) in r.blocks && r.blocks[Translate(r.xlat, b)] == h0.blocks[b]
    {
      assert Translate(h.xlat, b) in h.blocks;
    }
    forall b: nat | b in h0.strings
      ensures Translate(r.xlat, b) in r.strings && r.strings[Translate(r.xlat, b)] == h0.strings[b]
    {
      assert b != a && Translate(r.xlat, b) == Translate(h.xlat, b);
    }
  }

  lemma CopyBlockKeeps(interned: nat -> bool, size: nat -> nat, h0: Heap, h: Heap, a: nat)
    requires Sizes(size) && Apart(h0) && Below(h0) && DataKept(interned, h0, h) && (a in h0.blocks || a in h.xlat)
    ensures var r := CopyBlock(size, h, a);
      DataKept(interned, h0, r) && a in r.xlat && r.entries == h.entries && Grows(h.xlat, r.xlat)
  {
    var r := CopyBlock(size, h, a);
    if a !in h.xlat {
      assert Translate(h.xlat, a) == a && a in h.blocks;
      FreshMore(h0, h, r, a, Aligned(size(a)));
      ValuesGrow(interned, h0, h, r, a);
      BlockContents(h0, h, r, a);
    }
  }

  function StoreZval(size: nat -> nat, h: Heap, z: nat): Heap
    requires z in h.zvals
  {
    h.(zvals := h.zvals[h.mem := h.zvals[z]] - {z}, xlat := h.xlat[z := h.mem], mem := h.mem + Aligned(size(z)))
  }

  /** The string of the zval at address at is stored too. */
  function StoreChars(size: nat -> nat, h: Heap, at: nat, s: nat): Heap {
    var t := CopyString(size, h, s, true);
    t.(zvals := t.zvals[at := Chars(Translate(t.xlat, s))])
  }

  /** An address that holds no string and no block has been translated. */
  lemma ContentsSame(h0: Heap, h: Heap, r: Heap, a: nat)
    requires ContentsKept(h0, h) && a !in h0.strings && a !in h0.blocks && a !in h.xlat && r.xlat == h.xlat[a := h.mem]
    requires r.strings == h.strings && r.blocks == h.blocks
    ensures ContentsKept(h0, r)
  {
    assert forall b: nat {:trigger b in h0.strings} :: b in h0.strings ==> Translate(r.xlat, b) == Translate(h.xlat, b);
    assert forall b: nat {:trigger b in h0.blocks} :: b in h0.blocks ==> Translate(r.xlat, b) == Translate(h.xlat, b);
  }

  lemma ValuesButOne(interned: nat -> bool, h0: Heap, h: Heap, z: nat, r: Heap)
    requires Below(h) && Fresh(h0, h) && ValuesKept(interned, h0, h) && z in h0.zvals && z !in h.xlat && z in h.zvals
    requires Below(h0)
    requires r.zvals == h.zvals[h.mem := h.zvals[z]] - {z} && r.xlat == h.xlat[z := h.mem]
    ensures forall b: nat {:trigger b in h0.zvals} :: b in h0.zvals && b != z ==>
      if b in r.xlat then r.xlat[b] in r.zvals && SameValue(interned, r, h0.zvals[b], r.zvals[r.xlat[b]])
      else b in r.zvals && r.zvals[b] == h0.zvals[b]
  {
    forall b: nat | b in h0.zvals && b != z
      ensures if b in r.xlat then r.xlat[b] in r.zvals && SameValue(interned, r, h0.zvals[b], r.zvals[r.xlat[b]])
              else b in r.zvals && r.zvals[b] == h0.zvals[b]
    {
      if b in r.xlat {
        assert b in h.xlat && h.xlat[b] < h.mem;
        SameValueGrows(interned, h, r, h0.zvals[b], h.zvals[h.xlat[b]]);
      }
    }
  }

  /** The zval itself copied, its string not yet. */
  lemma ZvalHalfway(interned: nat -> bool, size: nat -> nat, h0: Heap, h: Heap, z: nat, r: Heap)
    requires Sizes(size) && Apart(h0) && Below(h0) && DataKept(interned, h0, h) && z in h0.zvals && z !in h.xlat
    requires z in h.zvals && h.zvals[z] == h0.zvals[z] && r == StoreZval(size, h, z)
    ensures Fresh(h0, r) && Below(r) && ContentsKept(h0, r) && Grows(h.xlat, r.xlat)
    ensures forall b: nat {:trigger b in h0.zvals} :: b in h0.zvals && b != z ==>
      if b in r.xlat then r.xlat[b] in r.zvals && SameValue(interned, r, h0.zvals[b], r.zvals[r.xlat[b]])
      else b in r.zvals && r.zvals[b] == h0.zvals[b]
  {
    FreshMore(h0, h, r, z, Aligned(size(z)));
    ContentsSame(h0, h, r, z);
    ValuesButOne(interned, h0, h, z, r);
  }

  lemma ZvalDone(interned: nat -> bool, h0: Heap, z: nat, r: Heap)
    requires z in h0.zvals && z in r.xlat && r.xlat[z] in r.zvals && r.zvals[r.xlat[z]] == h0.zvals[z]
    requires SameValue(interned, r, h0.zvals[z], h0.zvals[z])
    requires forall b: nat {:trigger b in h0.zvals} :: b in h0.zvals && b != z ==>
      if b in r.xlat then r.xlat[b] in r.zvals && SameValue(interned, r, h0.zvals[b], r.zvals[r.xlat[b]])
      else b in r.zvals && r.zvals[b] == h0.zvals[b]
    ensures ValuesKept(interned, h0, r)
  {
  }

  /** The zval at address at has been given value v, with one more address translated. */
  lemma ValueDone(interned: nat -> bool, h0: Heap, at: nat, z: nat, v: Value, s: nat, r: Heap, t: Heap, u: Heap)
    requires Apart(h0) && z in h0.zvals && s !in h0.zvals && SameValue(interned, t, h0.zvals[z], v)
    requires Fresh(h0, t) && Grows(r.xlat, t.xlat) && z in r.xlat && r.xlat[z] == at && t.zvals == r.zvals
    requires forall b: nat {:trigger t.xlat[b]} :: b in t.xlat && b !in r.xlat ==> b == s
    requires u == t.(zvals := t.zvals[at := v]) && h0.mem <= at < t.mem && Below(t) && Below(h0)
    requires forall b: nat {:trigger b in h0.zvals} :: b in h0.zvals && b != z ==>
      if b in r.xlat then r.xlat[b] in r.zvals && SameValue(interned, r, h0.zvals[b], r.zvals[r.xlat[b]])
      else b in r.zvals && r.zvals[b] == h0.zvals[b]
    ensures ValuesKept(interned, h0, u) && Below(u)
  {
    forall b: nat | b in h0.zvals
      ensures if b in u.xlat then u.xlat[b] in u.zvals && SameValue(interned, u, h0.zvals[b], u.zvals[u.xlat[b]])
              else b in u.zvals && u.zvals[b] == h0.zvals[b]
    {
      if b == z {
        assert u.xlat[b] == at;
        SameValueGrows(interned, t, u, h0.zvals[z], v);
      } else if b in u.xlat {
        assert b in r.xlat && u.xlat[b] == r.xlat[b] != at;
        SameValueGrows(interned, r, u, h0.zvals[b], r.zvals[r.xlat[b]]);
      }
    }
  }

  lemma StoreCharsKeeps(interned: nat -> bool, size: nat -> nat, h0: Heap, at: nat, z: nat, s: nat, r: Heap)
    requires Sizes(size) && Apart(h0) && Below(h0) && Fresh(h0, r) && Below(r) && ContentsKept(h0, r)
    requires z in h0.zvals && h0.zvals[z] == Chars(s) && !interned(s) && s in h0.strings && z in r.xlat
    requires r.xlat[z] == at
    requires forall b: nat {:trigger b in h0.zvals} :: b in h0.zvals && b != z ==>
      if b in r.xlat then r.xlat[b] in r.zvals && SameValue(interned, r, h0.zvals[b], r.zvals[r.xlat[b]])
      else b in r.zvals && r.zvals[b] == h0.zvals[b]
    ensures var u := StoreChars(size, r, at, s);
      && DataKept(interned, h0, u) && u.entries == r.entries && u.parts == r.parts && u.mem >= r.mem
      && Grows(r.xlat, u.xlat) && forall b: nat {:trigger u.xlat[b]} :: b in u.xlat && b !in r.xlat ==> b == s
  {
    var t, u := CopyString(size, r, s, true), StoreChars(size, r, at, s);
    CopyStringBasics(size, h0, r, s, true);
    assert u.xlat == t.xlat && u.strings == t.strings && u.blocks == t.blocks && u.mem == t.mem;
    ValueDone(interned, h0, at, z, Chars(Translate(t.xlat, s)), s, r, t, u);
  }

  // ---- tables and bucket arrays

  /** zend_accel_store of a hash table or of its bucket array */
  function StorePart(size: nat -> nat, h: Heap, a: nat): Heap {
    if a in h.xlat || a !in h.parts then h
    else h.(parts := h.parts[h.mem := h.parts[a]] - {a}, xlat := h.xlat[a := h.mem], mem := h.mem + Aligned(size(a)))
  }

  /** The array zval at address at gets the copy of its table. */
  function StoreTable(size: nat -> nat, h: Heap, at: nat, t: nat): Heap {
    var s := StorePart(size, h, t);
    s.(zvals := s.zvals[at := Arr(Translate(s.xlat, t))])
  }

  lemma StorePartBasics(size: nat -> nat, h0: Heap, h: Heap, a: nat)
    requires Sizes(size) && Apart(h0) && Below(h0) && Fresh(h0, h) && Below(h) && ContentsKept(h0, h)
    requires a in h0.parts && a !in h.xlat && a in h.parts
    ensures var r := StorePart(size, h, a);
      Fresh(h0, r) && Below(r) && ContentsKept(h0, r) && Grows(h.xlat, r.xlat)
  {
    var r := StorePart(size, h, a);
    FreshMore(h0, h, r, a, Aligned(size(a)));
    ContentsSame(h0, h, r, a);
  }

  lemma StorePartKeeps(interned: nat -> bool, size: nat -> nat, h0: Heap, h: Heap, a: nat)
    requires Sizes(size) && Apart(h0) && Below(h0) && DataKept(interned, h0, h)
    requires a in h0.parts && a !in h.xlat && a in h.parts
    ensures DataKept(interned, h0, StorePart(size, h, a)) && Grows(h.xlat, StorePart(size, h, a).xlat)
  {
    StorePartBasics(size, h0, h, a);
    ValuesGrow(interned, h0, h, StorePart(size, h, a), a);
  }

  lemma StoreTableKeeps(interned: nat -> bool, size: nat -> nat, h0: Heap, at: nat, z: nat, a: nat, r: Heap)
    requires Sizes(size) && Apart(h0) && Below(h0) && Fresh(h0, r) && Below(r) && ContentsKept(h0, r)
    requires z in h0.zvals && h0.zvals[z] == Arr(a) && z in r.xlat && r.xlat[z] == at
    requires a in h0.parts && a !in r.xlat && a in r.parts
    requires forall b: nat {:trigger b in h0.zvals} :: b in h0.zvals && b != z ==>
      if b in r.xlat then r.xlat[b] in r.zvals && SameValue(interned, r, h0.zvals[b], r.zvals[r.xlat[b]])
      else b in r.zvals && r.zvals[b] == h0.zvals[b]
    ensures DataKept(interned, h0, StoreTable(size, r, at, a))
  {
    var t, u := StorePart(size, r, a), StoreTable(size, r, at, a);
    StorePartBasics(size, h0, r, a);
    ValueDone(interned, h0, at, z, Arr(Translate(t.xlat, a)), a, r, t, u);
  }
}
