/** zend_hash_persist and zend_persist_zval_ptr, which call each other for arrays within arrays. While an inner table is
    moved, the tables around it are half moved. */
module PersistNested {
  import opened Alignment
  import opened PersistHash
  import opened PersistLinks

  // ---- the calls, on memory as a value; d bounds how deep arrays are nested

  /** zend_accel_memdup(p, sizeof(Bucket)) */
  function CopyEntry(size: nat -> nat, h: Heap, q: nat): Heap
    requires q in h.entries
  {
    h.(entries := h.entries[h.mem := h.entries[q]], xlat := h.xlat[q := h.mem], mem := h.mem + Aligned(size(q)))
  }

  /** Its key. */
  function CopyKey(interned: nat -> bool, size: nat -> nat, h: Heap, p: nat): Heap
    requires p in h.entries
  {
    var key := h.entries[p].key;
    if key == 0 || interned(key) then h
    else
      var r := CopyString(size, h, key, false);
      r.(entries := h.entries[p := h.entries[p].(key := Translate(r.xlat, key))])
  }

  /** Its data. */
  function CopyData(w: World, h: Heap, p: nat, d: nat): Heap
    requires p in h.entries
    decreases d, 1
  {
    var e := h.entries[p];
    var r := if e.inside then CopyZval(w, h, e.data, d) else CopyBlock(w.size, h, e.data);
    r.(entries := r.entries[p := e.(data := Translate(r.xlat, e.data))])
  }

  /** The bucket at q, its key and its data: the first half of a turn of the loop. */
  function CopyBucket(w: World, h: Heap, q: nat, d: nat): (m: Heap)
    requires q in h.entries
    ensures h.mem in m.entries
    decreases d, 2
  {
    CopyData(w, CopyKey(w.interned, w.size, CopyEntry(w.size, h, q), h.mem), h.mem, d)
  }

  /** One turn of the loop for the bucket at q. */
  function MoveEntry(w: World, h: Heap, q: nat, d: nat): Heap
    requires q in h.entries
    decreases d, 3
  {
    var m := CopyBucket(w, h, q, d);
    if Neighbours(m.entries, h.mem) then m.(entries := Relink(m.entries, h.mem) - {q}) else m
  }

  /** The loop from the k-th bucket on. */
  function MoveAll(w: World, h: Heap, order: seq<nat>, k: nat, d: nat): Heap
    decreases d, 4, |order| - k
  {
    if k < |order| && order[k] in h.entries then MoveAll(w, MoveEntry(w, h, order[k], d), order, k + 1, d) else h
  }

  /** zend_shared_alloc_get_xlat_entry, NULL for what is not there */
  function Lookup(x: map<nat, nat>, a: nat): nat { if a in x then x[a] else 0 }

  function Aim(x: map<nat, nat>, a: nat): nat { if a != 0 then Lookup(x, a) else 0 }

  function AimAll(x: map<nat, nat>, s: seq<nat>): (r: seq<nat>)
    ensures |r| == |s| && forall i {:trigger r[i]} :: 0 <= i < |s| ==> r[i] == Aim(x, s[i])
  {
    seq(|s|, i requires 0 <= i < |s| => Aim(x, s[i]))
  }

  function AimSlots(x: map<nat, nat>, p: Part): Part {
    if p.Slots? then Slots(AimAll(x, p.slots)) else p
  }

  function AimHead(x: map<nat, nat>, p: Part): Part
    requires p.Head?
  {
    p.(listHead := Aim(x, p.listHead), listTail := Aim(x, p.listTail), internalPointer := Aim(x, p.internalPointer))
  }

  /** &uninitialized_bucket, a constant of the process */
  const UNINITIALIZED_BUCKET: nat := 0

  /** What follows the loop, for the table at address at. */
  function UpdateTable(w: World, h: Heap, at: nat): Heap
    requires at in h.parts && h.parts[at].Head?
  {
    var p := AimHead(h.xlat, h.parts[at]);
    var g := h.(parts := h.parts[at := p]);
    if p.tableMask == 0 then
      g.(parts := g.parts[at := p.(buckets := UNINITIALIZED_BUCKET)])
    else
      var s := StoreSlots(w, g, p.buckets, p.numOfElements);
      s.(parts := s.parts[at := p.(buckets := Translate(s.xlat, p.buckets))])
  }

  function StoreSlots(w: World, h: Heap, b: nat, count: nat): Heap {
    var f := if count != 0 && b in h.parts then h.(parts := h.parts[b := AimSlots(h.xlat, h.parts[b])]) else h;
    StorePart(w.size, f, b)
  }

  /** zend_hash_persist */
  function HashPersist(w: World, h: Heap, order: seq<nat>, at: nat, d: nat): Heap
    decreases d, 5
  {
    var r := MoveAll(w, h, order, 0, d);
    if at in r.parts && r.parts[at].Head? then UpdateTable(w, r, at) else r
  }

  /** zend_persist_zval_ptr for a new zval that is an array */
  function CopyTable(w: World, h: Heap, z: nat, t: nat, d: nat): Heap
    requires z in h.zvals
    decreases d, 6
  {
    var u := StoreTable(w.size, StoreZval(w.size, h, z), h.mem, t);
    HashPersist(w, u, Order(w, t), Translate(u.xlat, t), d)
  }

  /** zend_persist_zval_ptr for a new zval that is not an array: a string in it is stored too. */
  function CopyPlain(w: World, h: Heap, z: nat): Heap
    requires z in h.zvals
  {
    var r := StoreZval(w.size, h, z);
    if h.zvals[z].Chars? && !w.interned(h.zvals[z].val) then StoreChars(w.size, r, h.mem, h.zvals[z].val) else r
  }

  /** zend_persist_zval_ptr: the zval is stored if it was not yet, and the string or array in it too. */
  function CopyZval(w: World, h: Heap, z: nat, d: nat): Heap
    decreases d, 0
  {
    if z in h.xlat || z !in h.zvals then h
    else if !h.zvals[z].Arr? then CopyPlain(w, h, z)
    else if d > 0 then CopyTable(w, h, z, h.zvals[z].table, d - 1)
    else StoreZval(w.size, h, z)
  }

  // ---- the structure before

  ghost predicate IsTable(h0: Heap, t: nat) { t in h0.parts && h0.parts[t].Head? }

  ghost predicate Leads(order: seq<nat>, link: nat) { link == 0 || link in order }

  ghost predicate SlotsLead(h0: Heap, order: seq<nat>, b: nat) {
    && b in h0.parts && h0.parts[b].Slots?
    && forall i {:trigger h0.parts[b].slots[i]} :: 0 <= i < |h0.parts[b].slots| ==> Leads(order, h0.parts[b].slots[i])
  }

  /** The pointers of a table lead to its buckets. */
  ghost predicate Holds(h0: Heap, p: Part, order: seq<nat>)
    requires p.Head?
  {
    && p.listHead == (if order == [] then 0 else order[0])
    && Leads(order, p.listTail) && Leads(order, p.internalPointer)
    && (p.tableMask == 0 || p.numOfElements == 0 ==> order == [])
    && (p.tableMask != 0 ==> SlotsLead(h0, order, p.buckets))
  }

  ghost predicate TableOf(w: World, h0: Heap, t: nat)
    requires IsTable(h0, t)
  {
    && Home(w, t) == t && Table(h0, Order(w, t)) && Homes(w, t, Order(w, t)) && Holds(h0, h0.parts[t], Order(w, t))
    && (h0.parts[t].tableMask != 0 ==> Home(w, h0.parts[t].buckets) == t)
    && (forall a: nat {:trigger Mine(w, t, h0, a)} :: Mine(w, t, h0, a) ==> a in Order(w, t))
    && (forall i {:trigger Order(w, t)[i]} :: 0 <= i < |Order(w, t)| && h0.entries[Order(w, t)[i]].inside ==>
          Rank(w, h0.entries[Order(w, t)[i]].data) <= Rank(w, t))
  }

  /** Tables do not share buckets, arrays do not share tables, and no array is within itself. Zvals and strings may be
      shared. */
  ghost predicate Forest(w: World, h0: Heap) {
    && (forall a: nat {:trigger Home(w, a)} :: Home(w, a) != 0 ==> a in h0.entries || a in h0.parts)
    && (forall t: nat {:trigger Order(w, t)} :: IsTable(h0, t) ==> TableOf(w, h0, t))
    && (forall z: nat {:trigger h0.zvals[z]} :: z in h0.zvals && h0.zvals[z].Arr? ==>
          IsTable(h0, h0.zvals[z].table) && Rank(w, h0.zvals[z].table) < Rank(w, z))
    && (forall y: nat, z: nat {:trigger h0.zvals[y], h0.zvals[z]} ::
          y in h0.zvals && z in h0.zvals && h0.zvals[y].Arr? && h0.zvals[y] == h0.zvals[z] ==> y == z)
  }

  /** Strings that zvals and keys point to exist, and so does what buckets point to. */
  ghost predicate PointsToStrings(interned: nat -> bool, h0: Heap) {
    && (forall z: nat {:trigger h0.zvals[z]} :: z in h0.zvals && h0.zvals[z].Chars? && !interned(h0.zvals[z].val) ==>
          h0.zvals[z].val in h0.strings)
    && (forall b: nat {:trigger h0.entries[b]} :: b in h0.entries ==>
          && (h0.entries[b].key != 0 && !interned(h0.entries[b].key) ==> h0.entries[b].key in h0.strings)
          && (if h0.entries[b].inside then h0.entries[b].data in h0.zvals else h0.entries[b].data in h0.blocks))
  }

  // ---- the structure on the way

  ghost predicate FreshTable(w: World, h0: Heap, h: Heap, t: nat)
    requires IsTable(h0, t)
  {
    && t !in h.xlat && t in h.parts && h.parts[t] == h0.parts[t] && FreshRest(w, h0, h, t)
  }

  /** The bucket array and the buckets have not been touched. */
  ghost predicate FreshRest(w: World, h0: Heap, h: Heap, t: nat)
    requires IsTable(h0, t)
  {
    && (h0.parts[t].tableMask != 0 ==>
          var b := h0.parts[t].buckets;
          b in h0.parts && b !in h.xlat && b in h.parts && h.parts[b] == h0.parts[b])
    && forall i {:trigger Order(w, t)[i]} :: 0 <= i < |Order(w, t)| ==> FreshEntry(h0, h, Order(w, t)[i])
  }

  ghost predicate FreshEntry(h0: Heap, h: Heap, a: nat) {
    a in h0.entries && a in h.entries && a !in h.xlat && h.entries[a] == h0.entries[a]
  }

  /** The table at address at, with its pointers and its bucket array, is a copy of table t. */
  ghost predicate HeadMoved(h0: Heap, h: Heap, t: nat, at: nat)
    requires IsTable(h0, t)
  {
    var p0 := h0.parts[t];
    && at in h.parts && h.parts[at].Head?
    && h.parts[at] == Head(Translate(h.xlat, p0.listHead), Translate(h.xlat, p0.listTail),
                           Translate(h.xlat, p0.internalPointer), p0.tableMask, p0.numOfElements, h.parts[at].buckets)
    && (p0.tableMask == 0 ==> h.parts[at].buckets == UNINITIALIZED_BUCKET)
    && (p0.tableMask != 0 ==> SlotsMoved(h0, h, p0.buckets, h.parts[at].buckets))
  }

  ghost predicate SlotsMoved(h0: Heap, h: Heap, b: nat, c: nat) {
    && b in h0.parts && h0.parts[b].Slots? && b in h.xlat && c == h.xlat[b] && b !in h.parts && c in h.parts
    && h.parts[c] == Slots(Copied(h.xlat, h0.parts[b].slots))
  }

  ghost predicate DoneTable(w: World, h0: Heap, h: Heap, t: nat, at: nat)
    requires IsTable(h0, t)
  {
    Progress(w.interned, h0, h, Order(w, t), |Order(w, t)|) && HeadMoved(h0, h, t, at)
  }

  /** A table that is not being moved has been moved or has not been touched. */
  ghost predicate TablesKept(w: World, h0: Heap, h: Heap, open: set<nat>) {
    forall t: nat {:trigger Order(w, t)} :: IsTable(h0, t) && t !in open ==>
      if t in h.xlat then DoneTable(w, h0, h, t, h.xlat[t]) && t !in h.parts else FreshTable(w, h0, h, t)
  }

  /** A bucket is an old one or a copy; an old one that has been copied is freed, unless its table is being moved. */
  ghost predicate Gone(w: World, h0: Heap, h: Heap, open: set<nat>) {
    forall a: nat {:trigger a in h.entries} :: a in h.entries ==>
      && (a in h0.entries || h0.mem <= a)
      && (a in h.xlat ==> Home(w, a) in open)
  }

  /** Only the zval it is in leads to a table. */
  ghost predicate Owned(h0: Heap, x: map<nat, nat>) {
    forall z: nat {:trigger h0.zvals[z]} :: z in h0.zvals && h0.zvals[z].Arr? && h0.zvals[z].table in x ==> z in x
  }

  /** What holds between all steps, but for buckets and tables. */
  ghost predicate Setting(w: World, h0: Heap, h: Heap) {
    Sizes(w.size) && Apart(h0) && Below(h0) && PointsToStrings(w.interned, h0) && DataKept(w.interned, h0, h)
  }

  /** The tables in open are being moved; about them nothing is said. */
  ghost predicate Inv(w: World, h0: Heap, h: Heap, open: set<nat>) {
    && Setting(w, h0, h) && Forest(w, h0) && TablesKept(w, h0, h, open) && Gone(w, h0, h, open) && Owned(h0, h.xlat)
    && forall t: nat {:trigger t in open} :: t in open ==> IsTable(h0, t)
  }

  /** Tables being moved are nested less deep. */
  ghost predicate Above(w: World, open: set<nat>, n: nat) {
    forall t: nat {:trigger t in open} :: t in open ==> n <= Rank(w, t)
  }

  // ---- frames

  /** Old parts of open tables, and copies made before m0. */
  ghost predicate Stays(w: World, h0: Heap, open: set<nat>, m0: nat, a: nat) {
    if a < h0.mem then Home(w, a) in open else a < m0
  }

  ghost predicate EntriesFramed(w: World, h0: Heap, h: Heap, r: Heap, open: set<nat>, m0: nat) {
    && (forall a: nat {:trigger a in h.entries} {:trigger r.entries[a]} ::
          a in h.entries && Stays(w, h0, open, m0, a) ==>
          a in r.entries && r.entries[a] == h.entries[a])
    && (forall a: nat {:trigger a in r.entries} :: a in r.entries ==> a in h.entries || h.mem <= a)
  }

  ghost predicate PartsFramed(w: World, h0: Heap, h: Heap, r: Heap, open: set<nat>, m0: nat) {
    && (forall a: nat {:trigger a in h.parts} {:trigger r.parts[a]} :: a in h.parts && Stays(w, h0, open, m0, a) ==>
          a in r.parts && r.parts[a] == h.parts[a])
    && (forall a: nat {:trigger a in r.parts} :: a in r.parts ==> a in h.parts || h.mem <= a)
  }

  /** What has been translated in between belongs to no open table. */
  ghost predicate Outside(w: World, x: map<nat, nat>, y: map<nat, nat>, open: set<nat>) {
    Grows(x, y) && forall b: nat {:trigger b in y} :: b in y && b !in x ==> Home(w, b) !in open
  }

  ghost predicate Framed(w: World, h0: Heap, h: Heap, r: Heap, open: set<nat>, m0: nat) {
    && EntriesFramed(w, h0, h, r, open, m0) && PartsFramed(w, h0, h, r, open, m0)
    && Outside(w, h.xlat, r.xlat, open) && h.mem <= r.mem
  }

  lemma FramedTrans(w: World, h0: Heap, h: Heap, g: Heap, r: Heap, open: set<nat>, m0: nat)
    requires Framed(w, h0, h, g, open, m0) && Framed(w, h0, g, r, open, m0)
    ensures Framed(w, h0, h, r, open, m0)
  {
    EntriesTrans(w, h0, h, g, r, open, m0);
    PartsTrans(w, h0, h, g, r, open, m0);
    forall b: nat | b in r.xlat && b !in h.xlat ensures Home(w, b) !in open {
      assert b in g.xlat || b !in g.xlat;
    }
  }

  lemma EntriesTrans(w: World, h0: Heap, h: Heap, g: Heap, r: Heap, open: set<nat>, m0: nat)
    requires EntriesFramed(w, h0, h, g, open, m0) && EntriesFramed(w, h0, g, r, open, m0) && h.mem <= g.mem
    ensures EntriesFramed(w, h0, h, r, open, m0)
  {
  }

  lemma PartsTrans(w: World, h0: Heap, h: Heap, g: Heap, r: Heap, open: set<nat>, m0: nat)
    requires PartsFramed(w, h0, h, g, open, m0) && PartsFramed(w, h0, g, r, open, m0) && h.mem <= g.mem
    ensures PartsFramed(w, h0, h, r, open, m0)
  {
  }

  // ---- tables that a step spares

  ghost predicate PartStayed(h: Heap, r: Heap, b: nat) {
    && (b !in h.parts ==> b !in r.parts)
    && (Translate(h.xlat, b) in h.parts ==>
          Translate(h.xlat, b) in r.parts && r.parts[Translate(h.xlat, b)] == h.parts[Translate(h.xlat, b)])
  }

  ghost predicate Closed(w: World, open: set<nat>, b: nat) { Home(w, b) != 0 && Home(w, b) !in open }

  /** Nothing happens to the tables that are not open. */
  ghost predicate Spares(w: World, h0: Heap, h: Heap, r: Heap, open: set<nat>) {
    && Grows(h.xlat, r.xlat)
    && (forall b: nat {:trigger b in r.xlat} :: b in r.xlat && b !in h.xlat ==> !Closed(w, open, b))
    && (forall b: nat {:trigger Stayed(h, r, b)} :: b in h0.entries && Closed(w, open, b) ==> Stayed(h, r, b))
    && (forall b: nat {:trigger PartStayed(h, r, b)} :: b in h0.parts && Closed(w, open, b) ==> PartStayed(h, r, b))
  }

  lemma FreshSpared(w: World, h0: Heap, h: Heap, r: Heap, open: set<nat>, t: nat)
    requires IsTable(h0, t) && t != 0 && t !in open && TableOf(w, h0, t) && FreshTable(w, h0, h, t)
    requires Spares(w, h0, h, r, open)
    ensures FreshTable(w, h0, r, t)
  {
    assert PartStayed(h, r, t);
    if h0.parts[t].tableMask != 0 {
      assert PartStayed(h, r, h0.parts[t].buckets);
    }
    forall i | 0 <= i < |Order(w, t)| ensures FreshEntry(h0, r, Order(w, t)[i]) {
      assert FreshEntry(h0, h, Order(w, t)[i]);
      assert Home(w, Order(w, t)[i]) == t;
      assert Stayed(h, r, Order(w, t)[i]);
    }
  }

  lemma LinkIn(interned: nat -> bool, h0: Heap, h: Heap, order: seq<nat>, link: nat)
    requires Progress(interned, h0, h, order, |order|) && link in order
    ensures link in h.xlat
  {
    var i :| 0 <= i < |order| && order[i] == link;
    assert EntryNow(interned, h0, h, order[i], true);
  }

  lemma LinkSame(interned: nat -> bool, h0: Heap, h: Heap, order: seq<nat>, link: nat, y: map<nat, nat>)
    requires Progress(interned, h0, h, order, |order|) && Leads(order, link) && Grows(h.xlat, y) && 0 !in y
    ensures Translate(y, link) == Translate(h.xlat, link)
  {
    if link != 0 {
      LinkIn(interned, h0, h, order, link);
      assert y[link] == h.xlat[link];
    }
  }

  lemma EntrySpared(interned: nat -> bool, h0: Heap, h: Heap, r: Heap, order: seq<nat>, a: nat)
    requires Progress(interned, h0, h, order, |order|) && a in h0.entries && BothWays(h0.entries, order, a)
    requires EntryNow(interned, h0, h, a, true) && Stayed(h, r, a) && Grows(h.xlat, r.xlat) && 0 !in r.xlat
    ensures EntryNow(interned, h0, r, a, true)
  {
    var e := h0.entries[a];
    assert r.xlat[a] == h.xlat[a];
    CopiesStay(interned, h.xlat, e, r.xlat);
    LinkSame(interned, h0, h, order, e.next, r.xlat);
    LinkSame(interned, h0, h, order, e.last, r.xlat);
    LinkSame(interned, h0, h, order, e.listNext, r.xlat);
    LinkSame(interned, h0, h, order, e.listLast, r.xlat);
  }

  lemma ProgressSpared(w: World, h0: Heap, h: Heap, r: Heap, order: seq<nat>)
    requires Table(h0, order) && Progress(w.interned, h0, h, order, |order|) && Grows(h.xlat, r.xlat) && 0 !in r.xlat
    requires forall i {:trigger order[i]} :: 0 <= i < |order| ==> Stayed(h, r, order[i])
    ensures Progress(w.interned, h0, r, order, |order|)
  {
    forall i | 0 <= i < |order| ensures order[i] in h0.entries && EntryNow(w.interned, h0, r, order[i], true) {
      assert EntryNow(w.interned, h0, h, order[i], true);
      EntrySpared(w.interned, h0, h, r, order, order[i]);
    }
  }

  lemma CopiedSame(w: World, h0: Heap, h: Heap, order: seq<nat>, b: nat, y: map<nat, nat>)
    requires Progress(w.interned, h0, h, order, |order|) && SlotsLead(h0, order, b) && Grows(h.xlat, y) && 0 !in y
    ensures Copied(y, h0.parts[b].slots) == Copied(h.xlat, h0.parts[b].slots)
  {
    var s := h0.parts[b].slots;
    forall i | 0 <= i < |s| ensures Copied(y, s)[i] == Copied(h.xlat, s)[i] {
      assert Leads(order, h0.parts[b].slots[i]);
      LinkSame(w.interned, h0, h, order, s[i], y);
    }
  }

  lemma HeadSpared(w: World, h0: Heap, h: Heap, r: Heap, t: nat, at: nat)
    requires IsTable(h0, t) && TableOf(w, h0, t) && DoneTable(w, h0, h, t, at) && Grows(h.xlat, r.xlat) && 0 !in r.xlat
    requires at in r.parts && r.parts[at] == h.parts[at]
    requires h0.parts[t].tableMask != 0 ==> PartStayed(h, r, h0.parts[t].buckets)
    ensures HeadMoved(h0, r, t, at)
  {
    var p0, order := h0.parts[t], Order(w, t);
    if order != [] {
      assert order[0] in order;
    }
    LinkSame(w.interned, h0, h, order, p0.listHead, r.xlat);
    LinkSame(w.interned, h0, h, order, p0.listTail, r.xlat);
    LinkSame(w.interned, h0, h, order, p0.internalPointer, r.xlat);
    if p0.tableMask != 0 {
      CopiedSame(w, h0, h, order, p0.buckets, r.xlat);
      assert r.xlat[p0.buckets] == h.xlat[p0.buckets];
    }
  }

  lemma DoneSpared(w: World, h0: Heap, h: Heap, r: Heap, open: set<nat>, t: nat)
    requires IsTable(h0, t) && t != 0 && t !in open && TableOf(w, h0, t) && 0 !in r.xlat && t in h.xlat
    requires DoneTable(w, h0, h, t, h.xlat[t]) && t !in h.parts && Spares(w, h0, h, r, open)
    ensures t in r.xlat && DoneTable(w, h0, r, t, r.xlat[t]) && t !in r.parts
  {
    var order := Order(w, t);
    assert r.xlat[t] == h.xlat[t] && PartStayed(h, r, t);
    if h0.parts[t].tableMask != 0 {
      assert PartStayed(h, r, h0.parts[t].buckets);
    }
    HeadSpared(w, h0, h, r, t, h.xlat[t]);
    forall i | 0 <= i < |order| ensures Stayed(h, r, order[i]) {
      assert order[i] in h0.entries && Home(w, order[i]) == t;
    }
    ProgressSpared(w, h0, h, r, order);
  }

  lemma TablesSpared(w: World, h0: Heap, h: Heap, r: Heap, open: set<nat>)
    requires Below(h0) && Forest(w, h0) && TablesKept(w, h0, h, open) && Spares(w, h0, h, r, open) && 0 !in r.xlat
    ensures TablesKept(w, h0, r, open)
  {
    forall t: nat | IsTable(h0, t) && t !in open
      ensures if t in r.xlat then DoneTable(w, h0, r, t, r.xlat[t]) && t !in r.parts else FreshTable(w, h0, r, t)
    {
      assert TableOf(w, h0, t) by { assert Order(w, t) == Order(w, t); }
      if t in h.xlat {
        DoneSpared(w, h0, h, r, open, t);
      } else {
        FreshSpared(w, h0, h, r, open, t);
        assert !Closed(w, open, t) || t !in r.xlat;
      }
    }
  }
}
