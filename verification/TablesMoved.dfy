/** Tables within tables keep their shape, shared zvals stay shared, and no link leads to a bucket that has been freed,
    at any depth. */
module TablesMoved {
  import opened Alignment
  import opened PersistHash
  import opened PersistLinks
  import opened PersistNested
  import opened TableSteps

  // ---- after the loop: the pointers and the bucket array of a table

  lemma AimLink(interned: nat -> bool, h0: Heap, h: Heap, order: seq<nat>, link: nat)
    requires Progress(interned, h0, h, order, |order|) && Leads(order, link) && 0 !in h.xlat
    ensures Aim(h.xlat, link) == Translate(h.xlat, link)
  {
    if link != 0 { LinkIn(interned, h0, h, order, link); }
  }

  lemma AimSlotsCopied(interned: nat -> bool, h0: Heap, h: Heap, order: seq<nat>, b: nat)
    requires Progress(interned, h0, h, order, |order|) && SlotsLead(h0, order, b) && 0 !in h.xlat
    ensures AimSlots(h.xlat, h0.parts[b]) == Slots(Copied(h.xlat, h0.parts[b].slots))
    ensures order == [] ==> Slots(Copied(h.xlat, h0.parts[b].slots)) == h0.parts[b]
  {
    var s := h0.parts[b].slots;
    forall i | 0 <= i < |s|
      ensures AimAll(h.xlat, s)[i] == Copied(h.xlat, s)[i] && (order == [] ==> Copied(h.xlat, s)[i] == s[i])
    {
      assert Leads(order, h0.parts[b].slots[i]);
      AimLink(interned, h0, h, order, s[i]);
    }
    assert AimAll(h.xlat, s) == Copied(h.xlat, s);
    if order == [] { assert Copied(h.xlat, s) == s; }
  }

  lemma AimHeadMoved(interned: nat -> bool, h0: Heap, h: Heap, order: seq<nat>, p: Part)
    requires Progress(interned, h0, h, order, |order|) && p.Head? && Holds(h0, p, order) && 0 !in h.xlat
    ensures AimHead(h.xlat, p) == Head(Translate(h.xlat, p.listHead), Translate(h.xlat, p.listTail),
                                       Translate(h.xlat, p.internalPointer), p.tableMask, p.numOfElements, p.buckets)
  {
    AimLink(interned, h0, h, order, p.listHead);
    AimLink(interned, h0, h, order, p.listTail);
    AimLink(interned, h0, h, order, p.internalPointer);
  }

  /** All buckets of table t have been moved; the table is at a, and nothing else of it has changed. */
  ghost predicate Looped(w: World, h0: Heap, h: Heap, t: nat, a: nat) {
    && IsTable(h0, t) && TableOf(w, h0, t) && Progress(w.interned, h0, h, Order(w, t), |Order(w, t)|)
    && a in h.parts && h.parts[a] == h0.parts[t] && a == Translate(h.xlat, t)
    && (h0.parts[t].tableMask != 0 ==>
          var b := h0.parts[t].buckets;
          b in h0.parts && b !in h.xlat && b in h.parts && h.parts[b] == h0.parts[b])
  }

  function HeadAfter(x: map<nat, nat>, p: Part, buckets: nat): Part
    requires p.Head?
  {
    Head(Translate(x, p.listHead), Translate(x, p.listTail), Translate(x, p.internalPointer),
         p.tableMask, p.numOfElements, buckets)
  }

  /** The pointers of the table lead to copies, and its bucket array has been moved to the end of memory. */
  ghost predicate Updated(h0: Heap, h: Heap, r: Heap, t: nat, a: nat)
    requires IsTable(h0, t)
  {
    var b := h0.parts[t].buckets;
    && r.entries == h.entries && h.mem <= r.mem
    && if h0.parts[t].tableMask == 0 then
         r.xlat == h.xlat && r.parts == h.parts[a := HeadAfter(h.xlat, h0.parts[t], UNINITIALIZED_BUCKET)]
       else
         && b in h0.parts && h0.parts[b].Slots? && h.mem < r.mem && r.xlat == h.xlat[b := h.mem]
         && r.parts == h.parts[h.mem := Slots(Copied(h.xlat, h0.parts[b].slots))]
                              [a := HeadAfter(h.xlat, h0.parts[t], h.mem)] - {b}
  }

  lemma SlotsStored(w: World, h0: Heap, h: Heap, order: seq<nat>, b: nat, count: nat)
    requires Sizes(w.size) && Progress(w.interned, h0, h, order, |order|) && SlotsLead(h0, order, b) && 0 !in h.xlat
    requires b !in h.xlat && b in h.parts && h.parts[b] == h0.parts[b] && (count == 0 ==> order == []) && h.mem != b
    ensures var s := StoreSlots(w, h, b, count);
      && s == h.(parts := s.parts, xlat := h.xlat[b := h.mem], mem := s.mem) && h.mem < s.mem
      && s.parts == h.parts[h.mem := Slots(Copied(h.xlat, h0.parts[b].slots))] - {b}
  {
    AimSlotsCopied(w.interned, h0, h, order, b);
    assert w.size(b) > 0;
    var f := if count != 0 then h.(parts := h.parts[b := AimSlots(h.xlat, h.parts[b])]) else h;
    assert f.parts[b] == Slots(Copied(h.xlat, h0.parts[b].slots));
    assert f.parts[h.mem := f.parts[b]] - {b} == h.parts[h.mem := f.parts[b]] - {b};
  }

  lemma HeadOver(parts: map<nat, Part>, a: nat, b: nat, m: nat, x: Part, p: Part, s: Part)
    requires a != b && a != m
    ensures (parts[a := x][m := s] - {b})[a := p] == parts[m := s][a := p] - {b}
  {
  }

  lemma SameProgress(w: World, h0: Heap, h: Heap, g: Heap, order: seq<nat>, k: nat)
    requires Progress(w.interned, h0, h, order, k) && g.entries == h.entries && g.xlat == h.xlat
    ensures Progress(w.interned, h0, g, order, k)
  {
    forall j | 0 <= j < |order| ensures order[j] in h0.entries && EntryNow(w.interned, h0, g, order[j], j < k) {
      assert EntryNow(w.interned, h0, h, order[j], j < k);
    }
  }

  lemma ArrayUpdated(w: World, h0: Heap, h: Heap, order: seq<nat>, p0: Part, p: Part, a: nat)
    requires Sizes(w.size) && Progress(w.interned, h0, h, order, |order|) && 0 !in h.xlat && h.mem !in h.parts
    requires p0.Head? && SlotsLead(h0, order, p0.buckets) && (p0.numOfElements == 0 ==> order == [])
    requires a in h.parts && a != p0.buckets && p == HeadAfter(h.xlat, p0, p0.buckets)
    requires p0.buckets !in h.xlat && p0.buckets in h.parts && h.parts[p0.buckets] == h0.parts[p0.buckets]
    ensures var s := StoreSlots(w, h.(parts := h.parts[a := p]), p0.buckets, p0.numOfElements);
      && s == h.(parts := s.parts, xlat := h.xlat[p0.buckets := h.mem], mem := s.mem) && h.mem < s.mem
      && s.parts[a := p.(buckets := h.mem)] == h.parts[h.mem := Slots(Copied(h.xlat, h0.parts[p0.buckets].slots))]
                                                      [a := HeadAfter(h.xlat, p0, h.mem)] - {p0.buckets}
  {
    var g := h.(parts := h.parts[a := p]);
    SameProgress(w, h0, h, g, order, |order|);
    SlotsStored(w, h0, g, order, p0.buckets, p0.numOfElements);
    HeadOver(h.parts, a, p0.buckets, h.mem, p, p.(buckets := h.mem), Slots(Copied(h.xlat, h0.parts[p0.buckets].slots)));
  }

  lemma TableIs(w: World, h: Heap, a: nat, p: Part, s: Heap)
    requires a in h.parts && h.parts[a].Head? && p == AimHead(h.xlat, h.parts[a]) && p.tableMask != 0
    requires s == StoreSlots(w, h.(parts := h.parts[a := p]), p.buckets, p.numOfElements)
    ensures UpdateTable(w, h, a) == s.(parts := s.parts[a := p.(buckets := Translate(s.xlat, p.buckets))])
  {
  }

  lemma EmptyUpdated(w: World, h0: Heap, h: Heap, t: nat, a: nat)
    requires Looped(w, h0, h, t, a) && 0 !in h.xlat && h0.parts[t].tableMask == 0
    ensures Updated(h0, h, UpdateTable(w, h, a), t, a)
  {
    AimHeadMoved(w.interned, h0, h, Order(w, t), h0.parts[t]);
  }

  lemma FullUpdated(w: World, h0: Heap, h: Heap, t: nat, a: nat, p: Part, s: Heap)
    requires Sizes(w.size) && Looped(w, h0, h, t, a) && 0 !in h.xlat && h.mem !in h.parts && h0.parts[t].tableMask != 0
    requires p == HeadAfter(h.xlat, h0.parts[t], h0.parts[t].buckets)
    requires s == StoreSlots(w, h.(parts := h.parts[a := p]), p.buckets, p.numOfElements)
    ensures Updated(h0, h, s.(parts := s.parts[a := p.(buckets := Translate(s.xlat, p.buckets))]), t, a)
  {
    ArrayUpdated(w, h0, h, Order(w, t), h0.parts[t], p, a);
    assert s.xlat[p.buckets] == h.mem;
  }

  lemma UpdatedStep(w: World, h0: Heap, h: Heap, t: nat, a: nat)
    requires Sizes(w.size) && Looped(w, h0, h, t, a) && 0 !in h.xlat && h.mem !in h.parts
    ensures Updated(h0, h, UpdateTable(w, h, a), t, a)
  {
    if h0.parts[t].tableMask == 0 {
      EmptyUpdated(w, h0, h, t, a);
    } else {
      var p := AimHead(h.xlat, h0.parts[t]);
      var s := StoreSlots(w, h.(parts := h.parts[a := p]), p.buckets, p.numOfElements);
      AimHeadMoved(w.interned, h0, h, Order(w, t), h0.parts[t]);
      FullUpdated(w, h0, h, t, a, p, s);
      TableIs(w, h, a, p, s);
    }
  }

  lemma HeadSetting(w: World, h0: Heap, h: Heap, a: nat, p: Part)
    requires Setting(w, h0, h) && 0 < a < h.mem
    ensures Setting(w, h0, h.(parts := h.parts[a := p]))
  {
    Rearranged(w, h0, h, h.(parts := h.parts[a := p]));
  }

  lemma UpdateSetting(w: World, h0: Heap, h: Heap, t: nat, a: nat)
    requires Setting(w, h0, h) && Looped(w, h0, h, t, a)
    ensures Setting(w, h0, UpdateTable(w, h, a))
  {
    var p := AimHead(h.xlat, h0.parts[t]);
    var g := h.(parts := h.parts[a := p]);
    HeadSetting(w, h0, h, a, p);
    if p.tableMask == 0 {
      HeadSetting(w, h0, g, a, p.(buckets := UNINITIALIZED_BUCKET));
    } else {
      var s := StoreSlots(w, g, p.buckets, p.numOfElements);
      SlotsSetting(w, h0, g, p.buckets, p.numOfElements);
      HeadSetting(w, h0, s, a, p.(buckets := Translate(s.xlat, p.buckets)));
      TableIs(w, h, a, p, s);
    }
  }

  lemma SlotsSetting(w: World, h0: Heap, h: Heap, b: nat, count: nat)
    requires Setting(w, h0, h) && b in h0.parts && b !in h.xlat && b in h.parts
    ensures Setting(w, h0, StoreSlots(w, h, b, count)) && StoreSlots(w, h, b, count).mem >= h.mem
  {
    var f := if count != 0 then h.(parts := h.parts[b := AimSlots(h.xlat, h.parts[b])]) else h;
    Rearranged(w, h0, h, f);
    StorePartKeeps(w.interned, w.size, h0, f, b);
  }

  lemma PartElsewhere(w: World, h0: Heap, h: Heap, t: nat, a: nat, c: nat)
    requires Below(h0) && Fresh(h0, h) && a in h0.parts && c in h0.parts && Home(w, a) == t && Home(w, c) != t
    ensures Translate(h.xlat, c) != Translate(h.xlat, a)
  {
    if Translate(h.xlat, c) == Translate(h.xlat, a) {
      TranslateInjective(h0, h, c, a);
    }
  }

  /** What changes in parts is at the addresses a, b and at the end of memory. */
  lemma PartSpared(h: Heap, r: Heap, a: nat, b: nat, c: nat)
    requires forall x: nat {:trigger x in r.parts} :: x != a && x != b && x != h.mem ==>
      (x in r.parts <==> x in h.parts) && (x in h.parts ==> r.parts[x] == h.parts[x])
    requires c != h.mem && (c == a || c == b ==> c in h.parts)
    requires var l := Translate(h.xlat, c); l != a && l != b && l != h.mem
    ensures PartStayed(h, r, c)
  {
  }

  lemma UpdatedElsewhere(h0: Heap, h: Heap, r: Heap, t: nat, a: nat) returns (b: nat)
    requires IsTable(h0, t) && Updated(h0, h, r, t, a)
    requires h0.parts[t].tableMask != 0 ==> a != h0.parts[t].buckets && h.mem != h0.parts[t].buckets
    ensures b == if h0.parts[t].tableMask == 0 then a else h0.parts[t].buckets
    ensures forall x: nat {:trigger x in r.parts} :: x != a && x != b && x != h.mem ==>
      (x in r.parts <==> x in h.parts) && (x in h.parts ==> r.parts[x] == h.parts[x])
  {
    b := if h0.parts[t].tableMask == 0 then a else h0.parts[t].buckets;
  }

  lemma UpdateSpares(w: World, h0: Heap, h: Heap, r: Heap, t: nat, a: nat, open: set<nat>)
    requires Below(h0) && Below(h) && Fresh(h0, h) && Looped(w, h0, h, t, a) && t in open
    requires Updated(h0, h, r, t, a)
    requires h0.parts[t].tableMask != 0 ==> a != h0.parts[t].buckets && h.mem != h0.parts[t].buckets
    ensures Spares(w, h0, h, r, open)
  {
    var b := UpdatedElsewhere(h0, h, r, t, a);
    forall c: nat | c in h0.parts && Closed(w, open, c) ensures PartStayed(h, r, c) {
      PartElsewhere(w, h0, h, t, t, c);
      if h0.parts[t].tableMask != 0 {
        PartElsewhere(w, h0, h, t, b, c);
      }
      assert c < h0.mem <= h.mem;
      PartSpared(h, r, a, b, c);
    }
    assert forall c: nat {:trigger Stayed(h, r, c)} :: Stayed(h, r, c);
  }

  lemma UpdateRest(w: World, h0: Heap, h: Heap, r: Heap, t: nat, a: nat, open: set<nat>)
    requires Apart(h0) && Forest(w, h0) && Fresh(h0, h) && Fresh(h0, r) && Gone(w, h0, h, open) && Owned(h0, h.xlat)
    requires IsTable(h0, t) && Updated(h0, h, r, t, a)
    ensures Gone(w, h0, r, open) && Owned(h0, r.xlat)
  {
    forall c: nat | c in r.entries ensures (c in h0.entries || h0.mem <= c) && (c in r.xlat ==> Home(w, c) in open) {
      if c in r.xlat {
        assert r.xlat[c] == r.xlat[c];
      }
    }
    forall z: nat | z in h0.zvals && h0.zvals[z].Arr? && h0.zvals[z].table in r.xlat ensures z in r.xlat {
      assert IsTable(h0, h0.zvals[z].table);
    }
  }

  lemma UpdateFramed(w: World, h0: Heap, h: Heap, r: Heap, t: nat, a: nat, open: set<nat>, m0: nat)
    requires Below(h0) && Below(h) && Looped(w, h0, h, t, a) && h0.mem <= m0 <= h.mem && (a == t || m0 <= a)
    requires Updated(h0, h, r, t, a)
    ensures Framed(w, h0, h, r, open - {t}, m0)
  {
    assert Home(w, t) == t;
  }

  lemma HeadUpdated(w: World, h0: Heap, h: Heap, r: Heap, t: nat, a: nat)
    requires Below(h) && Fresh(h0, r) && Looped(w, h0, h, t, a) && h0.parts[t].tableMask != 0
    requires Updated(h0, h, r, t, a) && h0.parts[t].buckets != h.mem && a != h.mem && a != h0.parts[t].buckets
    ensures HeadMoved(h0, r, t, a)
  {
    var p0, order := h0.parts[t], Order(w, t);
    CopiedSame(w, h0, h, order, p0.buckets, r.xlat);
    LinkSame(w.interned, h0, h, order, p0.listHead, r.xlat);
    LinkSame(w.interned, h0, h, order, p0.listTail, r.xlat);
    LinkSame(w.interned, h0, h, order, p0.internalPointer, r.xlat);
  }

  lemma UpdateDone(w: World, h0: Heap, h: Heap, r: Heap, t: nat, a: nat)
    requires Below(h0) && Below(h) && Fresh(h0, h) && Fresh(h0, r) && Looped(w, h0, h, t, a)
    requires Updated(h0, h, r, t, a)
    ensures DoneTable(w, h0, r, t, a)
  {
    var p0, order := h0.parts[t], Order(w, t);
    forall i | 0 <= i < |order| ensures Stayed(h, r, order[i]) {
      assert r.entries == h.entries;
    }
    ProgressSpared(w, h0, h, r, order);
    if p0.tableMask != 0 {
      HeadUpdated(w, h0, h, r, t, a);
    }
  }

  lemma UpdateInv(w: World, h0: Heap, h: Heap, t: nat, a: nat, open: set<nat>, r: Heap)
    requires Inv(w, h0, h, open) && t in open && Looped(w, h0, h, t, a) && Setting(w, h0, r)
    requires Updated(h0, h, r, t, a)
    ensures Inv(w, h0, r, open)
  {
    UpdateRest(w, h0, h, r, t, a, open);
    UpdateSpares(w, h0, h, r, t, a, open);
    TablesSpared(w, h0, h, r, open);
  }

  lemma UpdateKeeps(w: World, h0: Heap, h: Heap, t: nat, a: nat, open: set<nat>, m0: nat) returns (r: Heap)
    requires Inv(w, h0, h, open) && t in open && Looped(w, h0, h, t, a) && h0.mem <= m0 <= h.mem && (a == t || m0 <= a)
    ensures r == UpdateTable(w, h, a) && Inv(w, h0, r, open) && DoneTable(w, h0, r, t, a)
    ensures Framed(w, h0, h, r, open - {t}, m0)
  {
    r := UpdateTable(w, h, a);
    UpdateSetting(w, h0, h, t, a);
    UpdatedStep(w, h0, h, t, a);
    UpdateInv(w, h0, h, t, a, open, r);
    UpdateFramed(w, h0, h, r, t, a, open, m0);
    UpdateDone(w, h0, h, r, t, a);
  }

  // ---- the recursion

  ghost predicate ZvalKept(w: World, h0: Heap, h: Heap, r: Heap, z: nat, open: set<nat>) {
    && Inv(w, h0, r, open) && Framed(w, h0, h, r, open, h.mem)
    && z in r.xlat && r.xlat[z] == if z in h.xlat then h.xlat[z] else h.mem
  }

  lemma CopyZvalKeeps(w: World, h0: Heap, h: Heap, z: nat, open: set<nat>, d: nat) returns (r: Heap)
    requires Inv(w, h0, h, open) && z in h0.zvals && Rank(w, z) <= d && Above(w, open, Rank(w, z))
    ensures r == CopyZval(w, h, z, d) && ZvalKept(w, h0, h, r, z, open)
    decreases d, 2
  {
    if z in h.xlat {
      r := h;
    } else if h0.zvals[z].Arr? {
      AboveMore(w, h0, z, h0.zvals[z].table, open);
      r := CopyTableKeeps(w, h0, h, z, h0.zvals[z].table, open, d, d - 1);
    } else {
      r := OtherZvalKeeps(w, h0, h, z, open, d);
    }
  }

  lemma OtherZvalKeeps(w: World, h0: Heap, h: Heap, z: nat, open: set<nat>, d: nat) returns (r: Heap)
    requires Inv(w, h0, h, open) && z in h0.zvals && z !in h.xlat && !h0.zvals[z].Arr?
    ensures r == CopyZval(w, h, z, d) && ZvalKept(w, h0, h, r, z, open)
  {
    OtherKeeps(w, h0, h, z, open, d);
    r := CopyZval(w, h, z, d);
  }

  lemma ZvalIsTable(w: World, h: Heap, z: nat, t: nat, d: nat, n: nat, u: Heap) returns (r: Heap)
    requires z !in h.xlat && z in h.zvals && h.zvals[z] == Arr(t) && d == n + 1
    requires u == StoreTable(w.size, StoreZval(w.size, h, z), h.mem, t)
    ensures r == CopyZval(w, h, z, d) && r == HashPersist(w, u, Order(w, t), Translate(u.xlat, t), n)
  {
    r := CopyTable(w, h, z, t, n);
  }

  lemma CopyTableKeeps(w: World, h0: Heap, h: Heap, z: nat, t: nat, open: set<nat>, d: nat, n: nat) returns (r: Heap)
    requires Inv(w, h0, h, open) && z in h0.zvals && Rank(w, z) <= d == n + 1 && Above(w, open, Rank(w, z))
    requires z !in h.xlat && h0.zvals[z] == Arr(t)
    ensures r == CopyZval(w, h, z, d) && ZvalKept(w, h0, h, r, z, open)
    decreases d, 0
  {
    AboveMore(w, h0, z, t, open);
    ArrayThere(w, h0, h, z);
    var u, a := StoreTable(w.size, StoreZval(w.size, h, z), h.mem, t), h.mem + Aligned(w.size(z));
    ArrayOpened(w, h0, h, z, t, open, n, u, a);
    r := ZvalIsTable(w, h, z, t, d, n, u);
    ArrayMoved(w, h0, h, z, t, open, n, u, a, r);
  }

  /** The array zval z and its table t are stored. */
  ghost predicate InArray(w: World, h0: Heap, h: Heap, z: nat, t: nat, open: set<nat>, d: nat, u: Heap, a: nat) {
    && Apart(h0) && Below(h0) && z in h0.zvals && IsTable(h0, t) && t !in open && Opened(h, u, z, t, a)
    && h0.mem <= h.mem
    && Inv(w, h0, u, open + {t}) && Begun(w, h0, u, t, a) && Framed(w, h0, h, u, open, h.mem)
    && Rank(w, t) <= d && Above(w, open + {t}, Rank(w, t)) && a == Translate(u.xlat, t)
  }

  lemma ArrayOpened(w: World, h0: Heap, h: Heap, z: nat, t: nat, open: set<nat>, d: nat, u: Heap, a: nat)
    requires Inv(w, h0, h, open) && z in h0.zvals && z !in h.xlat && h0.zvals[z] == Arr(t)
    requires z in h.zvals && h.zvals[z] == Arr(t) && Above(w, open, Rank(w, z))
    requires Rank(w, t) <= d && Above(w, open + {t}, Rank(w, t))
    requires u == StoreTable(w.size, StoreZval(w.size, h, z), h.mem, t) && a == h.mem + Aligned(w.size(z))
    ensures InArray(w, h0, h, z, t, open, d, u, a)
  {
    TableOpened(w, h0, h, z, t, open, u, a);
    assert u.xlat[t] == a;
  }

  lemma ArrayMoved(w: World, h0: Heap, h: Heap, z: nat, t: nat, open: set<nat>, d: nat, u: Heap, a: nat, r: Heap)
    requires InArray(w, h0, h, z, t, open, d, u, a) && r == HashPersist(w, u, Order(w, t), a, d)
    ensures Inv(w, h0, r, open) && Framed(w, h0, h, r, open, h.mem) && z in r.xlat && r.xlat[z] == h.mem
    decreases d, 9
  {
    PersistKeeps(w, h0, u, t, a, open + {t}, d, h.mem);
    assert u.xlat[t] == a && (open + {t}) - {t} == open;
    TableGone(w, h0, h, u, z, t, a);
    TableClosed(w, h0, u, r, t, a, open, h.mem);
    FramedTrans(w, h0, h, u, r, open, h.mem);
    NotTable(w, h0, z, t);
    ZvalPlace(h, u, r, z, t, a);
  }

  lemma ArrayThere(w: World, h0: Heap, h: Heap, z: nat)
    requires DataKept(w.interned, h0, h) && z in h0.zvals && z !in h.xlat
    ensures z in h.zvals && h.zvals[z] == h0.zvals[z]
  {
  }

  lemma TableGone(w: World, h0: Heap, h: Heap, u: Heap, z: nat, t: nat, a: nat)
    requires Below(h0) && IsTable(h0, t) && Opened(h, u, z, t, a) && h0.mem <= h.mem
    ensures t !in u.parts
  {
  }

  lemma AboveMore(w: World, h0: Heap, z: nat, t: nat, open: set<nat>)
    requires Forest(w, h0) && z in h0.zvals && h0.zvals[z] == Arr(t) && Above(w, open, Rank(w, z))
    ensures Rank(w, t) < Rank(w, z) && Above(w, open + {t}, Rank(w, t))
  {
  }

  lemma NotTable(w: World, h0: Heap, z: nat, t: nat)
    requires Apart(h0) && z in h0.zvals && IsTable(h0, t)
    ensures z != t
  {
  }

  lemma ZvalPlace(h: Heap, u: Heap, r: Heap, z: nat, t: nat, a: nat)
    requires Opened(h, u, z, t, a) && z != t && Grows(u.xlat, r.xlat)
    ensures z in r.xlat && r.xlat[z] == h.mem
  {
    assert u.xlat[z] == h.mem && r.xlat[z] == u.xlat[z];
  }

  /** The table has been moved and is closed. */
  lemma TableClosed(w: World, h0: Heap, u: Heap, r: Heap, t: nat, a: nat, open: set<nat>, m0: nat)
    requires Inv(w, h0, r, open + {t}) && IsTable(h0, t) && DoneTable(w, h0, r, t, a)
    requires t in u.xlat && u.xlat[t] == a && t !in u.parts && h0.mem <= u.mem && Framed(w, h0, u, r, open, m0)
    ensures Inv(w, h0, r, open)
  {
    assert t in r.xlat && r.xlat[t] == u.xlat[t];
    assert TableOf(w, h0, t) by { assert Order(w, t) == Order(w, t); }
    OldGone(w, h0, r, t);
    GoneClosed(w, h0, r, t, open);
    FewerOpen(w, h0, r, t, a, open);
  }

  lemma FewerOpen(w: World, h0: Heap, r: Heap, t: nat, a: nat, open: set<nat>)
    requires TablesKept(w, h0, r, open + {t}) && IsTable(h0, t) && t in r.xlat && r.xlat[t] == a
    requires DoneTable(w, h0, r, t, a) && t !in r.parts
    ensures TablesKept(w, h0, r, open)
  {
    forall s: nat | IsTable(h0, s) && s !in open
      ensures if s in r.xlat then DoneTable(w, h0, r, s, r.xlat[s]) && s !in r.parts else FreshTable(w, h0, r, s)
    {
      assert Order(w, s) == Order(w, s);
    }
  }

  lemma OldGone(w: World, h0: Heap, r: Heap, t: nat)
    requires IsTable(h0, t) && TableOf(w, h0, t) && Progress(w.interned, h0, r, Order(w, t), |Order(w, t)|)
    ensures forall b: nat {:trigger Mine(w, t, h0, b)} :: Mine(w, t, h0, b) ==> b !in r.entries
  {
    forall b: nat | Mine(w, t, h0, b) ensures b !in r.entries {
      var i :| 0 <= i < |Order(w, t)| && Order(w, t)[i] == b;
      assert EntryNow(w.interned, h0, r, b, true);
    }
  }

  lemma GoneClosed(w: World, h0: Heap, r: Heap, t: nat, open: set<nat>)
    requires Fresh(h0, r) && Gone(w, h0, r, open + {t})
    requires forall b: nat {:trigger Mine(w, t, h0, b)} :: Mine(w, t, h0, b) ==> b !in r.entries
    ensures Gone(w, h0, r, open)
  {
    forall b: nat | b in r.entries ensures (b in h0.entries || h0.mem <= b) && (b in r.xlat ==> Home(w, b) in open) {
      if b in r.xlat {
        assert r.xlat[b] == r.xlat[b];
        assert b in h0.entries && Mine(w, t, h0, b) == (Home(w, b) == t);
      }
    }
  }

  lemma CopyDataKeeps(w: World, h0: Heap, h: Heap, p: nat, q: nat, open: set<nat>, d: nat)
    requires Inv(w, h0, h, open) && p in h.entries && h0.mem <= p < h.mem
    requires q in h.xlat && h.xlat[q] == p && Home(w, q) in open
    requires var e := h.entries[p];
      if e.inside then e.data in h0.zvals && Rank(w, e.data) <= d && Above(w, open, Rank(w, e.data))
        else e.data in h0.blocks
    ensures var m, data := CopyData(w, h, p, d), h.entries[p].data;
      && Inv(w, h0, m, open) && EntriesFramed(w, h0, h, m, open, p) && PartsFramed(w, h0, h, m, open, h.mem)
      && Outside(w, h.xlat, m.xlat, open) && h.mem <= m.mem
      && data in m.xlat && m.entries[p] == h.entries[p].(data := Translate(m.xlat, data))
    decreases d, 3
  {
    var e := h.entries[p];
    var r := if e.inside then CopyZval(w, h, e.data, d) else CopyBlock(w.size, h, e.data);
    if e.inside {
      var _ := CopyZvalKeeps(w, h0, h, e.data, open, d);
    } else {
      BlockKeeps(w, h0, h, e.data, open);
    }
    DataStep(w, h0, h, r, e.(data := Translate(r.xlat, e.data)), p, q, open);
  }

  lemma DataRank(w: World, h0: Heap, t: nat, k: nat, open: set<nat>)
    requires IsTable(h0, t) && TableOf(w, h0, t) && k < |Order(w, t)| && PointsToStrings(w.interned, h0)
    requires Above(w, open, Rank(w, t))
    ensures Order(w, t)[k] in h0.entries
    ensures var e := h0.entries[Order(w, t)[k]];
      if e.inside then
        e.data in h0.zvals && Rank(w, e.data) <= Rank(w, t) && Above(w, open, Rank(w, e.data))
      else e.data in h0.blocks
  {
    KeyThere(w, h0, Order(w, t)[k]);
  }

  /** The bucket, its key and its data are copied. */
  lemma HalfMove(w: World, h0: Heap, h: Heap, t: nat, k: nat, open: set<nat>, d: nat, q: nat)
    requires Inv(w, h0, h, open) && t in open && TableOf(w, h0, t) && Rank(w, t) <= d && Above(w, open, Rank(w, t))
    requires Progress(w.interned, h0, h, Order(w, t), k) && k < |Order(w, t)| && Order(w, t)[k] == q
    ensures q in h.entries
    ensures var m := CopyBucket(w, h, q, d);
      && Inv(w, h0, m, open) && Working(w, t, h0, h, Order(w, t), k, m) && h.mem <= m.mem
      && EntriesFramed(w, h0, h, m, open, h.mem) && PartsFramed(w, h0, h, m, open, h.mem)
      && TurnOutside(w, h.xlat, m.xlat, q, open)
    decreases d, 5
  {
    assert EntryNow(w.interned, h0, h, q, false) && Home(w, q) == t;
    KeyedKeeps(w, h0, h, q, open);
    DataRank(w, h0, t, k, open);
    HalfCopied(w, h0, h, t, k, open, d, q, CopyKey(w.interned, w.size, CopyEntry(w.size, h, q), h.mem));
  }

  lemma HalfCopied(w: World, h0: Heap, h: Heap, t: nat, k: nat, open: set<nat>, d: nat, q: nat, r: Heap)
    requires Inv(w, h0, h, open) && t in open && TableOf(w, h0, t) && q !in h.xlat && Home(w, q) == t
    requires Progress(w.interned, h0, h, Order(w, t), k) && k < |Order(w, t)| && Order(w, t)[k] == q
    requires Keyed(w, h0, h, q, r) && Inv(w, h0, r, open)
    requires var e := h0.entries[q];
      if e.inside then e.data in h0.zvals && Rank(w, e.data) <= d && Above(w, open, Rank(w, e.data))
        else e.data in h0.blocks
    ensures h.mem in r.entries
    ensures var m := CopyData(w, r, h.mem, d);
      && Inv(w, h0, m, open) && Working(w, t, h0, h, Order(w, t), k, m) && h.mem <= m.mem
      && EntriesFramed(w, h0, h, m, open, h.mem) && PartsFramed(w, h0, h, m, open, h.mem)
      && TurnOutside(w, h.xlat, m.xlat, q, open)
    decreases d, 4
  {
    assert h.xlat[q := h.mem][q] == h.mem;
    assert r.xlat[q] == h.mem;
    CopyDataKeeps(w, h0, r, h.mem, q, open, d);
    HalfDone(w, t, h0, h, k, r, CopyData(w, r, h.mem, d), open);
  }

  lemma HalfDone(w: World, t: nat, h0: Heap, h: Heap, k: nat, r: Heap, m: Heap, open: set<nat>)
    requires Inv(w, h0, h, open) && Inv(w, h0, m, open) && t in open && TableOf(w, h0, t) && k < |Order(w, t)|
    requires Progress(w.interned, h0, h, Order(w, t), k) && Keyed(w, h0, h, Order(w, t)[k], r)
    requires Order(w, t)[k] !in h.xlat && h.mem in m.entries && h0.entries[Order(w, t)[k]].data in m.xlat
    requires EntriesFramed(w, h0, r, m, open, h.mem) && PartsFramed(w, h0, r, m, open, r.mem)
    requires Outside(w, r.xlat, m.xlat, open) && r.mem <= m.mem
    requires m.entries[h.mem] == r.entries[h.mem].(data := Translate(m.xlat, h0.entries[Order(w, t)[k]].data))
    ensures Working(w, t, h0, h, Order(w, t), k, m) && h.mem <= m.mem
    ensures EntriesFramed(w, h0, h, m, open, h.mem) && PartsFramed(w, h0, h, m, open, h.mem)
    ensures TurnOutside(w, h.xlat, m.xlat, Order(w, t)[k], open)
  {
    var order, q := Order(w, t), Order(w, t)[k];
    OpenNotNull(h0, open);
    HalfOutside(w, h0, h, q, r, m, open);
    HalfFramed(w, h0, h, q, r, m, open);
    HalfMovedOf(w, t, h0, h, order, k, r, m, open);
  }

  /** One turn of the loop keeps what holds between all steps, moves one bucket, follows no link to a bucket that is
      gone, and touches no table but this one and those within it. */
  lemma MoveKeeps(w: World, h0: Heap, h: Heap, t: nat, k: nat, open: set<nat>, d: nat, m0: nat, q: nat)
    requires Inv(w, h0, h, open) && t in open && TableOf(w, h0, t) && Rank(w, t) <= d && Above(w, open, Rank(w, t))
    requires Progress(w.interned, h0, h, Order(w, t), k) && k < |Order(w, t)| && Order(w, t)[k] == q
    requires h0.mem <= m0 <= h.mem && Since(h.xlat, Order(w, t), m0)
    ensures q in h.entries && Neighbours(CopyBucket(w, h, q, d).entries, h.mem)
    ensures var r := MoveEntry(w, h, q, d);
      && Inv(w, h0, r, open) && Progress(w.interned, h0, r, Order(w, t), k + 1) && Since(r.xlat, Order(w, t), m0)
      && EntriesFramed(w, h0, h, r, open - {t}, m0) && PartsFramed(w, h0, h, r, open, h.mem) && h.mem <= r.mem
      && TurnOutside(w, h.xlat, r.xlat, q, open)
    decreases d, 6
  {
    HalfMove(w, h0, h, t, k, open, d, q);
    TurnKeeps(w, t, h0, h, Order(w, t), k, CopyBucket(w, h, q, d), open, m0);
  }

  /** What the loop may translate: buckets of the table, and what belongs to no open table. */
  ghost predicate LoopOutside(w: World, x: map<nat, nat>, y: map<nat, nat>, order: seq<nat>, open: set<nat>) {
    Grows(x, y) && forall b: nat {:trigger b in y} :: b in y && b !in x ==> b in order || Home(w, b) !in open
  }

  lemma LoopOutsideMore(w: World, x: map<nat, nat>, y: map<nat, nat>, z: map<nat, nat>, order: seq<nat>, k: nat,
          open: set<nat>)
    requires k < |order| && TurnOutside(w, x, y, order[k], open) && LoopOutside(w, y, z, order, open)
    ensures LoopOutside(w, x, z, order, open)
  {
    GrowsTrans(x, y, z);
    forall b: nat | b in z && b !in x ensures b in order || Home(w, b) !in open {
      assert b in y || b !in y;
    }
  }

  lemma PartsSooner(w: World, h0: Heap, h: Heap, r: Heap, open: set<nat>, m1: nat)
    requires PartsFramed(w, h0, h, r, open, h.mem) && m1 <= h.mem
    ensures PartsFramed(w, h0, h, r, open, m1)
  {
    forall a: nat | a in h.parts && Stays(w, h0, open, m1, a) ensures a in r.parts && r.parts[a] == h.parts[a] {
      assert Stays(w, h0, open, h.mem, a);
    }
  }

  lemma {:induction false} MoveAllKeeps(w: World, h0: Heap, h: Heap, t: nat, k: nat, open: set<nat>, d: nat, m0: nat,
          m1: nat)
    requires Inv(w, h0, h, open) && t in open && TableOf(w, h0, t) && Rank(w, t) <= d && Above(w, open, Rank(w, t))
    requires Progress(w.interned, h0, h, Order(w, t), k)
    requires h0.mem <= m0 <= h.mem && Since(h.xlat, Order(w, t), m0) && m1 <= h.mem
    ensures var r := MoveAll(w, h, Order(w, t), k, d);
      && Inv(w, h0, r, open) && Progress(w.interned, h0, r, Order(w, t), |Order(w, t)|) && h.mem <= r.mem
      && EntriesFramed(w, h0, h, r, open - {t}, m0) && PartsFramed(w, h0, h, r, open, m1)
      && LoopOutside(w, h.xlat, r.xlat, Order(w, t), open)
    decreases d, 7, |Order(w, t)| - k
  {
    if k < |Order(w, t)| {
      MoveKeeps(w, h0, h, t, k, open, d, m0, Order(w, t)[k]);
      var g, r := MoveEntry(w, h, Order(w, t)[k], d), MoveAll(w, h, Order(w, t), k, d);
      MoveAllKeeps(w, h0, g, t, k + 1, open, d, m0, m1);
      assert r == MoveAll(w, g, Order(w, t), k + 1, d);
      PartsSooner(w, h0, h, g, open, m1);
      EntriesTrans(w, h0, h, g, r, open - {t}, m0);
      PartsTrans(w, h0, h, g, r, open, m1);
      LoopOutsideMore(w, h.xlat, g.xlat, r.xlat, Order(w, t), k, open);
    }
  }

  lemma LinkFresh(w: World, h0: Heap, h: Heap, t: nat, link: nat)
    requires IsTable(h0, t) && FreshRest(w, h0, h, t) && Leads(Order(w, t), link) && 0 !in h.xlat
    ensures Translate(h.xlat, link) == link
  {
    if link != 0 {
      var i :| 0 <= i < |Order(w, t)| && Order(w, t)[i] == link;
      assert FreshEntry(h0, h, Order(w, t)[i]);
    }
  }

  lemma NothingMoved(w: World, h0: Heap, h: Heap, t: nat, m0: nat)
    requires Fresh(h0, h) && IsTable(h0, t) && TableOf(w, h0, t) && FreshRest(w, h0, h, t)
    ensures Progress(w.interned, h0, h, Order(w, t), 0) && Since(h.xlat, Order(w, t), m0)
  {
    var order := Order(w, t);
    forall j | 0 <= j < |order| ensures order[j] in h0.entries && EntryNow(w.interned, h0, h, order[j], false) {
      assert FreshEntry(h0, h, order[j]);
      var e := h0.entries[order[j]];
      assert BothWays(h0.entries, order, order[j]);
      LinkFresh(w, h0, h, t, e.next);
      LinkFresh(w, h0, h, t, e.last);
      LinkFresh(w, h0, h, t, e.listNext);
      LinkFresh(w, h0, h, t, e.listLast);
    }
    forall j | 0 <= j < |order| ensures order[j] !in h.xlat {
      assert FreshEntry(h0, h, order[j]);
    }
  }

  lemma AfterLoop(w: World, h0: Heap, h: Heap, r: Heap, t: nat, a: nat, open: set<nat>)
    requires Below(h0) && Below(h) && Fresh(h0, h) && Fresh(h0, r) && Apart(h0) && IsTable(h0, t) && TableOf(w, h0, t)
    requires t in open && Begun(w, h0, h, t, a) && a == Translate(h.xlat, t)
    requires Progress(w.interned, h0, r, Order(w, t), |Order(w, t)|)
    requires PartsFramed(w, h0, h, r, open, h.mem) && LoopOutside(w, h.xlat, r.xlat, Order(w, t), open)
    ensures Looped(w, h0, r, t, a)
  {
    assert Stays(w, h0, open, h.mem, a);
    if t in h.xlat {
      assert r.xlat[t] == h.xlat[t];
    } else {
      assert t !in r.xlat by { NotOrdered(w, h0, t, t); }
    }
    if h0.parts[t].tableMask != 0 {
      var b := h0.parts[t].buckets;
      NotOrdered(w, h0, t, b);
      assert Stays(w, h0, open, h.mem, b);
    }
  }

  lemma NotOrdered(w: World, h0: Heap, t: nat, b: nat)
    requires Apart(h0) && IsTable(h0, t) && TableOf(w, h0, t) && b in h0.parts
    ensures b !in Order(w, t)
  {
    if b in Order(w, t) { MineOf(w, t, h0, Order(w, t), b); }
  }

  /** zend_hash_persist of a table that is stored at a. */
  lemma PersistKeeps(w: World, h0: Heap, h: Heap, t: nat, a: nat, open: set<nat>, d: nat, m0: nat)
    requires Inv(w, h0, h, open) && t in open && Begun(w, h0, h, t, a) && a == Translate(h.xlat, t)
    requires Rank(w, t) <= d && Above(w, open, Rank(w, t)) && h0.mem <= m0 <= h.mem && (a == t || m0 <= a)
    ensures var r := HashPersist(w, h, Order(w, t), a, d);
      Inv(w, h0, r, open) && DoneTable(w, h0, r, t, a) && Framed(w, h0, h, r, open - {t}, m0)
    decreases d, 8
  {
    assert TableOf(w, h0, t) by { assert Order(w, t) == Order(w, t); }
    NothingMoved(w, h0, h, t, m0);
    MoveAllKeeps(w, h0, h, t, 0, open, d, m0, h.mem);
    var g := MoveAll(w, h, Order(w, t), 0, d);
    AfterLoop(w, h0, h, g, t, a, open);
    var r := UpdateKeeps(w, h0, g, t, a, open, m0);
    LoopFramed(w, h0, h, g, t, open, m0);
    FramedTrans(w, h0, h, g, r, open - {t}, m0);
  }

  lemma LoopFramed(w: World, h0: Heap, h: Heap, g: Heap, t: nat, open: set<nat>, m0: nat)
    requires IsTable(h0, t) && TableOf(w, h0, t) && m0 <= h.mem <= g.mem
    requires EntriesFramed(w, h0, h, g, open - {t}, m0) && PartsFramed(w, h0, h, g, open, h.mem)
    requires LoopOutside(w, h.xlat, g.xlat, Order(w, t), open)
    ensures Framed(w, h0, h, g, open - {t}, m0)
  {
    forall a: nat | a in h.parts && Stays(w, h0, open - {t}, m0, a) ensures a in g.parts && g.parts[a] == h.parts[a] {
      assert Stays(w, h0, open, h.mem, a);
    }
    forall b: nat | b in g.xlat && b !in h.xlat ensures Home(w, b) !in open - {t} {
      if b in Order(w, t) { MineOf(w, t, h0, Order(w, t), b); }
    }
  }

  // ---- the whole structure

  /** path: a bucket of table t, a bucket of the table in its data, and so on. */
  ghost predicate Way(w: World, h0: Heap, t: nat, path: seq<nat>)
    decreases path
  {
    path == [] ||
    (&& path[0] in Order(w, t) && path[0] in h0.entries && h0.entries[path[0]].inside
     && h0.entries[path[0]].data in h0.zvals && h0.zvals[h0.entries[path[0]].data].Arr?
     && Way(w, h0, h0.zvals[h0.entries[path[0]].data].table, path[1..]))
  }

  /** The table at the end of the path. */
  ghost function Inner(w: World, h0: Heap, t: nat, path: seq<nat>): nat
    requires Way(w, h0, t, path)
    decreases path
  {
    if path == [] then t else Inner(w, h0, h0.zvals[h0.entries[path[0]].data].table, path[1..])
  }

  /** The table at address at, with its buckets in this order, is whole: links run both ways within the table, no link
      leads to a bucket that is not there, and head, tail and bucket array lead to its buckets. */
  ghost predicate WholeTable(h: Heap, at: nat, order: seq<nat>) {
    Table(h, order) && IsTable(h, at) && Holds(h, h.parts[at], order)
  }

  lemma LeadsCopied(interned: nat -> bool, h0: Heap, r: Heap, order: seq<nat>, link: nat)
    requires Progress(interned, h0, r, order, |order|) && Leads(order, link) && 0 !in r.xlat
    ensures Leads(Copied(r.xlat, order), Translate(r.xlat, link))
  {
    if link != 0 {
      var i :| 0 <= i < |order| && order[i] == link;
      PlaceMoved(interned, h0, r, order, i);
    }
  }

  lemma SlotsCopied(w: World, h0: Heap, r: Heap, order: seq<nat>, b: nat, c: nat)
    requires Progress(w.interned, h0, r, order, |order|) && SlotsLead(h0, order, b) && SlotsMoved(h0, r, b, c)
    requires 0 !in r.xlat
    ensures SlotsLead(r, Copied(r.xlat, order), c)
  {
    var s := h0.parts[b].slots;
    forall i | 0 <= i < |r.parts[c].slots| ensures Leads(Copied(r.xlat, order), r.parts[c].slots[i]) {
      assert Leads(order, h0.parts[b].slots[i]);
      LeadsCopied(w.interned, h0, r, order, s[i]);
    }
  }

  lemma DoneWhole(w: World, h0: Heap, r: Heap, t: nat, at: nat)
    requires Fresh(h0, r) && IsTable(h0, t) && TableOf(w, h0, t) && DoneTable(w, h0, r, t, at)
    ensures WholeTable(r, at, Copied(r.xlat, Order(w, t)))
  {
    var order, p0 := Order(w, t), h0.parts[t];
    SameShape(w.interned, h0, r, order);
    LeadsCopied(w.interned, h0, r, order, p0.listTail);
    LeadsCopied(w.interned, h0, r, order, p0.internalPointer);
    if p0.tableMask != 0 {
      SlotsCopied(w, h0, r, order, p0.buckets, r.parts[at].buckets);
    }
  }

  /** What is in a table that has been moved has been moved. */
  lemma InnerDone(w: World, h0: Heap, r: Heap, t: nat, at: nat, open: set<nat>, b: nat)
    requires Inv(w, h0, r, open) && IsTable(h0, t) && DoneTable(w, h0, r, t, at) && Above(w, open, Rank(w, t))
    requires b in Order(w, t) && b in h0.entries && h0.entries[b].inside
    ensures var z := h0.entries[b].data;
      && z in h0.zvals && z in r.xlat && Rank(w, z) <= Rank(w, t)
      && r.xlat[z] in r.zvals && SameValue(w.interned, r, h0.zvals[z], r.zvals[r.xlat[z]])
    ensures h0.zvals[h0.entries[b].data].Arr? ==>
      var s := h0.zvals[h0.entries[b].data].table;
      IsTable(h0, s) && Rank(w, s) < Rank(w, t) && s in r.xlat && DoneTable(w, h0, r, s, r.xlat[s])
  {
    var order, z := Order(w, t), h0.entries[b].data;
    var i :| 0 <= i < |order| && order[i] == b;
    assert TableOf(w, h0, t);
    PlaceMoved(w.interned, h0, r, order, i);
    KeyThere(w, h0, b);
    assert z in h0.zvals && z in r.xlat && Rank(w, z) <= Rank(w, t);
    if h0.zvals[z].Arr? {
      var s := h0.zvals[z].table;
      assert IsTable(h0, s) && Rank(w, s) < Rank(w, z);
      assert s !in open;
      assert Order(w, s) == Order(w, s);
    }
  }

  lemma {:induction false} DeepDone(w: World, h0: Heap, r: Heap, t: nat, at: nat, open: set<nat>, path: seq<nat>)
    requires Inv(w, h0, r, open) && IsTable(h0, t) && DoneTable(w, h0, r, t, at) && Above(w, open, Rank(w, t))
    requires Way(w, h0, t, path)
    ensures var s := Inner(w, h0, t, path);
      && IsTable(h0, s) && Rank(w, s) <= Rank(w, t) && (path != [] ==> s in r.xlat)
      && DoneTable(w, h0, r, s, if path == [] then at else r.xlat[s])
    decreases path
  {
    if path != [] {
      var s := h0.zvals[h0.entries[path[0]].data].table;
      InnerDone(w, h0, r, t, at, open, path[0]);
      DeepDone(w, h0, r, s, r.xlat[s], open, path[1..]);
    }
  }

  /** After zend_hash_persist of table t, every table in it, at any depth, is whole: its copied buckets are in the order
      they were in, each with its links, its key and its data translated; none of its old buckets is left. */
  lemma TableMoved(w: World, h0: Heap, h: Heap, t: nat, open: set<nat>, d: nat, path: seq<nat>)
    requires Inv(w, h0, h, open) && t in open && t !in h.xlat && Begun(w, h0, h, t, t)
    requires Rank(w, t) <= d && Above(w, open, Rank(w, t)) && Way(w, h0, t, path)
    ensures var r, s := HashPersist(w, h, Order(w, t), t, d), Inner(w, h0, t, path);
      && (path != [] ==> s in r.xlat)
      && WholeTable(r, if path == [] then t else r.xlat[s], Copied(r.xlat, Order(w, s)))
      && forall i {:trigger Order(w, s)[i]} :: 0 <= i < |Order(w, s)| ==>
           var a := Order(w, s)[i];
           && a !in r.entries && a in h0.entries && a in r.xlat && r.xlat[a] in r.entries
           && r.entries[r.xlat[a]] == Moved(w.interned, r.xlat, h0.entries[a])
  {
    var r := AfterPersist(w, h0, h, t, open, d);
    var s := Inner(w, h0, t, path);
    DeepDone(w, h0, r, t, t, open, path);
    assert TableOf(w, h0, s) by { assert Order(w, s) == Order(w, s); }
    DoneWhole(w, h0, r, s, if path == [] then t else r.xlat[s]);
    forall i | 0 <= i < |Order(w, s)|
      ensures var a := Order(w, s)[i];
        && a !in r.entries && a in h0.entries && a in r.xlat && r.xlat[a] in r.entries
        && r.entries[r.xlat[a]] == Moved(w.interned, r.xlat, h0.entries[a])
    {
      PlaceMoved(w.interned, h0, r, Order(w, s), i);
    }
  }

  lemma AfterPersist(w: World, h0: Heap, h: Heap, t: nat, open: set<nat>, d: nat) returns (r: Heap)
    requires Inv(w, h0, h, open) && t in open && t !in h.xlat && Begun(w, h0, h, t, t)
    requires Rank(w, t) <= d && Above(w, open, Rank(w, t))
    ensures r == HashPersist(w, h, Order(w, t), t, d) && Inv(w, h0, r, open) && DoneTable(w, h0, r, t, t)
  {
    assert h0.mem <= h.mem;
    PersistKeeps(w, h0, h, t, t, open, d, h0.mem);
    r := HashPersist(w, h, Order(w, t), t, d);
  }

  lemma TranslateCopies(h0: Heap, r: Heap, a: nat, b: nat)
    requires Fresh(h0, r) && a in r.xlat && b in r.xlat
    ensures r.xlat[a] == r.xlat[b] <==> a == b
  {
  }

  /** A bucket of a table that has been moved, and its data. */
  lemma DataMoved(w: World, h0: Heap, r: Heap, t: nat, at: nat, open: set<nat>, path: seq<nat>, i: nat)
    requires Inv(w, h0, r, open) && IsTable(h0, t) && DoneTable(w, h0, r, t, at) && Above(w, open, Rank(w, t))
    requires Way(w, h0, t, path) && i < |Order(w, Inner(w, h0, t, path))|
    ensures var a := Order(w, Inner(w, h0, t, path))[i];
      && a in h0.entries && a in r.xlat && r.xlat[a] in r.entries && h0.entries[a].data in r.xlat
      && r.entries[r.xlat[a]].data == r.xlat[h0.entries[a].data]
      && (h0.entries[a].inside ==>
            && h0.entries[a].data in h0.zvals && r.xlat[h0.entries[a].data] in r.zvals
            && SameValue(w.interned, r, h0.zvals[h0.entries[a].data], r.zvals[r.xlat[h0.entries[a].data]]))
  {
    var s := Inner(w, h0, t, path);
    DeepDone(w, h0, r, t, at, open, path);
    PlaceMoved(w.interned, h0, r, Order(w, s), i);
    var a := Order(w, s)[i];
    if h0.entries[a].inside {
      KeyThere(w, h0, a);
    }
  }

  /** Take any two buckets, each in some table at some depth of what has been moved: their copies share their data just
      when they did. The data have the same contents: a string or an array in it is the copy of the one it was. */
  lemma SharingKept(w: World, h0: Heap, h: Heap, t: nat, open: set<nat>, d: nat, p: seq<nat>, q: seq<nat>, i: nat,
          j: nat)
    requires Inv(w, h0, h, open) && t in open && t !in h.xlat && Begun(w, h0, h, t, t)
    requires Rank(w, t) <= d && Above(w, open, Rank(w, t)) && Way(w, h0, t, p) && Way(w, h0, t, q)
    requires i < |Order(w, Inner(w, h0, t, p))| && j < |Order(w, Inner(w, h0, t, q))|
    ensures var r := HashPersist(w, h, Order(w, t), t, d);
      var a, b := Order(w, Inner(w, h0, t, p))[i], Order(w, Inner(w, h0, t, q))[j];
      && a in h0.entries && b in h0.entries && a in r.xlat && b in r.xlat && r.xlat[a] in r.entries
      && r.xlat[b] in r.entries
      && (r.entries[r.xlat[a]].data == r.entries[r.xlat[b]].data <==> h0.entries[a].data == h0.entries[b].data)
      && ContentsKept(h0, r)
      && (h0.entries[a].inside ==>
            && h0.entries[a].data in h0.zvals && r.entries[r.xlat[a]].data in r.zvals
            && SameValue(w.interned, r, h0.zvals[h0.entries[a].data], r.zvals[r.entries[r.xlat[a]].data]))
  {
    var r := AfterPersist(w, h0, h, t, open, d);
    DataMoved(w, h0, r, t, t, open, p, i);
    DataMoved(w, h0, r, t, t, open, q, j);
    var a, b := Order(w, Inner(w, h0, t, p))[i], Order(w, Inner(w, h0, t, q))[j];
    TranslateCopies(h0, r, h0.entries[a].data, h0.entries[b].data);
  }
}
