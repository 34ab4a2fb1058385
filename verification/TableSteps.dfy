/** Each single step of persisting nested tables keeps what holds between all steps, and touches nothing else. */
module TableSteps {
  import opened Alignment
  import opened PersistHash
  import opened PersistLinks
  import opened PersistNested

  // ---- steps that change no table

  lemma Rearranged(w: World, h0: Heap, h: Heap, r: Heap)
    requires Setting(w, h0, h) && r == h.(entries := r.entries, parts := r.parts)
    requires forall a: nat {:trigger a in r.entries} :: a in r.entries ==> 0 < a < r.mem
    requires forall a: nat {:trigger a in r.parts} :: a in r.parts ==> 0 < a < r.mem
    ensures Setting(w, h0, r)
  {
    assert Grows(h.xlat, r.xlat);
    forall b: nat | b in h0.zvals
      ensures if b in r.xlat then r.xlat[b] in r.zvals && SameValue(w.interned, r, h0.zvals[b], r.zvals[r.xlat[b]])
              else b in r.zvals && r.zvals[b] == h0.zvals[b]
    {
      if b in r.xlat {
        SameValueGrows(w.interned, h, r, h0.zvals[b], h.zvals[h.xlat[b]]);
      }
    }
  }

  /** What is translated is neither a bucket nor part of a table. */
  ghost predicate QuietStep(h0: Heap, h: Heap, r: Heap) {
    && Grows(h.xlat, r.xlat) && r.entries == h.entries && r.parts == h.parts && h.mem <= r.mem
    && forall b: nat {:trigger b in r.xlat} :: b in r.xlat && b !in h.xlat ==> b !in h0.entries && b !in h0.parts
  }

  lemma QuietSpares(w: World, h0: Heap, h: Heap, r: Heap, open: set<nat>)
    requires Forest(w, h0) && QuietStep(h0, h, r) && 0 !in open
    ensures Spares(w, h0, h, r, open) && Framed(w, h0, h, r, open, h.mem)
  {
    forall b: nat | b in r.xlat && b !in h.xlat ensures Home(w, b) == 0 {
      assert b !in h0.entries && b !in h0.parts;
    }
  }

  lemma QuietOwned(w: World, h0: Heap, h: Heap, r: Heap)
    requires Forest(w, h0) && QuietStep(h0, h, r) && Owned(h0, h.xlat)
    ensures Owned(h0, r.xlat)
  {
    forall z: nat | z in h0.zvals && h0.zvals[z].Arr? && h0.zvals[z].table in r.xlat ensures z in r.xlat {
      assert IsTable(h0, h0.zvals[z].table);
      assert h0.zvals[z].table in h.xlat;
      assert h.xlat[z] == r.xlat[z];
    }
  }

  lemma OpenNotNull(h0: Heap, open: set<nat>)
    requires Below(h0) && forall t: nat {:trigger t in open} :: t in open ==> IsTable(h0, t)
    ensures 0 !in open
  {
  }

  lemma Quiet(w: World, h0: Heap, h: Heap, r: Heap, open: set<nat>)
    requires Inv(w, h0, h, open) && Setting(w, h0, r) && QuietStep(h0, h, r)
    ensures Inv(w, h0, r, open) && Framed(w, h0, h, r, open, h.mem)
  {
    OpenNotNull(h0, open);
    QuietSpares(w, h0, h, r, open);
    TablesSpared(w, h0, h, r, open);
    GoneQuiet(w, h0, h, r, open);
    QuietOwned(w, h0, h, r);
  }

  lemma GoneQuiet(w: World, h0: Heap, h: Heap, r: Heap, open: set<nat>)
    requires Gone(w, h0, h, open) && QuietStep(h0, h, r) && Fresh(h0, r)
    ensures Gone(w, h0, r, open)
  {
    forall a: nat | a in r.entries ensures (a in h0.entries || h0.mem <= a) && (a in r.xlat ==> Home(w, a) in open) {
      assert a in h.entries;
      if a in r.xlat {
        assert r.xlat[a] == r.xlat[a];
      }
    }
  }

  // ---- strings, zvals and blocks

  lemma OtherSetting(w: World, h0: Heap, h: Heap, z: nat)
    requires Setting(w, h0, h) && z in h0.zvals && z !in h.xlat && !h0.zvals[z].Arr?
    ensures z in h.zvals && h.zvals[z] == h0.zvals[z]
    ensures var r := CopyPlain(w, h, z);
      Setting(w, h0, r) && QuietStep(h0, h, r) && z in r.xlat && r.xlat[z] == h.mem
  {
    var v := h0.zvals[z];
    assert z in h.zvals && h.zvals[z] == v;
    var g := StoreZval(w.size, h, z);
    ZvalHalfway(w.interned, w.size, h0, h, z, g);
    if v.Chars? && !w.interned(v.val) {
      StoreCharsKeeps(w.interned, w.size, h0, h.mem, z, v.val, g);
      StringStep(w, h0, h, z, v.val, g, StoreChars(w.size, g, h.mem, v.val));
    } else {
      ZvalDone(w.interned, h0, z, g);
      StringStep(w, h0, h, z, z, g, g);
    }
  }

  lemma StringStep(w: World, h0: Heap, h: Heap, z: nat, s: nat, g: Heap, r: Heap)
    requires Apart(h0) && z in h0.zvals && (s in h0.strings || s == z) && z !in h.xlat && z in h.zvals
    requires g == StoreZval(w.size, h, z) && Grows(g.xlat, r.xlat) && r.entries == g.entries && r.parts == g.parts
    requires g.mem <= r.mem && forall b: nat {:trigger r.xlat[b]} :: b in r.xlat && b !in g.xlat ==> b == s
    ensures QuietStep(h0, h, r) && z in r.xlat && r.xlat[z] == h.mem
  {
    assert g.xlat[z] == h.mem;
    forall b: nat | b in r.xlat && b !in h.xlat ensures b !in h0.entries && b !in h0.parts {
      assert r.xlat[b] == r.xlat[b];
      assert b == s || b == z;
    }
    GrowsOver(h.xlat, z, h.mem, r.xlat);
  }

  lemma OtherKeeps(w: World, h0: Heap, h: Heap, z: nat, open: set<nat>, d: nat)
    requires Inv(w, h0, h, open) && z in h0.zvals && z !in h.xlat && !h0.zvals[z].Arr?
    ensures var r := CopyZval(w, h, z, d);
      Inv(w, h0, r, open) && Framed(w, h0, h, r, open, h.mem) && z in r.xlat && r.xlat[z] == h.mem
  {
    OtherSetting(w, h0, h, z);
    Quiet(w, h0, h, CopyPlain(w, h, z), open);
  }

  lemma BlockStep(size: nat -> nat, h0: Heap, h: Heap, a: nat)
    requires Sizes(size) && Apart(h0) && a in h0.blocks
    ensures QuietStep(h0, h, CopyBlock(size, h, a))
  {
  }

  lemma BlockKeeps(w: World, h0: Heap, h: Heap, a: nat, open: set<nat>)
    requires Inv(w, h0, h, open) && a in h0.blocks
    ensures var r := CopyBlock(w.size, h, a);
      Inv(w, h0, r, open) && Framed(w, h0, h, r, open, h.mem) && a in r.xlat
  {
    CopyBlockKeeps(w.interned, w.size, h0, h, a);
    BlockStep(w.size, h0, h, a);
    Quiet(w, h0, h, CopyBlock(w.size, h, a), open);
  }

  // ---- a table is opened

  /** The table is stored at a, and nothing of it has been changed yet. */
  ghost predicate Begun(w: World, h0: Heap, h: Heap, t: nat, a: nat)
    requires IsTable(h0, t)
  {
    a in h.parts && h.parts[a] == h0.parts[t] && FreshRest(w, h0, h, t)
  }

  lemma TableThere(w: World, h0: Heap, h: Heap, z: nat, open: set<nat>)
    requires Inv(w, h0, h, open) && z in h0.zvals && z !in h.xlat && h0.zvals[z].Arr? && Above(w, open, Rank(w, z))
    ensures var t := h0.zvals[z].table;
      IsTable(h0, t) && t !in open && TableOf(w, h0, t) && FreshTable(w, h0, h, t) && z in h.zvals
        && h.zvals[z] == Arr(t)
  {
    var t := h0.zvals[z].table;
    assert IsTable(h0, t) && Rank(w, t) < Rank(w, z);
    assert Order(w, t) == Order(w, t);
  }

  /** The zval at z and table t have been stored, the table at a. */
  ghost predicate Opened(h: Heap, u: Heap, z: nat, t: nat, a: nat) {
    && z !in h.xlat && t !in h.xlat && t in h.parts && h.mem <= a && h.mem <= u.mem
    && u.entries == h.entries && u.xlat == h.xlat[z := h.mem][t := a] && u.parts == h.parts[a := h.parts[t]] - {t}
  }

  lemma OpenSpares(w: World, h0: Heap, h: Heap, u: Heap, t: nat, z: nat, a: nat, open: set<nat>)
    requires Below(h0) && Below(h) && Fresh(h0, h) && Forest(w, h0) && Apart(h0) && IsTable(h0, t) && TableOf(w, h0, t)
    requires z in h0.zvals && Opened(h, u, z, t, a)
    ensures Spares(w, h0, h, u, open + {t})
  {
    assert z !in h0.entries && z !in h0.parts && Home(w, z) == 0 && Home(w, t) == t;
    forall b: nat | b in h0.parts && Closed(w, open + {t}, b) ensures PartStayed(h, u, b) {
      assert b != t && b != z;
    }
    forall b: nat | b in h0.entries && Closed(w, open + {t}, b) ensures Stayed(h, u, b) {
      assert b != t && b != z;
    }
  }

  lemma OpenFramed(w: World, h0: Heap, h: Heap, u: Heap, t: nat, z: nat, a: nat, open: set<nat>)
    requires Below(h0) && Below(h) && Fresh(h0, h) && Forest(w, h0) && Apart(h0) && IsTable(h0, t) && TableOf(w, h0, t)
    requires z in h0.zvals && Opened(h, u, z, t, a) && t !in open && 0 !in open
    ensures Framed(w, h0, h, u, open, h.mem)
  {
    assert z !in h0.entries && z !in h0.parts && Home(w, z) == 0 && Home(w, t) == t;
  }

  lemma OpenFresh(w: World, h0: Heap, h: Heap, u: Heap, t: nat, z: nat, a: nat)
    requires Below(h) && Apart(h0) && IsTable(h0, t) && FreshTable(w, h0, h, t) && z in h0.zvals && Below(h0)
    requires Opened(h, u, z, t, a)
    requires h0.parts[t].tableMask != 0 ==> SlotsLead(h0, Order(w, t), h0.parts[t].buckets)
    ensures Begun(w, h0, u, t, a)
  {
    forall i | 0 <= i < |Order(w, t)| ensures FreshEntry(h0, u, Order(w, t)[i]) {
      assert FreshEntry(h0, h, Order(w, t)[i]);
    }
  }

  lemma OpenGone(w: World, h0: Heap, h: Heap, u: Heap, t: nat, z: nat, a: nat, open: set<nat>)
    requires Gone(w, h0, h, open) && Apart(h0) && Fresh(h0, u) && IsTable(h0, t) && z in h0.zvals
    requires Opened(h, u, z, t, a)
    ensures Gone(w, h0, u, open + {t})
  {
    forall b: nat | b in u.entries
      ensures (b in h0.entries || h0.mem <= b) && (b in u.xlat ==> Home(w, b) in open + {t})
    {
      assert b in h.entries;
      if b in u.xlat {
        assert u.xlat[b] == u.xlat[b];
      }
    }
  }

  lemma OpenOwned(w: World, h0: Heap, h: Heap, u: Heap, t: nat, z: nat, a: nat)
    requires Forest(w, h0) && Apart(h0) && Owned(h0, h.xlat) && z in h0.zvals && h0.zvals[z] == Arr(t)
    requires Opened(h, u, z, t, a)
    ensures Owned(h0, u.xlat)
  {
    forall y: nat | y in h0.zvals && h0.zvals[y].Arr? && h0.zvals[y].table in u.xlat ensures y in u.xlat {
      assert IsTable(h0, h0.zvals[y].table);
      if h0.zvals[y].table == t {
        assert h0.zvals[y] == h0.zvals[z];
      }
    }
  }

  lemma MoreOpen(w: World, h0: Heap, h: Heap, open: set<nat>, t: nat)
    requires TablesKept(w, h0, h, open)
    ensures TablesKept(w, h0, h, open + {t})
  {
    forall s: nat | IsTable(h0, s) && s !in open + {t}
      ensures if s in h.xlat then DoneTable(w, h0, h, s, h.xlat[s]) && s !in h.parts else FreshTable(w, h0, h, s)
    {
      assert Order(w, s) == Order(w, s);
    }
  }

  lemma OpenSetting(w: World, h0: Heap, h: Heap, z: nat, t: nat, u: Heap)
    requires Setting(w, h0, h) && z in h0.zvals && z !in h.xlat && h0.zvals[z] == Arr(t) && z in h.zvals
    requires t in h0.parts && z != t && t !in h.xlat && t in h.parts && h.zvals[z] == h0.zvals[z]
    requires u == StoreTable(w.size, StoreZval(w.size, h, z), h.mem, t)
    ensures Setting(w, h0, u)
  {
    var g := StoreZval(w.size, h, z);
    ZvalHalfway(w.interned, w.size, h0, h, z, g);
    StoreTableKeeps(w.interned, w.size, h0, h.mem, z, t, g);
  }

  lemma OpenedStep(size: nat -> nat, h: Heap, z: nat, t: nat, u: Heap, a: nat)
    requires Sizes(size) && z in h.zvals && z !in h.xlat && z != t && t !in h.xlat && t in h.parts
    requires u == StoreTable(size, StoreZval(size, h, z), h.mem, t) && a == h.mem + Aligned(size(z))
    ensures Opened(h, u, z, t, a) && a < u.mem
  {
    assert size(z) > 0 && size(t) > 0;
  }

  lemma OpenInv(w: World, h0: Heap, h: Heap, u: Heap, t: nat, z: nat, a: nat, open: set<nat>)
    requires Inv(w, h0, h, open) && Setting(w, h0, u) && z in h0.zvals && h0.zvals[z] == Arr(t)
    requires IsTable(h0, t) && TableOf(w, h0, t) && Opened(h, u, z, t, a)
    ensures Inv(w, h0, u, open + {t})
  {
    OpenSpares(w, h0, h, u, t, z, a, open);
    OpenGone(w, h0, h, u, t, z, a, open);
    OpenOwned(w, h0, h, u, t, z, a);
    MoreOpen(w, h0, h, open, t);
    TablesSpared(w, h0, h, u, open + {t});
  }

  /** The zval and its table are stored; now the table is open. */
  lemma TableOpened(w: World, h0: Heap, h: Heap, z: nat, t: nat, open: set<nat>, u: Heap, a: nat)
    requires Inv(w, h0, h, open) && z in h0.zvals && z !in h.xlat && h0.zvals[z] == Arr(t) && Above(w, open, Rank(w, z))
    requires z in h.zvals && u == StoreTable(w.size, StoreZval(w.size, h, z), h.mem, t)
    requires a == h.mem + Aligned(w.size(z))
    ensures IsTable(h0, t) && t !in open && Opened(h, u, z, t, a) && a < u.mem
    ensures Inv(w, h0, u, open + {t}) && Begun(w, h0, u, t, a) && Framed(w, h0, h, u, open, h.mem)
  {
    TableThere(w, h0, h, z, open);
    assert z != t;
    OpenSetting(w, h0, h, z, t, u);
    OpenedStep(w.size, h, z, t, u, a);
    OpenInv(w, h0, h, u, t, z, a, open);
    OpenNotNull(h0, open);
    OpenFramed(w, h0, h, u, t, z, a, open);
    OpenFresh(w, h0, h, u, t, z, a);
  }

  // ---- one bucket: the bucket and its key

  lemma CopyEntrySetting(w: World, h0: Heap, h: Heap, q: nat)
    requires Setting(w, h0, h) && q in h0.entries && q in h.entries && q !in h.xlat
    ensures Setting(w, h0, CopyEntry(w.size, h, q))
  {
    var r := CopyEntry(w.size, h, q);
    FreshMore(h0, h, r, q, Aligned(w.size(q)));
    ContentsSame(h0, h, r, q);
    ValuesGrow(w.interned, h0, h, r, q);
    BelowMore(h, r, q);
  }

  lemma BelowMore(h: Heap, r: Heap, q: nat)
    requires Below(h) && h.mem < r.mem && r.parts == h.parts && r.strings == h.strings && r.zvals == h.zvals
    requires r.blocks == h.blocks && q in h.entries && r.entries == h.entries[h.mem := h.entries[q]]
    ensures Below(r)
  {
  }

  lemma CopyKeySetting(w: World, h0: Heap, h: Heap, p: nat)
    requires Setting(w, h0, h) && p in h.entries
    requires var key := h.entries[p].key; key != 0 && !w.interned(key) ==> key in h0.strings
    ensures var r, key := CopyKey(w.interned, w.size, h, p), h.entries[p].key;
      && Setting(w, h0, r) && Grows(h.xlat, r.xlat) && r.parts == h.parts && h.mem <= r.mem
      && r.entries == h.entries[p := h.entries[p].(key := KeyAfter(w.interned, r.xlat, key))]
      && (key != 0 && !w.interned(key) ==> key in r.xlat)
      && forall b: nat {:trigger r.xlat[b]} :: b in r.xlat && b !in h.xlat ==> b in h0.strings
  {
    var key := h.entries[p].key;
    if key != 0 && !w.interned(key) {
      var r := CopyString(w.size, h, key, false);
      CopyStringBasics(w.size, h0, h, key, false);
      CopyStringKeeps(w.interned, w.size, h0, h, key, false);
      Rearranged(w, h0, r, CopyKey(w.interned, w.size, h, p));
    } else {
      assert h.entries == h.entries[p := h.entries[p].(key := key)];
    }
  }

  /** The bucket at q has been copied to the end of memory, and its key. */
  ghost predicate Keyed(w: World, h0: Heap, h: Heap, q: nat, r: Heap) {
    && q in h0.entries && r.parts == h.parts && h.mem < r.mem && Grows(h.xlat[q := h.mem], r.xlat)
    && h.mem !in h.entries
    && r.entries == h.entries[h.mem := Linked(h.xlat, h0.entries[q]).(
                                key := KeyAfter(w.interned, r.xlat, h0.entries[q].key))]
    && (h0.entries[q].key != 0 && !w.interned(h0.entries[q].key) ==> h0.entries[q].key in r.xlat)
    && (forall b: nat {:trigger b in r.xlat} :: b in r.xlat && b !in h.xlat ==> b == q || b in h0.strings)
  }

  lemma KeyedStep(w: World, h0: Heap, h: Heap, q: nat, r1: Heap, r: Heap)
    requires q in h0.entries && q in h.entries && q !in h.xlat && h.entries[q] == Linked(h.xlat, h0.entries[q])
    requires h.mem !in h.entries && r1 == CopyEntry(w.size, h, q) && h.mem < r1.mem <= r.mem && r.parts == r1.parts
    requires Grows(r1.xlat, r.xlat)
    requires var e, key := h.entries[q], h.entries[q].key;
      && r.entries == r1.entries[h.mem := e.(key := KeyAfter(w.interned, r.xlat, key))]
      && (key != 0 && !w.interned(key) ==> key in r.xlat)
    requires forall b: nat {:trigger r.xlat[b]} :: b in r.xlat && b !in r1.xlat ==> b in h0.strings
    ensures Keyed(w, h0, h, q, r)
  {
    forall b: nat | b in r.xlat && b !in h.xlat ensures b == q || b in h0.strings {
      assert r.xlat[b] == r.xlat[b];
      assert b in r1.xlat ==> b == q;
    }
  }

  lemma KeyThere(w: World, h0: Heap, q: nat)
    requires PointsToStrings(w.interned, h0) && q in h0.entries
    ensures var e := h0.entries[q];
      && (e.key != 0 && !w.interned(e.key) ==> e.key in h0.strings)
      && if e.inside then e.data in h0.zvals else e.data in h0.blocks
  {
  }

  lemma KeyedSetting(w: World, h0: Heap, h: Heap, q: nat)
    requires Setting(w, h0, h) && q in h0.entries && q in h.entries && q !in h.xlat
    requires h.entries[q] == Linked(h.xlat, h0.entries[q])
    ensures var r := CopyKey(w.interned, w.size, CopyEntry(w.size, h, q), h.mem);
      Setting(w, h0, r) && Keyed(w, h0, h, q, r)
  {
    var r1 := CopyEntry(w.size, h, q);
    CopyEntrySetting(w, h0, h, q);
    assert r1.entries[h.mem] == h.entries[q];
    KeyThere(w, h0, q);
    CopyKeySetting(w, h0, r1, h.mem);
    assert h.mem !in h.entries && h.mem < r1.mem;
    KeyedStep(w, h0, h, q, r1, CopyKey(w.interned, w.size, r1, h.mem));
  }

  lemma KeyedSpares(w: World, h0: Heap, h: Heap, q: nat, r: Heap, open: set<nat>)
    requires Forest(w, h0) && Apart(h0) && Below(h0) && Fresh(h0, h) && Keyed(w, h0, h, q, r) && q !in h.xlat
    requires Home(w, q) in open
    ensures Spares(w, h0, h, r, open)
  {
    GrowsOver(h.xlat, q, h.mem, r.xlat);
    forall b: nat | b in r.xlat && b !in h.xlat ensures !Closed(w, open, b) {
      assert b == q || (b in h0.strings && b !in h0.entries && b !in h0.parts);
    }
    forall b: nat | b in h0.entries && Closed(w, open, b) ensures Stayed(h, r, b) {
      assert b < h0.mem;
    }
  }

  lemma KeyedRest(w: World, h0: Heap, h: Heap, q: nat, r: Heap, open: set<nat>)
    requires Forest(w, h0) && Apart(h0) && Fresh(h0, h) && Fresh(h0, r) && Keyed(w, h0, h, q, r) && q !in h.xlat
    requires Home(w, q) in open && Gone(w, h0, h, open) && Owned(h0, h.xlat)
    ensures Gone(w, h0, r, open) && Owned(h0, r.xlat)
  {
    GrowsOver(h.xlat, q, h.mem, r.xlat);
    forall a: nat | a in r.entries
      ensures (a in h0.entries || h0.mem <= a) && (a in r.xlat ==> Home(w, a) in open)
    {
      if a in r.xlat {
        assert r.xlat[a] == r.xlat[a];
        assert a in h.xlat || a == q || a in h0.strings;
      }
    }
    forall z: nat | z in h0.zvals && h0.zvals[z].Arr? && h0.zvals[z].table in r.xlat ensures z in r.xlat {
      var t := h0.zvals[z].table;
      assert IsTable(h0, t);
      assert t in h.xlat;
      assert h.xlat[z] == r.xlat[z];
    }
  }

  lemma KeyedKeeps(w: World, h0: Heap, h: Heap, q: nat, open: set<nat>)
    requires Inv(w, h0, h, open) && q in h0.entries && q in h.entries && q !in h.xlat && Home(w, q) in open
    requires h.entries[q] == Linked(h.xlat, h0.entries[q])
    ensures var r := CopyKey(w.interned, w.size, CopyEntry(w.size, h, q), h.mem);
      Inv(w, h0, r, open) && Keyed(w, h0, h, q, r)
  {
    var r := CopyKey(w.interned, w.size, CopyEntry(w.size, h, q), h.mem);
    KeyedSetting(w, h0, h, q);
    KeyedSpares(w, h0, h, q, r, open);
    KeyedRest(w, h0, h, q, r, open);
    TablesSpared(w, h0, h, r, open);
  }

  // ---- one bucket: its data

  /** The data pointer of the copy at p is set. */
  lemma DataStep(w: World, h0: Heap, h: Heap, r: Heap, e: Entry, p: nat, q: nat, open: set<nat>)
    requires Inv(w, h0, r, open) && Framed(w, h0, h, r, open, h.mem) && p in h.entries && h0.mem <= p < h.mem
    requires q in h.xlat && h.xlat[q] == p && Home(w, q) in open
    ensures var m := r.(entries := r.entries[p := e]);
      && Inv(w, h0, m, open) && EntriesFramed(w, h0, h, m, open, p) && PartsFramed(w, h0, h, m, open, h.mem)
      && p in r.entries && r.entries[p] == h.entries[p]
  {
    var m := r.(entries := r.entries[p := e]);
    assert Stays(w, h0, open, h.mem, p);
    Rearranged(w, h0, r, m);
    DataSpares(w, h0, r, m, e, p, q, open);
    TablesSpared(w, h0, r, m, open);
    DataFramed(w, h0, h, r, m, e, p, open);
  }

  lemma DataSpares(w: World, h0: Heap, r: Heap, m: Heap, e: Entry, p: nat, q: nat, open: set<nat>)
    requires Below(h0) && Fresh(h0, r) && q in r.xlat && r.xlat[q] == p && Home(w, q) in open
    requires m == r.(entries := r.entries[p := e])
    ensures Spares(w, h0, r, m, open)
  {
    forall b: nat | b in h0.entries && Closed(w, open, b) ensures Stayed(r, m, b) {
      assert q < h0.mem && b != q;
      if Translate(r.xlat, b) == p {
        TranslateInjective(h0, r, b, q);
      }
    }
  }

  lemma DataFramed(w: World, h0: Heap, h: Heap, r: Heap, m: Heap, e: Entry, p: nat, open: set<nat>)
    requires Framed(w, h0, h, r, open, h.mem) && p in h.entries && h0.mem <= p < h.mem
    requires m == r.(entries := r.entries[p := e])
    ensures EntriesFramed(w, h0, h, m, open, p) && PartsFramed(w, h0, h, m, open, h.mem)
  {
    forall a: nat | a in h.entries && Stays(w, h0, open, p, a) ensures a in m.entries && m.entries[a] == h.entries[a] {
      assert Stays(w, h0, open, h.mem, a);
    }
  }

  // ---- one bucket: the turn

  /** What a turn may translate: the bucket itself, and what belongs to no open table. */
  ghost predicate TurnOutside(w: World, x: map<nat, nat>, y: map<nat, nat>, q: nat, open: set<nat>) {
    Grows(x, y) && forall b: nat {:trigger b in y} :: b in y && b !in x ==> b == q || Home(w, b) !in open
  }

  lemma HalfOutside(w: World, h0: Heap, h: Heap, q: nat, r: Heap, m: Heap, open: set<nat>)
    requires Forest(w, h0) && Apart(h0) && Keyed(w, h0, h, q, r) && Outside(w, r.xlat, m.xlat, open) && 0 !in open
    requires q !in h.xlat
    ensures TurnOutside(w, h.xlat, m.xlat, q, open) && Grows(h.xlat[q := h.mem], m.xlat)
  {
    GrowsTrans(h.xlat[q := h.mem], r.xlat, m.xlat);
    GrowsOver(h.xlat, q, h.mem, m.xlat);
    forall b: nat | b in m.xlat && b !in h.xlat ensures b == q || Home(w, b) !in open {
      if b in r.xlat && b != q {
        assert b in h0.strings && b !in h0.entries && b !in h0.parts;
        assert Home(w, b) == 0;
      }
    }
  }

  lemma GrowsTrans(x: map<nat, nat>, y: map<nat, nat>, z: map<nat, nat>)
    requires Grows(x, y) && Grows(y, z)
    ensures Grows(x, z)
  {
    forall b: nat | b in x ensures b in z && z[b] == x[b] {
      assert y[b] == x[b];
    }
  }

  /** The rest of the turn, for what is in open tables. */
  lemma HalfFramed(w: World, h0: Heap, h: Heap, q: nat, r: Heap, m: Heap, open: set<nat>)
    requires Keyed(w, h0, h, q, r) && EntriesFramed(w, h0, r, m, open, h.mem) && h0.mem <= h.mem
    requires PartsFramed(w, h0, r, m, open, r.mem)
    ensures EntriesFramed(w, h0, h, m, open, h.mem) && PartsFramed(w, h0, h, m, open, h.mem)
  {
    forall a: nat | a in h.entries && Stays(w, h0, open, h.mem, a)
      ensures a in m.entries && m.entries[a] == h.entries[a]
    {
      assert a in r.entries && r.entries[a] == h.entries[a];
    }
    forall a: nat | a in m.entries ensures a in h.entries || h.mem <= a {
      assert a in r.entries || r.mem <= a;
    }
    forall a: nat | a in h.parts && Stays(w, h0, open, h.mem, a) ensures a in m.parts && m.parts[a] == h.parts[a] {
      assert Stays(w, h0, open, r.mem, a);
    }
    forall a: nat | a in m.parts ensures a in h.parts || h.mem <= a {
      assert a in r.parts || r.mem <= a;
    }
  }

  lemma OthersStayed(w: World, t: nat, h0: Heap, h: Heap, m: Heap, order: seq<nat>, open: set<nat>)
    requires Below(h0) && Below(h) && Fresh(h0, h) && Table(h0, order) && Homes(w, t, order) && t in open
    requires EntriesFramed(w, h0, h, m, open, h.mem)
    ensures forall j {:trigger order[j]} :: 0 <= j < |order| ==> Stayed(h, m, order[j])
  {
    forall j | 0 <= j < |order| ensures Stayed(h, m, order[j]) {
      var a := order[j];
      assert a in h0.entries && Home(w, a) == t;
      var l := Translate(h.xlat, a);
      assert Stays(w, h0, open, h.mem, l) || l !in h.entries;
    }
  }

  lemma HalfTranslated(w: World, t: nat, x: map<nat, nat>, q: nat, at: nat, y: map<nat, nat>, open: set<nat>)
    requires t in open && Grows(x[q := at], y) && TurnOutside(w, x, y, q, open)
    ensures SameMoved(w, t, x[q := at], y)
  {
    forall b: nat | b in y && b !in x[q := at] ensures Home(w, b) != t {
      assert b !in x;
    }
  }

  lemma HalfCopies(w: World, e0: Entry, x: map<nat, nat>, y: map<nat, nat>)
    requires e0.key != 0 && !w.interned(e0.key) ==> e0.key in x
    requires Grows(x, y) && e0.data in y
    ensures Copies(w.interned, y, e0) && KeyAfter(w.interned, y, e0.key) == KeyAfter(w.interned, x, e0.key)
  {
    assert e0.key != 0 && !w.interned(e0.key) ==> y[e0.key] == x[e0.key];
  }

  lemma HalfMovedOf(w: World, t: nat, h0: Heap, h: Heap, order: seq<nat>, k: nat, r: Heap, m: Heap, open: set<nat>)
    requires Below(h0) && Below(h) && Fresh(h0, h) && Table(h0, order) && Homes(w, t, order) && t in open
    requires k < |order| && order[k] !in h.xlat && Keyed(w, h0, h, order[k], r)
    requires EntriesFramed(w, h0, h, m, open, h.mem) && Grows(h.xlat[order[k] := h.mem], m.xlat)
    requires Grows(r.xlat, m.xlat)
    requires TurnOutside(w, h.xlat, m.xlat, order[k], open)
    requires h.mem in m.entries && h0.entries[order[k]].data in m.xlat
    requires m.entries[h.mem] == r.entries[h.mem].(data := Translate(m.xlat, h0.entries[order[k]].data))
    ensures HalfMoved(w, t, h0, h, order, k, m)
  {
    OthersStayed(w, t, h0, h, m, order, open);
    HalfCopies(w, h0.entries[order[k]], r.xlat, m.xlat);
    HalfTranslated(w, t, h.xlat, order[k], h.mem, m.xlat, open);
  }

  /** Copies of the table's buckets are not older than m0. */
  ghost predicate Since(x: map<nat, nat>, order: seq<nat>, m0: nat) {
    forall j {:trigger order[j]} :: 0 <= j < |order| && order[j] in x ==> m0 <= x[order[j]]
  }

  lemma RelinkElse(es: map<nat, Entry>, p: nat, a: nat)
    requires p in es && Neighbours(es, p) && a in es && a != 0 && a != p
    requires var e := es[p]; a != e.next && a != e.last && a != e.listNext && a != e.listLast
    ensures Relink(es, p)[a] == es[a]
  {
    RelinkAt(es, p, a);
  }

  /** A bucket of another table is not where a link of this one leads. */
  lemma OtherTable(w: World, t: nat, h0: Heap, order: seq<nat>, r: Heap, b: nat, link: nat)
    requires Below(h0) && Fresh(h0, r) && Table(h0, order) && Homes(w, t, order) && Leads(order, link)
    requires b in h0.entries && Home(w, b) != t
    ensures Translate(r.xlat, b) != Translate(r.xlat, link)
  {
    if link != 0 {
      MineOf(w, t, h0, order, link);
      if Translate(r.xlat, b) == Translate(r.xlat, link) {
        TranslateInjective(h0, r, b, link);
      }
    }
  }

  lemma OtherTableLinks(w: World, t: nat, h0: Heap, order: seq<nat>, r: Heap, b: nat, e0: Entry)
    requires Below(h0) && Fresh(h0, r) && Table(h0, order) && Homes(w, t, order)
    requires Leads(order, e0.next) && Leads(order, e0.last) && Leads(order, e0.listNext) && Leads(order, e0.listLast)
    requires b in h0.entries && Home(w, b) != t
    ensures var l, e := Translate(r.xlat, b), Linked(r.xlat, e0);
      l != e.next && l != e.last && l != e.listNext && l != e.listLast
  {
    OtherTable(w, t, h0, order, r, b, e0.next);
    OtherTable(w, t, h0, order, r, b, e0.last);
    OtherTable(w, t, h0, order, r, b, e0.listNext);
    OtherTable(w, t, h0, order, r, b, e0.listLast);
  }

  lemma RelinkedElse(h: Heap, q: nat, m: Heap, b: nat)
    requires h.mem in m.entries && Neighbours(m.entries, h.mem)
    requires var l, e := Translate(m.xlat, b), m.entries[h.mem];
      && l != 0 && l != h.mem && l != q && b != q
      && l != e.next && l != e.last && l != e.listNext && l != e.listLast
    ensures Stayed(m, Turned(h, q, m), b)
  {
    var l := Translate(m.xlat, b);
    if l in m.entries {
      RelinkElse(m.entries, h.mem, l);
    }
  }

  lemma TurnStayed(w: World, t: nat, h0: Heap, h: Heap, order: seq<nat>, k: nat, m: Heap, b: nat)
    requires Working(w, t, h0, h, order, k, m) && Neighbours(m.entries, h.mem) && b in h0.entries && Home(w, b) != t
    ensures Stayed(m, Turned(h, order[k], m), b)
  {
    var q, e0 := order[k], h0.entries[order[k]];
    ThisLinks(w, t, h0, h, order, q, m.xlat);
    MineOf(w, t, h0, order, q);
    OtherTableLinks(w, t, h0, order, m, b, e0);
    OtherTable(w, t, h0, order, m, b, q);
    assert m.xlat[q] == h.mem && 0 < b < h0.mem && 0 < q < h0.mem;
    RelinkedElse(h, q, m, b);
  }

  lemma TurnSpares(w: World, t: nat, h0: Heap, h: Heap, order: seq<nat>, k: nat, m: Heap, open: set<nat>)
    requires Working(w, t, h0, h, order, k, m) && Neighbours(m.entries, h.mem) && t in open
    ensures Spares(w, h0, m, Turned(h, order[k], m), open)
  {
    forall b: nat | b in h0.entries && Closed(w, open, b) ensures Stayed(m, Turned(h, order[k], m), b) {
      TurnStayed(w, t, h0, h, order, k, m, b);
    }
  }

  /** What stays when the table is being moved is not where its links lead. */
  lemma FarFrom(w: World, t: nat, h0: Heap, h: Heap, order: seq<nat>, open: set<nat>, m0: nat, a: nat, link: nat)
    requires Below(h0) && Fresh(h0, h) && Table(h0, order) && Homes(w, t, order) && Leads(order, link)
    requires Since(h.xlat, order, m0) && Stays(w, h0, open - {t}, m0, a) && a != 0
    ensures Translate(h.xlat, link) != a
  {
    if link != 0 {
      var j :| 0 <= j < |order| && order[j] == link;
      assert Home(w, order[j]) == t && link in h0.entries;
    }
  }

  lemma TurnFramed(w: World, t: nat, h0: Heap, h: Heap, order: seq<nat>, k: nat, m: Heap, open: set<nat>, m0: nat)
    requires Working(w, t, h0, h, order, k, m) && Neighbours(m.entries, h.mem) && Below(h)
    requires EntriesFramed(w, h0, h, m, open, h.mem) && h0.mem <= m0 <= h.mem && Since(h.xlat, order, m0)
    ensures EntriesFramed(w, h0, h, Turned(h, order[k], m), open - {t}, m0)
  {
    var q, e0, r := order[k], h0.entries[order[k]], Turned(h, order[k], m);
    MineOf(w, t, h0, order, q);
    forall a: nat | a in h.entries && Stays(w, h0, open - {t}, m0, a)
      ensures a in r.entries && r.entries[a] == h.entries[a]
    {
      assert Stays(w, h0, open, h.mem, a);
      FarFrom(w, t, h0, h, order, open, m0, a, e0.next);
      FarFrom(w, t, h0, h, order, open, m0, a, e0.last);
      FarFrom(w, t, h0, h, order, open, m0, a, e0.listNext);
      FarFrom(w, t, h0, h, order, open, m0, a, e0.listLast);
      RelinkElse(m.entries, h.mem, a);
    }
    forall a: nat | a in r.entries ensures a in h.entries || h.mem <= a {
      assert a in m.entries;
    }
  }

  lemma TurnGone(w: World, h0: Heap, h: Heap, q: nat, m: Heap, open: set<nat>)
    requires Gone(w, h0, m, open) && h.mem in m.entries && Neighbours(m.entries, h.mem)
    ensures Gone(w, h0, Turned(h, q, m), open)
  {
    forall a: nat | a in Turned(h, q, m).entries
      ensures (a in h0.entries || h0.mem <= a) && (a in m.xlat ==> Home(w, a) in open)
    {
      assert a in m.entries;
    }
  }

  lemma TurnSince(w: World, t: nat, h: Heap, order: seq<nat>, k: nat, y: map<nat, nat>, m0: nat)
    requires k < |order| && order[k] !in h.xlat && SameMoved(w, t, h.xlat[order[k] := h.mem], y) && Homes(w, t, order)
    requires Since(h.xlat, order, m0) && m0 <= h.mem
    ensures Since(y, order, m0)
  {
    forall j | 0 <= j < |order| && order[j] in y ensures m0 <= y[order[j]] {
      var x := h.xlat[order[k] := h.mem];
      assert Home(w, order[j]) == t;
      assert order[j] in x && y[order[j]] == x[order[j]];
    }
  }

  /** The end of a turn. */
  lemma TurnKeeps(w: World, t: nat, h0: Heap, h: Heap, order: seq<nat>, k: nat, m: Heap, open: set<nat>, m0: nat)
    requires Working(w, t, h0, h, order, k, m) && Below(h) && t in open && Inv(w, h0, m, open)
    requires EntriesFramed(w, h0, h, m, open, h.mem) && h0.mem <= m0 <= h.mem && Since(h.xlat, order, m0)
    ensures Neighbours(m.entries, h.mem)
    ensures var r := Turned(h, order[k], m);
      && Inv(w, h0, r, open) && Progress(w.interned, h0, r, order, k + 1) && Since(r.xlat, order, m0)
      && EntriesFramed(w, h0, h, r, open - {t}, m0)
  {
    MovedNeighbours(w, t, h0, h, order, k, m);
    var r := Turned(h, order[k], m);
    ProgressStep(w, t, h0, h, order, k, m);
    Rearranged(w, h0, m, r);
    TurnSpares(w, t, h0, h, order, k, m, open);
    TablesSpared(w, h0, m, r, open);
    TurnGone(w, h0, h, order[k], m, open);
    TurnFramed(w, t, h0, h, order, k, m, open, m0);
    TurnSince(w, t, h, order, k, r.xlat, m0);
  }
}
