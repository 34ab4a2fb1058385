/** One turn of the loop of zend_hash_persist: a bucket is copied and its neighbours, old or copied, are made to lead to
    the copy. While its data is copied, other tables may be moved. */
module PersistLinks {
  import opened PersistHash

  /** Which strings are interned and how much room an address takes; the buckets of each table in their order; the table
      that a bucket or a bucket array belongs to; how deep a zval or a table is nested. */
  datatype World = World(interned: nat -> bool, size: nat -> nat, order: map<nat, seq<nat>>, home: map<nat, nat>,
                         rank: map<nat, nat>)

  function Order(w: World, t: nat): seq<nat> { if t in w.order then w.order[t] else [] }

  function Home(w: World, a: nat): nat { if a in w.home then w.home[a] else 0 }

  function Rank(w: World, a: nat): nat { if a in w.rank then w.rank[a] else 0 }

  // ---- buckets and their links

  /** The links of the neighbours are led to bucket p. */
  function Relink(es: map<nat, Entry>, p: nat): (r: map<nat, Entry>)
    requires p in es && Neighbours(es, p)
    ensures r.Keys == es.Keys
  {
    var e := es[p];
    var e1 := if e.last != 0 then es[e.last := es[e.last].(next := p)] else es;
    var e2 := if e.next != 0 then e1[e.next := e1[e.next].(last := p)] else e1;
    var e3 := if e.listLast != 0 then e2[e.listLast := e2[e.listLast].(listNext := p)] else e2;
    if e.listNext != 0 then e3[e.listNext := e3[e.listNext].(listLast := p)] else e3
  }

  /** No link of the bucket leads to itself or to a bucket that is gone. */
  predicate Neighbours(es: map<nat, Entry>, p: nat)
    requires p in es
  {
    var e := es[p];
    && (e.last != 0 ==> e.last != p && e.last in es) && (e.next != 0 ==> e.next != p && e.next in es)
    && (e.listLast != 0 ==> e.listLast != p && e.listLast in es)
    && (e.listNext != 0 ==> e.listNext != p && e.listNext in es)
  }

  lemma RelinkAt(es: map<nat, Entry>, p: nat, a: nat)
    requires p in es && Neighbours(es, p) && a in es && a != 0
    ensures Relink(es, p)[p] == es[p]
    ensures a != p ==> Relink(es, p)[a] == es[a].(
      next := if es[p].last == a then p else es[a].next, last := if es[p].next == a then p else es[a].last,
      listNext := if es[p].listLast == a then p else es[a].listNext,
      listLast := if es[p].listNext == a then p else es[a].listLast)
  {
  }

  /** The links of a bucket with what has been moved so far. */
  function Linked(x: map<nat, nat>, e: Entry): Entry {
    e.(next := Translate(x, e.next), last := Translate(x, e.last),
       listNext := Translate(x, e.listNext), listLast := Translate(x, e.listLast))
  }

  function KeyAfter(interned: nat -> bool, x: map<nat, nat>, key: nat): nat {
    if key == 0 || interned(key) then key else Translate(x, key)
  }

  /** A moved bucket: key and data are the copies. */
  function Moved(interned: nat -> bool, x: map<nat, nat>, e: Entry): Entry {
    Linked(x, e).(key := KeyAfter(interned, x, e.key), data := Translate(x, e.data))
  }

  /** order is the list of the table's buckets; links run both ways, within the table. */
  ghost predicate Table(h0: Heap, order: seq<nat>) {
    && (forall i, j {:trigger order[i], order[j]} :: 0 <= i < j < |order| ==> order[i] != order[j])
    && (forall i {:trigger order[i]} :: 0 <= i < |order| ==>
          order[i] in h0.entries && BothWays(h0.entries, order, order[i]))
    && (forall i {:trigger order[i]} :: 0 <= i < |order| ==>
          h0.entries[order[i]].listNext == if i + 1 < |order| then order[i + 1] else 0)
  }

  ghost predicate BothWays(es: map<nat, Entry>, order: seq<nat>, a: nat)
    requires a in es
  {
    var e := es[a];
    && (e.next != 0 ==> e.next in order && e.next in es && e.next != a && es[e.next].last == a)
    && (e.last != 0 ==> e.last in order && e.last in es && e.last != a && es[e.last].next == a)
    && (e.listNext != 0 ==>
          e.listNext in order && e.listNext in es && e.listNext != a && es[e.listNext].listLast == a)
    && (e.listLast != 0 ==>
          e.listLast in order && e.listLast in es && e.listLast != a && es[e.listLast].listNext == a)
  }

  ghost predicate Homes(w: World, t: nat, order: seq<nat>) {
    forall i {:trigger order[i]} :: 0 <= i < |order| ==> Home(w, order[i]) == t
  }

  /** Key and data of the bucket have been copied. */
  ghost predicate Copies(interned: nat -> bool, x: map<nat, nat>, e: Entry) {
    e.data in x && (e.key != 0 && !interned(e.key) ==> e.key in x)
  }

  /** Where bucket a is and what it holds, before or after its turn; after it the old bucket is gone. */
  ghost predicate EntryNow(interned: nat -> bool, h0: Heap, h: Heap, a: nat, done: bool)
    requires a in h0.entries
  {
    && (a in h.xlat <==> done)
    && (done ==> a !in h.entries)
    && Translate(h.xlat, a) in h.entries
    && (done ==> Copies(interned, h.xlat, h0.entries[a]))
    && h.entries[Translate(h.xlat, a)] ==
         if done then Moved(interned, h.xlat, h0.entries[a]) else Linked(h.xlat, h0.entries[a])
  }

  /** The first k buckets have been moved: each bucket, wherever it is now, has links to where its neighbours are now,
      and the old buckets of those moved are gone. */
  ghost predicate Progress(interned: nat -> bool, h0: Heap, h: Heap, order: seq<nat>, k: nat) {
    && k <= |order|
    && forall j {:trigger order[j]} :: 0 <= j < |order| ==>
          order[j] in h0.entries && EntryNow(interned, h0, h, order[j], j < k)
  }

  // ---- what one turn does to the translation

  /** No further address of table t has been translated. */
  ghost predicate SameMoved(w: World, t: nat, x: map<nat, nat>, y: map<nat, nat>) {
    Grows(x, y) && forall b: nat {:trigger y[b]} :: b in y && b !in x ==> Home(w, b) != t
  }

  ghost predicate Mine(w: World, t: nat, h0: Heap, b: nat) { b in h0.entries && Home(w, b) == t }

  /** Translation does not mix up addresses. */
  lemma TranslateInjective(h0: Heap, h: Heap, a: nat, b: nat)
    requires Fresh(h0, h) && a < h0.mem && b < h0.mem && Translate(h.xlat, a) == Translate(h.xlat, b)
    ensures a == b
  {
  }

  /** One more bucket of the table has been translated, and no other. */
  lemma MovedStep(w: World, t: nat, x0: map<nat, nat>, q: nat, at: nat, y: map<nat, nat>, b: nat)
    requires SameMoved(w, t, x0[q := at], y) && q !in x0 && ((b == 0 && 0 !in y) || Home(w, b) == t) && q != 0
    ensures Translate(y, b) == if b == q then at else Translate(x0, b)
    ensures b in y <==> b == q || b in x0
  {
    var x := x0[q := at];
    if b in x {
      assert x[b] == x[b];
    }
    if b in y {
      assert y[b] == y[b];
    }
  }

  /** One link field of the bucket at a, and the link back from q that may lead to it. */
  lemma LinkAfter(w: World, t: nat, h0: Heap, h: Heap, y: map<nat, nat>, q: nat, a: nat, link: nat, back: nat)
    requires Below(h0) && Fresh(h0, h) && SameMoved(w, t, h.xlat[q := h.mem], y) && q !in h.xlat && 0 !in y
    requires Mine(w, t, h0, q) && Mine(w, t, h0, a) && a != q && (link == q <==> back == a)
    requires (link == 0 || Mine(w, t, h0, link)) && (back == 0 || Mine(w, t, h0, back))
    ensures Translate(y, link) ==
      if Translate(h.xlat, back) == Translate(h.xlat, a) then h.mem else Translate(h.xlat, link)
    ensures Translate(y, a) == Translate(h.xlat, a) && Translate(y, q) == h.mem
  {
    assert back < h0.mem && a < h0.mem;
    if Translate(h.xlat, back) == Translate(h.xlat, a) {
      TranslateInjective(h0, h, back, a);
    }
    MovedStep(w, t, h.xlat, q, h.mem, y, link);
    MovedStep(w, t, h.xlat, q, h.mem, y, a);
    MovedStep(w, t, h.xlat, q, h.mem, y, q);
  }

  /** Buckets q and a of the table; q has been translated. */
  ghost predicate Turn(w: World, t: nat, h0: Heap, h: Heap, order: seq<nat>, q: nat, a: nat, y: map<nat, nat>) {
    && Below(h0) && Fresh(h0, h) && Homes(w, t, order) && Mine(w, t, h0, q) && Mine(w, t, h0, a) && a != q
    && BothWays(h0.entries, order, a) && BothWays(h0.entries, order, q)
    && q !in h.xlat && SameMoved(w, t, h.xlat[q := h.mem], y) && 0 !in y
  }

  lemma ChainLinksAfter(w: World, t: nat, h0: Heap, h: Heap, order: seq<nat>, q: nat, a: nat, y: map<nat, nat>,
                        ea: Entry, eq: Entry)
    requires Turn(w, t, h0, h, order, q, a, y) && ea == h0.entries[a] && eq == h0.entries[q]
    ensures Translate(y, ea.next) ==
      if Translate(h.xlat, eq.last) == Translate(h.xlat, a) then h.mem else Translate(h.xlat, ea.next)
    ensures Translate(y, ea.last) ==
      if Translate(h.xlat, eq.next) == Translate(h.xlat, a) then h.mem else Translate(h.xlat, ea.last)
    ensures Translate(y, a) == Translate(h.xlat, a) && Translate(y, q) == h.mem
  {
    LinkAfter(w, t, h0, h, y, q, a, ea.next, eq.last);
    LinkAfter(w, t, h0, h, y, q, a, ea.last, eq.next);
  }

  lemma ListLinksAfter(w: World, t: nat, h0: Heap, h: Heap, order: seq<nat>, q: nat, a: nat, y: map<nat, nat>,
                       ea: Entry, eq: Entry)
    requires Turn(w, t, h0, h, order, q, a, y) && ea == h0.entries[a] && eq == h0.entries[q]
    ensures Translate(y, ea.listNext) ==
      if Translate(h.xlat, eq.listLast) == Translate(h.xlat, a) then h.mem else Translate(h.xlat, ea.listNext)
    ensures Translate(y, ea.listLast) ==
      if Translate(h.xlat, eq.listNext) == Translate(h.xlat, a) then h.mem else Translate(h.xlat, ea.listLast)
  {
    LinkAfter(w, t, h0, h, y, q, a, ea.listNext, eq.listLast);
    LinkAfter(w, t, h0, h, y, q, a, ea.listLast, eq.listNext);
  }

  /** The links of a bucket that is not being moved, before and after its neighbours' links have been changed. */
  lemma LinksAfter(w: World, t: nat, h0: Heap, h: Heap, order: seq<nat>, q: nat, a: nat, y: map<nat, nat>)
    requires Turn(w, t, h0, h, order, q, a, y)
    ensures Translate(y, a) == Translate(h.xlat, a) && Translate(y, q) == h.mem
    ensures var l, p, e := Translate(h.xlat, a), Linked(h.xlat, h0.entries[q]), Linked(h.xlat, h0.entries[a]);
      Linked(y, h0.entries[a]) == h0.entries[a].(
        next := if p.last == l then h.mem else e.next, last := if p.next == l then h.mem else e.last,
        listNext := if p.listLast == l then h.mem else e.listNext,
        listLast := if p.listNext == l then h.mem else e.listLast)
  {
    ChainLinksAfter(w, t, h0, h, order, q, a, y, h0.entries[a], h0.entries[q]);
    ListLinksAfter(w, t, h0, h, order, q, a, y, h0.entries[a], h0.entries[q]);
  }

  /** Key and data stay where they are. */
  lemma CopiesStay(interned: nat -> bool, x: map<nat, nat>, e: Entry, y: map<nat, nat>)
    requires Copies(interned, x, e) && Grows(x, y)
    ensures KeyAfter(interned, y, e.key) == KeyAfter(interned, x, e.key) && Translate(y, e.data) == Translate(x, e.data)
    ensures Copies(interned, y, e)
  {
    assert x[e.data] == x[e.data];
    if e.key != 0 && !interned(e.key) {
      assert x[e.key] == x[e.key];
    }
  }

  // ---- one turn of the loop

  /** Nothing has happened to the bucket at a, wherever it is. */
  ghost predicate Stayed(h: Heap, m: Heap, a: nat) {
    && (a !in h.entries ==> a !in m.entries)
    && (Translate(h.xlat, a) in h.entries ==>
          Translate(h.xlat, a) in m.entries && m.entries[Translate(h.xlat, a)] == h.entries[Translate(h.xlat, a)])
  }

  /** The bucket with its key and data copied, its neighbours not yet changed. */
  ghost predicate HalfMoved(w: World, t: nat, h0: Heap, h: Heap, order: seq<nat>, k: nat, m: Heap) {
    && k < |order| && order[k] in h0.entries && order[k] !in h.xlat
    && SameMoved(w, t, h.xlat[order[k] := h.mem], m.xlat)
    && Copies(w.interned, m.xlat, h0.entries[order[k]]) && h.mem !in h.entries && h.mem in m.entries
    && m.entries[h.mem] == Linked(h.xlat, h0.entries[order[k]]).(
                             key := KeyAfter(w.interned, m.xlat, h0.entries[order[k]].key),
                             data := Translate(m.xlat, h0.entries[order[k]].data))
    && forall j {:trigger order[j]} :: 0 <= j < |order| ==> Stayed(h, m, order[j])
  }

  /** Fresh, so that 0 is not translated and copies are new. */
  ghost predicate Working(w: World, t: nat, h0: Heap, h: Heap, order: seq<nat>, k: nat, m: Heap) {
    && Below(h0) && Fresh(h0, h) && Fresh(h0, m) && Table(h0, order) && Homes(w, t, order)
    && Progress(w.interned, h0, h, order, k) && HalfMoved(w, t, h0, h, order, k, m)
  }

  lemma NeighbourThere(w: World, t: nat, h0: Heap, h: Heap, order: seq<nat>, k: nat, m: Heap, link: nat)
    requires Working(w, t, h0, h, order, k, m) && (link != 0 ==> link in order)
    ensures Translate(h.xlat, link) != 0 ==> Translate(h.xlat, link) in m.entries && Translate(h.xlat, link) != h.mem
  {
    if link != 0 {
      var i :| 0 <= i < |order| && order[i] == link;
      assert EntryNow(w.interned, h0, h, order[i], i < k) && Stayed(h, m, order[i]);
    }
  }

  lemma MovedNeighbours(w: World, t: nat, h0: Heap, h: Heap, order: seq<nat>, k: nat, m: Heap)
    requires Working(w, t, h0, h, order, k, m)
    ensures Neighbours(m.entries, h.mem)
  {
    var e0 := h0.entries[order[k]];
    assert BothWays(h0.entries, order, order[k]) && 0 !in h.xlat;
    NeighbourThere(w, t, h0, h, order, k, m, e0.last);
    NeighbourThere(w, t, h0, h, order, k, m, e0.next);
    NeighbourThere(w, t, h0, h, order, k, m, e0.listLast);
    NeighbourThere(w, t, h0, h, order, k, m, e0.listNext);
  }

  /** What the turn leaves. */
  function Turned(h: Heap, q: nat, m: Heap): Heap
    requires h.mem in m.entries && Neighbours(m.entries, h.mem)
  {
    m.(entries := Relink(m.entries, h.mem) - {q})
  }

  lemma MineOf(w: World, t: nat, h0: Heap, order: seq<nat>, a: nat)
    requires Table(h0, order) && Homes(w, t, order) && a in order
    ensures Mine(w, t, h0, a) && BothWays(h0.entries, order, a)
  {
    var i :| 0 <= i < |order| && order[i] == a;
  }

  lemma ThisLinks(w: World, t: nat, h0: Heap, h: Heap, order: seq<nat>, q: nat, y: map<nat, nat>)
    requires Below(h0) && Table(h0, order) && Homes(w, t, order) && q in order && q in h0.entries && q !in h.xlat
    requires SameMoved(w, t, h.xlat[q := h.mem], y) && 0 !in y
    ensures Linked(y, h0.entries[q]) == Linked(h.xlat, h0.entries[q]) && q in y && y[q] == h.mem
  {
    var e0 := h0.entries[q];
    MineOf(w, t, h0, order, q);
    MovedStep(w, t, h.xlat, q, h.mem, y, q);
    forall b | (b == 0 || b in order) && b != q ensures Translate(y, b) == Translate(h.xlat, b) {
      if b != 0 { MineOf(w, t, h0, order, b); }
      MovedStep(w, t, h.xlat, q, h.mem, y, b);
    }
    assert e0.next != q && e0.last != q && e0.listNext != q && e0.listLast != q;
  }

  /** The bucket that is being moved. */
  lemma ThisEntry(w: World, t: nat, h0: Heap, h: Heap, order: seq<nat>, k: nat, m: Heap)
    requires Working(w, t, h0, h, order, k, m) && Neighbours(m.entries, h.mem)
    ensures EntryNow(w.interned, h0, Turned(h, order[k], m), order[k], true)
  {
    RelinkAt(m.entries, h.mem, h.mem);
    ThisLinks(w, t, h0, h, order, order[k], m.xlat);
  }

  lemma OtherLinks(w: World, t: nat, h0: Heap, h: Heap, order: seq<nat>, q: nat, a: nat, m: Heap)
    requires Turn(w, t, h0, h, order, q, a, m.xlat) && Translate(h.xlat, a) in h.entries && Stayed(h, m, a)
    requires h.mem in m.entries && h.mem !in h.entries && Translate(h.xlat, a) != 0 && Neighbours(m.entries, h.mem)
    requires var p := Linked(h.xlat, h0.entries[q]);
      m.entries[h.mem] == p.(key := m.entries[h.mem].key, data := m.entries[h.mem].data)
    requires var l, e := Translate(h.xlat, a), Linked(h.xlat, h0.entries[a]);
      h.entries[l] == e.(key := h.entries[l].key, data := h.entries[l].data)
    ensures var l, e := Translate(h.xlat, a), Linked(m.xlat, h0.entries[a]);
      Relink(m.entries, h.mem)[l] == e.(key := h.entries[l].key, data := h.entries[l].data)
  {
    LinksAfter(w, t, h0, h, order, q, a, m.xlat);
    RelinkAt(m.entries, h.mem, Translate(h.xlat, a));
  }

  lemma OtherEntry(w: World, t: nat, h0: Heap, h: Heap, order: seq<nat>, q: nat, a: nat, done: bool, m: Heap)
    requires Turn(w, t, h0, h, order, q, a, m.xlat) && EntryNow(w.interned, h0, h, a, done) && Stayed(h, m, a)
    requires h.mem in m.entries && h.mem !in h.entries && Neighbours(m.entries, h.mem)
    requires var p := Linked(h.xlat, h0.entries[q]);
      m.entries[h.mem] == p.(key := m.entries[h.mem].key, data := m.entries[h.mem].data)
    ensures EntryNow(w.interned, h0, Turned(h, q, m), a, done)
  {
    OtherLinks(w, t, h0, h, order, q, a, m);
    if done {
      GrowsOver(h.xlat, q, h.mem, m.xlat);
      CopiesStay(w.interned, h.xlat, h0.entries[a], m.xlat);
    }
    MovedStep(w, t, h.xlat, q, h.mem, m.xlat, a);
  }

  lemma GrowsOver(x: map<nat, nat>, q: nat, at: nat, y: map<nat, nat>)
    requires q !in x && Grows(x[q := at], y)
    ensures Grows(x, y)
  {
    forall b: nat | b in x ensures b in y && y[b] == x[b] {
      assert x[q := at][b] == x[b];
    }
  }

  /** Each turn of the loop moves one bucket, and keeps all the others in place. */
  lemma ProgressStep(w: World, t: nat, h0: Heap, h: Heap, order: seq<nat>, k: nat, m: Heap)
    requires Working(w, t, h0, h, order, k, m) && Neighbours(m.entries, h.mem)
    ensures Progress(w.interned, h0, Turned(h, order[k], m), order, k + 1)
  {
    var r := Turned(h, order[k], m);
    forall j | 0 <= j < |order| ensures order[j] in h0.entries && EntryNow(w.interned, h0, r, order[j], j < k + 1) {
      if j == k {
        ThisEntry(w, t, h0, h, order, k, m);
      } else {
        assert order[j] != order[k] && Stayed(h, m, order[j]);
        MineOf(w, t, h0, order, order[j]);
        MineOf(w, t, h0, order, order[k]);
        OtherEntry(w, t, h0, h, order, order[k], order[j], j < k, m);
      }
    }
  }

  // ---- a table that has been moved

  function Copied(x: map<nat, nat>, order: seq<nat>): (r: seq<nat>)
    ensures |r| == |order| && forall i {:trigger r[i]} :: 0 <= i < |order| ==> r[i] == Translate(x, order[i])
  {
    seq(|order|, i requires 0 <= i < |order| => Translate(x, order[i]))
  }

  lemma PlaceMoved(interned: nat -> bool, h0: Heap, r: Heap, order: seq<nat>, i: nat)
    requires Progress(interned, h0, r, order, |order|) && i < |order|
    ensures order[i] in h0.entries && order[i] in r.xlat && r.xlat[order[i]] in r.entries && order[i] !in r.entries
    ensures Copied(r.xlat, order)[i] == r.xlat[order[i]]
    ensures r.entries[r.xlat[order[i]]] == Moved(interned, r.xlat, h0.entries[order[i]])
    ensures Copies(interned, r.xlat, h0.entries[order[i]])
  {
    assert EntryNow(interned, h0, r, order[i], true);
  }

  lemma LinkMoved(interned: nat -> bool, h0: Heap, r: Heap, order: seq<nat>, a: nat, link: nat)
    requires Fresh(h0, r) && Progress(interned, h0, r, order, |order|) && a in order && link in order && link != a
    ensures a in h0.entries && link in h0.entries && a in r.xlat && link in r.xlat
    ensures r.xlat[link] != 0 && r.xlat[link] in Copied(r.xlat, order) && r.xlat[link] in r.entries
    ensures r.xlat[link] != r.xlat[a] && r.entries[r.xlat[link]] == Moved(interned, r.xlat, h0.entries[link])
  {
    var i :| 0 <= i < |order| && order[i] == link;
    var j :| 0 <= j < |order| && order[j] == a;
    PlaceMoved(interned, h0, r, order, i);
    PlaceMoved(interned, h0, r, order, j);
  }

  lemma BothWaysMoved(interned: nat -> bool, h0: Heap, r: Heap, order: seq<nat>, a: nat)
    requires Fresh(h0, r) && Progress(interned, h0, r, order, |order|) && a in order && a in h0.entries
    requires BothWays(h0.entries, order, a) && a in r.xlat && r.xlat[a] in r.entries
    requires r.entries[r.xlat[a]] == Moved(interned, r.xlat, h0.entries[a])
    ensures BothWays(r.entries, Copied(r.xlat, order), r.xlat[a])
  {
    var e := h0.entries[a];
    if e.next != 0 { LinkMoved(interned, h0, r, order, a, e.next); }
    if e.last != 0 { LinkMoved(interned, h0, r, order, a, e.last); }
    if e.listNext != 0 { LinkMoved(interned, h0, r, order, a, e.listNext); }
    if e.listLast != 0 { LinkMoved(interned, h0, r, order, a, e.listLast); }
  }

  lemma ShapeAt(interned: nat -> bool, h0: Heap, r: Heap, order: seq<nat>, i: nat)
    requires Fresh(h0, r) && Progress(interned, h0, r, order, |order|) && i < |order|
    requires order[i] in h0.entries && BothWays(h0.entries, order, order[i])
    requires h0.entries[order[i]].listNext == if i + 1 < |order| then order[i + 1] else 0
    ensures var c := Copied(r.xlat, order);
      && c[i] in r.entries && BothWays(r.entries, c, c[i])
      && r.entries[c[i]].listNext == if i + 1 < |order| then c[i + 1] else 0
  {
    PlaceMoved(interned, h0, r, order, i);
    BothWaysMoved(interned, h0, r, order, order[i]);
    if i + 1 < |order| {
      PlaceMoved(interned, h0, r, order, i + 1);
    }
  }

  /** The copies are a table again, in the same order and with the same links. */
  lemma SameShape(interned: nat -> bool, h0: Heap, r: Heap, order: seq<nat>)
    requires Fresh(h0, r) && Table(h0, order) && Progress(interned, h0, r, order, |order|)
    ensures Table(r, Copied(r.xlat, order))
  {
    var c := Copied(r.xlat, order);
    forall i | 0 <= i < |c|
      ensures c[i] in r.entries && BothWays(r.entries, c, c[i])
      ensures r.entries[c[i]].listNext == if i + 1 < |c| then c[i + 1] else 0
    {
      ShapeAt(interned, h0, r, order, i);
    }
    forall i, j | 0 <= i < j < |c| ensures c[i] != c[j] {
      assert order[i] != order[j];
      PlaceMoved(interned, h0, r, order, i);
      PlaceMoved(interned, h0, r, order, j);
    }
  }
}
