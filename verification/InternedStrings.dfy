/** The table of interned strings in shared memory: buckets are taken from a region one after the other, linked
    both into the chain of their hash and into the list of all, and rolled back by cutting these links. */
module InternedStrings {
  import opened Alignment

  const BUCKET_SIZE: nat := 72

  function SizeOf(key: string): nat { Aligned(BUCKET_SIZE + |key|) }

  /** pNext, pLast: neighbours on the chain; pListNext, pListLast: neighbours on the list. 0 is NULL. */
  datatype Node = Node(h: nat, key: string, next: nat, last: nat, listNext: nat, listLast: nat)

  datatype Strings = Strings(buckets: seq<nat>, nodes: map<nat, Node>, head: nat, tail: nat, top: nat)

  datatype Region = Region(start: nat, end: nat, hash: string -> nat)

  function Index(s: Strings, h: nat): nat
    requires |s.buckets| > 0
  {
    h % |s.buckets|
  }

  /** On the same chain. */
  ghost predicate InBucket(s: Strings, a: nat, i: nat) {
    a in s.nodes && |s.buckets| > 0 && Index(s, s.nodes[a].h) == i
  }

  /** a is the last node before limit that is in bucket i; 0 if there is none. */
  ghost predicate LastBelow(s: Strings, i: nat, limit: nat, a: nat) {
    && (a != 0 ==> InBucket(s, a, i) && a < limit)
    && forall b: nat {:trigger InBucket(s, b, i)} :: InBucket(s, b, i) && b < limit ==> b <= a
  }

  /** a is the first node after limit that is in bucket i; 0 if there is none. */
  ghost predicate FirstAbove(s: Strings, i: nat, limit: nat, a: nat) {
    && (a != 0 ==> InBucket(s, a, i) && a > limit)
    && forall b: nat {:trigger InBucket(s, b, i)} :: InBucket(s, b, i) && b > limit ==> a != 0 && b >= a
  }

  ghost predicate LastOf(s: Strings, limit: nat, a: nat) {
    && (a != 0 ==> a in s.nodes && a < limit)
    && forall b: nat {:trigger s.nodes[b]} :: b in s.nodes && b < limit ==> b <= a
  }

  ghost predicate FirstOf(s: Strings, limit: nat, a: nat) {
    && (a != 0 ==> a in s.nodes && a > limit)
    && forall b: nat {:trigger s.nodes[b]} :: b in s.nodes && b > limit ==> a != 0 && b >= a
  }

  /** The node lies in the region below top, aligned. */
  ghost predicate Placed(r: Region, s: Strings, a: nat)
    requires a in s.nodes
  {
    r.start <= a && a % ALIGN == 0 && a + SizeOf(s.nodes[a].key) <= s.top && s.nodes[a].h == r.hash(s.nodes[a].key)
  }

  /** Two nodes do not overlap, and hold different strings. */
  ghost predicate Apart(s: Strings, a: nat, b: nat)
    requires a in s.nodes && b in s.nodes
  {
    a < b ==> a + SizeOf(s.nodes[a].key) <= b && s.nodes[a].key != s.nodes[b].key
  }

  ghost predicate Packed(r: Region, s: Strings) {
    && 0 < r.start <= s.top <= r.end && r.start % ALIGN == 0 && s.top % ALIGN == 0 && |s.buckets| > 0
    && (forall a: nat {:trigger Placed(r, s, a)} {:trigger s.nodes[a]} :: a in s.nodes ==> Placed(r, s, a))
    && (forall a: nat, b: nat {:trigger Apart(s, a, b)} :: a in s.nodes && b in s.nodes ==> Apart(s, a, b))
  }

  /** Every link of the node is its neighbour by address. */
  ghost predicate LinksAt(s: Strings, a: nat)
    requires a in s.nodes && |s.buckets| > 0
  {
    && LastBelow(s, Index(s, s.nodes[a].h), a, s.nodes[a].next)
    && FirstAbove(s, Index(s, s.nodes[a].h), a, s.nodes[a].last)
    && LastOf(s, a, s.nodes[a].listLast) && FirstOf(s, a, s.nodes[a].listNext)
  }

  /** Chains and list run in order of address, which is the order of insertion. */
  ghost predicate Linked(s: Strings) {
    && |s.buckets| > 0
    && (forall i {:trigger s.buckets[i]} :: 0 <= i < |s.buckets| ==> LastBelow(s, i, s.top, s.buckets[i]))
    && LastOf(s, s.top, s.tail) && FirstOf(s, 0, s.head)
    && (forall a: nat {:trigger LinksAt(s, a)} :: a in s.nodes ==> LinksAt(s, a))
  }

  ghost predicate Valid(r: Region, s: Strings) { Packed(r, s) && Linked(s) }

  /** The search along a chain. */
  function Search(nodes: map<nat, Node>, p: nat, h: nat, key: string): nat
    decreases p
  {
    if p !in nodes then 0
    else if nodes[p].h == h && nodes[p].key == key then p
    else if nodes[p].next < p then Search(nodes, nodes[p].next, h, key)
    else 0
  }

  function Lookup(r: Region, s: Strings, key: string): nat
    requires |s.buckets| > 0
  {
    Search(s.nodes, s.buckets[Index(s, r.hash(key))], r.hash(key), key)
  }

  /** The links of one more node at top, in front of its chain and at the end of the list. */
  function Insert(r: Region, s: Strings, key: string): Strings
    requires |s.buckets| > 0
  {
    var h, p := r.hash(key), s.top;
    var i := Index(s, h);
    var first, tail := s.buckets[i], s.tail;
    var n1 := s.nodes[p := Node(h, key, first, 0, 0, tail)];
    var n2 := if first in n1 && first != 0 then n1[first := n1[first].(last := p)] else n1;
    var n3 := if tail in n2 && tail != 0 then n2[tail := n2[tail].(listNext := p)] else n2;
    Strings(s.buckets[i := p], n3, if s.head == 0 then p else s.head, p, p + SizeOf(key))
  }

  /** accel_new_interned_string: the new state, and the address of the interned copy or the string itself. */
  function Intern(r: Region, s: Strings, ptr: nat, key: string): (Strings, nat)
    requires |s.buckets| > 0
  {
    if r.start <= ptr < r.end then (s, ptr)
    else
      var p := Lookup(r, s, key);
      if p != 0 then (s, p + BUCKET_SIZE)
      else if s.top + SizeOf(key) >= r.end then (s, ptr)
      else (Insert(r, s, key), s.top + BUCKET_SIZE)
  }

  // ---- strings are unique

  lemma {:induction false} SearchIs(s: Strings, i: nat, p: nat, h: nat, key: string)
    requires |s.buckets| > 0 && 0 !in s.nodes && (p == 0 || InBucket(s, p, i))
    requires forall a: nat {:trigger s.nodes[a]} :: InBucket(s, a, i) ==> LastBelow(s, i, a, s.nodes[a].next)
    ensures var a := Search(s.nodes, p, h, key);
      && (a != 0 ==> a in s.nodes && s.nodes[a].h == h && s.nodes[a].key == key)
      && (a == 0 ==> forall b: nat {:trigger s.nodes[b]} :: InBucket(s, b, i) && b <= p ==>
            !(s.nodes[b].h == h && s.nodes[b].key == key))
    decreases p
  {
    if p in s.nodes && !(s.nodes[p].h == h && s.nodes[p].key == key) {
      var n := s.nodes[p].next;
      assert LastBelow(s, i, p, n);
      SearchIs(s, i, n, h, key);
      forall b: nat | InBucket(s, b, i) && b <= p ensures b == p || b <= n {
        assert b in s.nodes;
      }
    }
  }

  /** A lookup finds the node with the string if there is one. */
  lemma LookupIs(r: Region, s: Strings, key: string)
    requires Valid(r, s)
    ensures var a := Lookup(r, s, key);
      && (a != 0 ==> a in s.nodes && s.nodes[a].key == key)
      && (a == 0 ==> forall b: nat {:trigger s.nodes[b]} :: b in s.nodes ==> s.nodes[b].key != key)
  {
    var h := r.hash(key);
    var i := Index(s, h);
    assert LastBelow(s, i, s.top, s.buckets[i]);
    NodesBelowTop(r, s);
    forall a: nat | InBucket(s, a, i) ensures LastBelow(s, i, a, s.nodes[a].next) {
      assert LinksAt(s, a);
    }
    SearchIs(s, i, s.buckets[i], h, key);
    if Lookup(r, s, key) == 0 {
      forall b: nat | b in s.nodes ensures s.nodes[b].key != key {
        assert Placed(r, s, b);
        if s.nodes[b].key == key {
          assert InBucket(s, b, i) && b < s.top;
        }
      }
    }
  }

  lemma NodesBelowTop(r: Region, s: Strings)
    requires Packed(r, s)
    ensures s.top !in s.nodes && 0 !in s.nodes && s.top > 0
    ensures forall a: nat {:trigger s.nodes[a]} :: a in s.nodes ==> a < s.top
  {
    forall a: nat | a in s.nodes ensures 0 < a < s.top {
      assert Placed(r, s, a);
    }
  }

  // ---- one more string

  ghost predicate Inserts(r: Region, s: Strings, key: string, t: Strings) {
    && Valid(r, s) && Lookup(r, s, key) == 0 && s.top + SizeOf(key) < r.end && t == Insert(r, s, key)
  }

  /** What the new node changes in the others. */
  ghost predicate NodesAfter(s: Strings, h: nat, key: string, t: Strings) {
    && |t.buckets| == |s.buckets| > 0 && s.top !in s.nodes
    && t.nodes.Keys == s.nodes.Keys + {s.top}
    && t.nodes[s.top] == Node(h, key, s.buckets[Index(s, h)], 0, 0, s.tail)
    && forall a: nat {:trigger t.nodes[a]} {:trigger s.nodes[a]} :: a in s.nodes ==>
         a in t.nodes && t.nodes[a] ==
           s.nodes[a].(last := if a == s.buckets[Index(s, h)] then s.top else s.nodes[a].last,
                                                   listNext := if a == s.tail then s.top else s.nodes[a].listNext)
  }

  lemma InsertNodes(r: Region, s: Strings, key: string, t: Strings)
    requires Inserts(r, s, key, t)
    ensures NodesAfter(s, r.hash(key), key, t)
  {
    NodesBelowTop(r, s);
    var i := Index(s, r.hash(key));
    assert LastBelow(s, i, s.top, s.buckets[i]);
  }

  lemma InBucketAfter(s: Strings, h: nat, key: string, t: Strings, b: nat, i: nat)
    requires NodesAfter(s, h, key, t)
    ensures InBucket(t, b, i) <==> InBucket(s, b, i) || (b == s.top && i == Index(s, h))
  {
  }

  lemma InsertPlaced(r: Region, s: Strings, key: string, t: Strings, a: nat)
    requires Inserts(r, s, key, t) && a in t.nodes
    ensures Placed(r, t, a)
  {
    InsertNodes(r, s, key, t);
    if a != s.top {
      assert a in s.nodes && Placed(r, s, a);
    }
  }

  lemma InsertPacked(r: Region, s: Strings, key: string, t: Strings)
    requires Inserts(r, s, key, t)
    ensures Packed(r, t)
  {
    AlignedSum(s.top, SizeOf(key));
    forall a: nat | a in t.nodes ensures Placed(r, t, a) {
      InsertPlaced(r, s, key, t, a);
    }
    forall a: nat, b: nat | a in t.nodes && b in t.nodes ensures Apart(t, a, b) {
      InsertApart(r, s, key, t, a, b);
    }
  }

  lemma InsertApart(r: Region, s: Strings, key: string, t: Strings, a: nat, b: nat)
    requires Inserts(r, s, key, t) && a in t.nodes && b in t.nodes
    ensures Apart(t, a, b)
  {
    InsertNodes(r, s, key, t);
    NodesBelowTop(r, s);
    if a < b {
      assert a in s.nodes && t.nodes[a].key == s.nodes[a].key;
      if b == s.top {
        LookupIs(r, s, key);
        assert Placed(r, s, a);
      } else {
        assert Apart(s, a, b) && t.nodes[b].key == s.nodes[b].key;
      }
    }
  }

  lemma BelowAfter(s: Strings, h: nat, key: string, t: Strings, i: nat, limit: nat, a: nat)
    requires NodesAfter(s, h, key, t) && LastBelow(s, i, limit, a) && (limit <= s.top || i != Index(s, h))
    ensures LastBelow(t, i, limit, a)
  {
    InBucketAfter(s, h, key, t, a, i);
    forall b: nat | InBucket(t, b, i) && b < limit ensures b <= a {
      InBucketAfter(s, h, key, t, b, i);
    }
  }

  /** a is still the first above, or was not there and the new node is now. */
  lemma AboveAfter(s: Strings, h: nat, key: string, t: Strings, i: nat, limit: nat, a: nat)
    requires NodesAfter(s, h, key, t) && FirstAbove(s, i, limit, a) && limit < s.top && (a != 0 ==> a < s.top)
    ensures FirstAbove(t, i, limit, if a == 0 && i == Index(s, h) then s.top else a)
  {
    InBucketAfter(s, h, key, t, s.top, i);
    InBucketAfter(s, h, key, t, a, i);
    forall b: nat | InBucket(t, b, i) && b > limit ensures b == s.top || (a != 0 && b >= a) {
      InBucketAfter(s, h, key, t, b, i);
    }
  }

  lemma InsertChainLinks(r: Region, s: Strings, key: string, t: Strings, a: nat)
    requires Inserts(r, s, key, t) && a in s.nodes
    ensures a in t.nodes && |t.buckets| > 0
    ensures LastBelow(t, Index(t, t.nodes[a].h), a, t.nodes[a].next)
    ensures FirstAbove(t, Index(t, t.nodes[a].h), a, t.nodes[a].last)
  {
    InsertNodes(r, s, key, t);
    NodesBelowTop(r, s);
    var h, j := r.hash(key), Index(s, s.nodes[a].h);
    var i := Index(s, h);
    assert LinksAt(s, a) && LastBelow(s, i, s.top, s.buckets[i]);
    assert InBucket(s, a, j);
    BelowAfter(s, h, key, t, j, a, s.nodes[a].next);
    AboveAfter(s, h, key, t, j, a, s.nodes[a].last);
    LastOfBucket(s, i, s.buckets[i], a, s.nodes[a].last);
  }

  /** In its bucket only the first node of the chain has none above it. */
  lemma LastOfBucket(s: Strings, i: nat, first: nat, a: nat, last: nat)
    requires InBucket(s, a, i) ==> FirstAbove(s, i, a, last)
    requires LastBelow(s, i, s.top, first) && 0 < a < s.top && last < s.top && a in s.nodes && |s.buckets| > 0
    ensures a == first <==> InBucket(s, a, i) && last == 0
  {
  }

  lemma InsertNewLinks(r: Region, s: Strings, key: string, t: Strings)
    requires Inserts(r, s, key, t)
    ensures s.top in t.nodes && |t.buckets| > 0 && LinksAt(t, s.top)
  {
    InsertNodes(r, s, key, t);
    NodesBelowTop(r, s);
    var h := r.hash(key);
    var i := Index(s, h);
    BelowAfter(s, h, key, t, i, s.top, s.buckets[i]);
    forall b: nat | InBucket(t, b, i) ensures b <= s.top {
      InBucketAfter(s, h, key, t, b, i);
    }
    LastOfAfter(s, h, key, t, s.top, s.tail);
  }

  lemma LastOfAfter(s: Strings, h: nat, key: string, t: Strings, limit: nat, a: nat)
    requires NodesAfter(s, h, key, t) && LastOf(s, limit, a) && limit <= s.top
    ensures LastOf(t, limit, a)
  {
    forall b: nat | b in t.nodes && b < limit ensures b <= a {
      assert b in s.nodes && s.nodes[b] == s.nodes[b];
    }
  }

  lemma InsertListLinks(r: Region, s: Strings, key: string, t: Strings, a: nat)
    requires Inserts(r, s, key, t) && a in s.nodes
    ensures a in t.nodes && LastOf(t, a, t.nodes[a].listLast) && FirstOf(t, a, t.nodes[a].listNext)
  {
    InsertNodes(r, s, key, t);
    NodesBelowTop(r, s);
    assert LinksAt(s, a) && LastOf(s, s.top, s.tail);
    LastOfAfter(s, r.hash(key), key, t, a, s.nodes[a].listLast);
    if a != s.tail {
      assert s.tail in s.nodes && s.nodes[s.tail] == s.nodes[s.tail];
    }
    forall b: nat | b in t.nodes && b > a ensures t.nodes[a].listNext != 0 && b >= t.nodes[a].listNext {
      if b != s.top {
        assert s.nodes[b] == s.nodes[b];
      }
    }
  }

  lemma InsertEnds(r: Region, s: Strings, key: string, t: Strings)
    requires Inserts(r, s, key, t)
    ensures LastOf(t, t.top, t.tail) && FirstOf(t, 0, t.head)
  {
    InsertNodes(r, s, key, t);
    NodesBelowTop(r, s);
    assert FirstOf(s, 0, s.head);
    forall b: nat | b in t.nodes ensures b <= s.top && (b > 0 ==> t.head != 0 && b >= t.head) {
      if b != s.top {
        assert s.nodes[b] == s.nodes[b];
      }
    }
  }

  lemma InsertLinked(r: Region, s: Strings, key: string, t: Strings)
    requires Inserts(r, s, key, t)
    ensures Linked(t)
  {
    InsertNodes(r, s, key, t);
    forall j | 0 <= j < |t.buckets| ensures LastBelow(t, j, t.top, t.buckets[j]) {
      InsertBucket(r, s, key, t, j);
    }
    forall a: nat | a in t.nodes ensures LinksAt(t, a) {
      if a == s.top {
        InsertNewLinks(r, s, key, t);
      } else {
        InsertChainLinks(r, s, key, t, a);
        InsertListLinks(r, s, key, t, a);
      }
    }
    InsertEnds(r, s, key, t);
  }

  lemma InsertBucket(r: Region, s: Strings, key: string, t: Strings, j: nat)
    requires Inserts(r, s, key, t) && j < |s.buckets|
    ensures |t.buckets| == |s.buckets| && LastBelow(t, j, t.top, t.buckets[j])
  {
    InsertNodes(r, s, key, t);
    NodesBelowTop(r, s);
    var h := r.hash(key);
    assert LastBelow(s, j, s.top, s.buckets[j]);
    InBucketAfter(s, h, key, t, t.buckets[j], j);
    forall b: nat | InBucket(t, b, j) ensures b <= t.buckets[j] {
      InBucketAfter(s, h, key, t, b, j);
    }
  }

  /** Interning keeps the table well formed; it gives the string itself, or the address of the one node with
      this content. Nodes that were there stay, with their content. */
  lemma InternUnique(r: Region, s: Strings, ptr: nat, key: string)
    requires Valid(r, s)
    ensures var (t, p) := Intern(r, s, ptr, key);
      && Valid(r, t)
      && (forall a: nat {:trigger t.nodes[a]} :: a in s.nodes ==> a in t.nodes && t.nodes[a].key == s.nodes[a].key)
      && (p != ptr ==>
            p - BUCKET_SIZE in t.nodes && t.nodes[p - BUCKET_SIZE].key == key && Lookup(r, t, key) == p - BUCKET_SIZE)
      && (p == ptr && !(r.start <= ptr < r.end) ==> t == s)
  {
    LookupIs(r, s, key);
    var (t, p) := Intern(r, s, ptr, key);
    if t != s {
      InsertNodes(r, s, key, t);
      InsertPacked(r, s, key, t);
      InsertLinked(r, s, key, t);
      OnlyNode(r, t, s.top, key);
    }
  }

  /** The node with a string is the one a lookup finds. */
  lemma OnlyNode(r: Region, s: Strings, a: nat, key: string)
    requires Valid(r, s) && a in s.nodes && s.nodes[a].key == key
    ensures Lookup(r, s, key) == a
  {
    LookupIs(r, s, key);
    var b := Lookup(r, s, key);
    assert Apart(s, a, b) && Apart(s, b, a);
  }

  predicate InRegion(r: Region, p: nat) { r.start <= p < r.end }

  /** Room for one more string. */
  predicate Room(r: Region, s: Strings, key: string) { s.top + SizeOf(key) < r.end }

  /** The address of the string that is found. */
  function AddressOf(r: Region, s: Strings, key: string): nat
    requires |s.buckets| > 0
  {
    Lookup(r, s, key) + BUCKET_SIZE
  }

  /** A request for a string from outside: if it is there, its address, and nothing changes; if not and there is
      room, it is there afterwards; the caller's own pointer only if there is no room. (A length counts the final zero,
      so strings are not empty.) */
  ghost predicate Answered(r: Region, s: Strings, ptr: nat, key: string, t: Strings, p: nat)
    requires |s.buckets| > 0 && |t.buckets| > 0
  {
    && (Lookup(r, s, key) != 0 ==> t == s && p == AddressOf(r, s, key))
    && (Lookup(r, s, key) == 0 && Room(r, s, key) ==> Lookup(r, t, key) != 0 && p == AddressOf(r, t, key))
    && (Lookup(r, s, key) == 0 && !Room(r, s, key) ==> t == s && p == ptr)
    && (key != "" ==> if Lookup(r, s, key) == 0 && !Room(r, s, key) then p == ptr else InRegion(r, p) && p != ptr)
  }

  lemma AddressInRegion(r: Region, s: Strings, key: string)
    requires Valid(r, s) && Lookup(r, s, key) != 0 && key != ""
    ensures InRegion(r, AddressOf(r, s, key))
  {
    LookupIs(r, s, key);
    assert Placed(r, s, Lookup(r, s, key));
  }

  lemma InternInserts(r: Region, s: Strings, key: string, t: Strings)
    requires Inserts(r, s, key, t)
    ensures Valid(r, t) && Lookup(r, t, key) == s.top != 0
  {
    InsertNodes(r, s, key, t);
    InsertPacked(r, s, key, t);
    InsertLinked(r, s, key, t);
    NodesBelowTop(r, s);
    OnlyNode(r, t, s.top, key);
  }

  lemma InternAnswers(r: Region, s: Strings, ptr: nat, key: string, t: Strings, p: nat)
    requires Valid(r, s) && !InRegion(r, ptr) && (t, p) == Intern(r, s, ptr, key)
    ensures Valid(r, t) && Answered(r, s, ptr, key, t, p)
  {
    if Lookup(r, s, key) == 0 && Room(r, s, key) {
      InternInserts(r, s, key, t);
    }
    if key != "" && Lookup(r, t, key) != 0 {
      AddressInRegion(r, t, key);
    }
  }

  // ---- rolling back

  /** accel_interned_strings_save_state: the bucket heads, the ends of the list and top. */
  datatype Saved = Saved(buckets: seq<nat>, head: nat, tail: nat, top: nat)

  function Save(s: Strings): Saved { Saved(s.buckets, s.head, s.tail, s.top) }

  function SetLast(nodes: map<nat, Node>, a: nat): (r: map<nat, Node>)
    ensures r.Keys == nodes.Keys
  {
    if a in nodes && a != 0 then nodes[a := nodes[a].(last := 0)] else nodes
  }

  /** The loop over the buckets. */
  function ResetLast(nodes: map<nat, Node>, buckets: seq<nat>): (r: map<nat, Node>)
    ensures r.Keys == nodes.Keys
  {
    if buckets == [] then nodes else SetLast(ResetLast(nodes, buckets[..|buckets| - 1]), buckets[|buckets| - 1])
  }

  lemma ResetNext(nodes: map<nat, Node>, buckets: seq<nat>, i: nat)
    requires i < |buckets|
    ensures ResetLast(nodes, buckets[..i + 1]) == SetLast(ResetLast(nodes, buckets[..i]), buckets[i])
  {
    assert buckets[..i + 1][..i] == buckets[..i];
  }

  /** accel_interned_strings_restore_state. What lies above top counts as free memory again. */
  function Restore(s: Strings, saved: Saved): Strings {
    var n1 := ResetLast(s.nodes, saved.buckets);
    var n2 := if saved.head in n1 && saved.head != 0 then n1[saved.head := n1[saved.head].(listLast := 0)] else n1;
    var n3 := if saved.tail in n2 && saved.tail != 0 then n2[saved.tail := n2[saved.tail].(listNext := 0)] else n2;
    Strings(saved.buckets, map a | a in n3 && a < saved.top :: n3[a], saved.head, saved.tail, saved.top)
  }

  /** s has grown out of s0: the old nodes have kept everything but, in the first nodes of chains, the link to
      the node before, and in the last node of the list, the link to the next. */
  ghost predicate Grown(s0: Strings, s: Strings) {
    && s.top >= s0.top && |s.buckets| == |s0.buckets| > 0
    && (forall a: nat {:trigger s0.nodes[a]} {:trigger s.nodes[a]} :: a in s0.nodes ==>
          a in s.nodes && s.nodes[a] == s0.nodes[a].(last := s.nodes[a].last, listNext := s.nodes[a].listNext))
    && (forall a: nat {:trigger s.nodes[a]} :: a in s0.nodes && a in s.nodes && a !in s0.buckets ==>
          s.nodes[a].last == s0.nodes[a].last)
    && (forall a: nat {:trigger s.nodes[a]} :: a in s0.nodes && a in s.nodes && a != s0.tail ==>
          s.nodes[a].listNext == s0.nodes[a].listNext)
    && (forall a: nat {:trigger s.nodes[a]} :: a in s.nodes && a !in s0.nodes ==> a >= s0.top)
    && (forall i {:trigger s.buckets[i]} :: 0 <= i < |s.buckets| ==>
          s.buckets[i] == s0.buckets[i] || s.buckets[i] !in s0.nodes)
    && (s.tail == s0.tail || s.tail !in s0.nodes)
  }

  lemma GrownInsert(r: Region, s0: Strings, s: Strings, key: string, t: Strings)
    requires Valid(r, s0) && Grown(s0, s) && Inserts(r, s, key, t)
    ensures Grown(s0, t)
  {
    InsertNodes(r, s, key, t);
    NodesBelowTop(r, s);
    NodesBelowTop(r, s0);
    var i := Index(s, r.hash(key));
    assert s.buckets[i] in s0.nodes ==> s.buckets[i] in s0.buckets;
    forall a: nat | a in s0.nodes
      ensures a in t.nodes && t.nodes[a] == s0.nodes[a].(last := t.nodes[a].last, listNext := t.nodes[a].listNext)
      ensures a !in s0.buckets ==> t.nodes[a].last == s0.nodes[a].last
      ensures a != s0.tail ==> t.nodes[a].listNext == s0.nodes[a].listNext
    {
      assert a in s.nodes && t.nodes[a].h == s.nodes[a].h;
    }
    assert s.top !in s0.nodes;
  }

  lemma {:induction false} ResetLastIs(nodes: map<nat, Node>, buckets: seq<nat>, a: nat)
    requires a in nodes
    ensures ResetLast(nodes, buckets)[a] == nodes[a].(last := if a in buckets && a != 0 then 0 else nodes[a].last)
  {
    if buckets != [] {
      ResetLastIs(nodes, buckets[..|buckets| - 1], a);
      assert buckets == buckets[..|buckets| - 1] + [buckets[|buckets| - 1]];
    }
  }

  /** At the ends of chains and list there is nothing beyond. */
  lemma EndsAreEnds(r: Region, s: Strings, a: nat)
    requires Valid(r, s) && a in s.nodes
    ensures a in s.buckets ==> s.nodes[a].last == 0
    ensures a == s.tail ==> s.nodes[a].listNext == 0
    ensures a == s.head ==> s.nodes[a].listLast == 0
  {
    NodesBelowTop(r, s);
    assert LinksAt(s, a);
    if a in s.buckets {
      var i :| 0 <= i < |s.buckets| && s.buckets[i] == a;
      assert LastBelow(s, i, s.top, a);
      assert InBucket(s, a, i);
      assert FirstAbove(s, i, a, s.nodes[a].last);
    }
    assert s.nodes[a].listNext != 0 ==> s.nodes[s.nodes[a].listNext] == s.nodes[s.nodes[a].listNext];
    assert s.nodes[a].listLast != 0 ==> s.nodes[s.nodes[a].listLast] == s.nodes[s.nodes[a].listLast];
  }

  lemma RestoredNode(r: Region, s0: Strings, s: Strings, a: nat)
    requires Valid(r, s0) && Grown(s0, s) && a in s0.nodes
    ensures a in Restore(s, Save(s0)).nodes && Restore(s, Save(s0)).nodes[a] == s0.nodes[a]
  {
    NodesBelowTop(r, s0);
    EndsAreEnds(r, s0, a);
    ResetLastIs(s.nodes, s0.buckets, a);
  }

  /** After any growth, restoring the bucket heads, the list ends and top gives back the saved table, field for
      field: its chains, its list and its lookups are exactly those of the snapshot. */
  lemma RestoreExact(r: Region, s0: Strings, s: Strings)
    requires Valid(r, s0) && Grown(s0, s)
    ensures Restore(s, Save(s0)) == s0
  {
    var t := Restore(s, Save(s0));
    NodesBelowTop(r, s0);
    forall a: nat ensures a in t.nodes <==> a in s0.nodes {
      if a in s0.nodes {
        RestoredNode(r, s0, s, a);
      }
    }
    forall a: nat | a in s0.nodes ensures t.nodes[a] == s0.nodes[a] {
      RestoredNode(r, s0, s, a);
    }
    assert t.nodes == s0.nodes;
  }

  datatype Request = Request(ptr: nat, key: string)

  function InternAll(r: Region, s: Strings, reqs: seq<Request>): (t: Strings)
    requires |s.buckets| > 0
    ensures |t.buckets| == |s.buckets|
  {
    if reqs == [] then s
    else
      var last := reqs[|reqs| - 1];
      Intern(r, InternAll(r, s, reqs[..|reqs| - 1]), last.ptr, last.key).0
  }

  lemma {:induction false} InternAllGrows(r: Region, s: Strings, reqs: seq<Request>)
    requires Valid(r, s)
    ensures var t := InternAll(r, s, reqs); Valid(r, t) && Grown(s, t)
    ensures forall a: nat {:trigger s.nodes[a]} :: a in s.nodes ==>
      a in InternAll(r, s, reqs).nodes && InternAll(r, s, reqs).nodes[a].key == s.nodes[a].key
  {
    if reqs != [] {
      var q, last := reqs[..|reqs| - 1], reqs[|reqs| - 1];
      InternAllGrows(r, s, q);
      var u := InternAll(r, s, q);
      InternUnique(r, u, last.ptr, last.key);
      LookupIs(r, u, last.key);
      if Intern(r, u, last.ptr, last.key).0 != u {
        GrownInsert(r, s, u, last.key, Intern(r, u, last.ptr, last.key).0);
      }
    }
  }

  /** However many strings are interned after the snapshot, a restore gives exactly the snapshot again. */
  lemma RollBackExact(r: Region, s: Strings, reqs: seq<Request>)
    requires Valid(r, s)
    ensures Restore(InternAll(r, s, reqs), Save(s)) == s
  {
    InternAllGrows(r, s, reqs);
    RestoreExact(r, s, InternAll(r, s, reqs));
  }

  /** Between two restores an interned string keeps its address. */
  lemma AddressStays(r: Region, s: Strings, key: string, reqs: seq<Request>)
    requires Valid(r, s) && Lookup(r, s, key) != 0
    ensures Lookup(r, InternAll(r, s, reqs), key) == Lookup(r, s, key)
  {
    LookupIs(r, s, key);
    InternAllGrows(r, s, reqs);
    OnlyNode(r, InternAll(r, s, reqs), Lookup(r, s, key), key);
  }

  /** Once a string has been answered with an address in the region, every later request for it before a restore gives
      the same address: from any pointer outside, and from any pointer to a string in the region with these contents. */
  lemma SameAnswer(r: Region, s: Strings, ptr: nat, key: string, reqs: seq<Request>, ptr2: nat)
    requires Valid(r, s) && !InRegion(r, ptr) && InRegion(r, Intern(r, s, ptr, key).1)
    ensures var (t, p) := Intern(r, s, ptr, key);
      var u := InternAll(r, t, reqs);
      && (!InRegion(r, ptr2) ==> Intern(r, u, ptr2, key) == (u, p))
      && (HoldsAt(u, ptr2, key) && InRegion(r, ptr2) ==> Intern(r, u, ptr2, key) == (u, p) && ptr2 == p)
  {
    var (t, p) := Intern(r, s, ptr, key);
    InternAnswers(r, s, ptr, key, t, p);
    AddressStays(r, t, key, reqs);
    var u := InternAll(r, t, reqs);
    InternAllGrows(r, t, reqs);
    if HoldsAt(u, ptr2, key) {
      OnlyNode(r, u, ptr2 - BUCKET_SIZE, key);
    }
  }

  /** There is a string with these contents at this address. */
  predicate HoldsAt(s: Strings, p: nat, key: string) {
    p >= BUCKET_SIZE && p - BUCKET_SIZE in s.nodes && s.nodes[p - BUCKET_SIZE].key == key
  }

  /** An address that has been answered holds the string, and goes on holding it: strings with the same address are the
      same. */
  lemma AnswerHolds(r: Region, s: Strings, ptr: nat, key: string, reqs: seq<Request>)
    requires Valid(r, s) && !InRegion(r, ptr) && InRegion(r, Intern(r, s, ptr, key).1)
    ensures var (t, p) := Intern(r, s, ptr, key); HoldsAt(InternAll(r, t, reqs), p, key)
  {
    var (t, p) := Intern(r, s, ptr, key);
    InternAnswers(r, s, ptr, key, t, p);
    LookupIs(r, t, key);
    InternAllGrows(r, t, reqs);
  }

  // ---- the table in memory

  class Interner {
    const region: Region
    var buckets: array<nat>
    var nodes: map<nat, Node>
    var head: nat
    var tail: nat
    var top: nat
    var saved: Saved

    ghost function View(): Strings
      reads this, buckets
    {
      Strings(buckets[..], nodes, head, tail, top)
    }

    ghost predicate Sound()
      reads this, buckets
    {
      Valid(region, View())
    }

    /** An empty table over its region. */
    constructor (region: Region, size: nat)
      requires 0 < region.start <= region.end && region.start % ALIGN == 0 && size > 0
      ensures Sound() && fresh(buckets) && this.region == region && buckets.Length == size
      ensures forall key {:trigger Lookup(region, View(), key)} :: Lookup(region, View(), key) == 0
    {
      this.region := region;
      buckets := new nat[size](_ => 0);
      nodes := map[];
      head, tail, top := 0, 0, region.start;
      saved := Saved([], 0, 0, 0);
    }

    /** The search for an existing interned string. */
    method FindNode(h: nat, key: string) returns (p: nat)
      requires Sound() && h == region.hash(key)
      ensures p == Lookup(region, View(), key)
    {
      p := buckets[h % buckets.Length];
      assert LastBelow(View(), Index(View(), h), top, p);
      while p != 0 && !(nodes[p].h == h && nodes[p].key == key)
        invariant p != 0 ==> p in nodes
        invariant Search(nodes, p, h, key) == Lookup(region, View(), key)
        decreases p
      {
        assert LinksAt(View(), p);
        p := nodes[p].next;
      }
      NodesBelowTop(region, View());
    }

    /** accel_new_interned_string */
    method NewInternedString(ptr: nat, key: string) returns (p: nat)
      requires Sound()
      modifies this`nodes, this`head, this`tail, this`top, buckets
      ensures Sound() && (View(), p) == old(Intern(region, View(), ptr, key))
      ensures InRegion(region, ptr) ==> View() == old(View()) && p == ptr
      ensures !InRegion(region, ptr) ==> Answered(region, old(View()), ptr, key, View(), p)
    {
      ghost var s := View();
      p := InternInto(ptr, key);
      InternUnique(region, s, ptr, key);
      if !InRegion(region, ptr) {
        InternAnswers(region, s, ptr, key, View(), p);
      }
    }

    method InternInto(ptr: nat, key: string) returns (p: nat)
      requires Sound()
      modifies this`nodes, this`head, this`tail, this`top, buckets
      ensures (View(), p) == old(Intern(region, View(), ptr, key))
    {
      if region.start <= ptr < region.end {
        return ptr;
      }
      var h := region.hash(key);
      p := FindNode(h, key);
      if p != 0 {
        p := p + BUCKET_SIZE;
      } else if top + SizeOf(key) >= region.end {
        p := ptr;
      } else {
        p := Link(h, key);
        p := p + BUCKET_SIZE;
      }
    }

    /** A new bucket at top, linked into its chain and the list. */
    method Link(h: nat, key: string) returns (p: nat)
      requires buckets.Length > 0 && h == region.hash(key)
      modifies this`nodes, this`head, this`tail, this`top, buckets
      ensures View() == old(Insert(region, View(), key)) && p == old(top)
    {
      var index := h % buckets.Length;
      p := top;
      top := top + SizeOf(key);
      nodes := nodes[p := Node(h, key, buckets[index], 0, 0, tail)];
      if buckets[index] != 0 && buckets[index] in nodes {
        nodes := nodes[buckets[index] := nodes[buckets[index]].(last := p)];
      }
      buckets[index] := p;
      if tail != 0 && tail in nodes {
        nodes := nodes[tail := nodes[tail].(listNext := p)];
      }
      tail := p;
      if head == 0 {
        head := p;
      }
    }

    /** accel_interned_strings_save_state */
    method SaveState()
      modifies this`saved
      ensures saved == Save(View())
    {
      saved := Saved(buckets[..], head, tail, top);
    }

    /** accel_interned_strings_restore_state */
    method RestoreState()
      requires |saved.buckets| == buckets.Length
      modifies this`nodes, this`head, this`tail, this`top, buckets
      ensures View() == old(Restore(View(), saved))
    {
      RestoreBuckets();
      head, tail := saved.head, saved.tail;
      if head != 0 && head in nodes {
        nodes := nodes[head := nodes[head].(listLast := 0)];
      }
      if tail != 0 && tail in nodes {
        nodes := nodes[tail := nodes[tail].(listNext := 0)];
      }
      top := saved.top;
      nodes := map a | a in nodes && a < top :: nodes[a];
    }

    method RestoreBuckets()
      requires |saved.buckets| == buckets.Length
      modifies this`nodes, buckets
      ensures nodes == ResetLast(old(nodes), saved.buckets) && buckets[..] == saved.buckets
    {
      ghost var was, heads := nodes, saved.buckets;
      assert heads[..|heads|] == heads;
      var i := 0;
      while i < buckets.Length
        invariant 0 <= i <= buckets.Length && nodes == ResetLast(was, heads[..i])
        invariant buckets[..i] == heads[..i]
      {
        ResetNext(was, heads, i);
        buckets[i] := saved.buckets[i];
        if buckets[i] != 0 && buckets[i] in nodes {
          nodes := nodes[buckets[i] := nodes[buckets[i]].(last := 0)];
        }
        i := i + 1;
      }
    }
  }
}
