/** A table that holds an array: what is required of nested tables can be met, and both tables are moved. */
module NestedExample {
  import opened PersistHash
  import opened PersistLinks
  import opened PersistNested
  import opened TableSteps
  import opened TablesMoved

  /** The table at 1 holds the bucket at 2, which holds the zval at 4, an array, whose table at 5 holds the bucket at 6,
      which holds the zval at 8. */
  function ArrayInArray(): Heap {
    Heap(map[2 := Entry(10, 0, true, 4, 0, 0, 0, 0), 6 := Entry(11, 0, true, 8, 0, 0, 0, 0)],
         map[1 := Head(2, 2, 0, 1, 1, 3), 3 := Slots([2, 0]), 5 := Head(6, 6, 6, 1, 1, 7), 7 := Slots([0, 6])],
         map[], map[4 := Arr(5), 8 := Other(12)], map[], map[], 9)
  }

  function ItsWorld(): World {
    World(_ => false, _ => 8, map[1 := [2], 5 := [6]], map[1 := 1, 2 := 1, 3 := 1, 5 := 5, 6 := 5, 7 := 5],
          map[1 := 3, 4 := 2, 5 := 1, 8 := 0])
  }

  lemma ItsOuter()
    ensures TableOf(ItsWorld(), ArrayInArray(), 1)
  {
    var w, h := ItsWorld(), ArrayInArray();
    assert Order(w, 1) == [2] && h.parts[3].slots == [2, 0];
    assert 2 in Order(w, 1);
  }

  lemma ItsInner()
    ensures TableOf(ItsWorld(), ArrayInArray(), 5)
  {
    var w, h := ItsWorld(), ArrayInArray();
    assert Order(w, 5) == [6] && h.parts[7].slots == [0, 6];
    assert 6 in Order(w, 5);
  }

  lemma ItsOnly(t: nat)
    requires IsTable(ArrayInArray(), t)
    ensures t == 1 || t == 5
  {
    assert t in {1, 3, 5, 7};
  }

  lemma ItsArrays(z: nat)
    requires z in ArrayInArray().zvals && ArrayInArray().zvals[z].Arr?
    ensures z == 4 && ArrayInArray().zvals[z].table == 5 && IsTable(ArrayInArray(), 5)
    ensures Rank(ItsWorld(), 5) < Rank(ItsWorld(), 4)
  {
    assert z in {4, 8};
  }

  lemma ItsHomes(a: nat)
    requires Home(ItsWorld(), a) != 0
    ensures a in ArrayInArray().entries || a in ArrayInArray().parts
  {
    assert a in {1, 2, 3, 5, 6, 7};
  }

  lemma ForestOf(w: World, h: Heap)
    requires forall a: nat {:trigger Home(w, a)} :: Home(w, a) != 0 ==> a in h.entries || a in h.parts
    requires forall t: nat {:trigger Order(w, t)} :: IsTable(h, t) ==> TableOf(w, h, t)
    requires forall z: nat {:trigger h.zvals[z]} :: z in h.zvals && h.zvals[z].Arr? ==>
      IsTable(h, h.zvals[z].table) && Rank(w, h.zvals[z].table) < Rank(w, z)
    requires forall y: nat, z: nat {:trigger h.zvals[y], h.zvals[z]} ::
      y in h.zvals && z in h.zvals && h.zvals[y].Arr? && h.zvals[y] == h.zvals[z] ==> y == z
    ensures Forest(w, h)
  {
    forall t: nat | IsTable(h, t) ensures TableOf(w, h, t) {
      assert Order(w, t) == Order(w, t);
    }
  }

  lemma ItsForest()
    ensures Forest(ItsWorld(), ArrayInArray())
  {
    forall t: nat | IsTable(ArrayInArray(), t) ensures TableOf(ItsWorld(), ArrayInArray(), t) {
      ItsOnly(t);
      ItsOuter();
      ItsInner();
    }
    forall a: nat | Home(ItsWorld(), a) != 0 ensures a in ArrayInArray().entries || a in ArrayInArray().parts {
      ItsHomes(a);
    }
    forall z: nat | z in ArrayInArray().zvals && ArrayInArray().zvals[z].Arr?
      ensures z == 4 && IsTable(ArrayInArray(), ArrayInArray().zvals[z].table)
      ensures Rank(ItsWorld(), ArrayInArray().zvals[z].table) < Rank(ItsWorld(), z)
    {
      ItsArrays(z);
    }
    ForestOf(ItsWorld(), ArrayInArray());
  }

  lemma ItsPointers()
    ensures PointsToStrings(ItsWorld().interned, ArrayInArray())
  {
  }

  lemma ItsSetting()
    ensures Setting(ItsWorld(), ArrayInArray(), ArrayInArray())
  {
    ItsPointers();
    ItsBounds();
  }

  lemma ItsBounds()
    ensures Apart(ArrayInArray()) && Below(ArrayInArray())
  {
  }

  lemma ItsFresh()
    ensures FreshTable(ItsWorld(), ArrayInArray(), ArrayInArray(), 5)
    ensures Begun(ItsWorld(), ArrayInArray(), ArrayInArray(), 1, 1)
  {
    var w, h := ItsWorld(), ArrayInArray();
    assert Order(w, 1) == [2] && Order(w, 5) == [6];
    assert FreshEntry(h, h, 6) && FreshEntry(h, h, 2);
  }

  /** At the start no table has been touched. */
  lemma StartKept(w: World, h: Heap, open: set<nat>)
    requires h.xlat.Keys == {}
    requires forall t: nat {:trigger Order(w, t)} :: IsTable(h, t) && t !in open ==> FreshTable(w, h, h, t)
    ensures TablesKept(w, h, h, open)
  {
    forall t: nat | IsTable(h, t) && t !in open ensures t !in h.xlat && FreshTable(w, h, h, t) {
      assert Order(w, t) == Order(w, t);
    }
  }

  lemma ItsKept()
    ensures TablesKept(ItsWorld(), ArrayInArray(), ArrayInArray(), {1})
  {
    var w, h := ItsWorld(), ArrayInArray();
    forall t: nat | IsTable(h, t) && t !in {1} ensures FreshTable(w, h, h, t) {
      ItsOnly(t);
      ItsFresh();
    }
    StartKept(w, h, {1});
  }

  lemma StartInv(w: World, h: Heap, open: set<nat>)
    requires Setting(w, h, h) && Forest(w, h) && TablesKept(w, h, h, open) && h.xlat.Keys == {}
    requires forall t: nat {:trigger t in open} :: t in open ==> IsTable(h, t)
    ensures Inv(w, h, h, open)
  {
    assert forall a: nat {:trigger a in h.xlat} :: a !in h.xlat;
  }

  lemma ItsInv()
    ensures Inv(ItsWorld(), ArrayInArray(), ArrayInArray(), {1})
  {
    ItsSetting();
    ItsForest();
    ItsKept();
    StartInv(ItsWorld(), ArrayInArray(), {1});
  }

  lemma ItsWay()
    ensures Way(ItsWorld(), ArrayInArray(), 1, [2]) && Inner(ItsWorld(), ArrayInArray(), 1, [2]) == 5
  {
    assert [2][1..] == [];
    assert Way(ItsWorld(), ArrayInArray(), 5, []);
  }

  /** What is needed of the example, for any structure of this shape. */
  ghost predicate TwoTables(w: World, h: Heap) {
    && Inv(w, h, h, {1}) && Begun(w, h, h, 1, 1) && Rank(w, 1) == 3 && 1 !in h.xlat
    && Way(w, h, 1, [2]) && Inner(w, h, 1, [2]) == 5 && Order(w, 1) == [2] && Order(w, 5) == [6]
  }

  lemma OneBucket(w: World, h0: Heap, r: Heap, s: nat, at: nat, a: nat)
    requires Order(w, s) == [a] && WholeTable(r, at, Copied(r.xlat, Order(w, s)))
    requires forall i {:trigger Order(w, s)[i]} :: 0 <= i < |Order(w, s)| ==>
      Order(w, s)[i] !in r.entries && Order(w, s)[i] in r.xlat
    ensures a in r.xlat && a !in r.entries && WholeTable(r, at, [r.xlat[a]])
  {
    assert Order(w, s)[0] == a;
    assert Copied(r.xlat, Order(w, s)) == [r.xlat[a]];
  }

  lemma OuterMoved(w: World, h: Heap, d: nat) returns (r: Heap)
    requires TwoTables(w, h) && 3 <= d
    ensures r == HashPersist(w, h, Order(w, 1), 1, d)
    ensures 2 in r.xlat && 2 !in r.entries && WholeTable(r, 1, [r.xlat[2]])
  {
    r := HashPersist(w, h, Order(w, 1), 1, d);
    TableMoved(w, h, h, 1, {1}, d, []);
    OneBucket(w, h, r, 1, 1, 2);
  }

  lemma InnerMoved(w: World, h: Heap, d: nat) returns (r: Heap)
    requires TwoTables(w, h) && 3 <= d
    ensures r == HashPersist(w, h, Order(w, 1), 1, d)
    ensures 5 in r.xlat && 6 in r.xlat && 6 !in r.entries && WholeTable(r, r.xlat[5], [r.xlat[6]])
  {
    r := HashPersist(w, h, Order(w, 1), 1, d);
    TableMoved(w, h, h, 1, {1}, d, [2]);
    OneBucket(w, h, r, 5, r.xlat[5], 6);
  }

  lemma ItsTwoTables()
    ensures TwoTables(ItsWorld(), ArrayInArray())
  {
    ItsInv();
    ItsFresh();
    ItsWay();
  }

  /** Both of its tables are moved whole. */
  lemma ArrayInArrayMoved(d: nat)
    requires 3 <= d
    ensures var r := HashPersist(ItsWorld(), ArrayInArray(), Order(ItsWorld(), 1), 1, d);
      && 2 in r.xlat && 5 in r.xlat && 6 in r.xlat && 2 !in r.entries && 6 !in r.entries
      && WholeTable(r, 1, [r.xlat[2]]) && WholeTable(r, r.xlat[5], [r.xlat[6]])
  {
    ItsTwoTables();
    var w, h := ItsWorld(), ArrayInArray();
    var outer := OuterMoved(w, h, d);
    var inner := InnerMoved(w, h, d);
  }
}
