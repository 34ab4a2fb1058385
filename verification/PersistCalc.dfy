/** The sizing walk step by step, and that it carries out the calls it is said to make. */
module PersistCalc {
  import opened Alignment
  import opened PersistSize

  lemma {:induction false} WalkAppend(w: World, a: seq<Item>, b: seq<Item>, s: Sum)
    ensures CalcWalk(w, a + b, s) == CalcWalk(w, b, CalcWalk(w, a, s))
    decreases a
  {
    if a == [] {
      assert a + b == b;
    } else {
      assert (a + b)[1..] == a[1..] + b;
      WalkAppend(w, a[1..], b, CalcItem(w, a[0], s));
    }
  }

  lemma WalkOne(w: World, i: Item, s: Sum)
    ensures CalcWalk(w, [i], s) == CalcItem(w, i, s)
  {
    assert CalcWalk(w, [i], s) == CalcWalk(w, [i][1..], CalcItem(w, i, s));
  }

  lemma WalkThree(w: World, i: Item, j: Item, k: Item, s: Sum)
    ensures CalcWalk(w, [i, j, k], s) == CalcItem(w, k, CalcItem(w, j, CalcItem(w, i, s)))
  {
    assert [i, j, k][1..] == [j, k] && [j, k][1..] == [k];
    WalkOne(w, k, CalcItem(w, j, CalcItem(w, i, s)));
  }

  lemma ScriptWalk(w: World, p: seq<Item>, q: seq<Item>, r: seq<Item>, t: seq<Item>, s: Sum)
    ensures CalcWalk(w, p + q + r + t, s) == CalcWalk(w, t, CalcWalk(w, r, CalcWalk(w, q, CalcWalk(w, p, s))))
  {
    WalkAppend(w, p, q, s);
    WalkAppend(w, p + q, r, s);
    WalkAppend(w, p + q + r, t, s);
  }

  function OwnBlocks(script: Script): seq<Item> { [Dup(script.key), Dup(script.fullPath), Dup(script.addr)] }

  class Sizer {
    const w: World
    const save: bool
    var xlat: set<nat>
    ghost var raws: seq<nat>

    /** What has been counted so far in a call that has memory_used to show. */
    ghost function Now(memoryUsed: nat): Sum
      reads this
    {
      Sum(xlat, raws, memoryUsed)
    }

    constructor (w: World, save: bool)
      ensures this.w == w && this.save == save && Now(0) == NOTHING
    {
      this.w, this.save := w, save;
      xlat, raws := {}, [];
    }

    /** ADD_DUP_SIZE */
    method AddDupSize(a: nat, used: nat) returns (memoryUsed: nat)
      modifies this
      ensures Now(memoryUsed) == CalcItem(w, Dup(a), old(Now(used)))
    {
      memoryUsed := used;
      if a !in xlat {
        xlat := xlat + {a};
        memoryUsed := used + Aligned(w.size(a));
      }
    }

    /** ADD_DUP_SIZE if the pointer is not NULL */
    method AddDupIf(a: nat, used: nat) returns (memoryUsed: nat)
      modifies this
      ensures Now(memoryUsed) == CalcWalk(w, DupIf(a), old(Now(used)))
    {
      memoryUsed := used;
      if a != 0 {
        WalkOne(w, Dup(a), Now(used));
        memoryUsed := AddDupSize(a, used);
      }
    }

    /** ADD_INTERNED_STRING */
    method AddInternedString(str: nat, used: nat) returns (memoryUsed: nat)
      modifies this
      ensures Now(memoryUsed) == CalcItem(w, Text(str), old(Now(used)))
    {
      memoryUsed := used;
      if !w.interned(str) {
        var tmp := w.place(str);
        if tmp == str {
          memoryUsed := AddDupSize(str, used);
        }
      }
    }

    /** Names of arguments or variables, NULL for none. */
    method AddNames(names: seq<nat>, used: nat) returns (memoryUsed: nat)
      modifies this
      ensures Now(memoryUsed) == CalcWalk(w, Texts(names), old(Now(used)))
    {
      memoryUsed := used;
      ghost var s := Now(used);
      assert names[..|names|] == names;
      for i := 0 to |names|
        invariant Now(memoryUsed) == CalcWalk(w, Texts(names[..i]), s)
      {
        assert names[..i + 1][..i] == names[..i];
        if names[i] != 0 {
          WalkAppend(w, Texts(names[..i]), [Text(names[i])], s);
          WalkOne(w, Text(names[i]), Now(memoryUsed));
          memoryUsed := AddInternedString(names[i], memoryUsed);
        } else {
          assert Texts(names[..i + 1]) == Texts(names[..i]);
        }
      }
    }

    /** zend_persist_zval_calc */
    method ZvalSize(z: Zval) returns (memoryUsed: nat)
      modifies this
      ensures Now(memoryUsed) == CalcWalk(w, ZvalCalc(z, save), old(Now(0)))
      decreases z
    {
      memoryUsed := 0;
      match z
      case Plain =>
      case Str(str) =>
        WalkOne(w, Text(str), Now(0));
        memoryUsed := AddInternedString(str, 0);
      case Arr(ht, table) =>
        ghost var s := Now(0);
        assert ZvalCalc(z, save) == [Dup(ht)] + [Sub(HashCalc(table, save))];
        WalkAppend(w, [Dup(ht)], [Sub(HashCalc(table, save))], s);
        WalkOne(w, Dup(ht), s);
        memoryUsed := AddDupSize(ht, 0);
        WalkOne(w, Sub(HashCalc(table, save)), Now(memoryUsed));
        var n := HashSize(table);
        memoryUsed := memoryUsed + Aligned(n);
    }

    /** zend_persist_zval_ptr_calc */
    method ZvalPtrSize(p: ZvalPtr) returns (memoryUsed: nat)
      modifies this
      ensures Now(memoryUsed) == CalcWalk(w, ZvalPtrCalc(p, save), old(Now(0)))
      decreases p
    {
      memoryUsed := 0;
      WalkOne(w, Once(p.addr, [Sub(ZvalCalc(p.z, save))]), Now(0));
      if p.addr !in xlat {
        memoryUsed := AddDupSize(p.addr, 0);
        WalkOne(w, Sub(ZvalCalc(p.z, save)), Now(memoryUsed));
        var n := ZvalSize(p.z);
        memoryUsed := memoryUsed + Aligned(n);
      }
    }

    /** zend_hash_persist_calc */
    method HashSize(t: Table) returns (memoryUsed: nat)
      modifies this
      ensures Now(memoryUsed) == CalcWalk(w, HashCalc(t, save), old(Now(0)))
      decreases t, 0
    {
      memoryUsed := 0;
      ghost var s := Now(0);
      assert t.buckets[0..] == t.buckets;
      for i := 0 to |t.buckets|
        invariant CalcWalk(w, BucketsCalc(t.buckets[i..], save), Now(memoryUsed)) ==
          CalcWalk(w, BucketsCalc(t.buckets, save), s)
      {
        assert t.buckets[i..][1..] == t.buckets[i + 1..];
        WalkAppend(w, BucketCalc(t.buckets[i], save), BucketsCalc(t.buckets[i + 1..], save), Now(memoryUsed));
        memoryUsed := BucketSize(t.buckets[i], memoryUsed);
      }
      var last := if t.initialized then [Dup(t.arBuckets)] else [];
      WalkAppend(w, BucketsCalc(t.buckets, save), last, s);
      if t.initialized {
        WalkOne(w, Dup(t.arBuckets), Now(memoryUsed));
        memoryUsed := AddDupSize(t.arBuckets, memoryUsed);
      }
    }

    /** One turn of its loop. */
    method BucketSize(b: Bucket, used: nat) returns (memoryUsed: nat)
      modifies this
      ensures Now(memoryUsed) == CalcWalk(w, BucketCalc(b, save), old(Now(used)))
      decreases b
    {
      ghost var s := Now(used);
      ghost var key := if b.key != 0 then [Key(b.key)] else [];
      ghost var data := if b.dataInside then [] else [Dup(b.data)];
      WalkOne(w, Dup(b.addr), s);
      memoryUsed := AddDupSize(b.addr, used);
      WalkAppend(w, [Dup(b.addr)], key, s);
      if b.key != 0 {
        WalkOne(w, Key(b.key), Now(memoryUsed));
        var tmp := w.place(b.key);
        if tmp == b.key {
          memoryUsed := AddDupSize(b.key, memoryUsed);
        }
      }
      WalkAppend(w, [Dup(b.addr)] + key, data, s);
      if !b.dataInside {
        WalkOne(w, Dup(b.data), Now(memoryUsed));
        memoryUsed := AddDupSize(b.data, memoryUsed);
      }
      WalkAppend(w, [Dup(b.addr)] + key + data, [Sub(ElementCalc(b.element, save))], s);
      WalkOne(w, Sub(ElementCalc(b.element, save)), Now(memoryUsed));
      var n := ElementSize(b.element);
      memoryUsed := memoryUsed + Aligned(n);
    }

    /** pPersistElement */
    method ElementSize(e: Element) returns (memoryUsed: nat)
      modifies this
      ensures Now(memoryUsed) == CalcWalk(w, ElementCalc(e, save), old(Now(0)))
      decreases e
    {
      match e
      case ZvalElement(p) => memoryUsed := ZvalPtrSize(p);
      case FunctionElement(f) => memoryUsed := OpArraySize(f);
      case ClassElement(c) => memoryUsed := ClassSize(c);
      case PropertyElement(p) => memoryUsed := PropertySize(p);
    }

    /** The literals of an op array. */
    method LiteralsSize(zs: seq<Zval>, used: nat) returns (memoryUsed: nat)
      modifies this
      ensures Now(memoryUsed) == CalcWalk(w, ZvalsCalc(zs, save), old(Now(used)))
      decreases zs
    {
      memoryUsed := used;
      ghost var s := Now(used);
      assert zs[0..] == zs;
      for i := 0 to |zs|
        invariant CalcWalk(w, ZvalsCalc(zs[i..], save), Now(memoryUsed)) == CalcWalk(w, ZvalsCalc(zs, save), s)
      {
        assert zs[i..][1..] == zs[i + 1..];
        WalkAppend(w, [Sub(ZvalCalc(zs[i], save))], ZvalsCalc(zs[i + 1..], save), Now(memoryUsed));
        WalkOne(w, Sub(ZvalCalc(zs[i], save)), Now(memoryUsed));
        var n := ZvalSize(zs[i]);
        memoryUsed := memoryUsed + Aligned(n);
      }
    }

    /** The values of a properties table. */
    method ValuesSize(ps: seq<ZvalPtr>, used: nat) returns (memoryUsed: nat)
      modifies this
      ensures Now(memoryUsed) == CalcWalk(w, ZvalPtrsCalc(ps, save), old(Now(used)))
      decreases ps, 0
    {
      memoryUsed := used;
      ghost var s := Now(used);
      assert ps[0..] == ps;
      for i := 0 to |ps|
        invariant CalcWalk(w, ZvalPtrsCalc(ps[i..], save), Now(memoryUsed)) == CalcWalk(w, ZvalPtrsCalc(ps, save), s)
      {
        assert ps[i..][1..] == ps[i + 1..];
        WalkAppend(w, [Sub(ZvalPtrCalc(ps[i], save))], ZvalPtrsCalc(ps[i + 1..], save), Now(memoryUsed));
        WalkOne(w, Sub(ZvalPtrCalc(ps[i], save)), Now(memoryUsed));
        var n := ZvalPtrSize(ps[i]);
        memoryUsed := memoryUsed + Aligned(n);
      }
    }

    /** zend_persist_op_array_calc */
    method OpArraySize(f: OpArray) returns (memoryUsed: nat)
      modifies this
      ensures Now(memoryUsed) == CalcWalk(w, OpArrayCalc(f, save), old(Now(0)))
      decreases f
    {
      memoryUsed := 0;
      if !f.user {
        return;
      }
      ghost var s := Now(0);
      ghost var p1, p2 := DupIf(f.filename), if f.literals != 0 then [Once(f.literals, ZvalsCalc(f.constants, save))]
        else [];
      memoryUsed := AddDupIf(f.filename, memoryUsed);
      WalkAppend(w, p1, p2, s);
      if f.literals != 0 {
        WalkOne(w, Once(f.literals, ZvalsCalc(f.constants, save)), Now(memoryUsed));
        if f.literals !in xlat {
          memoryUsed := AddDupSize(f.literals, memoryUsed);
          memoryUsed := LiteralsSize(f.constants, memoryUsed);
        }
      }
      ghost var p3, p4 := [Once(f.opcodes, [])], DupIf(f.functionName);
      WalkAppend(w, p1 + p2, p3, s);
      WalkOne(w, Once(f.opcodes, []), Now(memoryUsed));
      if f.opcodes !in xlat {
        memoryUsed := AddDupSize(f.opcodes, memoryUsed);
      }
      WalkAppend(w, p1 + p2 + p3, p4, s);
      memoryUsed := AddDupIf(f.functionName, memoryUsed);
      memoryUsed := OpArrayTail(f, memoryUsed, s, p1 + p2 + p3 + p4);
    }

    /** The rest of it, from the arguments on. */
    method OpArrayTail(f: OpArray, used: nat, ghost s: Sum, ghost p4: seq<Item>) returns (memoryUsed: nat)
      requires Now(used) == CalcWalk(w, p4, s)
      modifies this
      ensures Now(memoryUsed) == CalcWalk(w,
        p4 + (if f.argInfo != 0 then [Once(f.argInfo, Texts(f.argNames))] else []) + DupIf(f.brkCont)
          + (if f.statics.Statics? then [Dup(f.statics.ht), Sub(HashCalc(f.statics.table, save))] else [])
          + (if save then DupIf(f.docComment) else []) + DupIf(f.tryCatch)
          + (if f.vars != 0 then [Once(f.vars, Texts(f.varNames))] else []), s)
      decreases f, 0
    {
      memoryUsed := used;
      ghost var p5, p6 := if f.argInfo != 0 then [Once(f.argInfo, Texts(f.argNames))] else [], DupIf(f.brkCont);
      WalkAppend(w, p4, p5, s);
      memoryUsed := AddGuardedNames(f.argInfo, f.argNames, memoryUsed);
      WalkAppend(w, p4 + p5, p6, s);
      memoryUsed := AddDupIf(f.brkCont, memoryUsed);
      ghost var p7 := if f.statics.Statics? then [Dup(f.statics.ht), Sub(HashCalc(f.statics.table, save))] else [];
      WalkAppend(w, p4 + p5 + p6, p7, s);
      memoryUsed := AddStatics(f.statics, memoryUsed);
      ghost var p8, p9 := if save then DupIf(f.docComment) else [], DupIf(f.tryCatch);
      WalkAppend(w, p4 + p5 + p6 + p7, p8, s);
      if save {
        memoryUsed := AddDupIf(f.docComment, memoryUsed);
      }
      WalkAppend(w, p4 + p5 + p6 + p7 + p8, p9, s);
      memoryUsed := AddDupIf(f.tryCatch, memoryUsed);
      WalkAppend(w, p4 + p5 + p6 + p7 + p8 + p9, if f.vars != 0 then [Once(f.vars, Texts(f.varNames))] else [], s);
      memoryUsed := AddGuardedNames(f.vars, f.varNames, memoryUsed);
    }

    method AddStatics(statics: Statics, used: nat) returns (memoryUsed: nat)
      modifies this
      ensures Now(memoryUsed) == CalcWalk(w,
        if statics.Statics? then [Dup(statics.ht), Sub(HashCalc(statics.table, save))] else [], old(Now(used)))
      decreases statics
    {
      memoryUsed := used;
      if statics.Statics? {
        ghost var hash := [Sub(HashCalc(statics.table, save))];
        assert [Dup(statics.ht), Sub(HashCalc(statics.table, save))] == [Dup(statics.ht)] + hash;
        WalkAppend(w, [Dup(statics.ht)], hash, Now(memoryUsed));
        WalkOne(w, Dup(statics.ht), Now(memoryUsed));
        memoryUsed := AddDupSize(statics.ht, memoryUsed);
        memoryUsed := AddHash(statics.table, memoryUsed);
      }
    }

    /** A block of names, if there is one and it is not in the table yet. */
    method AddGuardedNames(a: nat, names: seq<nat>, used: nat) returns (memoryUsed: nat)
      modifies this
      ensures Now(memoryUsed) == CalcWalk(w, if a != 0 then [Once(a, Texts(names))] else [], old(Now(used)))
    {
      memoryUsed := used;
      if a != 0 {
        WalkOne(w, Once(a, Texts(names)), Now(used));
        if a !in xlat {
          memoryUsed := AddDupSize(a, memoryUsed);
          memoryUsed := AddNames(names, memoryUsed);
        }
      }
    }

    /** zend_persist_property_info_calc */
    method PropertySize(p: Property) returns (memoryUsed: nat)
      modifies this
      ensures Now(memoryUsed) == CalcWalk(w, PropertyCalc(p, save), old(Now(0)))
      decreases p
    {
      ghost var s := Now(0);
      WalkOne(w, Text(p.name), s);
      memoryUsed := AddInternedString(p.name, 0);
      WalkAppend(w, [Text(p.name)], if save then DupIf(p.docComment) else [], s);
      if save {
        memoryUsed := AddDupIf(p.docComment, memoryUsed);
      }
    }

    /** A table of property values: ADD_SIZE for the table, then the values. */
    method AddValues(a: nat, ps: seq<ZvalPtr>, used: nat) returns (memoryUsed: nat)
      modifies this
      ensures Now(memoryUsed) == CalcWalk(w, if a != 0 then [Raw(a)] + ZvalPtrsCalc(ps, save) else [], old(Now(used)))
      decreases ps, 1
    {
      memoryUsed := used;
      if a != 0 {
        WalkAppend(w, [Raw(a)], ZvalPtrsCalc(ps, save), Now(used));
        WalkOne(w, Raw(a), Now(used));
        memoryUsed := memoryUsed + Aligned(w.size(a));
        raws := raws + [a];
        memoryUsed := ValuesSize(ps, memoryUsed);
      }
    }

    /** ADD_SIZE(zend_hash_persist_calc(...)) */
    method AddHash(t: Table, used: nat) returns (memoryUsed: nat)
      modifies this
      ensures Now(memoryUsed) == CalcWalk(w, [Sub(HashCalc(t, save))], old(Now(used)))
      decreases t, 1
    {
      WalkOne(w, Sub(HashCalc(t, save)), Now(used));
      var n := HashSize(t);
      memoryUsed := used + Aligned(n);
    }

    /** zend_persist_class_entry_calc, without traits */
    method ClassSize(c: Class) returns (memoryUsed: nat)
      modifies this
      ensures Now(memoryUsed) == CalcWalk(w, ClassCalc(c, save), old(Now(0)))
      decreases c
    {
      memoryUsed := 0;
      if !c.user {
        return;
      }
      ghost var s := Now(0);
      WalkOne(w, Dup(c.addr), s);
      memoryUsed := AddDupSize(c.addr, 0);
      WalkAppend(w, [Dup(c.addr)], [Text(c.name)], s);
      WalkOne(w, Text(c.name), Now(memoryUsed));
      memoryUsed := AddInternedString(c.name, memoryUsed);
      WalkAppend(w, [Dup(c.addr)] + [Text(c.name)], [Sub(HashCalc(c.functions, save))], s);
      memoryUsed := AddHash(c.functions, memoryUsed);
      ghost var p1 := [Dup(c.addr), Text(c.name), Sub(HashCalc(c.functions, save))];
      assert p1 == [Dup(c.addr)] + [Text(c.name)] + [Sub(HashCalc(c.functions, save))];
      ghost var p2 := if c.defaults != 0 then [Raw(c.defaults)] + ZvalPtrsCalc(c.defaultValues, save) else [];
      WalkAppend(w, p1, p2, s);
      memoryUsed := AddValues(c.defaults, c.defaultValues, memoryUsed);
      ghost var p3 := if c.statics != 0 then [Raw(c.statics)] + ZvalPtrsCalc(c.staticValues, save) else [];
      WalkAppend(w, p1 + p2, p3, s);
      memoryUsed := AddValues(c.statics, c.staticValues, memoryUsed);
      memoryUsed := ClassTail(c, memoryUsed, s, p1 + p2 + p3);
    }

    method ClassTail(c: Class, used: nat, ghost s: Sum, ghost p3: seq<Item>) returns (memoryUsed: nat)
      requires Now(used) == CalcWalk(w, p3, s)
      modifies this
      ensures Now(memoryUsed) == CalcWalk(w, p3 + [Sub(HashCalc(c.constants, save))] + DupIf(c.filename)
        + (if save then DupIf(c.docComment) else []) + [Sub(HashCalc(c.properties, save))], s)
      decreases c, 0
    {
      ghost var p4, p5, p6 := [Sub(HashCalc(c.constants, save))], DupIf(c.filename), if save then DupIf(c.docComment)
        else [];
      WalkAppend(w, p3, p4, s);
      memoryUsed := AddHash(c.constants, used);
      WalkAppend(w, p3 + p4, p5, s);
      memoryUsed := AddDupIf(c.filename, memoryUsed);
      WalkAppend(w, p3 + p4 + p5, p6, s);
      if save {
        memoryUsed := AddDupIf(c.docComment, memoryUsed);
      }
      WalkAppend(w, p3 + p4 + p5 + p6, [Sub(HashCalc(c.properties, save))], s);
      memoryUsed := AddHash(c.properties, memoryUsed);
    }

    /** zend_accel_script_persist_calc: the size that is reserved in shared memory for a script. */
    method ScriptSize(script: Script) returns (memoryUsed: nat)
      requires Now(0) == NOTHING
      modifies this
      ensures Now(memoryUsed) == CalcWalk(w, ScriptCalc(script, save), NOTHING)
    {
      memoryUsed := AddHash(script.functions, 0);
      memoryUsed := AddHash(script.classes, memoryUsed);
      memoryUsed := AddOpArray(script.main, memoryUsed);
      memoryUsed := AddOwnBlocks(script, memoryUsed);
      ScriptWalk(w, [Sub(HashCalc(script.functions, save))], [Sub(HashCalc(script.classes, save))],
                 [Sub(OpArrayCalc(script.main, save))], OwnBlocks(script), NOTHING);
      assert ScriptCalc(script, save) == [Sub(HashCalc(script.functions, save))] + [Sub(HashCalc(script.classes, save))]
                                         + [Sub(OpArrayCalc(script.main, save))] + OwnBlocks(script);
    }

    method AddOpArray(f: OpArray, used: nat) returns (memoryUsed: nat)
      modifies this
      ensures Now(memoryUsed) == CalcWalk(w, [Sub(OpArrayCalc(f, save))], old(Now(used)))
    {
      WalkOne(w, Sub(OpArrayCalc(f, save)), Now(used));
      var n := OpArraySize(f);
      memoryUsed := used + Aligned(n);
    }

    /** The script's name, path and own block. */
    method AddOwnBlocks(script: Script, used: nat) returns (memoryUsed: nat)
      modifies this
      ensures Now(memoryUsed) == CalcWalk(w, OwnBlocks(script), old(Now(used)))
    {
      ghost var s := Now(used);
      memoryUsed := AddDupSize(script.key, used);
      WalkThree(w, Dup(script.key), Dup(script.fullPath), Dup(script.addr), s);
      memoryUsed := AddDupSize(script.fullPath, memoryUsed);
      memoryUsed := AddDupSize(script.addr, memoryUsed);
    }
  }
}
