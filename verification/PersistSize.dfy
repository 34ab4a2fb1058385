/** Sizing a script and copying it are two walks over the same structure. Here each walk is first written down
    as the calls it makes, source function by source function, and then carried out; the two results are
    compared. */
module PersistSize {
  import opened Alignment

  // ---- the structure, by addresses; 0 is NULL

  datatype Zval = Plain | Str(val: nat) | Arr(ht: nat, table: Table)
  datatype ZvalPtr = ZvalPtr(addr: nat, z: Zval)
  datatype Element =
    | ZvalElement(ptr: ZvalPtr)
    | FunctionElement(f: OpArray)
    | ClassElement(c: Class)
    | PropertyElement(p: Property)
  datatype Bucket = Bucket(addr: nat, key: nat, dataInside: bool, data: nat, element: Element)
  datatype Table = Table(buckets: seq<Bucket>, initialized: bool, arBuckets: nat)
  datatype Statics = NoStatics | Statics(ht: nat, table: Table)
  datatype OpArray = OpArray(user: bool, filename: nat, literals: nat, constants: seq<Zval>, opcodes: nat,
    functionName: nat,
                             argInfo: nat, argNames: seq<nat>, brkCont: nat, statics: Statics, docComment: nat,
                             tryCatch: nat, vars: nat, varNames: seq<nat>)
  datatype Property = Property(name: nat, docComment: nat)
  datatype Class = Class(user: bool, addr: nat, name: nat, functions: Table, defaults: nat, defaultValues: seq<ZvalPtr>,
                         statics: nat, staticValues: seq<ZvalPtr>, constants: Table, filename: nat, docComment: nat,
                         properties: Table)
  datatype Script = Script(functions: Table, classes: Table, main: OpArray, key: nat, fullPath: nat, addr: nat)

  // ---- the calls of a walk

  datatype Item =
    | Dup(a: nat)                         // ADD_DUP_SIZE; memdup or store
    | Once(a: nat, body: seq<Item>)       // only if the address is not in the table yet: the block, then what it holds
    | Text(a: nat)                        // a string that may be interned
    | Key(a: nat)                         // the key of a bucket
    | Raw(a: nat)                         // ADD_SIZE for a block, without looking at the table
    | Sub(items: seq<Item>)               // a call of another walk
    | Mark(a: nat)                        // entered in the table, but not copied

  function DupIf(a: nat): seq<Item> { if a != 0 then [Dup(a)] else [] }
  function Texts(names: seq<nat>): seq<Item> {
    if names == [] then []
      else Texts(names[..|names| - 1]) + if names[|names| - 1] != 0 then [Text(names[|names| - 1])] else []
  }

  // zend_persist_calc.c

  function ZvalCalc(z: Zval, save: bool): seq<Item> {
    match z
    case Plain => []
    case Str(s) => [Text(s)]
    case Arr(ht, table) => [Dup(ht), Sub(HashCalc(table, save))]
  }

  function ZvalPtrCalc(p: ZvalPtr, save: bool): seq<Item> { [Once(p.addr, [Sub(ZvalCalc(p.z, save))])] }

  function HashCalc(t: Table, save: bool): seq<Item> {
    BucketsCalc(t.buckets, save) + if t.initialized then [Dup(t.arBuckets)] else []
  }

  function BucketsCalc(bs: seq<Bucket>, save: bool): seq<Item> {
    if bs == [] then [] else BucketCalc(bs[0], save) + BucketsCalc(bs[1..], save)
  }

  function BucketCalc(b: Bucket, save: bool): seq<Item> {
    [Dup(b.addr)] + (if b.key != 0 then [Key(b.key)] else []) + (if b.dataInside then [] else [Dup(b.data)])
      + [Sub(ElementCalc(b.element, save))]
  }

  function ElementCalc(e: Element, save: bool): seq<Item> {
    match e
    case ZvalElement(p) => ZvalPtrCalc(p, save)
    case FunctionElement(f) => OpArrayCalc(f, save)
    case ClassElement(c) => ClassCalc(c, save)
    case PropertyElement(p) => PropertyCalc(p, save)
  }

  function ZvalsCalc(zs: seq<Zval>, save: bool): seq<Item> {
    if zs == [] then [] else [Sub(ZvalCalc(zs[0], save))] + ZvalsCalc(zs[1..], save)
  }

  function ZvalPtrsCalc(ps: seq<ZvalPtr>, save: bool): seq<Item> {
    if ps == [] then [] else [Sub(ZvalPtrCalc(ps[0], save))] + ZvalPtrsCalc(ps[1..], save)
  }

  function OpArrayCalc(f: OpArray, save: bool): seq<Item> {
    if !f.user then []
    else
      DupIf(f.filename)
      + (if f.literals != 0 then [Once(f.literals, ZvalsCalc(f.constants, save))] else [])
      + [Once(f.opcodes, [])]
      + DupIf(f.functionName)
      + (if f.argInfo != 0 then [Once(f.argInfo, Texts(f.argNames))] else [])
      + DupIf(f.brkCont)
      + (if f.statics.Statics? then [Dup(f.statics.ht), Sub(HashCalc(f.statics.table, save))] else [])
      + (if save then DupIf(f.docComment) else [])
      + DupIf(f.tryCatch)
      + (if f.vars != 0 then [Once(f.vars, Texts(f.varNames))] else [])
  }

  function PropertyCalc(p: Property, save: bool): seq<Item> {
    [Text(p.name)] + if save then DupIf(p.docComment) else []
  }

  function ClassCalc(c: Class, save: bool): seq<Item> {
    if !c.user then []
    else
      [Dup(c.addr), Text(c.name), Sub(HashCalc(c.functions, save))]
      + (if c.defaults != 0 then [Raw(c.defaults)] + ZvalPtrsCalc(c.defaultValues, save) else [])
      + (if c.statics != 0 then [Raw(c.statics)] + ZvalPtrsCalc(c.staticValues, save) else [])
      + [Sub(HashCalc(c.constants, save))]
      + DupIf(c.filename)
      + (if save then DupIf(c.docComment) else [])
      + [Sub(HashCalc(c.properties, save))]
  }

  /** zend_accel_script_persist_calc */
  function ScriptCalc(s: Script, save: bool): seq<Item> {
    [Sub(HashCalc(s.functions, save)), Sub(HashCalc(s.classes, save)), Sub(OpArrayCalc(s.main, save)),
     Dup(s.key), Dup(s.fullPath), Dup(s.addr)]
  }

  // zend_persist.c

  function ZvalPersist(z: Zval, save: bool): seq<Item> {
    match z
    case Plain => []
    case Str(s) => [Text(s)]
    case Arr(ht, table) => [Dup(ht), Sub(HashPersist(table, save))]
  }

  function ZvalPtrPersist(p: ZvalPtr, save: bool): seq<Item> { [Once(p.addr, [Sub(ZvalPersist(p.z, save))])] }

  function HashPersist(t: Table, save: bool): seq<Item> {
    BucketsPersist(t.buckets, save) + if t.initialized then [Dup(t.arBuckets)] else []
  }

  function BucketsPersist(bs: seq<Bucket>, save: bool): seq<Item> {
    if bs == [] then [] else BucketPersist(bs[0], save) + BucketsPersist(bs[1..], save)
  }

  function BucketPersist(b: Bucket, save: bool): seq<Item> {
    [Dup(b.addr)] + (if b.key != 0 then [Key(b.key)] else []) + (if b.dataInside then [] else [Dup(b.data)])
      + [Sub(ElementPersist(b.element, save))]
  }

  function ElementPersist(e: Element, save: bool): seq<Item> {
    match e
    case ZvalElement(p) => ZvalPtrPersist(p, save)
    case FunctionElement(f) => OpArrayPersist(f, save)
    case ClassElement(c) => ClassPersist(c, save)
    case PropertyElement(p) => PropertyPersist(p, save)
  }

  function ZvalsPersist(zs: seq<Zval>, save: bool): seq<Item> {
    if zs == [] then [] else [Sub(ZvalPersist(zs[0], save))] + ZvalsPersist(zs[1..], save)
  }

  function ZvalPtrsPersist(ps: seq<ZvalPtr>, save: bool): seq<Item> {
    if ps == [] then [] else [Sub(ZvalPtrPersist(ps[0], save))] + ZvalPtrsPersist(ps[1..], save)
  }

  /** A comment is copied, or only marked so that it is freed once. */
  function Comment(a: nat, save: bool): seq<Item> { if a == 0 then [] else if save then [Dup(a)] else [Mark(a)] }

  function OpArrayPersist(f: OpArray, save: bool): seq<Item> {
    if !f.user then []
    else
      DupIf(f.filename)
      + (if f.literals != 0 then [Once(f.literals, ZvalsPersist(f.constants, save))] else [])
      + [Once(f.opcodes, [])]
      + (if f.functionName != 0 then [Once(f.functionName, [])] else [])
      + (if f.argInfo != 0 then [Once(f.argInfo, Texts(f.argNames))] else [])
      + DupIf(f.brkCont)
      + (if f.statics.Statics? then [Sub(HashPersist(f.statics.table, save)), Dup(f.statics.ht)] else [])
      + Comment(f.docComment, save)
      + DupIf(f.tryCatch)
      + (if f.vars != 0 then [Once(f.vars, Texts(f.varNames))] else [])
  }

  function PropertyPersist(p: Property, save: bool): seq<Item> { [Text(p.name)] + Comment(p.docComment, save) }

  function ClassPersist(c: Class, save: bool): seq<Item> {
    if !c.user then []
    else
      [Dup(c.addr), Text(c.name), Sub(HashPersist(c.functions, save))]
      + (if c.defaults != 0 then [Dup(c.defaults)] + ZvalPtrsPersist(c.defaultValues, save) else [])
      + (if c.statics != 0 then [Dup(c.statics)] + ZvalPtrsPersist(c.staticValues, save) else [])
      + [Sub(HashPersist(c.constants, save))]
      + DupIf(c.filename)
      + Comment(c.docComment, save)
      + [Sub(HashPersist(c.properties, save))]
  }

  /** zend_accel_script_persist */
  function ScriptPersist(s: Script, save: bool): seq<Item> {
    [Sub(HashPersist(s.functions, save)), Sub(HashPersist(s.classes, save)), Sub(OpArrayPersist(s.main, save)),
     Dup(s.key), Dup(s.fullPath), Dup(s.addr)]
  }

  // ---- carrying out a walk

  /** Marked: the comments that are dropped. Owned: the blocks counted with ADD_SIZE. */
  datatype Kind = Shared | Owned | Marked

  /** size: every address has one size. interned: lies in the region of interned strings. place: where
      accel_new_interned_string puts a string, the string itself if it is there already or does not fit. */
  datatype World = World(size: nat -> nat, interned: nat -> bool, place: nat -> nat, kind: nat -> Kind)

  ghost predicate Lawful(w: World) {
    forall a: nat {:trigger w.place(a)} ::
      (w.interned(a) ==> w.place(a) == a) && (w.place(a) != a ==> w.interned(w.place(a)))
  }

  /** The table of addresses, the blocks counted without it, and memory_used. */
  datatype Sum = Sum(seen: set<nat>, raws: seq<nat>, used: nat)

  function CountDup(w: World, a: nat, s: Sum): Sum {
    if a in s.seen then s else s.(seen := s.seen + {a}, used := s.used + Aligned(w.size(a)))
  }

  function CalcItem(w: World, i: Item, s: Sum): Sum
    decreases i
  {
    match i
    case Dup(a) => CountDup(w, a, s)
    case Once(a, body) => if a in s.seen then s else CalcWalk(w, body, CountDup(w, a, s))
    case Text(a) => if w.interned(a) || w.place(a) != a then s else CountDup(w, a, s)
    case Key(a) => if w.place(a) != a then s else CountDup(w, a, s)
    case Raw(a) => s.(raws := s.raws + [a], used := s.used + Aligned(w.size(a)))
    case Sub(items) =>
      var r := CalcWalk(w, items, s.(used := 0));
      r.(used := s.used + Aligned(r.used))
    case Mark(a) => s
  }

  function CalcWalk(w: World, items: seq<Item>, s: Sum): Sum
    decreases items
  {
    if items == [] then s else CalcWalk(w, items[1..], CalcItem(w, items[0], s))
  }

  datatype Piece = Piece(at: nat, len: nat)

  /** The table of addresses, the pieces written, and the memory cursor. */
  datatype Copy = Copy(seen: set<nat>, pieces: seq<Piece>, mem: nat)

  function CopyDup(w: World, a: nat, s: Copy): Copy {
    if a in s.seen then s
    else Copy(s.seen + {a}, s.pieces + [Piece(s.mem, w.size(a))], s.mem + Aligned(w.size(a)))
  }

  /** By now a string field holds w.place of what it held before the sizing walk. */
  function PersistItem(w: World, i: Item, s: Copy): Copy
    decreases i
  {
    match i
    case Dup(a) => CopyDup(w, a, s)
    case Once(a, body) => if a in s.seen then s else PersistWalk(w, body, CopyDup(w, a, s))
    case Text(a) => if w.interned(w.place(a)) then s else CopyDup(w, w.place(a), s)
    case Key(a) => if w.interned(w.place(a)) then s else CopyDup(w, w.place(a), s)
    case Raw(a) => CopyDup(w, a, s)
    case Sub(items) => PersistWalk(w, items, s)
    case Mark(a) => s.(seen := s.seen + {a})
  }

  function PersistWalk(w: World, items: seq<Item>, s: Copy): Copy
    decreases items
  {
    if items == [] then s else PersistWalk(w, items[1..], PersistItem(w, items[0], s))
  }

  // ---- when two walks make the same calls

  /** The calls match one by one, except that the copying walk marks comments that the sizing walk ignores, and
      copies the statics table after what it holds instead of before. */
  predicate Agree(ci: seq<Item>, pi: seq<Item>)
    decreases ci, pi
  {
    || (ci == [] && pi == [])
    || (pi != [] && pi[0].Mark? && Agree(ci, pi[1..]))
    || (ci != [] && pi != [] && Match(ci[0], pi[0]) && Agree(ci[1..], pi[1..]))
    || (|ci| > 1 && |pi| > 1 && ci[0].Dup? && ci[1].Sub? && pi[0].Sub? && pi[1] == ci[0]
          && Agree(ci[1].items, pi[0].items) && Agree(ci[2..], pi[2..]))
  }

  predicate Match(c: Item, p: Item)
    decreases c, p
  {
    match c
    case Dup(a) => p == Dup(a) || p == Once(a, [])
    case Once(a, body) => p.Once? && p.a == a && Agree(body, p.body)
    case Text(a) => p == c
    case Key(a) => p == c
    case Raw(a) => p == Dup(a)
    case Sub(items) => p.Sub? && Agree(items, p.items)
    case Mark(a) => false
  }

  lemma {:induction false} AgreeAppend(a: seq<Item>, b: seq<Item>, c: seq<Item>, d: seq<Item>)
    requires Agree(a, b) && Agree(c, d)
    ensures Agree(a + c, b + d)
    decreases a, b
  {
    if a == [] && b == [] {
      assert a + c == c && b + d == d;
    } else if b != [] && b[0].Mark? && Agree(a, b[1..]) {
      AgreeAppend(a, b[1..], c, d);
      assert (b + d)[1..] == b[1..] + d;
    } else if a != [] && b != [] && Match(a[0], b[0]) && Agree(a[1..], b[1..]) {
      AgreeAppend(a[1..], b[1..], c, d);
      assert (a + c)[1..] == a[1..] + c && (b + d)[1..] == b[1..] + d;
    } else {
      AgreeAppend(a[2..], b[2..], c, d);
      assert (a + c)[2..] == a[2..] + c && (b + d)[2..] == b[2..] + d;
    }
  }

  lemma {:induction false} AgreeSame(items: seq<Item>)
    requires forall k {:trigger items[k]} :: 0 <= k < |items| ==> items[k].Dup? || items[k].Text? || items[k].Key?
    ensures Agree(items, items)
  {
    if items != [] {
      AgreeSame(items[1..]);
    }
  }

  lemma TextsSame(names: seq<nat>)
    ensures forall k {:trigger Texts(names)[k]} :: 0 <= k < |Texts(names)| ==> Texts(names)[k].Text?
  {
  }

  lemma DupIfSame(a: nat)
    ensures Agree(DupIf(a), DupIf(a))
  {
    AgreeSame(DupIf(a));
  }

  lemma OnceAgree(a: nat, ci: seq<Item>, pi: seq<Item>)
    requires Agree(ci, pi)
    ensures Agree([Once(a, ci)], [Once(a, pi)])
  {
    assert Agree([Once(a, ci)][1..], [Once(a, pi)][1..]);
  }

  lemma NamesAgree(a: nat, names: seq<nat>)
    ensures Agree([Once(a, Texts(names))], [Once(a, Texts(names))])
  {
    TextsSame(names);
    AgreeSame(Texts(names));
    OnceAgree(a, Texts(names), Texts(names));
  }

  lemma SubAgree(ci: seq<Item>, pi: seq<Item>)
    requires Agree(ci, pi)
    ensures Agree([Sub(ci)], [Sub(pi)])
  {
    assert Agree([Sub(ci)][1..], [Sub(pi)][1..]);
  }

  lemma ZvalAgree(z: Zval, save: bool)
    ensures Agree(ZvalCalc(z, save), ZvalPersist(z, save))
    decreases z
  {
    match z
    case Plain =>
    case Str(s) => AgreeSame([Text(s)]);
    case Arr(ht, table) =>
      HashAgree(table, save);
      var ci, pi := HashCalc(table, save), HashPersist(table, save);
      assert [Dup(ht), Sub(ci)][1..] == [Sub(ci)] && [Dup(ht), Sub(pi)][1..] == [Sub(pi)];
      assert Agree([Sub(ci)][1..], [Sub(pi)][1..]);
      assert Agree([Sub(ci)], [Sub(pi)]);
  }

  lemma ZvalPtrAgree(p: ZvalPtr, save: bool)
    ensures Agree(ZvalPtrCalc(p, save), ZvalPtrPersist(p, save))
    decreases p
  {
    ZvalAgree(p.z, save);
    SubAgree(ZvalCalc(p.z, save), ZvalPersist(p.z, save));
    OnceAgree(p.addr, [Sub(ZvalCalc(p.z, save))], [Sub(ZvalPersist(p.z, save))]);
  }

  lemma HashAgree(t: Table, save: bool)
    ensures Agree(HashCalc(t, save), HashPersist(t, save))
    decreases t
  {
    BucketsAgree(t.buckets, save);
    var last := if t.initialized then [Dup(t.arBuckets)] else [];
    AgreeSame(last);
    AgreeAppend(BucketsCalc(t.buckets, save), BucketsPersist(t.buckets, save), last, last);
  }

  lemma {:induction false} BucketsAgree(bs: seq<Bucket>, save: bool)
    ensures Agree(BucketsCalc(bs, save), BucketsPersist(bs, save))
    decreases bs
  {
    if bs != [] {
      BucketAgree(bs[0], save);
      BucketsAgree(bs[1..], save);
      AgreeAppend(BucketCalc(bs[0], save), BucketPersist(bs[0], save), BucketsCalc(bs[1..], save),
        BucketsPersist(bs[1..], save));
    }
  }

  lemma BucketAgree(b: Bucket, save: bool)
    ensures Agree(BucketCalc(b, save), BucketPersist(b, save))
    decreases b
  {
    ElementAgree(b.element, save);
    SubAgree(ElementCalc(b.element, save), ElementPersist(b.element, save));
    var front := [Dup(b.addr)] + (if b.key != 0 then [Key(b.key)] else [])
      + (if b.dataInside then [] else [Dup(b.data)]);
    AgreeSame(front);
    AgreeAppend(front, front, [Sub(ElementCalc(b.element, save))], [Sub(ElementPersist(b.element, save))]);
  }

  lemma ElementAgree(e: Element, save: bool)
    ensures Agree(ElementCalc(e, save), ElementPersist(e, save))
    decreases e
  {
    match e
    case ZvalElement(p) => ZvalPtrAgree(p, save);
    case FunctionElement(f) => OpArrayAgree(f, save);
    case ClassElement(c) => ClassAgree(c, save);
    case PropertyElement(p) => PropertyAgree(p, save);
  }

  lemma {:induction false} ZvalsAgree(zs: seq<Zval>, save: bool)
    ensures Agree(ZvalsCalc(zs, save), ZvalsPersist(zs, save))
    decreases zs
  {
    if zs != [] {
      ZvalAgree(zs[0], save);
      SubAgree(ZvalCalc(zs[0], save), ZvalPersist(zs[0], save));
      ZvalsAgree(zs[1..], save);
      AgreeAppend([Sub(ZvalCalc(zs[0], save))], [Sub(ZvalPersist(zs[0], save))], ZvalsCalc(zs[1..], save),
        ZvalsPersist(zs[1..], save));
    }
  }

  lemma {:induction false} ZvalPtrsAgree(ps: seq<ZvalPtr>, save: bool)
    ensures Agree(ZvalPtrsCalc(ps, save), ZvalPtrsPersist(ps, save))
    decreases ps, 0
  {
    if ps != [] {
      ZvalPtrAgree(ps[0], save);
      SubAgree(ZvalPtrCalc(ps[0], save), ZvalPtrPersist(ps[0], save));
      ZvalPtrsAgree(ps[1..], save);
      AgreeAppend([Sub(ZvalPtrCalc(ps[0], save))], [Sub(ZvalPtrPersist(ps[0], save))], ZvalPtrsCalc(ps[1..], save),
        ZvalPtrsPersist(ps[1..], save));
    }
  }

  lemma CommentAgree(a: nat, save: bool)
    ensures Agree(if save then DupIf(a) else [], Comment(a, save))
  {
    if save {
      DupIfSame(a);
    } else if a != 0 {
      assert Agree([], [Mark(a)][1..]);
    }
  }

  lemma StaticsAgree(ht: nat, ci: seq<Item>, pi: seq<Item>)
    requires Agree(ci, pi)
    ensures Agree([Dup(ht), Sub(ci)], [Sub(pi), Dup(ht)])
  {
    assert Agree([Dup(ht), Sub(ci)][2..], [Sub(pi), Dup(ht)][2..]);
  }

  lemma NameAgree(a: nat)
    ensures Agree(DupIf(a), if a != 0 then [Once(a, [])] else [])
  {
    if a != 0 {
      assert Agree([Dup(a)][1..], [Once(a, [])][1..]);
    }
  }

  lemma OpArrayAgree(f: OpArray, save: bool)
    ensures Agree(OpArrayCalc(f, save), OpArrayPersist(f, save))
    decreases f
  {
    if f.user {
      var c1, p1 := DupIf(f.filename), DupIf(f.filename);
      DupIfSame(f.filename);
      var c2 := if f.literals != 0 then [Once(f.literals, ZvalsCalc(f.constants, save))] else [];
      var p2 := if f.literals != 0 then [Once(f.literals, ZvalsPersist(f.constants, save))] else [];
      ZvalsAgree(f.constants, save);
      OnceAgree(f.literals, ZvalsCalc(f.constants, save), ZvalsPersist(f.constants, save));
      AgreeAppend(c1, p1, c2, p2);
      OnceAgree(f.opcodes, [], []);
      AgreeAppend(c1 + c2, p1 + p2, [Once(f.opcodes, [])], [Once(f.opcodes, [])]);
      var c3, p3 := c1 + c2 + [Once(f.opcodes, [])], p1 + p2 + [Once(f.opcodes, [])];
      var c4, p4 := DupIf(f.functionName), if f.functionName != 0 then [Once(f.functionName, [])] else [];
      NameAgree(f.functionName);
      AgreeAppend(c3, p3, c4, p4);
      OpArrayRest(f, save, c3 + c4, p3 + p4);
    }
  }

  /** The second half of the calls for an op array. */
  lemma OpArrayRest(f: OpArray, save: bool, c: seq<Item>, p: seq<Item>)
    requires Agree(c, p) && f.user
    ensures Agree(
      c + (if f.argInfo != 0 then [Once(f.argInfo, Texts(f.argNames))] else []) + DupIf(f.brkCont)
        + (if f.statics.Statics? then [Dup(f.statics.ht), Sub(HashCalc(f.statics.table, save))] else [])
        + (if save then DupIf(f.docComment) else []) + DupIf(f.tryCatch)
        + (if f.vars != 0 then [Once(f.vars, Texts(f.varNames))] else []),
      p + (if f.argInfo != 0 then [Once(f.argInfo, Texts(f.argNames))] else []) + DupIf(f.brkCont)
        + (if f.statics.Statics? then [Sub(HashPersist(f.statics.table, save)), Dup(f.statics.ht)] else [])
        + Comment(f.docComment, save) + DupIf(f.tryCatch)
        + (if f.vars != 0 then [Once(f.vars, Texts(f.varNames))] else []))
    decreases f, 0
  {
    var args := if f.argInfo != 0 then [Once(f.argInfo, Texts(f.argNames))] else [];
    NamesAgree(f.argInfo, f.argNames);
    AgreeAppend(c, p, args, args);
    DupIfSame(f.brkCont);
    AgreeAppend(c + args, p + args, DupIf(f.brkCont), DupIf(f.brkCont));
    var c1, p1 := c + args + DupIf(f.brkCont), p + args + DupIf(f.brkCont);
    var sc := if f.statics.Statics? then [Dup(f.statics.ht), Sub(HashCalc(f.statics.table, save))] else [];
    var sp := if f.statics.Statics? then [Sub(HashPersist(f.statics.table, save)), Dup(f.statics.ht)] else [];
    if f.statics.Statics? {
      HashAgree(f.statics.table, save);
      StaticsAgree(f.statics.ht, HashCalc(f.statics.table, save), HashPersist(f.statics.table, save));
    }
    AgreeAppend(c1, p1, sc, sp);
    var doc := if save then DupIf(f.docComment) else [];
    CommentAgree(f.docComment, save);
    AgreeAppend(c1 + sc, p1 + sp, doc, Comment(f.docComment, save));
    DupIfSame(f.tryCatch);
    AgreeAppend(c1 + sc + doc, p1 + sp + Comment(f.docComment, save), DupIf(f.tryCatch), DupIf(f.tryCatch));
    var names := if f.vars != 0 then [Once(f.vars, Texts(f.varNames))] else [];
    NamesAgree(f.vars, f.varNames);
    AgreeAppend(c1 + sc + doc + DupIf(f.tryCatch), p1 + sp + Comment(f.docComment, save) + DupIf(f.tryCatch), names,
      names);
  }

  lemma PropertyAgree(p: Property, save: bool)
    ensures Agree(PropertyCalc(p, save), PropertyPersist(p, save))
    decreases p
  {
    AgreeSame([Text(p.name)]);
    CommentAgree(p.docComment, save);
    AgreeAppend([Text(p.name)], [Text(p.name)], if save then DupIf(p.docComment) else [], Comment(p.docComment, save));
  }

  lemma ValuesAgree(a: nat, ps: seq<ZvalPtr>, save: bool)
    ensures Agree(if a != 0 then [Raw(a)] + ZvalPtrsCalc(ps, save)
      else [], if a != 0 then [Dup(a)] + ZvalPtrsPersist(ps, save) else [])
    decreases ps, 1
  {
    ZvalPtrsAgree(ps, save);
    var c, p := [Raw(a)] + ZvalPtrsCalc(ps, save), [Dup(a)] + ZvalPtrsPersist(ps, save);
    assert c[1..] == ZvalPtrsCalc(ps, save) && p[1..] == ZvalPtrsPersist(ps, save);
  }

  lemma ClassAgree(c: Class, save: bool)
    ensures Agree(ClassCalc(c, save), ClassPersist(c, save))
    decreases c
  {
    if c.user {
      var front := [Dup(c.addr), Text(c.name)];
      AgreeSame(front);
      HashAgree(c.functions, save);
      SubAgree(HashCalc(c.functions, save), HashPersist(c.functions, save));
      var c0, p0 := [Sub(HashCalc(c.functions, save))], [Sub(HashPersist(c.functions, save))];
      AgreeAppend(front, front, c0, p0);
      var c1, p1 := [Dup(c.addr), Text(c.name), Sub(HashCalc(c.functions, save))],
        [Dup(c.addr), Text(c.name), Sub(HashPersist(c.functions, save))];
      assert c1 == front + c0 && p1 == front + p0;
      var c2 := if c.defaults != 0 then [Raw(c.defaults)] + ZvalPtrsCalc(c.defaultValues, save) else [];
      var p2 := if c.defaults != 0 then [Dup(c.defaults)] + ZvalPtrsPersist(c.defaultValues, save) else [];
      ValuesAgree(c.defaults, c.defaultValues, save);
      AgreeAppend(c1, p1, c2, p2);
      var c3 := if c.statics != 0 then [Raw(c.statics)] + ZvalPtrsCalc(c.staticValues, save) else [];
      var p3 := if c.statics != 0 then [Dup(c.statics)] + ZvalPtrsPersist(c.staticValues, save) else [];
      ValuesAgree(c.statics, c.staticValues, save);
      AgreeAppend(c1 + c2, p1 + p2, c3, p3);
      ClassRest(c, save, c1 + c2 + c3, p1 + p2 + p3);
    }
  }

  lemma ClassRest(c: Class, save: bool, ci: seq<Item>, pi: seq<Item>)
    requires Agree(ci, pi)
    ensures Agree(
      ci + [Sub(HashCalc(c.constants, save))] + DupIf(c.filename) + (if save then DupIf(c.docComment) else [])
        + [Sub(HashCalc(c.properties, save))],
      pi + [Sub(HashPersist(c.constants, save))] + DupIf(c.filename) + Comment(c.docComment, save)
        + [Sub(HashPersist(c.properties, save))])
    decreases c, 0
  {
    HashAgree(c.constants, save);
    SubAgree(HashCalc(c.constants, save), HashPersist(c.constants, save));
    var c1, p1 := [Sub(HashCalc(c.constants, save))], [Sub(HashPersist(c.constants, save))];
    AgreeAppend(ci, pi, c1, p1);
    DupIfSame(c.filename);
    AgreeAppend(ci + c1, pi + p1, DupIf(c.filename), DupIf(c.filename));
    var doc := if save then DupIf(c.docComment) else [];
    CommentAgree(c.docComment, save);
    AgreeAppend(ci + c1 + DupIf(c.filename), pi + p1 + DupIf(c.filename), doc, Comment(c.docComment, save));
    HashAgree(c.properties, save);
    SubAgree(HashCalc(c.properties, save), HashPersist(c.properties, save));
    AgreeAppend(ci + c1 + DupIf(c.filename) + doc, pi + p1 + DupIf(c.filename) + Comment(c.docComment, save),
                [Sub(HashCalc(c.properties, save))], [Sub(HashPersist(c.properties, save))]);
  }

  lemma AgreeFour(a: seq<Item>, a': seq<Item>, b: seq<Item>, b': seq<Item>, c: seq<Item>, c': seq<Item>, d: seq<Item>,
          d': seq<Item>)
    requires Agree(a, a') && Agree(b, b') && Agree(c, c') && Agree(d, d')
    ensures Agree(a + b + c + d, a' + b' + c' + d')
  {
    AgreeAppend(a, a', b, b');
    AgreeAppend(a + b, a' + b', c, c');
    AgreeAppend(a + b + c, a' + b' + c', d, d');
  }

  /** The two walks over a script make the same calls. */
  lemma ScriptAgree(s: Script, save: bool)
    ensures Agree(ScriptCalc(s, save), ScriptPersist(s, save))
  {
    HashAgree(s.functions, save);
    HashAgree(s.classes, save);
    OpArrayAgree(s.main, save);
    var end := [Dup(s.key), Dup(s.fullPath), Dup(s.addr)];
    var c1, p1 := [Sub(HashCalc(s.functions, save))], [Sub(HashPersist(s.functions, save))];
    var c2, p2 := [Sub(HashCalc(s.classes, save))], [Sub(HashPersist(s.classes, save))];
    var c3, p3 := [Sub(OpArrayCalc(s.main, save))], [Sub(OpArrayPersist(s.main, save))];
    SubAgree(HashCalc(s.functions, save), HashPersist(s.functions, save));
    SubAgree(HashCalc(s.classes, save), HashPersist(s.classes, save));
    SubAgree(OpArrayCalc(s.main, save), OpArrayPersist(s.main, save));
    AgreeSame(end);
    AgreeFour(c1, p1, c2, p2, c3, p3, end, end);
    ScriptIs(s, save, c1, c2, c3, p1, p2, p3, end);
  }

  lemma ScriptIs(s: Script, save: bool, c1: seq<Item>, c2: seq<Item>, c3: seq<Item>, p1: seq<Item>, p2: seq<Item>,
          p3: seq<Item>, end: seq<Item>)
    requires c1 == [Sub(HashCalc(s.functions, save))] && p1 == [Sub(HashPersist(s.functions, save))]
    requires c2 == [Sub(HashCalc(s.classes, save))] && p2 == [Sub(HashPersist(s.classes, save))]
    requires c3 == [Sub(OpArrayCalc(s.main, save))] && p3 == [Sub(OpArrayPersist(s.main, save))]
    requires end == [Dup(s.key), Dup(s.fullPath), Dup(s.addr)]
    ensures ScriptCalc(s, save) == c1 + c2 + c3 + end && ScriptPersist(s, save) == p1 + p2 + p3 + end
  {
  }

  // ---- the sum over a set of addresses

  ghost function Weight(w: World, s: set<nat>): nat {
    if s == {} then 0
    else
      var x :| x in s;
      Aligned(w.size(x)) + Weight(w, s - {x})
  }

  lemma {:induction false} WeightAdd(w: World, s: set<nat>, a: nat)
    requires a !in s
    ensures Weight(w, s + {a}) == Weight(w, s) + Aligned(w.size(a))
    decreases s
  {
    var t := s + {a};
    var x :| x in t && Weight(w, t) == Aligned(w.size(x)) + Weight(w, t - {x});
    if x == a {
      assert t - {x} == s;
    } else {
      WeightAdd(w, s - {x}, a);
      assert t - {x} == (s - {x}) + {a};
      WeightAdd(w, s - {x}, x);
      assert (s - {x}) + {x} == s;
    }
  }

  lemma {:induction false} WeightUnion(w: World, s: set<nat>, t: set<nat>)
    requires s !! t
    ensures Weight(w, s + t) == Weight(w, s) + Weight(w, t)
    decreases t
  {
    if t == {} {
      assert s + t == s;
    } else {
      var x :| x in t;
      WeightUnion(w, s, t - {x});
      WeightAdd(w, t - {x}, x);
      WeightAdd(w, s + (t - {x}), x);
      assert (t - {x}) + {x} == t && s + (t - {x}) + {x} == s + t;
    }
  }

  function RawWeight(w: World, raws: seq<nat>): nat {
    if raws == [] then 0 else RawWeight(w, raws[..|raws| - 1]) + Aligned(w.size(raws[|raws| - 1]))
  }

  // ---- what the sizing walk adds up

  ghost predicate Counted(w: World, s: Sum, r: Sum) {
    && s.seen <= r.seen && s.raws <= r.raws && s.used <= r.used && (s.used % ALIGN == 0 ==> r.used % ALIGN == 0)
    && (s.used % ALIGN == 0 ==>
          r.used + Weight(w, s.seen) + RawWeight(w, s.raws) == s.used + Weight(w, r.seen) + RawWeight(w, r.raws))
  }

  lemma CountDupCounted(w: World, a: nat, s: Sum)
    ensures Counted(w, s, CountDup(w, a, s))
  {
    if a !in s.seen {
      WeightAdd(w, s.seen, a);
      AlignedSum(s.used, Aligned(w.size(a)));
    }
  }

  lemma CountedTrans(w: World, s: Sum, r: Sum, t: Sum)
    requires Counted(w, s, r) && Counted(w, r, t)
    ensures Counted(w, s, t)
  {
  }

  lemma AfterDupCounted(w: World, a: nat, s: Sum, r: Sum)
    requires Counted(w, CountDup(w, a, s), r)
    ensures Counted(w, s, r)
  {
    CountDupCounted(w, a, s);
    CountedTrans(w, s, CountDup(w, a, s), r);
  }

  lemma RawCounted(w: World, a: nat, s: Sum)
    ensures Counted(w, s, s.(raws := s.raws + [a], used := s.used + Aligned(w.size(a))))
  {
    assert (s.raws + [a])[..|s.raws|] == s.raws;
    AlignedSum(s.used, Aligned(w.size(a)));
  }

  lemma SubCounted(w: World, s: Sum, r: Sum)
    requires Counted(w, s.(used := 0), r)
    ensures Counted(w, s, r.(used := s.used + Aligned(r.used)))
  {
    AlignedSum(s.used, r.used);
  }

  lemma OnceCounted(w: World, a: nat, body: seq<Item>, s: Sum)
    requires a !in s.seen ==> Counted(w, CountDup(w, a, s), CalcWalk(w, body, CountDup(w, a, s)))
    ensures Counted(w, s, CalcItem(w, Once(a, body), s))
  {
    if a !in s.seen {
      AfterDupCounted(w, a, s, CalcWalk(w, body, CountDup(w, a, s)));
    }
  }

  lemma SubItemIs(w: World, items: seq<Item>, s: Sum, r: Sum)
    requires r == CalcWalk(w, items, s.(used := 0))
    ensures CalcItem(w, Sub(items), s) == r.(used := s.used + Aligned(r.used))
  {
  }

  lemma SubItemCounted(w: World, i: Item, s: Sum, r: Sum, t: Sum)
    requires Counted(w, s.(used := 0), r) && t == r.(used := s.used + Aligned(r.used)) && CalcItem(w, i, s) == t
    ensures Counted(w, s, CalcItem(w, i, s))
  {
    SubCounted(w, s, r);
  }

  lemma CalcItemCounted(w: World, i: Item, s: Sum)
    ensures Counted(w, s, CalcItem(w, i, s))
    decreases i
  {
    if i.Once? {
      if i.a !in s.seen { CalcCounted(w, i.body, CountDup(w, i.a, s)); }
      OnceCounted(w, i.a, i.body, s);
    } else if i.Sub? {
      CalcCounted(w, i.items, s.(used := 0));
      var r := CalcWalk(w, i.items, s.(used := 0));
      SubItemIs(w, i.items, s, r);
      SubItemCounted(w, i, s, r, r.(used := s.used + Aligned(r.used)));
    } else if i.Raw? {
      RawCounted(w, i.a, s);
    } else if !i.Mark? {
      CountDupCounted(w, i.a, s);
    }
  }

  /** A walk adds exactly the aligned sizes of the addresses it newly registers and of the blocks it counts
      without looking. */
  lemma {:induction false} CalcCounted(w: World, items: seq<Item>, s: Sum)
    ensures Counted(w, s, CalcWalk(w, items, s))
    decreases items
  {
    if items != [] {
      CalcItemCounted(w, items[0], s);
      CalcCounted(w, items[1..], CalcItem(w, items[0], s));
      CountedTrans(w, s, CalcItem(w, items[0], s), CalcWalk(w, items, s));
    }
  }

  // ---- what the copying walk moves the cursor by

  ghost function Copied(w: World, seen: set<nat>): set<nat> { set a | a in seen && w.kind(a) != Marked }

  /** The pieces lie one after the other from start to the cursor. */
  ghost predicate InARow(s: Copy, start: nat) {
    && start <= s.mem && start % ALIGN == 0 && s.mem % ALIGN == 0
    && (forall k {:trigger s.pieces[k]} :: 0 <= k < |s.pieces| ==>
          start <= s.pieces[k].at && s.pieces[k].at % ALIGN == 0 && s.pieces[k].at + s.pieces[k].len <= s.mem)
    && (forall k, l {:trigger s.pieces[k], s.pieces[l]} :: 0 <= k < l < |s.pieces| ==>
          s.pieces[k].at + s.pieces[k].len <= s.pieces[l].at)
  }

  ghost predicate Moved(w: World, s: Copy, r: Copy) {
    && s.seen <= r.seen && s.mem <= r.mem
    && r.mem + Weight(w, Copied(w, s.seen)) == s.mem + Weight(w, Copied(w, r.seen))
    && (forall start: nat :: InARow(s, start) ==> InARow(r, start))
  }

  lemma CopyDupMoved(w: World, a: nat, s: Copy)
    requires w.kind(a) != Marked
    ensures Moved(w, s, CopyDup(w, a, s))
  {
    var r := CopyDup(w, a, s);
    if a !in s.seen {
      assert Copied(w, r.seen) == Copied(w, s.seen) + {a};
      WeightAdd(w, Copied(w, s.seen), a);
      forall start: nat | InARow(s, start) ensures InARow(r, start) {
        AlignedSum(s.mem, Aligned(w.size(a)));
        forall k | 0 <= k < |r.pieces|
          ensures start <= r.pieces[k].at && r.pieces[k].at % ALIGN == 0 && r.pieces[k].at + r.pieces[k].len <= r.mem
        {
          if k < |s.pieces| {
            assert r.pieces[k] == s.pieces[k];
          }
        }
        forall k, l | 0 <= k < l < |r.pieces| ensures r.pieces[k].at + r.pieces[k].len <= r.pieces[l].at {
          assert r.pieces[k] == s.pieces[k];
          if l < |s.pieces| {
            assert r.pieces[l] == s.pieces[l];
          }
        }
      }
    }
  }

  /** The addresses that occur are of the right kind: comments are what is marked, and nothing else. */
  predicate TidyPersist(w: World, items: seq<Item>)
    decreases items
  {
    items == [] || (TidyPersistItem(w, items[0]) && TidyPersist(w, items[1..]))
  }

  predicate TidyPersistItem(w: World, i: Item)
    decreases i
  {
    match i
    case Dup(a) => !w.kind(a).Marked?
    case Once(a, body) => !w.kind(a).Marked? && TidyPersist(w, body)
    case Text(a) => !w.kind(a).Marked?
    case Key(a) => !w.kind(a).Marked?
    case Raw(a) => !w.kind(a).Marked?
    case Sub(items) => TidyPersist(w, items)
    case Mark(a) => w.kind(a).Marked?
  }

  lemma MovedTrans(w: World, s: Copy, r: Copy, t: Copy)
    requires Moved(w, s, r) && Moved(w, r, t)
    ensures Moved(w, s, t)
  {
  }

  lemma PersistItemMoved(w: World, i: Item, s: Copy)
    requires Lawful(w) && TidyPersistItem(w, i)
    ensures Moved(w, s, PersistItem(w, i, s))
    decreases i
  {
    match i
    case Dup(a) => CopyDupMoved(w, a, s);
    case Once(a, body) =>
      if a !in s.seen {
        CopyDupMoved(w, a, s);
        PersistMoved(w, body, CopyDup(w, a, s));
        MovedTrans(w, s, CopyDup(w, a, s), PersistItem(w, i, s));
      }
    case Text(a) => StringMoved(w, a, s);
    case Key(a) => StringMoved(w, a, s);
    case Raw(a) => CopyDupMoved(w, a, s);
    case Sub(items) => PersistMoved(w, items, s);
    case Mark(a) => assert Copied(w, s.seen + {a}) == Copied(w, s.seen);
  }

  lemma StringMoved(w: World, a: nat, s: Copy)
    requires Lawful(w) && w.kind(a) != Marked
    ensures Moved(w, s, if w.interned(w.place(a)) then s else CopyDup(w, w.place(a), s))
  {
    assert !w.interned(w.place(a)) ==> w.place(a) == a;
    CopyDupMoved(w, a, s);
  }

  /** The cursor moves by exactly the aligned sizes of the blocks that are newly copied. */
  lemma {:induction false} PersistMoved(w: World, items: seq<Item>, s: Copy)
    requires Lawful(w) && TidyPersist(w, items)
    ensures Moved(w, s, PersistWalk(w, items, s))
    decreases items
  {
    if items != [] {
      PersistItemMoved(w, items[0], s);
      PersistMoved(w, items[1..], PersistItem(w, items[0], s));
      MovedTrans(w, s, PersistItem(w, items[0], s), PersistWalk(w, items, s));
    }
  }

  // ---- both walks come to the same addresses

  predicate Occurs(a: nat, items: seq<Item>)
    decreases items
  {
    items != [] && (OccursIn(a, items[0]) || Occurs(a, items[1..]))
  }

  predicate OccursIn(a: nat, i: Item)
    decreases i
  {
    match i
    case Dup(b) => a == b
    case Once(b, body) => a == b || Occurs(a, body)
    case Text(b) => a == b
    case Key(b) => a == b
    case Raw(b) => a == b
    case Sub(items) => Occurs(a, items)
    case Mark(b) => a == b
  }

  /** Blocks counted without looking are of kind Owned, other blocks of kind Shared and not interned; strings
      may be interned. A hash table does not occur in what it holds. */
  predicate TidyCalc(w: World, items: seq<Item>)
    decreases items
  {
    items == [] || (TidyCalcItem(w, items[0]) && TidyCalc(w, items[1..])
      && (|items| > 1 && items[0].Dup? && items[1].Sub? ==> !Occurs(items[0].a, items[1].items)))
  }

  predicate TidyCalcItem(w: World, i: Item)
    decreases i
  {
    match i
    case Dup(a) => w.kind(a).Shared? && !w.interned(a)
    case Once(a, body) => w.kind(a).Shared? && !w.interned(a) && TidyCalc(w, body)
    case Text(a) => w.kind(a).Shared?
    case Key(a) => w.kind(a).Shared?
    case Raw(a) => w.kind(a).Owned? && !w.interned(a)
    case Sub(items) => TidyCalc(w, items)
    case Mark(a) => w.kind(a).Marked?
  }

  /** The copying walk has registered what the sizing walk has, but for interned keys, and besides the blocks
      counted without looking. */
  ghost predicate Related(w: World, c: Sum, p: Copy) {
    && (forall a: nat {:trigger a in p.seen} {:trigger a in c.seen} :: w.kind(a).Shared? ==>
          (a in p.seen <==> a in c.seen && !w.interned(a)))
    && (forall a: nat {:trigger a in p.seen} {:trigger a in c.raws} :: w.kind(a).Owned? ==>
          (a in p.seen <==> a in c.raws))
    && (forall a: nat {:trigger a in c.seen} :: a in c.seen ==> w.kind(a).Shared?)
    && (forall a: nat {:trigger a in c.raws} :: a in c.raws ==> w.kind(a).Owned?)
  }

  lemma DupRelated(w: World, a: nat, c: Sum, p: Copy)
    requires Related(w, c, p) && w.kind(a).Shared? && !w.interned(a)
    ensures Related(w, CountDup(w, a, c), CopyDup(w, a, p))
  {
  }

  lemma UsedDoesNotMatter(w: World, c: Sum, p: Copy, n: nat)
    requires Related(w, c, p)
    ensures Related(w, c.(used := n), p)
  {
  }

  ghost predicate NoDup(l: seq<nat>) { forall i, j :: 0 <= i < j < |l| ==> l[i] != l[j] }

  lemma PrefixNoDup(a: seq<nat>, b: seq<nat>)
    requires a <= b && NoDup(b)
    ensures NoDup(a)
  {
    assert forall i :: 0 <= i < |a| ==> a[i] == b[i];
  }

  function Plus(s: Sum, h: nat): Sum { s.(seen := s.seen + {h}) }

  lemma CalcItemSkips(w: World, i: Item, s: Sum, h: nat)
    requires !OccursIn(h, i)
    ensures CalcItem(w, i, Plus(s, h)) == Plus(CalcItem(w, i, s), h)
    decreases i
  {
    match i
    case Dup(a) => CountSkips(w, a, s, h);
    case Once(a, body) =>
      CountSkips(w, a, s, h);
      CalcSkips(w, body, CountDup(w, a, s), h);
    case Text(a) => CountSkips(w, a, s, h);
    case Key(a) => CountSkips(w, a, s, h);
    case Raw(a) =>
    case Sub(items) => CalcSkips(w, items, s.(used := 0), h);
    case Mark(a) =>
  }

  lemma CountSkips(w: World, a: nat, s: Sum, h: nat)
    requires a != h
    ensures CountDup(w, a, Plus(s, h)) == Plus(CountDup(w, a, s), h)
  {
    assert s.seen + {h} + {a} == s.seen + {a} + {h};
  }

  /** An address that does not occur makes no difference. */
  lemma {:induction false} CalcSkips(w: World, items: seq<Item>, s: Sum, h: nat)
    requires !Occurs(h, items)
    ensures CalcWalk(w, items, Plus(s, h)) == Plus(CalcWalk(w, items, s), h)
    decreases items
  {
    if items != [] {
      CalcItemSkips(w, items[0], s, h);
      CalcSkips(w, items[1..], CalcItem(w, items[0], s), h);
    }
  }

  lemma StringRelated(w: World, a: nat, c: Sum, p: Copy)
    requires Lawful(w) && Related(w, c, p) && w.kind(a).Shared?
    ensures Related(w, CalcItem(w, Text(a), c), PersistItem(w, Text(a), p))
    ensures Related(w, CalcItem(w, Key(a), c), PersistItem(w, Key(a), p))
  {
    assert w.place(a) == a || w.interned(w.place(a));
    if !w.interned(a) && w.place(a) == a {
      DupRelated(w, a, c, p);
    }
  }

  lemma RawRelated(w: World, a: nat, c: Sum, p: Copy)
    requires Related(w, c, p) && w.kind(a).Owned? && !w.interned(a) && NoDup(c.raws + [a])
    ensures Related(w, CalcItem(w, Raw(a), c), PersistItem(w, Dup(a), p))
  {
    var l := c.raws + [a];
    assert forall i :: 0 <= i < |c.raws| ==> c.raws[i] == l[i] && l[i] != l[|c.raws|];
  }

  lemma MatchWalks(w: World, ci: Item, pi: Item, c: Sum, p: Copy)
    requires Lawful(w) && Match(ci, pi) && TidyCalcItem(w, ci) && TidyPersistItem(w, pi) && Related(w, c, p)
    requires NoDup(CalcItem(w, ci, c).raws)
    ensures Related(w, CalcItem(w, ci, c), PersistItem(w, pi, p))
    decreases ci, pi
  {
    match ci
    case Dup(a) => DupRelated(w, a, c, p);
    case Once(a, body) =>
      if a !in c.seen {
        DupRelated(w, a, c, p);
        AgreeWalks(w, body, pi.body, CountDup(w, a, c), CopyDup(w, a, p));
      }
    case Text(a) => StringRelated(w, a, c, p);
    case Key(a) => StringRelated(w, a, c, p);
    case Raw(a) => RawRelated(w, a, c, p);
    case Sub(items) =>
      UsedDoesNotMatter(w, c, p, 0);
      AgreeWalks(w, items, pi.items, c.(used := 0), p);
      UsedDoesNotMatter(w, CalcWalk(w, items, c.(used := 0)), PersistItem(w, pi, p), CalcItem(w, ci, c).used);
  }

  lemma StaticsWalks(w: World, ci: seq<Item>, pi: seq<Item>, h: nat, c: Sum, p: Copy)
    requires Lawful(w) && Agree(ci, pi) && TidyCalc(w, ci) && TidyPersist(w, pi) && Related(w, c, p)
    requires w.kind(h).Shared? && !w.interned(h) && !Occurs(h, ci)
    requires NoDup(CalcItem(w, Sub(ci), CountDup(w, h, c)).raws)
    ensures Related(w, CalcItem(w, Sub(ci), CountDup(w, h, c)), CopyDup(w, h, PersistWalk(w, pi, p)))
    decreases ci, pi, 2
  {
    var c0 := c.(used := 0);
    var r := CalcWalk(w, ci, c0);
    CalcSkips(w, ci, c0, h);
    UsedDoesNotMatter(w, c, p, 0);
    assert Plus(c0, h).seen == CountDup(w, h, c).seen;
    assert CalcWalk(w, ci, Plus(c0, h)) == Plus(r, h);
    AgreeWalks(w, ci, pi, c0, p);
    var q := PersistWalk(w, pi, p);
    DupRelated(w, h, r, q);
    assert CountDup(w, h, c).(used := 0) == Plus(c0, h);
    var t := CalcItem(w, Sub(ci), CountDup(w, h, c));
    assert t.seen == r.seen + {h} && t.raws == r.raws;
  }

  /** Walks that make the same calls register the same addresses. */
  lemma {:induction false} AgreeWalks(w: World, ci: seq<Item>, pi: seq<Item>, c: Sum, p: Copy)
    requires Lawful(w) && Agree(ci, pi) && TidyCalc(w, ci) && TidyPersist(w, pi) && Related(w, c, p)
    requires NoDup(CalcWalk(w, ci, c).raws)
    ensures Related(w, CalcWalk(w, ci, c), PersistWalk(w, pi, p))
    decreases ci, pi, 1
  {
    if ci == [] && pi == [] {
    } else if pi != [] && pi[0].Mark? && Agree(ci, pi[1..]) {
      AgreeWalks(w, ci, pi[1..], c, PersistItem(w, pi[0], p));
    } else if ci != [] && pi != [] && Match(ci[0], pi[0]) && Agree(ci[1..], pi[1..]) {
      var c1, p1 := CalcItem(w, ci[0], c), PersistItem(w, pi[0], p);
      CalcCounted(w, ci[1..], c1);
      PrefixNoDup(c1.raws, CalcWalk(w, ci, c).raws);
      MatchWalks(w, ci[0], pi[0], c, p);
      AgreeWalks(w, ci[1..], pi[1..], c1, p1);
    } else {
      SwappedWalks(w, ci, pi, c, p);
    }
  }

  lemma SwappedWalks(w: World, ci: seq<Item>, pi: seq<Item>, c: Sum, p: Copy)
    requires Lawful(w) && TidyCalc(w, ci) && TidyPersist(w, pi) && Related(w, c, p)
    requires |ci| > 1 && |pi| > 1 && ci[0].Dup? && ci[1].Sub? && pi[0].Sub? && pi[1] == ci[0]
    requires Agree(ci[1].items, pi[0].items) && Agree(ci[2..], pi[2..])
    requires NoDup(CalcWalk(w, ci, c).raws)
    ensures Related(w, CalcWalk(w, ci, c), PersistWalk(w, pi, p))
    decreases ci, pi, 0
  {
    var h := ci[0].a;
    var c2 := CalcItem(w, ci[1], CalcItem(w, ci[0], c));
    var p2 := PersistItem(w, pi[1], PersistItem(w, pi[0], p));
    assert ci[1..][1..] == ci[2..] && pi[1..][1..] == pi[2..];
    assert ci[1..][0] == ci[1] && pi[1..][0] == pi[1];
    assert TidyCalc(w, ci[1..]) && TidyPersist(w, pi[1..]) && TidyCalcItem(w, ci[1]);
    assert CalcWalk(w, ci, c) == CalcWalk(w, ci[1..], CalcItem(w, ci[0], c)) == CalcWalk(w, ci[2..], c2);
    assert PersistWalk(w, pi, p) == PersistWalk(w, pi[1..], PersistItem(w, pi[0], p)) == PersistWalk(w, pi[2..], p2);
    CalcCounted(w, ci[2..], c2);
    PrefixNoDup(c2.raws, CalcWalk(w, ci, c).raws);
    StaticsWalks(w, ci[1].items, pi[0].items, h, c, p);
    AgreeWalks(w, ci[2..], pi[2..], c2, p2);
  }

  // ---- the sizes

  const NOTHING: Sum := Sum({}, [], 0)

  function FreshCopy(start: nat): Copy { Copy({}, [], start) }

  /** Strings that were interned before the sizing walk and that it registered all the same. */
  ghost function InternedKeys(w: World, c: Sum): set<nat> { set a | a in c.seen && w.interned(a) }

  function RawSet(raws: seq<nat>): set<nat> { set a | a in raws }

  lemma {:induction false} RawsWeigh(w: World, raws: seq<nat>)
    requires NoDup(raws)
    ensures Weight(w, RawSet(raws)) == RawWeight(w, raws)
  {
    if raws != [] {
      var q, a := raws[..|raws| - 1], raws[|raws| - 1];
      assert raws == q + [a];
      RawsWeigh(w, q);
      assert RawSet(raws) == RawSet(q) + {a};
      assert a !in q;
      WeightAdd(w, RawSet(q), a);
    } else {
      assert RawSet(raws) == {};
    }
  }

  lemma WeightPositive(w: World, s: set<nat>)
    requires forall a :: a in s ==> w.size(a) > 0
    ensures Weight(w, s) == 0 <==> s == {}
  {
  }

  /** What the two walks register differs by the interned keys. */
  lemma CopiedIs(w: World, c: Sum, p: Copy)
    requires Related(w, c, p)
    ensures Copied(w, p.seen) == (c.seen - InternedKeys(w, c)) + RawSet(c.raws)
    ensures c.seen !! RawSet(c.raws)
  {
    forall a: nat ensures a in Copied(w, p.seen) <==> a in (c.seen - InternedKeys(w, c)) + RawSet(c.raws) {
    }
  }

  lemma SizesCompared(w: World, c: Sum, p: Copy, start: nat)
    requires Related(w, c, p) && NoDup(c.raws)
    requires Counted(w, NOTHING, c) && Moved(w, FreshCopy(start), p)
    ensures c.used == (p.mem - start) + Weight(w, InternedKeys(w, c))
  {
    CopiedIs(w, c, p);
    RawsWeigh(w, c.raws);
    var k := InternedKeys(w, c);
    WeightUnion(w, c.seen - k, RawSet(c.raws));
    WeightUnion(w, c.seen - k, k);
    assert c.seen - k + k == c.seen;
    assert Copied(w, {}) == {};
  }

  /** The size reserved for a script is what copying it takes plus the keys that were interned already. So the
      copy always fits: its pieces are aligned, disjoint and inside the reserved block; and the sizes are equal
      if and only if the sizing walk came to no key that was interned before. */
  lemma ScriptFits(w: World, s: Script, save: bool, start: nat)
    requires Lawful(w) && TidyCalc(w, ScriptCalc(s, save)) && TidyPersist(w, ScriptPersist(s, save))
    requires start % ALIGN == 0
    requires NoDup(CalcWalk(w, ScriptCalc(s, save), NOTHING).raws)
    requires forall a {:trigger w.interned(a)} :: w.interned(a) ==> w.size(a) > 0
    ensures var c, p := CalcWalk(w, ScriptCalc(s, save), NOTHING),
      PersistWalk(w, ScriptPersist(s, save), FreshCopy(start));
      && c.used == (p.mem - start) + Weight(w, InternedKeys(w, c))
      && InARow(p, start) && p.mem <= start + c.used
      && (p.mem == start + c.used <==> InternedKeys(w, c) == {})
  {
    var ci, pi := ScriptCalc(s, save), ScriptPersist(s, save);
    var c, p := CalcWalk(w, ci, NOTHING), PersistWalk(w, pi, FreshCopy(start));
    ScriptAgree(s, save);
    CalcCounted(w, ci, NOTHING);
    PersistMoved(w, pi, FreshCopy(start));
    AgreeWalks(w, ci, pi, NOTHING, FreshCopy(start));
    SizesCompared(w, c, p, start);
    assert InARow(FreshCopy(start), start);
    WeightPositive(w, InternedKeys(w, c));
  }

  // ---- only keys

  predicate KeyOccurs(a: nat, items: seq<Item>)
    decreases items
  {
    items != [] && (KeyOccursIn(a, items[0]) || KeyOccurs(a, items[1..]))
  }

  predicate KeyOccursIn(a: nat, i: Item)
    decreases i
  {
    match i
    case Key(b) => a == b
    case Once(_, body) => KeyOccurs(a, body)
    case Sub(items) => KeyOccurs(a, items)
    case _ => false
  }

  lemma InternedIsKeyIn(w: World, i: Item, s: Sum, a: nat)
    requires TidyCalcItem(w, i) && w.interned(a) && a in CalcItem(w, i, s).seen
    ensures a in s.seen || KeyOccursIn(a, i)
    decreases i
  {
    match i
    case Dup(b) =>
    case Once(b, body) =>
      if b !in s.seen {
        InternedIsKey(w, body, CountDup(w, b, s), a);
      }
    case Text(b) =>
    case Key(b) =>
    case Raw(b) =>
    case Sub(items) => InternedIsKey(w, items, s.(used := 0), a);
    case Mark(b) =>
  }

  /** An interned string that the sizing walk has registered is the key of a bucket. */
  lemma {:induction false} InternedIsKey(w: World, items: seq<Item>, s: Sum, a: nat)
    requires TidyCalc(w, items) && w.interned(a) && a in CalcWalk(w, items, s).seen
    ensures a in s.seen || KeyOccurs(a, items)
    decreases items
  {
    if items != [] {
      InternedIsKey(w, items[1..], CalcItem(w, items[0], s), a);
      if a in CalcItem(w, items[0], s).seen {
        InternedIsKeyIn(w, items[0], s, a);
      }
    }
  }

  // ---- and all keys

  function Size(items: seq<Item>): nat
    decreases items
  {
    if items == [] then 0 else SizeOf(items[0]) + Size(items[1..])
  }

  function SizeOf(i: Item): nat
    decreases i
  {
    match i
    case Once(_, body) => 1 + Size(body)
    case Sub(items) => 1 + Size(items)
    case _ => 1
  }

  /** Wherever an address that is looked into once occurs, it holds the same. */
  predicate OneBody(body: map<nat, seq<Item>>, items: seq<Item>)
    decreases items
  {
    items == [] || (OneBodyIn(body, items[0]) && OneBody(body, items[1..]))
  }

  predicate HoldsNothing(body: map<nat, seq<Item>>, a: nat) { a in body ==> body[a] == [] }

  predicate OneBodyIn(body: map<nat, seq<Item>>, i: Item)
    decreases i
  {
    match i
    case Once(a, b) => a in body && body[a] == b && OneBody(body, b)
    case Sub(items) => OneBody(body, items)
    case _ => HoldsNothing(body, i.a)
  }

  ghost predicate KeysIn(w: World, items: seq<Item>, seen: set<nat>) {
    forall a: nat {:trigger KeyOccurs(a, items)} :: KeyOccurs(a, items) && w.interned(a) ==> a in seen
  }

  /** What the addresses seen so far hold has been walked through, if it is small. */
  ghost predicate Through(w: World, body: map<nat, seq<Item>>, seen: set<nat>, n: nat) {
    forall a: nat {:trigger a in seen} :: a in seen && a in body && Size(body[a]) < n ==> KeysIn(w, body[a], seen)
  }

  /** What is new among the addresses seen holds less than n. */
  ghost predicate NewSmall(body: map<nat, seq<Item>>, was: set<nat>, seen: set<nat>, n: nat) {
    was <= seen && forall a: nat {:trigger a in seen} :: a in seen && a !in was && a in body ==> Size(body[a]) < n
  }

  lemma KeysInMore(w: World, items: seq<Item>, seen: set<nat>, more: set<nat>)
    requires KeysIn(w, items, seen) && seen <= more
    ensures KeysIn(w, items, more)
  {
  }

  lemma OnceKeys(w: World, body: map<nat, seq<Item>>, a: nat, b: seq<Item>, s: Sum, n: nat)
    requires Lawful(w) && a in body && body[a] == b && OneBody(body, b) && Through(w, body, s.seen, n) && Size(b) < n
    ensures var r := CalcItem(w, Once(a, b), s);
      KeysIn(w, b, r.seen) && Through(w, body, r.seen, n) && NewSmall(body, s.seen, r.seen, Size(b) + 1)
    decreases b, 1
  {
    if a !in s.seen {
      var s1 := CountDup(w, a, s);
      var k, r := Size(b), CalcWalk(w, b, s1);
      forall c: nat {:trigger c in s1.seen} | c in s1.seen && c in body && Size(body[c]) < k
        ensures KeysIn(w, body[c], s1.seen)
      {
        KeysInMore(w, body[c], s.seen, s1.seen);
      }
      KeysSeen(w, body, b, s1, k);
      forall c: nat {:trigger c in r.seen} | c in r.seen && c in body && Size(body[c]) < n
        ensures KeysIn(w, body[c], r.seen)
      {
        if c in s.seen {
          KeysInMore(w, body[c], s.seen, r.seen);
        }
      }
    }
  }

  lemma KeySeen(w: World, body: map<nat, seq<Item>>, i: Item, s: Sum, n: nat)
    requires Lawful(w) && OneBodyIn(body, i) && Through(w, body, s.seen, n) && SizeOf(i) <= n
    ensures var r := CalcItem(w, i, s);
      && (forall a: nat {:trigger KeyOccursIn(a, i)} :: KeyOccursIn(a, i) && w.interned(a) ==> a in r.seen)
      && Through(w, body, r.seen, n) && NewSmall(body, s.seen, r.seen, SizeOf(i))
    decreases i, 2
  {
    match i
    case Once(a, b) => OnceKeys(w, body, a, b, s, n);
    case Sub(items) => KeysSeen(w, body, items, s.(used := 0), n);
    case Dup(a) => OneMoreThrough(w, body, s.seen, CalcItem(w, i, s).seen, a, n);
    case Text(a) => OneMoreThrough(w, body, s.seen, CalcItem(w, i, s).seen, a, n);
    case Key(a) => OneMoreThrough(w, body, s.seen, CalcItem(w, i, s).seen, a, n);
    case Raw(a) =>
    case Mark(a) =>
  }

  lemma OneMoreThrough(w: World, body: map<nat, seq<Item>>, seen: set<nat>, more: set<nat>, a: nat, n: nat)
    requires Through(w, body, seen, n) && HoldsNothing(body, a) && (more == seen || more == seen + {a})
    ensures Through(w, body, more, n) && NewSmall(body, seen, more, 1)
  {
    forall c: nat {:trigger c in more} | c in more && c in body && Size(body[c]) < n ensures KeysIn(w, body[c], more) {
      if c in seen {
        KeysInMore(w, body[c], seen, more);
      }
    }
  }

  /** The sizing walk registers every key that was interned before. */
  lemma {:induction false} KeysSeen(w: World, body: map<nat, seq<Item>>, items: seq<Item>, s: Sum, n: nat)
    requires Lawful(w) && OneBody(body, items) && Through(w, body, s.seen, n) && Size(items) <= n
    ensures var r := CalcWalk(w, items, s);
      KeysIn(w, items, r.seen) && Through(w, body, r.seen, n) && NewSmall(body, s.seen, r.seen, Size(items))
    decreases items, 0
  {
    if items != [] {
      KeySeen(w, body, items[0], s, n);
      var t := CalcItem(w, items[0], s);
      KeysSeen(w, body, items[1..], t, n);
    }
  }

  /** No key of a bucket was interned before. */
  ghost predicate NoKeyInterned(w: World, items: seq<Item>) {
    forall a: nat {:trigger KeyOccurs(a, items)} :: KeyOccurs(a, items) ==> !w.interned(a)
  }

  lemma KeysExactly(w: World, body: map<nat, seq<Item>>, items: seq<Item>)
    requires Lawful(w) && TidyCalc(w, items) && OneBody(body, items)
    ensures InternedKeys(w, CalcWalk(w, items, NOTHING)) == {} <==> NoKeyInterned(w, items)
  {
    var c := CalcWalk(w, items, NOTHING);
    KeysSeen(w, body, items, NOTHING, Size(items));
    forall a: nat | a in InternedKeys(w, c) ensures KeyOccurs(a, items) && w.interned(a) {
      InternedIsKey(w, items, NOTHING, a);
    }
    if !NoKeyInterned(w, items) {
      var a: nat :| KeyOccurs(a, items) && w.interned(a);
      assert a in InternedKeys(w, c);
    }
  }

  /** The size that is reserved is exactly what the copy takes if and only if no key of a bucket in the script was
      interned before the sizing walk; otherwise it is more. */
  lemma SizesEqualExactly(w: World, body: map<nat, seq<Item>>, s: Script, save: bool, start: nat)
    requires Lawful(w) && TidyCalc(w, ScriptCalc(s, save)) && TidyPersist(w, ScriptPersist(s, save))
    requires start % ALIGN == 0
    requires NoDup(CalcWalk(w, ScriptCalc(s, save), NOTHING).raws) && OneBody(body, ScriptCalc(s, save))
    requires forall a {:trigger w.interned(a)} :: w.interned(a) ==> w.size(a) > 0
    ensures var c, p := CalcWalk(w, ScriptCalc(s, save), NOTHING),
      PersistWalk(w, ScriptPersist(s, save), FreshCopy(start));
      p.mem == start + c.used <==> NoKeyInterned(w, ScriptCalc(s, save))
  {
    ScriptFits(w, s, save, start);
    KeysExactly(w, body, ScriptCalc(s, save));
  }

  // ---- a script with a function whose name was interned before

  const NOT_USER: OpArray := OpArray(false, 0, 0, [], 0, 0, 0, [], 0, NoStatics, 0, 0, 0, [])
  const NO_TABLE: Table := Table([], false, 0)
  const ONE_NAME: Script := Script(Table([Bucket(8, 16, false, 24, FunctionElement(NOT_USER))], false, 0), NO_TABLE,
    NOT_USER, 32, 40, 48)

  function OneName(): World { World(a => 8, a => a == 16, a => a, a => Shared) }

  lemma OneNameCalls()
    ensures ScriptCalc(ONE_NAME, true) ==
      [Sub([Dup(8), Key(16), Dup(24), Sub([])]), Sub([]), Sub([]), Dup(32), Dup(40), Dup(48)]
    ensures ScriptPersist(ONE_NAME, true) == ScriptCalc(ONE_NAME, true)
  {
    var b := Bucket(8, 16, false, 24, FunctionElement(NOT_USER));
    var bs := [b];
    assert ElementCalc(b.element, true) == [] && ElementPersist(b.element, true) == [];
    assert BucketCalc(b, true) == [Dup(8), Key(16), Dup(24), Sub([])]
      && BucketPersist(b, true) == [Dup(8), Key(16), Dup(24), Sub([])];
    assert bs[1..] == [];
    assert BucketCalc(b, true) + [] == BucketCalc(b, true) && BucketPersist(b, true) + [] == BucketPersist(b, true);
    assert BucketsCalc(bs, true) == BucketCalc(b, true) + BucketsCalc(bs[1..], true);
    assert BucketsPersist(bs, true) == BucketPersist(b, true) + BucketsPersist(bs[1..], true);
    assert HashCalc(ONE_NAME.functions, true) == BucketsCalc(bs, true)
      && HashPersist(ONE_NAME.functions, true) == BucketsPersist(bs, true);
    assert HashCalc(NO_TABLE, true) == [] && HashPersist(NO_TABLE, true) == [];
  }

  lemma CalcNext(w: World, i: Item, rest: seq<Item>, s: Sum)
    ensures CalcWalk(w, [i] + rest, s) == CalcWalk(w, rest, CalcItem(w, i, s))
  {
    assert ([i] + rest)[1..] == rest;
  }

  lemma PersistNext(w: World, i: Item, rest: seq<Item>, s: Copy)
    ensures PersistWalk(w, [i] + rest, s) == PersistWalk(w, rest, PersistItem(w, i, s))
  {
    assert ([i] + rest)[1..] == rest;
  }

  lemma OneNameTable(w: World, start: nat)
    requires w == OneName()
    ensures CalcWalk(w, [Dup(8), Key(16), Dup(24), Sub([])], NOTHING) == Sum({8, 16, 24}, [], 24)
    ensures PersistWalk(w, [Dup(8), Key(16), Dup(24), Sub([])], FreshCopy(start)) ==
      Copy({8, 24}, [Piece(start, 8), Piece(start + 8, 8)], start + 16)
  {
    var p := FreshCopy(start);
    assert [Dup(8), Key(16), Dup(24), Sub([])] == [Dup(8)] + ([Key(16)] + ([Dup(24)] + ([Sub([])] + [])));
    CalcNext(w, Dup(8), [Key(16)] + ([Dup(24)] + ([Sub([])] + [])), NOTHING);
    CalcNext(w, Key(16), [Dup(24)] + ([Sub([])] + []), Sum({8}, [], 8));
    CalcNext(w, Dup(24), [Sub([])] + [], Sum({8, 16}, [], 16));
    CalcNext(w, Sub([]), [], Sum({8, 16, 24}, [], 24));
    PersistNext(w, Dup(8), [Key(16)] + ([Dup(24)] + ([Sub([])] + [])), p);
    var q := Copy({8}, [Piece(start, 8)], start + 8);
    PersistNext(w, Key(16), [Dup(24)] + ([Sub([])] + []), q);
    PersistNext(w, Dup(24), [Sub([])] + [], q);
    PersistNext(w, Sub([]), [], Copy({8, 24}, [Piece(start, 8), Piece(start + 8, 8)], start + 16));
  }

  /** What the script adds after its tables: the name, the op array and the script itself. */
  lemma RestSized(w: World, s: Sum)
    requires w == OneName() && 32 !in s.seen && 40 !in s.seen && 48 !in s.seen
    ensures CalcWalk(w, [Dup(32)] + ([Dup(40)] + ([Dup(48)] + [])), s).used == s.used + 24
  {
    CalcNext(w, Dup(32), [Dup(40)] + ([Dup(48)] + []), s);
    CalcNext(w, Dup(40), [Dup(48)] + [], CountDup(w, 32, s));
    CalcNext(w, Dup(48), [], CountDup(w, 40, CountDup(w, 32, s)));
  }

  lemma RestCopied(w: World, s: Copy)
    requires w == OneName() && 32 !in s.seen && 40 !in s.seen && 48 !in s.seen
    ensures PersistWalk(w, [Dup(32)] + ([Dup(40)] + ([Dup(48)] + [])), s).mem == s.mem + 24
  {
    PersistNext(w, Dup(32), [Dup(40)] + ([Dup(48)] + []), s);
    PersistNext(w, Dup(40), [Dup(48)] + [], CopyDup(w, 32, s));
    PersistNext(w, Dup(48), [], CopyDup(w, 40, CopyDup(w, 32, s)));
  }

  lemma EmptySized(w: World, c: Sum)
    requires c.used % ALIGN == 0
    ensures CalcItem(w, Sub([]), c) == c
  {
  }

  lemma EmptyCopied(w: World, c: Copy)
    ensures PersistItem(w, Sub([]), c) == c
  {
  }

  lemma OneNameSized(w: World, table: Item, c: Sum, e: seq<Item>)
    requires w == OneName() && CalcItem(w, table, NOTHING) == c == Sum({8, 16, 24}, [], 24)
    requires e == [Dup(32)] + ([Dup(40)] + ([Dup(48)] + []))
    ensures CalcWalk(w, [table] + ([Sub([])] + ([Sub([])] + e)), NOTHING).used == 48
  {
    CalcNext(w, table, [Sub([])] + ([Sub([])] + e), NOTHING);
    EmptySized(w, c);
    CalcNext(w, Sub([]), [Sub([])] + e, c);
    CalcNext(w, Sub([]), e, c);
    RestSized(w, c);
  }

  lemma OneNameCopied(w: World, table: Item, start: nat, p: Copy, e: seq<Item>)
    requires w == OneName() && p == Copy({8, 24}, [Piece(start, 8), Piece(start + 8, 8)], start + 16)
    requires PersistItem(w, table, FreshCopy(start)) == p && e == [Dup(32)] + ([Dup(40)] + ([Dup(48)] + []))
    ensures PersistWalk(w, [table] + ([Sub([])] + ([Sub([])] + e)), FreshCopy(start)).mem == start + 40
  {
    PersistNext(w, table, [Sub([])] + ([Sub([])] + e), FreshCopy(start));
    EmptyCopied(w, p);
    PersistNext(w, Sub([]), [Sub([])] + e, p);
    PersistNext(w, Sub([]), e, p);
    RestCopied(w, p);
  }

  /** 48 bytes are reserved, with 8 for the name; 40 are used. */
  lemma OneNameDiffers(w: World, start: nat)
    requires w == OneName()
    ensures CalcWalk(w, ScriptCalc(ONE_NAME, true), NOTHING).used == 48
    ensures PersistWalk(w, ScriptPersist(ONE_NAME, true), FreshCopy(start)).mem == start + 40
  {
    OneNameCalls();
    OneNameTable(w, start);
    var table := Sub([Dup(8), Key(16), Dup(24), Sub([])]);
    var e := [Dup(32)] + ([Dup(40)] + ([Dup(48)] + []));
    assert [table, Sub([]), Sub([]), Dup(32), Dup(40), Dup(48)] == [table] + ([Sub([])] + ([Sub([])] + e));
    OneNameSized(w, table, Sum({8, 16, 24}, [], 24), e);
    OneNameCopied(w, table, start, Copy({8, 24}, [Piece(start, 8), Piece(start + 8, 8)], start + 16), e);
  }
}
