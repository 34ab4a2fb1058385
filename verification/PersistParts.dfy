/** What a script is made of, read off its fields, and that the walks come to all of it and to nothing else. */
module PersistParts {
  import opened PersistSize

  /** A block is copied; a string is interned or copied; a comment that is not saved is only freed. */
  datatype Role = Block | String | Dropped

  // ---- the addresses that a structure refers to

  ghost predicate ZvalRefers(z: Zval, k: Role, a: nat, save: bool)
    decreases z
  {
    match z
    case Plain => false
    case Str(s) => k == String && a == s
    case Arr(ht, table) => (k == Block && a == ht) || TableRefers(table, k, a, save)
  }

  ghost predicate ZvalPtrRefers(p: ZvalPtr, k: Role, a: nat, save: bool)
    decreases p
  {
    (k == Block && a == p.addr) || ZvalRefers(p.z, k, a, save)
  }

  ghost predicate TableRefers(t: Table, k: Role, a: nat, save: bool)
    decreases t
  {
    || (t.initialized && k == Block && a == t.arBuckets)
    || exists i {:trigger t.buckets[i]} :: 0 <= i < |t.buckets| && BucketRefers(t.buckets[i], k, a, save)
  }

  ghost predicate BucketRefers(b: Bucket, k: Role, a: nat, save: bool)
    decreases b
  {
    || (k == Block && a == b.addr)
    || (k == String && a == b.key && b.key != 0)
    || (k == Block && a == b.data && !b.dataInside)
    || ElementRefers(b.element, k, a, save)
  }

  ghost predicate ElementRefers(e: Element, k: Role, a: nat, save: bool)
    decreases e
  {
    match e
    case ZvalElement(p) => ZvalPtrRefers(p, k, a, save)
    case FunctionElement(f) => OpArrayRefers(f, k, a, save)
    case ClassElement(c) => ClassRefers(c, k, a, save)
    case PropertyElement(p) => PropertyRefers(p, k, a, save)
  }

  ghost predicate CommentRefers(comment: nat, k: Role, a: nat, save: bool) {
    comment != 0 && a == comment && k == if save then Block else Dropped
  }

  ghost predicate NameRefers(names: seq<nat>, k: Role, a: nat) {
    k == String && exists i :: 0 <= i < |names| && names[i] == a != 0
  }

  /** A field that is 0 refers to nothing, and what would lie there is not there. */
  ghost predicate HeadRefers(f: OpArray, k: Role, a: nat, save: bool)
    decreases f, 0
  {
    || (k == Block && (a == f.opcodes || (a != 0 && (a == f.filename || a == f.literals || a == f.functionName
                                                     || a == f.argInfo))))
    || (f.argInfo != 0 && NameRefers(f.argNames, k, a))
    || (f.literals != 0 && exists i {:trigger f.constants[i]} ::
          0 <= i < |f.constants| && ZvalRefers(f.constants[i], k, a, save))
  }

  ghost predicate TailRefers(f: OpArray, k: Role, a: nat, save: bool)
    decreases f, 0
  {
    || (k == Block && a != 0 && (a == f.brkCont || a == f.tryCatch || a == f.vars))
    || (f.vars != 0 && NameRefers(f.varNames, k, a))
    || CommentRefers(f.docComment, k, a, save)
    || (f.statics.Statics? && ((k == Block && a == f.statics.ht) || TableRefers(f.statics.table, k, a, save)))
  }

  ghost predicate OpArrayRefers(f: OpArray, k: Role, a: nat, save: bool)
    decreases f
  {
    f.user && (HeadRefers(f, k, a, save) || TailRefers(f, k, a, save))
  }

  ghost predicate PropertyRefers(p: Property, k: Role, a: nat, save: bool) {
    (k == String && a == p.name) || CommentRefers(p.docComment, k, a, save)
  }

  ghost predicate ClassRefers(c: Class, k: Role, a: nat, save: bool)
    decreases c
  {
    c.user && (
      || (k == Block && (a == c.addr || (a != 0 && (a == c.defaults || a == c.statics || a == c.filename))))
      || (k == String && a == c.name)
      || CommentRefers(c.docComment, k, a, save)
      || TableRefers(c.functions, k, a, save)
      || TableRefers(c.constants, k, a, save)
      || TableRefers(c.properties, k, a, save)
      || (c.defaults != 0 && exists i {:trigger c.defaultValues[i]} ::
            0 <= i < |c.defaultValues| && ZvalPtrRefers(c.defaultValues[i], k, a, save))
      || (c.statics != 0 && exists i {:trigger c.staticValues[i]} ::
            0 <= i < |c.staticValues| && ZvalPtrRefers(c.staticValues[i], k, a, save)))
  }

  ghost predicate ScriptRefers(s: Script, k: Role, a: nat, save: bool) {
    || (k == Block && (a == s.addr || a == s.key || a == s.fullPath))
    || TableRefers(s.functions, k, a, save)
    || TableRefers(s.classes, k, a, save)
    || OpArrayRefers(s.main, k, a, save)
  }

  // ---- the calls are for these

  predicate Needs(items: seq<Item>, k: Role, a: nat)
    decreases items
  {
    items != [] && (NeedsIn(items[0], k, a) || Needs(items[1..], k, a))
  }

  predicate NeedsIn(i: Item, k: Role, a: nat)
    decreases i
  {
    match i
    case Dup(b) => k == Block && a == b
    case Once(b, body) => (k == Block && a == b) || Needs(body, k, a)
    case Text(b) => k == String && a == b
    case Key(b) => k == String && a == b
    case Raw(b) => k == Block && a == b
    case Sub(items) => Needs(items, k, a)
    case Mark(b) => k == Dropped && a == b
  }

  lemma {:induction false} NeedsAppend(c: seq<Item>, d: seq<Item>, k: Role, a: nat)
    ensures Needs(c + d, k, a) <==> Needs(c, k, a) || Needs(d, k, a)
  {
    if c == [] {
      assert c + d == d;
    } else {
      NeedsAppend(c[1..], d, k, a);
      assert (c + d)[1..] == c[1..] + d;
    }
  }

  lemma NeedsOne(i: Item, k: Role, a: nat)
    ensures Needs([i], k, a) <==> NeedsIn(i, k, a)
  {
    assert [i][1..] == [];
  }

  lemma {:induction false} TextsNeed(names: seq<nat>, k: Role, a: nat)
    ensures Needs(Texts(names), k, a) <==> NameRefers(names, k, a)
  {
    if names != [] {
      var n := |names| - 1;
      var last := if names[n] != 0 then [Text(names[n])] else [];
      TextsNeed(names[..n], k, a);
      NeedsAppend(Texts(names[..n]), last, k, a);
      assert forall i :: 0 <= i < n ==> names[..n][i] == names[i];
      if names[n] != 0 {
        NeedsOne(Text(names[n]), k, a);
      }
    }
  }

  lemma ZvalNeeds(z: Zval, save: bool, k: Role, a: nat)
    ensures Needs(ZvalPersist(z, save), k, a) <==> ZvalRefers(z, k, a, save)
    decreases z
  {
    match z
    case Plain =>
    case Str(s) => NeedsOne(Text(s), k, a);
    case Arr(ht, table) =>
      TableNeeds(table, save, k, a);
      NeedsOne(Dup(ht), k, a);
      NeedsOne(Sub(HashPersist(table, save)), k, a);
      NeedsAppend([Dup(ht)], [Sub(HashPersist(table, save))], k, a);
      assert [Dup(ht)] + [Sub(HashPersist(table, save))] == ZvalPersist(z, save);
  }

  lemma ZvalPtrNeeds(p: ZvalPtr, save: bool, k: Role, a: nat)
    ensures Needs(ZvalPtrPersist(p, save), k, a) <==> ZvalPtrRefers(p, k, a, save)
    decreases p
  {
    ZvalNeeds(p.z, save, k, a);
    NeedsOne(Sub(ZvalPersist(p.z, save)), k, a);
    NeedsOne(Once(p.addr, [Sub(ZvalPersist(p.z, save))]), k, a);
  }

  lemma TableNeeds(t: Table, save: bool, k: Role, a: nat)
    ensures Needs(HashPersist(t, save), k, a) <==> TableRefers(t, k, a, save)
    decreases t, 0
  {
    BucketsNeed(t.buckets, save, k, a);
    NeedsAppend(BucketsPersist(t.buckets, save), if t.initialized then [Dup(t.arBuckets)] else [], k, a);
    NeedsOne(Dup(t.arBuckets), k, a);
  }

  lemma {:induction false} BucketsNeed(bs: seq<Bucket>, save: bool, k: Role, a: nat)
    ensures Needs(BucketsPersist(bs, save), k, a) <==>
            exists i {:trigger bs[i]} :: 0 <= i < |bs| && BucketRefers(bs[i], k, a, save)
    decreases bs
  {
    if bs != [] {
      BucketNeeds(bs[0], save, k, a);
      BucketsNeed(bs[1..], save, k, a);
      NeedsAppend(BucketPersist(bs[0], save), BucketsPersist(bs[1..], save), k, a);
      assert forall i {:trigger bs[i]} :: 0 < i < |bs| ==> bs[i] == bs[1..][i - 1];
    }
  }

  lemma BucketNeeds(b: Bucket, save: bool, k: Role, a: nat)
    ensures Needs(BucketPersist(b, save), k, a) <==> BucketRefers(b, k, a, save)
    decreases b
  {
    ElementNeeds(b.element, save, k, a);
    var key := if b.key != 0 then [Key(b.key)] else [];
    var data := if b.dataInside then [] else [Dup(b.data)];
    var element := [Sub(ElementPersist(b.element, save))];
    NeedsOne(Dup(b.addr), k, a);
    NeedsOne(Key(b.key), k, a);
    NeedsOne(Dup(b.data), k, a);
    NeedsOne(Sub(ElementPersist(b.element, save)), k, a);
    NeedsAppend([Dup(b.addr)], key, k, a);
    NeedsAppend([Dup(b.addr)] + key, data, k, a);
    NeedsAppend([Dup(b.addr)] + key + data, element, k, a);
  }

  lemma ElementNeeds(e: Element, save: bool, k: Role, a: nat)
    ensures Needs(ElementPersist(e, save), k, a) <==> ElementRefers(e, k, a, save)
    decreases e
  {
    match e
    case ZvalElement(p) => ZvalPtrNeeds(p, save, k, a);
    case FunctionElement(f) => OpArrayNeeds(f, save, k, a);
    case ClassElement(c) => ClassNeeds(c, save, k, a);
    case PropertyElement(p) => PropertyNeeds(p, save, k, a);
  }

  lemma {:induction false} ZvalsNeed(zs: seq<Zval>, save: bool, k: Role, a: nat)
    ensures Needs(ZvalsPersist(zs, save), k, a) <==>
            exists i {:trigger zs[i]} :: 0 <= i < |zs| && ZvalRefers(zs[i], k, a, save)
    decreases zs
  {
    if zs != [] {
      ZvalNeeds(zs[0], save, k, a);
      NeedsOne(Sub(ZvalPersist(zs[0], save)), k, a);
      ZvalsNeed(zs[1..], save, k, a);
      NeedsAppend([Sub(ZvalPersist(zs[0], save))], ZvalsPersist(zs[1..], save), k, a);
      assert forall i {:trigger zs[i]} :: 0 < i < |zs| ==> zs[i] == zs[1..][i - 1];
    }
  }

  lemma {:induction false} ZvalPtrsNeed(ps: seq<ZvalPtr>, save: bool, k: Role, a: nat)
    ensures Needs(ZvalPtrsPersist(ps, save), k, a) <==>
            exists i {:trigger ps[i]} :: 0 <= i < |ps| && ZvalPtrRefers(ps[i], k, a, save)
    decreases ps, 0
  {
    if ps != [] {
      ZvalPtrNeeds(ps[0], save, k, a);
      NeedsOne(Sub(ZvalPtrPersist(ps[0], save)), k, a);
      ZvalPtrsNeed(ps[1..], save, k, a);
      NeedsAppend([Sub(ZvalPtrPersist(ps[0], save))], ZvalPtrsPersist(ps[1..], save), k, a);
      assert forall i {:trigger ps[i]} :: 0 < i < |ps| ==> ps[i] == ps[1..][i - 1];
    }
  }

  lemma DupIfNeeds(b: nat, k: Role, a: nat)
    ensures Needs(DupIf(b), k, a) <==> k == Block && a == b != 0
  {
    NeedsOne(Dup(b), k, a);
  }

  lemma CommentNeeds(b: nat, save: bool, k: Role, a: nat)
    ensures Needs(Comment(b, save), k, a) <==> CommentRefers(b, k, a, save)
  {
    NeedsOne(Dup(b), k, a);
    NeedsOne(Mark(b), k, a);
  }

  lemma NamesNeed(b: nat, names: seq<nat>, k: Role, a: nat)
    ensures Needs(if b != 0 then [Once(b, Texts(names))] else [], k, a) <==>
            b != 0 && ((k == Block && a == b) || NameRefers(names, k, a))
  {
    TextsNeed(names, k, a);
    NeedsOne(Once(b, Texts(names)), k, a);
  }

  lemma ConstantsNeed(f: OpArray, save: bool, k: Role, a: nat)
    ensures Needs(if f.literals != 0 then [Once(f.literals, ZvalsPersist(f.constants, save))] else [], k, a) <==>
            f.literals != 0 && ((k == Block && a == f.literals) || exists i {:trigger f.constants[i]} ::
              0 <= i < |f.constants| && ZvalRefers(f.constants[i], k, a, save))
    decreases f, 0
  {
    ZvalsNeed(f.constants, save, k, a);
    NeedsOne(Once(f.literals, ZvalsPersist(f.constants, save)), k, a);
  }

  lemma StaticsNeed(f: OpArray, save: bool, k: Role, a: nat)
    ensures Needs(if f.statics.Statics? then [Sub(HashPersist(f.statics.table, save)), Dup(f.statics.ht)] else [], k, a)
            <==> f.statics.Statics? && ((k == Block && a == f.statics.ht) || TableRefers(f.statics.table, k, a, save))
    decreases f, 0
  {
    if f.statics.Statics? {
      TableNeeds(f.statics.table, save, k, a);
      var sub := Sub(HashPersist(f.statics.table, save));
      NeedsOne(sub, k, a);
      NeedsOne(Dup(f.statics.ht), k, a);
      NeedsAppend([sub], [Dup(f.statics.ht)], k, a);
      assert [sub] + [Dup(f.statics.ht)] == [sub, Dup(f.statics.ht)];
    }
  }

  lemma AppendFive(c1: seq<Item>, c2: seq<Item>, c3: seq<Item>, c4: seq<Item>, c5: seq<Item>, k: Role, a: nat)
    ensures Needs(c1 + c2 + c3 + c4 + c5, k, a) <==>
            Needs(c1, k, a) || Needs(c2, k, a) || Needs(c3, k, a) || Needs(c4, k, a) || Needs(c5, k, a)
  {
    NeedsAppend(c1, c2, k, a);
    NeedsAppend(c1 + c2, c3, k, a);
    NeedsAppend(c1 + c2 + c3, c4, k, a);
    NeedsAppend(c1 + c2 + c3 + c4, c5, k, a);
  }

  lemma AppendSix(c: seq<Item>, c1: seq<Item>, c2: seq<Item>, c3: seq<Item>, c4: seq<Item>, c5: seq<Item>, k: Role,
                  a: nat)
    ensures Needs(c + c1 + c2 + c3 + c4 + c5, k, a) <==>
            (Needs(c, k, a) || Needs(c1, k, a) || Needs(c2, k, a) || Needs(c3, k, a) || Needs(c4, k, a)
             || Needs(c5, k, a))
  {
    AppendFive(c, c1, c2, c3, c4, k, a);
    NeedsAppend(c + c1 + c2 + c3 + c4, c5, k, a);
  }

  lemma HeadNeeds(f: OpArray, save: bool, k: Role, a: nat, c1: seq<Item>, c2: seq<Item>, c4: seq<Item>, c5: seq<Item>)
    requires c1 == DupIf(f.filename)
    requires c2 == if f.literals != 0 then [Once(f.literals, ZvalsPersist(f.constants, save))] else []
    requires c4 == if f.functionName != 0 then [Once(f.functionName, [])] else []
    requires c5 == if f.argInfo != 0 then [Once(f.argInfo, Texts(f.argNames))] else []
    ensures Needs(c1 + c2 + [Once(f.opcodes, [])] + c4 + c5, k, a) <==> HeadRefers(f, k, a, save)
    decreases f, 1
  {
    DupIfNeeds(f.filename, k, a);
    ConstantsNeed(f, save, k, a);
    NeedsOne(Once(f.opcodes, []), k, a);
    NeedsOne(Once(f.functionName, []), k, a);
    NamesNeed(f.argInfo, f.argNames, k, a);
    AppendFive(c1, c2, [Once(f.opcodes, [])], c4, c5, k, a);
  }

  lemma TailNeeds(f: OpArray, save: bool, k: Role, a: nat, c: seq<Item>, c7: seq<Item>, c10: seq<Item>)
    requires c7 == if f.statics.Statics? then [Sub(HashPersist(f.statics.table, save)), Dup(f.statics.ht)] else []
    requires c10 == if f.vars != 0 then [Once(f.vars, Texts(f.varNames))] else []
    ensures Needs(c + DupIf(f.brkCont) + c7 + Comment(f.docComment, save) + DupIf(f.tryCatch) + c10, k, a) <==>
            (Needs(c, k, a) || TailRefers(f, k, a, save))
    decreases f, 1
  {
    DupIfNeeds(f.brkCont, k, a);
    StaticsNeed(f, save, k, a);
    CommentNeeds(f.docComment, save, k, a);
    DupIfNeeds(f.tryCatch, k, a);
    NamesNeed(f.vars, f.varNames, k, a);
    AppendSix(c, DupIf(f.brkCont), c7, Comment(f.docComment, save), DupIf(f.tryCatch), c10, k, a);
  }

  lemma OpArrayNeeds(f: OpArray, save: bool, k: Role, a: nat)
    ensures Needs(OpArrayPersist(f, save), k, a) <==> OpArrayRefers(f, k, a, save)
    decreases f
  {
    if f.user {
      var c1 := DupIf(f.filename);
      var c2 := if f.literals != 0 then [Once(f.literals, ZvalsPersist(f.constants, save))] else [];
      var c4 := if f.functionName != 0 then [Once(f.functionName, [])] else [];
      var c5 := if f.argInfo != 0 then [Once(f.argInfo, Texts(f.argNames))] else [];
      var c7 := if f.statics.Statics? then [Sub(HashPersist(f.statics.table, save)), Dup(f.statics.ht)] else [];
      var c10 := if f.vars != 0 then [Once(f.vars, Texts(f.varNames))] else [];
      HeadNeeds(f, save, k, a, c1, c2, c4, c5);
      TailNeeds(f, save, k, a, c1 + c2 + [Once(f.opcodes, [])] + c4 + c5, c7, c10);
    }
  }

  lemma PropertyNeeds(p: Property, save: bool, k: Role, a: nat)
    ensures Needs(PropertyPersist(p, save), k, a) <==> PropertyRefers(p, k, a, save)
  {
    NeedsOne(Text(p.name), k, a);
    CommentNeeds(p.docComment, save, k, a);
    NeedsAppend([Text(p.name)], Comment(p.docComment, save), k, a);
  }

  lemma ValuesNeed(b: nat, ps: seq<ZvalPtr>, save: bool, k: Role, a: nat)
    ensures Needs(if b != 0 then [Dup(b)] + ZvalPtrsPersist(ps, save) else [], k, a) <==>
            b != 0 && ((k == Block && a == b) || exists i {:trigger ps[i]} ::
              0 <= i < |ps| && ZvalPtrRefers(ps[i], k, a, save))
    decreases ps, 1
  {
    ZvalPtrsNeed(ps, save, k, a);
    NeedsOne(Dup(b), k, a);
    NeedsAppend([Dup(b)], ZvalPtrsPersist(ps, save), k, a);
  }

  lemma SubNeeds(t: Table, save: bool, k: Role, a: nat)
    ensures Needs([Sub(HashPersist(t, save))], k, a) <==> TableRefers(t, k, a, save)
    decreases t, 1
  {
    TableNeeds(t, save, k, a);
    NeedsOne(Sub(HashPersist(t, save)), k, a);
  }

  lemma FrontNeeds(c: Class, save: bool, k: Role, a: nat)
    ensures Needs([Dup(c.addr), Text(c.name), Sub(HashPersist(c.functions, save))], k, a) <==>
            (k == Block && a == c.addr) || (k == String && a == c.name) || TableRefers(c.functions, k, a, save)
    decreases c, 0
  {
    NeedsOne(Dup(c.addr), k, a);
    NeedsOne(Text(c.name), k, a);
    SubNeeds(c.functions, save, k, a);
    NeedsAppend([Dup(c.addr)], [Text(c.name)], k, a);
    NeedsAppend([Dup(c.addr)] + [Text(c.name)], [Sub(HashPersist(c.functions, save))], k, a);
    assert [Dup(c.addr), Text(c.name), Sub(HashPersist(c.functions, save))] ==
           [Dup(c.addr)] + [Text(c.name)] + [Sub(HashPersist(c.functions, save))];
  }

  ghost predicate ValuesRefer(b: nat, ps: seq<ZvalPtr>, k: Role, a: nat, save: bool) {
    b != 0 && ((k == Block && a == b)
               || exists i {:trigger ps[i]} :: 0 <= i < |ps| && ZvalPtrRefers(ps[i], k, a, save))
  }

  lemma RestNeeds(c: Class, save: bool, k: Role, a: nat, c1: seq<Item>, c2: seq<Item>, c3: seq<Item>)
    requires c2 == if c.defaults != 0 then [Dup(c.defaults)] + ZvalPtrsPersist(c.defaultValues, save) else []
    requires c3 == if c.statics != 0 then [Dup(c.statics)] + ZvalPtrsPersist(c.staticValues, save) else []
    ensures Needs(c1 + c2 + c3 + [Sub(HashPersist(c.constants, save))] + DupIf(c.filename)
                  + Comment(c.docComment, save) + [Sub(HashPersist(c.properties, save))], k, a) <==>
            (Needs(c1, k, a) || ValuesRefer(c.defaults, c.defaultValues, k, a, save)
             || ValuesRefer(c.statics, c.staticValues, k, a, save) || TableRefers(c.constants, k, a, save)
             || (k == Block && a == c.filename != 0) || CommentRefers(c.docComment, k, a, save)
             || TableRefers(c.properties, k, a, save))
    decreases c, 0
  {
    ValuesNeed(c.defaults, c.defaultValues, save, k, a);
    ValuesNeed(c.statics, c.staticValues, save, k, a);
    SubNeeds(c.constants, save, k, a);
    DupIfNeeds(c.filename, k, a);
    CommentNeeds(c.docComment, save, k, a);
    SubNeeds(c.properties, save, k, a);
    var c4, c7 := [Sub(HashPersist(c.constants, save))], [Sub(HashPersist(c.properties, save))];
    AppendSix(c1, c2, c3, c4, DupIf(c.filename), Comment(c.docComment, save), k, a);
    NeedsAppend(c1 + c2 + c3 + c4 + DupIf(c.filename) + Comment(c.docComment, save), c7, k, a);
  }

  lemma ClassNeeds(c: Class, save: bool, k: Role, a: nat)
    ensures Needs(ClassPersist(c, save), k, a) <==> ClassRefers(c, k, a, save)
    decreases c
  {
    if c.user {
      var c1 := [Dup(c.addr), Text(c.name), Sub(HashPersist(c.functions, save))];
      var c2 := if c.defaults != 0 then [Dup(c.defaults)] + ZvalPtrsPersist(c.defaultValues, save) else [];
      var c3 := if c.statics != 0 then [Dup(c.statics)] + ZvalPtrsPersist(c.staticValues, save) else [];
      FrontNeeds(c, save, k, a);
      RestNeeds(c, save, k, a, c1, c2, c3);
    }
  }

  lemma ScriptNeeds(s: Script, save: bool, k: Role, a: nat)
    ensures Needs(ScriptPersist(s, save), k, a) <==> ScriptRefers(s, k, a, save)
  {
    SubNeeds(s.functions, save, k, a);
    SubNeeds(s.classes, save, k, a);
    OpArrayNeeds(s.main, save, k, a);
    var main := Sub(OpArrayPersist(s.main, save));
    NeedsOne(main, k, a);
    NeedsOne(Dup(s.key), k, a);
    NeedsOne(Dup(s.fullPath), k, a);
    NeedsOne(Dup(s.addr), k, a);
    var f, c := [Sub(HashPersist(s.functions, save))], [Sub(HashPersist(s.classes, save))];
    AppendSix(f, c, [main], [Dup(s.key)], [Dup(s.fullPath)], [Dup(s.addr)], k, a);
    assert ScriptPersist(s, save) == f + c + [main] + [Dup(s.key)] + [Dup(s.fullPath)] + [Dup(s.addr)];
  }

  // ---- the copying walk comes to everything

  ghost predicate Placed(w: World, k: Role, a: nat, seen: set<nat>) {
    if k == String then w.interned(w.place(a)) || w.place(a) in seen else a in seen
  }

  ghost predicate AllPlaced(w: World, items: seq<Item>, seen: set<nat>) {
    forall k: Role, a: nat {:trigger Needs(items, k, a)} :: Needs(items, k, a) ==> Placed(w, k, a, seen)
  }

  /** What the addresses seen so far hold has been placed, if it is small. */
  ghost predicate Walked(w: World, body: map<nat, seq<Item>>, seen: set<nat>, n: nat) {
    forall a: nat {:trigger a in seen} :: a in seen && a in body && Size(body[a]) < n ==> AllPlaced(w, body[a], seen)
  }

  lemma PlacedMore(w: World, items: seq<Item>, seen: set<nat>, more: set<nat>)
    requires AllPlaced(w, items, seen) && seen <= more
    ensures AllPlaced(w, items, more)
  {
  }

  lemma OneMoreWalked(w: World, body: map<nat, seq<Item>>, seen: set<nat>, more: set<nat>, a: nat, n: nat)
    requires Walked(w, body, seen, n) && HoldsNothing(body, a) && (more == seen || more == seen + {a})
    ensures Walked(w, body, more, n) && NewSmall(body, seen, more, 1)
  {
    forall c: nat {:trigger c in more} | c in more && c in body && Size(body[c]) < n
      ensures AllPlaced(w, body[c], more)
    {
      if c in seen {
        PlacedMore(w, body[c], seen, more);
      }
    }
  }

  lemma OncePlaced(w: World, body: map<nat, seq<Item>>, a: nat, b: seq<Item>, s: Copy, r: Copy, n: nat)
    requires Lawful(w) && a in body && body[a] == b && OneBody(body, b) && Walked(w, body, s.seen, n) && Size(b) < n
    requires r == PersistItem(w, Once(a, b), s)
    ensures a in r.seen && AllPlaced(w, b, r.seen) && Walked(w, body, r.seen, n)
    ensures NewSmall(body, s.seen, r.seen, Size(b) + 1)
    decreases b, 1
  {
    if a !in s.seen {
      var s1 := CopyDup(w, a, s);
      var k := Size(b);
      forall c: nat {:trigger c in s1.seen} | c in s1.seen && c in body && Size(body[c]) < k
        ensures AllPlaced(w, body[c], s1.seen)
      {
        PlacedMore(w, body[c], s.seen, s1.seen);
      }
      WalkPlaced(w, body, b, s1, r, k);
      forall c: nat {:trigger c in r.seen} | c in r.seen && c in body && Size(body[c]) < n
        ensures AllPlaced(w, body[c], r.seen)
      {
        if c in s.seen {
          PlacedMore(w, body[c], s.seen, r.seen);
        }
      }
    }
  }

  ghost predicate ItemIsPlaced(w: World, i: Item, seen: set<nat>) {
    forall k: Role, a: nat {:trigger NeedsIn(i, k, a)} :: NeedsIn(i, k, a) ==> Placed(w, k, a, seen)
  }

  lemma ItemPlaced(w: World, body: map<nat, seq<Item>>, i: Item, s: Copy, r: Copy, n: nat)
    requires Lawful(w) && OneBodyIn(body, i) && Walked(w, body, s.seen, n) && SizeOf(i) <= n
    requires r == PersistItem(w, i, s)
    ensures ItemIsPlaced(w, i, r.seen) && Walked(w, body, r.seen, n) && NewSmall(body, s.seen, r.seen, SizeOf(i))
    decreases i, 2
  {
    match i
    case Once(a, b) => OncePlaced(w, body, a, b, s, r, n);
    case Sub(items) => WalkPlaced(w, body, items, s, r, n);
    case _ => OneMoreWalked(w, body, s.seen, r.seen, i.a, n);
  }

  /** The copying walk places whatever its calls are for: blocks and comments are entered under their own address,
      strings are interned or entered. */
  lemma {:induction false} WalkPlaced(w: World, body: map<nat, seq<Item>>, items: seq<Item>, s: Copy, r: Copy, n: nat)
    requires Lawful(w) && OneBody(body, items) && Walked(w, body, s.seen, n) && Size(items) <= n
    requires r == PersistWalk(w, items, s)
    ensures AllPlaced(w, items, r.seen) && Walked(w, body, r.seen, n) && NewSmall(body, s.seen, r.seen, Size(items))
    decreases items, 0
  {
    if items != [] {
      var t := PersistItem(w, items[0], s);
      ItemPlaced(w, body, items[0], s, t, n);
      WalkPlaced(w, body, items[1..], t, r, n);
      forall k: Role, a: nat {:trigger Needs(items, k, a)} | Needs(items, k, a) ensures Placed(w, k, a, r.seen) {
        if NeedsIn(items[0], k, a) {
          assert Placed(w, k, a, t.seen);
        } else {
          assert Needs(items[1..], k, a);
        }
      }
    }
  }

  // ---- and to nothing else

  /** A string that has to be copied: it is neither interned nor will be. */
  ghost predicate Stays(w: World, a: nat) { w.place(a) == a && !w.interned(a) }

  ghost predicate Wanted(w: World, items: seq<Item>, a: nat) {
    Needs(items, Block, a) || Needs(items, Dropped, a) || (Needs(items, String, a) && Stays(w, a))
  }

  ghost predicate WantedIn(w: World, i: Item, a: nat) {
    NeedsIn(i, Block, a) || NeedsIn(i, Dropped, a) || (NeedsIn(i, String, a) && Stays(w, a))
  }

  lemma ItemWanted(w: World, i: Item, s: Copy, r: Copy, a: nat)
    requires Lawful(w) && r == PersistItem(w, i, s) && a in r.seen && a !in s.seen
    ensures WantedIn(w, i, a)
    decreases i
  {
    match i
    case Once(b, body) => if a != b { WalkWanted(w, body, CopyDup(w, b, s), r, a); }
    case Sub(items) => WalkWanted(w, items, s, r, a);
    case _ =>
  }

  lemma {:induction false} WalkWanted(w: World, items: seq<Item>, s: Copy, r: Copy, a: nat)
    requires Lawful(w) && r == PersistWalk(w, items, s) && a in r.seen && a !in s.seen
    ensures Wanted(w, items, a)
    decreases items
  {
    if items != [] {
      var t := PersistItem(w, items[0], s);
      if a in t.seen {
        ItemWanted(w, items[0], s, t, a);
      } else {
        WalkWanted(w, items[1..], t, r, a);
      }
    }
  }

  // ---- a script

  lemma {:induction false} NeededKinds(w: World, items: seq<Item>, k: Role, a: nat)
    requires TidyPersist(w, items) && Needs(items, k, a)
    ensures w.kind(a) == Marked <==> k == Dropped
    decreases items
  {
    if NeedsIn(items[0], k, a) {
      NeededKind(w, items[0], k, a);
    } else {
      NeededKinds(w, items[1..], k, a);
    }
  }

  lemma NeededKind(w: World, i: Item, k: Role, a: nat)
    requires TidyPersistItem(w, i) && NeedsIn(i, k, a)
    ensures w.kind(a) == Marked <==> k == Dropped
    decreases i
  {
    if i.Once? && Needs(i.body, k, a) {
      NeededKinds(w, i.body, k, a);
    } else if i.Sub? {
      NeededKinds(w, i.items, k, a);
    }
  }

  /** An address that a script refers to as a block is copied, one it refers to as a string is copied if it is neither
      interned already nor gets interned, and no other address is. So no pointer of the script is left without a copy
      of what it pointed to, or an interned string. Comments that are not saved are entered in the table, so that they
      are freed once, and not copied. */
  lemma CopiedExactly(w: World, body: map<nat, seq<Item>>, s: Script, save: bool, start: nat, p: Copy, a: nat)
    requires Lawful(w) && TidyPersist(w, ScriptPersist(s, save)) && OneBody(body, ScriptPersist(s, save))
    requires p == PersistWalk(w, ScriptPersist(s, save), FreshCopy(start))
    ensures a in Copied(w, p.seen) <==>
            ScriptRefers(s, Block, a, save) || (ScriptRefers(s, String, a, save) && Stays(w, a))
    ensures a in p.seen && a !in Copied(w, p.seen) <==> ScriptRefers(s, Dropped, a, save)
    ensures ScriptRefers(s, String, a, save) ==> w.interned(w.place(a)) || w.place(a) in Copied(w, p.seen)
  {
    var items := ScriptPersist(s, save);
    ScriptNeeds(s, save, Block, a);
    ScriptNeeds(s, save, String, a);
    ScriptNeeds(s, save, Dropped, a);
    WalkPlaced(w, body, items, FreshCopy(start), p, Size(items));
    if a in p.seen {
      WalkWanted(w, items, FreshCopy(start), p, a);
    }
    forall k: Role | Needs(items, k, a) ensures Placed(w, k, a, p.seen) && (w.kind(a) == Marked <==> k == Dropped) {
      NeededKinds(w, items, k, a);
    }
  }

  /** And room is reserved for exactly these, and for the keys of buckets that were interned before. */
  lemma SizedExactly(w: World, body: map<nat, seq<Item>>, s: Script, save: bool, c: Sum, a: nat)
    requires Lawful(w) && TidyCalc(w, ScriptCalc(s, save)) && TidyPersist(w, ScriptPersist(s, save))
    requires OneBody(body, ScriptPersist(s, save))
    requires c == CalcWalk(w, ScriptCalc(s, save), NOTHING) && NoDup(c.raws)
    ensures a in c.raws || (a in c.seen && !w.interned(a)) <==>
            ScriptRefers(s, Block, a, save) || (ScriptRefers(s, String, a, save) && Stays(w, a))
  {
    var p := PersistWalk(w, ScriptPersist(s, save), FreshCopy(0));
    ScriptAgree(s, save);
    AgreeWalks(w, ScriptCalc(s, save), ScriptPersist(s, save), NOTHING, FreshCopy(0));
    CopiedIs(w, c, p);
    CopiedExactly(w, body, s, save, 0, p, a);
  }

  // ---- a function with one variable

  const ONE_VARIABLE: OpArray := OpArray(true, 0, 0, [], 8, 0, 0, [], 0, NoStatics, 0, 0, 16, [24])
  const VARIABLE_SCRIPT: Script := Script(NO_TABLE, NO_TABLE, ONE_VARIABLE, 32, 40, 48)

  function NothingInterned(): World { World(a => 8, a => false, a => a, a => Shared) }

  lemma VariableCalls()
    ensures ScriptPersist(VARIABLE_SCRIPT, true) ==
            [Sub([]), Sub([]), Sub([Once(8, []), Once(16, [Text(24)])]), Dup(32), Dup(40), Dup(48)]
  {
    assert HashPersist(NO_TABLE, true) == [];
    assert [24][..0] == [] && Texts([24]) == [Text(24)];
    assert OpArrayPersist(ONE_VARIABLE, true) == [Once(8, []), Once(16, [Text(24)])];
    assert OpArrayPersist(VARIABLE_SCRIPT.main, true) == OpArrayPersist(ONE_VARIABLE, true);
    assert HashPersist(VARIABLE_SCRIPT.functions, true) == [] && HashPersist(VARIABLE_SCRIPT.classes, true) == [];
  }

  lemma NextTidy(w: World, body: map<nat, seq<Item>>, i: Item, rest: seq<Item>)
    requires TidyPersistItem(w, i) && OneBodyIn(body, i) && TidyPersist(w, rest) && OneBody(body, rest)
    ensures TidyPersist(w, [i] + rest) && OneBody(body, [i] + rest)
  {
    assert ([i] + rest)[1..] == rest;
  }

  lemma VariableTidy(w: World, body: map<nat, seq<Item>>, items: seq<Item>)
    requires w == NothingInterned() && body == map[8 := [], 16 := [Text(24)]]
    requires items == [Sub([]), Sub([]), Sub([Once(8, []), Once(16, [Text(24)])]), Dup(32), Dup(40), Dup(48)]
    ensures TidyPersist(w, items) && OneBody(body, items)
  {
    NextTidy(w, body, Text(24), []);
    NextTidy(w, body, Once(16, [Text(24)]), []);
    NextTidy(w, body, Once(8, []), [Once(16, [Text(24)])]);
    var inner := [Once(8, []), Once(16, [Text(24)])];
    assert inner == [Once(8, [])] + [Once(16, [Text(24)])];
    NextTidy(w, body, Dup(48), []);
    NextTidy(w, body, Dup(40), [Dup(48)]);
    NextTidy(w, body, Dup(32), [Dup(40)] + [Dup(48)]);
    var rest := [Dup(32)] + ([Dup(40)] + [Dup(48)]);
    NextTidy(w, body, Sub(inner), rest);
    NextTidy(w, body, Sub([]), [Sub(inner)] + rest);
    NextTidy(w, body, Sub([]), [Sub([])] + ([Sub(inner)] + rest));
    assert items == [Sub([])] + ([Sub([])] + ([Sub(inner)] + rest));
  }

  /** The name of the variable is copied, with the op array's other blocks, the key, the path and the script. */
  lemma VariableCopied(start: nat, p: Copy)
    requires p == PersistWalk(NothingInterned(), ScriptPersist(VARIABLE_SCRIPT, true), FreshCopy(start))
    ensures Copied(NothingInterned(), p.seen) == {8, 16, 24, 32, 40, 48}
  {
    var w, body := NothingInterned(), map[8 := [], 16 := [Text(24)]];
    VariableCalls();
    VariableTidy(w, body, ScriptPersist(VARIABLE_SCRIPT, true));
    forall a: nat ensures a in Copied(w, p.seen) <==> a in {8, 16, 24, 32, 40, 48} {
      CopiedExactly(w, body, VARIABLE_SCRIPT, true, start, p, a);
      assert NameRefers([24], String, a) <==> a == 24 by {
        assert [24][0] == 24;
      }
    }
  }
}
