/** The bookkeeping of one rewrite of a jump: del_source on the block it no longer leads to, the new code, and
    ADD_SOURCE for the blocks it leads to now. All of it together is an edit of the graph. */
module Redirects {
  import opened Cfgs
  import opened CfgEdit

  // ---- bookkeeping of one rewrite: b becomes blk, and no longer leads to y

  /** The same blocks, but for their sources. */
  ghost predicate SameBlocks(a: Cfg, c: Cfg) {
    |a| == |c| && forall z: nat {:trigger c[z]} {:trigger a[z]} :: z < |a| ==>
      SameCode(c[z], a[z]) && c[z].access == a[z].access
  }

  ghost predicate NoDups(cfg: Cfg) {
    forall z: nat {:trigger cfg[z].sources} :: z < |cfg| && cfg[z].access ==> NoDup(cfg[z].sources)
  }

  function AddSources(cfg: Cfg, b: nat, blk: Block): (r: Cfg)
    ensures |r| == |cfg|
  {
    AddSource(AddSource(AddSource(AddSource(cfg, b, blk.op2To), b, blk.extTo), b, blk.op1To), b, blk.followTo)
  }

  lemma AddSourceFacts(cfg: Cfg, b: nat, to: int)
    ensures var r := AddSource(cfg, b, to);
      && SameBlocks(cfg, r) && (NoDups(cfg) ==> NoDups(r))
      && forall z: nat, s: nat {:trigger s in r[z].sources} :: z < |cfg| ==>
           (s in r[z].sources <==> s in cfg[z].sources || (s == b && z == to))
  {
  }

  lemma AddSourcesFacts(cfg: Cfg, b: nat, blk: Block)
    ensures var r := AddSources(cfg, b, blk);
      && SameBlocks(cfg, r) && (NoDups(cfg) ==> NoDups(r))
      && forall z: nat, s: nat {:trigger s in r[z].sources} :: z < |cfg| ==>
           (s in r[z].sources <==> s in cfg[z].sources || (s == b && Edge(blk, z)))
  {
    var c1 := AddSource(cfg, b, blk.op2To);
    var c2 := AddSource(c1, b, blk.extTo);
    var c3 := AddSource(c2, b, blk.op1To);
    AddSourceFacts(cfg, b, blk.op2To);
    AddSourceFacts(c1, b, blk.extTo);
    AddSourceFacts(c2, b, blk.op1To);
    AddSourceFacts(c3, b, blk.followTo);
    forall z: nat, s: nat | z < |cfg|
      ensures s in AddSources(cfg, b, blk)[z].sources <==> s in cfg[z].sources || (s == b && Edge(blk, z))
    {
    }
  }

  /** Give block b the code of blk, leaving its place among the others as it is. */
  function SetCode(cfg: Cfg, b: nat, blk: Block): (r: Cfg)
    requires b < |cfg|
    ensures |r| == |cfg|
  {
    cfg[b := cfg[b].(ops := blk.ops, op1To := blk.op1To, op2To := blk.op2To, extTo := blk.extTo,
      followTo := blk.followTo)]
  }

  /** Only where ADD_SOURCE is called for. */
  function Led(op1To: int, op2To: int, extTo: int, followTo: int): Block {
    Block(false, [], op1To, op2To, extTo, followTo, [], false)
  }

  /** What becomes of y. */
  function FateOf(cfg: Cfg, b: nat, y: nat): Fate
    requires y < |cfg|
  {
    var left := Without(cfg[y].sources, b);
    if left == [] then Dropped
    else if !cfg[y].protected && |left| == 1 && left[0] < |cfg| && left[0] != y
      && OnlyFallsTo(cfg[left[0]], y) then Merged(left[0])
    else Kept
  }

  function SetLinks(cfg: Cfg, b: nat, blk: Block): (r: Cfg)
    requires b < |cfg|
    ensures |r| == |cfg|
  {
    cfg[b := cfg[b].(op1To := blk.op1To, op2To := blk.op2To, extTo := blk.extTo, followTo := blk.followTo)]
  }

  /** del_source(b, y), the new code of b, and ADD_SOURCE for the blocks that add leads to. The op is written first; if
      del_source joins b itself to another block it goes along, and b has no ops any more. */
  function Redirect(cfg: Cfg, b: nat, y: nat, blk: Block, add: Block): (r: Cfg)
    requires b < |cfg| && y < |cfg|
    ensures |r| == |cfg|
  {
    if y == b && FateOf(cfg, b, y) != Kept then
      AddSources(SetLinks(DelSource(cfg[b := cfg[b].(ops := blk.ops)], b, y), b, blk), b, add)
    else AddSources(SetCode(DelSource(cfg, b, y), b, blk), b, add)
  }

  lemma ReplaceInFacts(cfg: Cfg, at: int, gone: nat, kept: nat)
    requires NoDups(cfg) && gone != kept
    ensures var r := ReplaceIn(cfg, at, gone, kept);
      && SameBlocks(cfg, r) && NoDups(r)
      && forall z: nat, s: nat {:trigger s in r[z].sources} :: z < |cfg| && cfg[z].access ==>
           (s in r[z].sources <==>
             if z == at && gone in cfg[z].sources then s == kept || (s in cfg[z].sources && s != gone)
                                   else s in cfg[z].sources)
  {
    if 0 <= at < |cfg| && cfg[at].access {
      ReplacedFacts(cfg[at].sources, gone, kept);
    }
  }

  function Ways(blk: Block): set<int> { {blk.op1To, blk.op2To, blk.extTo, blk.followTo} }

  /** Afterwards kept is a source wherever gone was, among the blocks that to leads to. */
  ghost predicate Swapped(cfg: Cfg, at: set<int>, gone: nat, kept: nat, r: Cfg) {
    && SameBlocks(cfg, r) && NoDups(r)
    && forall z: nat, s: nat {:trigger s in r[z].sources} :: z < |cfg| && cfg[z].access ==>
         (s in r[z].sources <==>
           if z in at && gone in cfg[z].sources then s == kept || (s in cfg[z].sources && s != gone)
                                 else s in cfg[z].sources)
  }

  lemma SwapOneMore(cfg: Cfg, at: set<int>, gone: nat, kept: nat, r: Cfg, to: int)
    requires NoDups(cfg) && gone != kept && Swapped(cfg, at, gone, kept, r)
    ensures Swapped(cfg, at + {to}, gone, kept, ReplaceIn(r, to, gone, kept))
  {
    ReplaceInFacts(r, to, gone, kept);
  }

  lemma ReplaceAllFacts(cfg: Cfg, to: Block, gone: nat, kept: nat)
    requires NoDups(cfg) && gone != kept
    ensures Swapped(cfg, Ways(to), gone, kept, ReplaceAll(cfg, to, gone, kept))
  {
    var r1 := ReplaceIn(cfg, to.op1To, gone, kept);
    var r2 := ReplaceIn(r1, to.op2To, gone, kept);
    var r3 := ReplaceIn(r2, to.extTo, gone, kept);
    assert Swapped(cfg, {}, gone, kept, cfg);
    SwapOneMore(cfg, {}, gone, kept, cfg, to.op1To);
    SwapOneMore(cfg, {to.op1To}, gone, kept, r1, to.op2To);
    SwapOneMore(cfg, {to.op1To, to.op2To}, gone, kept, r2, to.extTo);
    SwapOneMore(cfg, {to.op1To, to.op2To, to.extTo}, gone, kept, r3, to.followTo);
  }

  /** Which source lists del_source(b, y) leaves behind. */
  ghost predicate SourcesAfter(cfg: Cfg, b: nat, y: nat, fate: Fate, r: Cfg) {
    && |r| == |cfg| && NoDups(r)
    && forall z: nat, s: nat {:trigger s in r[z].sources} :: z < |cfg| && r[z].access ==>
         (s in r[z].sources <==>
            if fate.Merged? then
              (if s == fate.f then s in cfg[z].sources || y in cfg[z].sources else s != y && s in cfg[z].sources)
            else s in cfg[z].sources && !(z == y && s == b))
  }

  /** What it leaves of the blocks. */
  ghost predicate BlocksAfter(cfg: Cfg, y: nat, fate: Fate, r: Cfg)
    requires y < |cfg|
  {
    && |r| == |cfg|
    && (forall z: nat {:trigger r[z]} :: z < |cfg| ==> (r[z].access <==> cfg[z].access && (fate.Kept? || z != y)))
    && (forall z: nat {:trigger r[z]} :: z < |cfg| && r[z].access ==>
          SameCode(r[z], if fate.Merged? && z == fate.f then cfg[y].(ops := cfg[z].ops + cfg[y].ops) else cfg[z]))
  }

  lemma FateIsJustified(cfg: Cfg, root: int, b: nat, y: nat)
    requires Wf(cfg, root) && Live(cfg, b) && Live(cfg, y) && Edge(cfg[b], y) && (y != b || FateOf(cfg, b, y) == Kept)
    ensures Justified(cfg, b, y, FateOf(cfg, b, y))
    ensures NoDup(Without(cfg[y].sources, b))
      && forall s: nat :: s in Without(cfg[y].sources, b) <==> s in cfg[y].sources && s != b
  {
    WithoutFacts(cfg[y].sources, b);
    var left := Without(cfg[y].sources, b);
    if |left| == 1 {
      assert left[0] in left;
    }
  }

  lemma NoDupsOfWf(cfg: Cfg, root: int)
    requires Wf(cfg, root)
    ensures NoDups(cfg)
  {
    forall z: nat | z < |cfg| && cfg[z].access ensures NoDup(cfg[z].sources) {
      assert Live(cfg, z);
    }
  }

  /** Block y without the source b. */
  function Unlinked(cfg: Cfg, b: nat, y: nat): (r: Cfg)
    requires y < |cfg|
    ensures |r| == |cfg|
  {
    cfg[y := cfg[y].(sources := Without(cfg[y].sources, b))]
  }

  lemma DelSourceCases(cfg: Cfg, b: nat, y: nat)
    requires y < |cfg| && b in cfg[y].sources
    ensures match FateOf(cfg, b, y)
      case Kept => DelSource(cfg, b, y) == Unlinked(cfg, b, y)
      case Dropped => DelSource(cfg, b, y) == cfg[y := cfg[y].(sources := [], access := false)]
      case Merged(f) => f < |cfg| && f != y && DelSource(cfg, b, y) == Merge(Unlinked(cfg, b, y), f, y)
  {
  }

  lemma UnusedFacts(cfg: Cfg, b: nat, y: nat, u: Cfg)
    requires y < |cfg| && SourcesAfter(cfg, b, y, Kept, u) && BlocksAfter(cfg, y, Kept, u) && u == Unlinked(cfg, b, y)
    ensures var r := cfg[y := cfg[y].(sources := [], access := false)];
      BlocksAfter(cfg, y, Dropped, r) && SourcesAfter(cfg, b, y, Dropped, r)
  {
    var r := cfg[y := cfg[y].(sources := [], access := false)];
    assert forall z: nat {:trigger r[z]} :: z < |cfg| && z != y ==> r[z] == u[z];
  }

  lemma DelSourceFacts(cfg: Cfg, root: int, b: nat, y: nat)
    requires Wf(cfg, root) && Live(cfg, b) && Live(cfg, y) && Edge(cfg[b], y) && (y != b || FateOf(cfg, b, y) == Kept)
    ensures BlocksAfter(cfg, y, FateOf(cfg, b, y), DelSource(cfg, b, y))
    ensures SourcesAfter(cfg, b, y, FateOf(cfg, b, y), DelSource(cfg, b, y))
  {
    FateIsJustified(cfg, root, b, y);
    NoDupsOfWf(cfg, root);
    assert b in cfg[y].sources;
    DelSourceCases(cfg, b, y);
    var u := Unlinked(cfg, b, y);
    assert NoDups(u);
    assert SourcesAfter(cfg, b, y, Kept, u) && BlocksAfter(cfg, y, Kept, u);
    match FateOf(cfg, b, y)
    case Kept =>
    case Dropped =>
      UnusedFacts(cfg, b, y, u);
    case Merged(f) =>
      MergeFacts(cfg, root, b, y, f, u);
  }

  lemma MergeFacts(cfg: Cfg, root: int, b: nat, y: nat, f: nat, cfg1: Cfg)
    requires Wf(cfg, root) && y < |cfg| && Live(cfg, y) && y != b && NoDups(cfg1)
    requires FateOf(cfg, b, y) == Merged(f) && Justified(cfg, b, y, Merged(f))
    requires cfg1 == Unlinked(cfg, b, y)
    ensures BlocksAfter(cfg, y, Merged(f), Merge(cfg1, f, y))
    ensures SourcesAfter(cfg, b, y, Merged(f), Merge(cfg1, f, y))
  {
    var to := cfg1[y];
    var joined := cfg1[f].(ops := cfg1[f].ops + to.ops, followTo := to.followTo, op1To := to.op1To,
                           op2To := to.op2To, extTo := to.extTo);
    var cfg2 := cfg1[y := to.(ops := [], access := false, sources := [])][f := joined];
    var r := Merge(cfg1, f, y);
    assert NoDups(cfg2);
    ReplaceAllFacts(cfg2, to, y, f);
    assert Swapped(cfg2, Ways(to), y, f, r);
    forall z: nat, s: nat | z < |cfg| && r[z].access
      ensures s in r[z].sources <==> if s == f then s in cfg[z].sources || y in cfg[z].sources
        else s != y && s in cfg[z].sources
    {
      assert cfg2[z].access && Live(cfg, z) && cfg2[z].sources == cfg[z].sources;
      if y in cfg[z].sources {
        assert Edge(cfg[y], z);
      }
    }
  }

  /** A rewriting of block b whose new code leads only to blocks that were led to, and still to all but y. */
  ghost predicate Sensible(cfg: Cfg, root: int, b: nat, y: nat, blk: Block, add: Block) {
    && Wf(cfg, root) && Live(cfg, b) && !NopOnly(cfg[b]) && Live(cfg, y) && Edge(cfg[b], y)
    && Shaped(blk) && (blk.followTo >= 0 ==> Falls(cfg, b, blk.followTo))
    && (forall e {:trigger Edge(blk, e)} :: Edge(blk, e) ==> Targeted(cfg, e))
    && (forall e {:trigger Edge(cfg[b], e)} :: Edge(cfg[b], e) && e != y ==> Edge(blk, e))
    && (forall e {:trigger Edge(add, e)} :: Edge(add, e) ==> Edge(blk, e))
    && (forall e {:trigger Edge(blk, e)} :: Edge(blk, e) && e != y ==> Edge(add, e) || Edge(cfg[b], e))
  }

  /** What it relies on: the entry, and a block that b is or leads to afterwards, survives del_source; and if b leads to
      y afterwards ADD_SOURCE says so again. */
  predicate Fine(cfg: Cfg, root: int, b: nat, y: nat, blk: Block, add: Block)
    requires y < |cfg|
  {
    && (Edge(blk, y) ==> Edge(add, y))
    && (y == root || y == b || Edge(blk, y) ==> FateOf(cfg, b, y) == Kept)
  }

  ghost predicate Fits(cfg: Cfg, root: int, b: nat, y: nat, blk: Block, add: Block) {
    Sensible(cfg, root, b, y, blk, add) && Fine(cfg, root, b, y, blk, add)
  }

  /** Another block that leads to y, and not by falling to it alone, keeps it from being dropped or joined. */
  lemma KeptIfStillLedTo(cfg: Cfg, root: int, b: nat, y: nat, t: nat)
    requires Wf(cfg, root) && Live(cfg, b) && Live(cfg, y)
    requires Live(cfg, t) && t != b && Edge(cfg[t], y) && !OnlyFallsTo(cfg[t], y)
    ensures FateOf(cfg, b, y) == Kept
  {
    WithoutFacts(cfg[y].sources, b);
    var left := Without(cfg[y].sources, b);
    assert t in cfg[y].sources && t in left;
    if |left| == 1 {
      assert left[0] == t;
    }
  }

  lemma RedirectLists(cfg: Cfg, b: nat, y: nat, blk: Block, add: Block)
    requires b < |cfg| && y < |cfg| && (y != b || FateOf(cfg, b, y) == Kept)
    ensures var r := Redirect(cfg, b, y, blk, add);
      forall z: nat, s: nat {:trigger s in r[z].sources} :: z < |cfg| ==>
        (s in r[z].sources <==> s in DelSource(cfg, b, y)[z].sources || (s == b && Edge(add, z)))
  {
    AddSourcesFacts(SetCode(DelSource(cfg, b, y), b, blk), b, add);
  }

  lemma RedirectSame(cfg: Cfg, b: nat, y: nat, blk: Block, add: Block)
    requires b < |cfg| && y < |cfg| && NoDups(DelSource(cfg, b, y)) && (y != b || FateOf(cfg, b, y) == Kept)
    ensures var r, d := Redirect(cfg, b, y, blk, add), DelSource(cfg, b, y);
      && NoDups(r)
      && forall x: nat {:trigger r[x]} :: x < |cfg| ==>
            r[x].access == d[x].access && SameCode(r[x], if x == b then blk else d[x])
  {
    var d := SetCode(DelSource(cfg, b, y), b, blk);
    AddSourcesFacts(d, b, add);
    assert NoDups(d);
  }

  lemma BlocksOf(cfg: Cfg, b: nat, y: nat, blk: Block, fate: Fate, d: Cfg, r: Cfg)
    requires b < |cfg| && y < |cfg| && BlocksAfter(cfg, y, fate, d) && |r| == |cfg|
    requires forall x: nat {:trigger r[x]} :: x < |cfg| ==>
      r[x].access == d[x].access && SameCode(r[x], if x == b then blk else d[x])
    ensures forall x: nat {:trigger r[x]} :: x < |cfg| ==> (r[x].access <==> cfg[x].access && (fate.Kept? || x != y))
    ensures forall x: nat {:trigger r[x]} :: x < |cfg| && r[x].access ==> SameCode(r[x], Code2(cfg, b, y, blk, fate, x))
  {
    forall x: nat | x < |cfg| && r[x].access ensures SameCode(r[x], Code2(cfg, b, y, blk, fate, x)) {
      assert d[x].access;
    }
  }

  lemma RedirectBlocks(cfg: Cfg, root: int, b: nat, y: nat, blk: Block, add: Block)
    requires Fits(cfg, root, b, y, blk, add)
    ensures var r, fate := Redirect(cfg, b, y, blk, add), FateOf(cfg, b, y);
      && |r| == |cfg| && NoDups(r)
      && (forall x: nat {:trigger r[x]} :: x < |cfg| ==> (r[x].access <==> cfg[x].access && (fate.Kept? || x != y)))
      && forall x: nat {:trigger r[x]} :: x < |cfg| && r[x].access ==> SameCode(r[x], Code2(cfg, b, y, blk, fate, x))
  {
    DelSourceFacts(cfg, root, b, y);
    RedirectSame(cfg, b, y, blk, add);
    BlocksOf(cfg, b, y, blk, FateOf(cfg, b, y), DelSource(cfg, b, y), Redirect(cfg, b, y, blk, add));
  }

  lemma RedirectEdgeBack(cfg: Cfg, root: int, b: nat, y: nat, blk: Block, add: Block, r: Cfg, x: nat, z: nat)
    requires Fits(cfg, root, b, y, blk, add) && r == Redirect(cfg, b, y, blk, add)
    requires Live(r, x) && Edge(r[x], z)
    ensures Live(r, z) && x in r[z].sources
  {
    var fate := FateOf(cfg, b, y);
    RedirectBlocks(cfg, root, b, y, blk, add);
    RedirectLists(cfg, b, y, blk, add);
    DelSourceFacts(cfg, root, b, y);
    FateIsJustified(cfg, root, b, y);
    assert Live(cfg, x) && Edge(Code2(cfg, b, y, blk, fate, x), z);
    if x == b {
      assert Edge(blk, z);
      assert Targeted(cfg, z);
      if !Edge(add, z) {
        assert z != y && Edge(cfg[b], z) && b in cfg[z].sources;
      }
    } else if fate.Merged? && x == fate.f {
      assert Edge(cfg[y], z) && Live(cfg, z) && y in cfg[z].sources;
    } else {
      assert Edge(cfg[x], z) && Live(cfg, z) && x in cfg[z].sources;
    }
  }

  lemma RedirectSourceTrue(cfg: Cfg, root: int, b: nat, y: nat, blk: Block, add: Block, r: Cfg, x: nat, z: nat)
    requires Fits(cfg, root, b, y, blk, add) && r == Redirect(cfg, b, y, blk, add)
    requires Live(r, x) && Live(r, z) && x in r[z].sources
    ensures Edge(r[x], z)
  {
    var fate := FateOf(cfg, b, y);
    RedirectBlocks(cfg, root, b, y, blk, add);
    RedirectLists(cfg, b, y, blk, add);
    DelSourceFacts(cfg, root, b, y);
    FateIsJustified(cfg, root, b, y);
    assert Live(cfg, x) && Live(cfg, z) && SameCode(r[x], Code2(cfg, b, y, blk, fate, x));
    if x == b {
      assert Edge(blk, z) by {
        if !Edge(add, z) {
          assert z != y && Edge(cfg[b], z);
        }
      }
    } else if fate.Merged? && x == fate.f {
      assert fate.f in cfg[z].sources || y in cfg[z].sources;
      assert Edge(cfg[fate.f], z) || Edge(cfg[y], z);
      assert Edge(cfg[y], z);
    } else {
      assert x in cfg[z].sources;
      assert Edge(cfg[x], z);
    }
  }

  lemma RedirectSources(cfg: Cfg, root: int, b: nat, y: nat, blk: Block, add: Block)
    requires Fits(cfg, root, b, y, blk, add)
    ensures SourcesExact(Redirect(cfg, b, y, blk, add))
  {
    var r := Redirect(cfg, b, y, blk, add);
    RedirectBlocks(cfg, root, b, y, blk, add);
    forall z | Live(r, z) ensures NoDup(r[z].sources) {
      var w: nat := z;
      assert r[w].access;
    }
    forall x, z | Live(r, x) && Edge(r[x], z) ensures Live(r, z) && x in r[z].sources {
      RedirectEdgeBack(cfg, root, b, y, blk, add, r, x, z);
    }
    forall x, z | Live(r, x) && Live(r, z) && x in r[z].sources ensures Edge(r[x], z) {
      RedirectSourceTrue(cfg, root, b, y, blk, add, r, x, z);
    }
  }

  lemma RedirectEdit(cfg: Cfg, root: int, b: nat, y: nat, blk: Block, add: Block)
    requires Fits(cfg, root, b, y, blk, add)
    ensures Edit(cfg, b, y, blk, FateOf(cfg, b, y), Redirect(cfg, b, y, blk, add))
  {
    RedirectBlocks(cfg, root, b, y, blk, add);
    RedirectLists(cfg, b, y, blk, add);
    DelSourceFacts(cfg, root, b, y);
    FateIsJustified(cfg, root, b, y);
    RedirectSources(cfg, root, b, y, blk, add);
  }

  // ---- and it cannot do with less

  lemma ReplaceInKeeps(cfg: Cfg, at: int, gone: nat, kept: nat)
    ensures SameBlocks(cfg, ReplaceIn(cfg, at, gone, kept))
  {
  }

  lemma MergeEmpties(cfg: Cfg, f: nat, y: nat)
    requires f < |cfg| && y < |cfg| && f != y
    ensures !Merge(cfg, f, y)[y].access && Merge(cfg, f, y)[y].ops == []
  {
    var to := cfg[y];
    var joined := cfg[f].(ops := cfg[f].ops + to.ops, followTo := to.followTo, op1To := to.op1To,
                          op2To := to.op2To, extTo := to.extTo);
    var c0 := cfg[y := to.(ops := [], access := false, sources := [])][f := joined];
    var c1 := ReplaceIn(c0, to.op1To, y, f);
    var c2 := ReplaceIn(c1, to.op2To, y, f);
    var c3 := ReplaceIn(c2, to.extTo, y, f);
    ReplaceInKeeps(c0, to.op1To, y, f);
    ReplaceInKeeps(c1, to.op2To, y, f);
    ReplaceInKeeps(c2, to.extTo, y, f);
    ReplaceInKeeps(c3, to.followTo, y, f);
    assert Merge(cfg, f, y) == ReplaceIn(c3, to.followTo, y, f);
    assert !c1[y].access && !c2[y].access && !c3[y].access;
    assert c1[y].ops == c2[y].ops == c3[y].ops == [];
  }

  /** What del_source does to y if it does not keep it, and to its list if it does. */
  lemma DelSourceGone(cfg: Cfg, b: nat, y: nat)
    requires y < |cfg| && b in cfg[y].sources && NoDup(cfg[y].sources)
    ensures FateOf(cfg, b, y) != Kept ==> !DelSource(cfg, b, y)[y].access
    ensures FateOf(cfg, b, y) == Kept ==> b !in DelSource(cfg, b, y)[y].sources
  {
    WithoutFacts(cfg[y].sources, b);
    DelSourceCases(cfg, b, y);
    match FateOf(cfg, b, y)
    case Merged(f) => MergeEmpties(Unlinked(cfg, b, y), f, y);
    case _ =>
  }

  lemma RedirectCode(cfg: Cfg, b: nat, y: nat, blk: Block, add: Block)
    requires b < |cfg| && y < |cfg| && (y != b || FateOf(cfg, b, y) == Kept)
    ensures SameCode(Redirect(cfg, b, y, blk, add)[b], blk)
  {
    AddSourcesFacts(SetCode(DelSource(cfg, b, y), b, blk), b, add);
  }

  /** A block that is joined away by its own rewriting is gone. */
  lemma SelfGone(cfg: Cfg, b: nat, blk: Block, add: Block)
    requires b < |cfg| && b in cfg[b].sources && NoDup(cfg[b].sources) && FateOf(cfg, b, b) != Kept
    ensures var r := Redirect(cfg, b, b, blk, add); !r[b].access && (r[b].ops == blk.ops || r[b].ops == [])
  {
    WithoutFacts(cfg[b].sources, b);
    var c := cfg[b := cfg[b].(ops := blk.ops)];
    var left := Without(cfg[b].sources, b);
    if |left| == 1 {
      assert left[0] in left && left[0] != b;
    }
    assert FateOf(c, b, b) == FateOf(cfg, b, b);
    DelSourceGone(c, b, b);
    AddSourcesFacts(SetLinks(DelSource(c, b, b), b, blk), b, add);
    DelSourceCases(c, b, b);
    match FateOf(c, b, b)
    case Merged(f) => MergeEmpties(Unlinked(c, b, b), f, b);
    case _ =>
  }

  /** A block that del_source does not keep is gone afterwards. */
  lemma NotKeptIsGone(cfg: Cfg, root: int, b: nat, y: nat, blk: Block, add: Block)
    requires Sensible(cfg, root, b, y, blk, add) && y != b && FateOf(cfg, b, y) != Kept
    ensures !Live(Redirect(cfg, b, y, blk, add), y)
  {
    assert b in cfg[y].sources;
    DelSourceGone(cfg, b, y);
    AddSourcesFacts(SetCode(DelSource(cfg, b, y), b, blk), b, add);
  }

  /** A sensible rewriting leaves the graph in order, with block b in it, exactly if it is fine. */
  lemma RedirectExact(cfg: Cfg, root: int, b: nat, y: nat, blk: Block, add: Block)
    requires Sensible(cfg, root, b, y, blk, add)
    ensures var r := Redirect(cfg, b, y, blk, add); (Wf(r, root) && Live(r, b)) <==> Fine(cfg, root, b, y, blk, add)
  {
    var r := Redirect(cfg, b, y, blk, add);
    assert b in cfg[y].sources;
    if Fine(cfg, root, b, y, blk, add) {
      RedirectEdit(cfg, root, b, y, blk, add);
      EditWf(cfg, root, b, y, blk, FateOf(cfg, b, y), r);
    } else if y == b && FateOf(cfg, b, y) != Kept {
      SelfGone(cfg, b, blk, add);
    } else {
      DelSourceGone(cfg, b, y);
      RedirectCode(cfg, b, y, blk, add);
      var d := SetCode(DelSource(cfg, b, y), b, blk);
      AddSourcesFacts(d, b, add);
      assert r[y].access == d[y].access;
      if Live(r, b) && SourcesExact(r) && Edge(blk, y) {
        assert Edge(r[b], y);
      }
    }
  }

  ghost predicate SameEdges(a: Block, c: Block) {
    forall z {:trigger Edge(a, z)} {:trigger Edge(c, z)} :: Edge(a, z) <==> Edge(c, z)
  }

  lemma RecodeSources(cfg: Cfg, root: int, b: nat, blk: Block)
    requires Wf(cfg, root) && Live(cfg, b) && SameEdges(blk, cfg[b])
    ensures SourcesExact(SetCode(cfg, b, blk))
  {
    var r := SetCode(cfg, b, blk);
    forall x, z | Live(r, x) ensures Live(cfg, x) && (Edge(r[x], z) <==> Edge(cfg[x], z)) {
      assert x == b ==> (Edge(r[x], z) <==> Edge(blk, z));
    }
    forall x, z | Live(r, x) && Edge(r[x], z) ensures Live(r, z) && x in r[z].sources {
      assert Edge(cfg[x], z) && Live(cfg, z);
    }
    forall x, z | Live(r, x) && Live(r, z) && x in r[z].sources ensures Edge(r[x], z) {
      assert x in cfg[z].sources && Edge(cfg[x], z);
    }
  }

  /** New code that leads to the same blocks: no source list changes. */
  lemma RecodeEdit(cfg: Cfg, root: int, b: nat, y: nat, blk: Block)
    requires Wf(cfg, root) && Live(cfg, b) && !NopOnly(cfg[b]) && Edge(cfg[b], y)
    requires Shaped(blk) && (blk.followTo >= 0 ==> Falls(cfg, b, blk.followTo)) && SameEdges(blk, cfg[b])
    ensures Edit(cfg, b, y, blk, Kept, SetCode(cfg, b, blk))
  {
    RecodeSources(cfg, root, b, blk);
  }
}
