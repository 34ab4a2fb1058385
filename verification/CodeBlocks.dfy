/** The graph as the block pass holds it, and its operations on it step by step. */
module CodeBlocks {
  import opened Options
  import opened Machine
  import opened Cfgs
  import opened CfgEdit
  import opened Redirects
  import opened BlockDeletion
  import opened StripNops
  import opened JmpOptimization
  import opened Reach
  import opened Layout
  import opened FindBlocks
  import opened BlockPass

  /** Both block f and what it falls to may stand in one list only if f leads there itself. */
  lemma MergedIsNew(cfg: Cfg, root: int, b: nat, y: nat, f: nat, z: nat)
    requires Wf(cfg, root) && Live(cfg, y) && FateOf(cfg, b, y) == Merged(f)
    requires z < |cfg| && Edge(cfg[y], z) && z != y
    ensures f !in cfg[z].sources && NoDup(cfg[z].sources) && Live(cfg, z)
  {
    assert Live(cfg, z) && y in cfg[z].sources;
    assert f in cfg[z].sources ==> Edge(cfg[f], z);
  }

  lemma {:induction false} WithoutAt(l: seq<nat>, b: nat, i: nat)
    requires i < |l| && l[i] == b && b !in l[..i]
    ensures Without(l, b) == l[..i] + l[i + 1..]
  {
    if i > 0 {
      assert l[0] == l[..i][0] != b;
      assert l[1..][..i - 1] == l[..i][1..];
      WithoutAt(l[1..], b, i - 1);
      assert l[1..][i..] == l[i + 1..];
    }
  }

  lemma {:induction false} WithoutNone(l: seq<nat>, b: nat)
    requires b !in l
    ensures Without(l, b) == l
  {
    if l != [] {
      WithoutNone(l[1..], b);
    }
  }

  // ---- replace_source

  function After(l: seq<nat>, rest: Option<seq<nat>>): Option<seq<nat>> {
    if rest.Some? then Some(l + rest.value) else None
  }

  /** What the walk of replace_source makes of the rest of a list. When it deletes an entry it goes on to the next one
      at once; None if there is no next one. */
  function Walk(l: seq<nat>, found: bool, gone: nat, kept: nat): (r: Option<seq<nat>>)
    decreases |l|
  {
    if l == [] then Some([])
    else
      var l1 := if l[0] == kept && found then l[1..] else l;
      var found1 := found || l[0] == kept;
      if l1 == [] then None
      else
        var l2 := if l1[0] != gone then l1 else if found1 then l1[1..] else [kept] + l1[1..];
        if l2 == [] then None else After([l2[0]], Walk(l2[1..], found1 || l1[0] == gone, gone, kept))
  }

  lemma AfterBoth(done: seq<nat>, x: nat, rest: Option<seq<nat>>)
    ensures After(done, After([x], rest)) == After(done + [x], rest)
  {
    if rest.Some? {
      assert done + ([x] + rest.value) == done + [x] + rest.value;
    }
  }

  lemma {:induction false} WalkNothing(l: seq<nat>, found: bool, gone: nat, kept: nat)
    requires gone !in l && kept !in l
    ensures Walk(l, found, gone, kept) == Some(l)
  {
    if l != [] {
      WalkNothing(l[1..], found, gone, kept);
      assert l == [l[0]] + l[1..];
    }
  }

  lemma WalkAtSecond(l: seq<nat>, gone: nat, kept: nat)
    requires l != [] && (l[0] == gone || l[0] == kept) && gone != kept && gone !in l[1..] && kept !in l[1..]
    ensures Walk(l, true, gone, kept) == if |l| == 1 then None else Some(l[1..])
  {
    if |l| > 1 {
      assert l[1..][0] in l[1..];
      assert l[1..] == [l[1]] + l[2..];
      WalkNothing(l[2..], true, gone, kept);
    }
  }

  lemma NotInTail(l: seq<nat>)
    requires NoDup(l) && l != []
    ensures l[0] !in l[1..] && NoDup(l[1..]) && l == [l[0]] + l[1..]
    ensures |l| > 1 ==> l[|l| - 1] in l[1..]
  {
    assert |l| > 1 ==> l[1..][|l| - 2] == l[|l| - 1];
  }

  /** The second of the two blocks goes, unless it is the last of the list. */
  lemma {:induction false} WalkSecond(l: seq<nat>, gone: nat, kept: nat, x: nat)
    requires NoDup(l) && x in l && (x == gone || x == kept) && !(gone in l && kept in l) && gone != kept
    ensures Walk(l, true, gone, kept) == if l[|l| - 1] == x then None else Some(Without(l, x))
  {
    NotInTail(l);
    if l[0] == x {
      WalkAtSecond(l, gone, kept);
    } else {
      WalkSecond(l[1..], gone, kept, x);
    }
  }

  lemma ReplacedCons(x: nat, l: seq<nat>, gone: nat, kept: nat)
    requires x != gone && x != kept
    ensures Replaced([x] + l, gone, kept) == [x] + Replaced(l, gone, kept)
  {
    var c := [x] + l;
    assert c[0] == x && c[1..] == l;
    assert gone in c <==> gone in l;
    assert kept in c <==> kept in l;
  }

  /** On a list that holds at most one of the two blocks replace_source does what it is for. */
  lemma {:induction false} WalkFits(l: seq<nat>, gone: nat, kept: nat)
    requires NoDup(l) && gone != kept && !(gone in l && kept in l)
    ensures Walk(l, false, gone, kept) == Some(Replaced(l, gone, kept))
  {
    if l != [] {
      assert l == [l[0]] + l[1..];
      if l[0] == gone || l[0] == kept {
        WalkNothing(l[1..], true, gone, kept);
        assert l[0] == gone ==> Replaced(l, gone, kept) == [kept] + l[1..];
      } else {
        WalkFits(l[1..], gone, kept);
        ReplacedCons(l[0], l[1..], gone, kept);
      }
    }
  }

  lemma ToTheFront(l: seq<nat>, x: nat)
    requires NoDup(l) && x in l
    ensures SameMembers([x] + Without(l, x), l)
  {
    WithoutFacts(l, x);
    WithoutIn(l, x);
  }

  lemma GoneFirst(l: seq<nat>, t: seq<nat>, gone: nat, kept: nat)
    requires NoDup(t) && gone != kept && l == [gone] + t && gone !in t && kept in t
    ensures var r, last := Walk(l, false, gone, kept), t[|t| - 1];
      if last == kept then r == None else r.Some? && SameMembers(r.value, Replaced(l, gone, kept))
  {
    assert l[1..] == t && ([kept] + t)[1..] == t && kept in l;
    WalkSecond(t, gone, kept, kept);
    ToTheFront(t, kept);
  }

  /** On one that holds both it looks behind the end if the second of them is the last entry; otherwise the members come
      out right. */
  lemma {:induction false} WalkBoth(l: seq<nat>, gone: nat, kept: nat)
    requires NoDup(l) && gone != kept && gone in l && kept in l
    ensures var r, last := Walk(l, false, gone, kept), l[|l| - 1];
      if last == gone || last == kept then r == None else r.Some? && SameMembers(r.value, Replaced(l, gone, kept))
  {
    var t := l[1..];
    NotInTail(l);
    assert l[|l| - 1] == t[|t| - 1];
    if l[0] == kept {
      WalkSecond(t, gone, kept, gone);
      ReplacedFacts(l, gone, kept);
    } else if l[0] == gone {
      GoneFirst(l, t, gone, kept);
    } else {
      WalkBoth(t, gone, kept);
      ReplacedCons(l[0], t, gone, kept);
      ReplacedFacts(t, gone, kept);
      if t[|t| - 1] != gone && t[|t| - 1] != kept {
        ConsMembers(l[0], Walk(t, false, gone, kept).value, Replaced(t, gone, kept));
      }
    }
  }

  lemma WithoutIn(l: seq<nat>, x: nat)
    requires NoDup(l)
    ensures forall i {:trigger Without(l, x)[i]} :: 0 <= i < |Without(l, x)| ==>
      Without(l, x)[i] in l && Without(l, x)[i] != x
  {
    WithoutFacts(l, x);
    forall i | 0 <= i < |Without(l, x)| ensures Without(l, x)[i] in l && Without(l, x)[i] != x {
      assert Without(l, x)[i] in Without(l, x);
    }
  }

  lemma ConsMembers(x: nat, a: seq<nat>, b: seq<nat>)
    requires SameMembers(a, b) && x !in b
    ensures SameMembers([x] + a, [x] + b)
  {
    assert forall i :: 0 <= i < |a| ==> a[i] in a;
    assert forall i :: 0 <= i < |b| ==> b[i] in b;
  }

  ghost predicate SameMembers(a: seq<nat>, b: seq<nat>) {
    NoDup(a) && NoDup(b) && forall x: nat {:trigger x in a} {:trigger x in b} :: x in a <==> x in b
  }

  /** No list that replace_source is called on holds both blocks. */
  ghost predicate ListsFit(cfg: Cfg, to: Block, gone: nat, kept: nat) {
    forall z: nat {:trigger cfg[z]} {:trigger Edge(to, z)} :: z < |cfg| && Edge(to, z) ==>
      NoDup(cfg[z].sources) && !(gone in cfg[z].sources && kept in cfg[z].sources)
  }

  lemma ListsStay(cfg: Cfg, to: Block, gone: nat, kept: nat, at: int)
    requires ListsFit(cfg, to, gone, kept) && gone != kept && (at >= 0 ==> Edge(to, at))
    ensures ListsFit(ReplaceIn(cfg, at, gone, kept), to, gone, kept)
  {
    if 0 <= at < |cfg| {
      ReplacedFacts(cfg[at].sources, gone, kept);
    }
  }

  lemma JoinLists(was: Cfg, root: int, b: nat, y: nat, f: nat, cfg: Cfg)
    requires Wf(was, root) && Live(was, y) && FateOf(was, b, y) == Merged(f)
    requires |cfg| == |was| && cfg[y].sources == []
    requires forall z: nat {:trigger cfg[z]} :: z < |cfg| && z != y ==> cfg[z].sources == was[z].sources
    ensures ListsFit(cfg, was[y], y, f)
  {
    forall z: nat | z < |cfg| && Edge(was[y], z)
      ensures NoDup(cfg[z].sources) && !(y in cfg[z].sources && f in cfg[z].sources)
    {
      if z != y {
        MergedIsNew(was, root, b, y, f, z);
      }
    }
  }

  lemma NoSelfSource(cfg: Cfg, root: int, b: nat)
    requires Wf(cfg, root) && Live(cfg, b) && !Edge(cfg[b], b)
    ensures b !in cfg[b].sources
  {
  }

  lemma JumpNotSelf(cfg: Cfg, root: int, b: nat)
    requires Wf(cfg, root) && Live(cfg, b) && Last(cfg[b]).Jmp? && 0 <= cfg[b].op1To < |cfg|
    requires JumpRewriting(cfg, b).Lead?
    ensures cfg[b].op1To != b
  {
    JumpFits(cfg, root, b);
  }

  lemma FollowsLive(cfg: Cfg, root: int, b: nat)
    requires Wf(cfg, root) && Live(cfg, b) && Last(cfg[b]).CondJmp?
    ensures 0 <= cfg[b].followTo && Live(cfg, cfg[b].followTo) && Falls(cfg, b, cfg[b].followTo)
  {
    assert Shaped(cfg[b]);
  }

  /** Any environment will do to see that the invariant is kept. */
  function AnyEnv(): Env { Env(t => Throws, (t, n) => 0) }

  lemma SkipOnce(cfg: Cfg, root: int, b: nat)
    requires Wf(cfg, root) && Live(cfg, b) && Last(cfg[b]).CondJmp? && |cfg[b].ops| > 0 && SteadyFollow(cfg, root, b)
    requires 0 <= cfg[b].followTo < |cfg| && FirstReal(cfg[cfg[b].followTo].ops) == |cfg[cfg[b].followTo].ops|
    ensures var y, w := cfg[b].followTo, SkipRewriting(cfg, b);
      && w == Lead(y, cfg[b].(followTo := cfg[y].followTo), Led(-1, -1, -1, cfg[y].followTo)) && y < cfg[y].followTo
      && var r := Redirect(cfg, b, y, w.blk, w.add);
         SameCode(r[b], w.blk) && SteadyFollow(r, root, b) && SkipAll(cfg, b) == SkipAll(r, b)
         && Live(r, b) && Wf(r, root)
  {
    var y := cfg[b].followTo;
    FollowsLive(cfg, root, b);
    assert Shaped(cfg[y]) && NopOnly(cfg[y]);
    assert cfg[y].ops[|cfg[y].ops| - 1].Nop?;
    assert Falls(cfg, y, cfg[y].followTo);
    var w := SkipRewriting(cfg, b);
    SkipGood(AnyEnv(), cfg, root, b);
    ApplyPreserves(AnyEnv(), cfg, root, b, w);
    LeadKeepsBlock(AnyEnv(), cfg, root, b, w);
  }

  lemma ThreadOnce(cfg: Cfg, root: int, b: nat) returns (t: Cfg)
    requires Wf(cfg, root) && Live(cfg, b) && Tame(cfg, root, b) && Last(cfg[b]).CondJmp? && !Last(cfg[b]).cond.Const?
    requires |cfg[b].ops| > 0
    ensures |t| == |cfg| && t[b].ops == cfg[b].ops && t == Threaded(cfg, b)
    ensures Wf(t, root) && Live(t, b) && SteadyFollow(t, root, b) && JmpOptimize(cfg, b) == FuseNext(SkipAll(t, b), b)
  {
    t := Threaded(cfg, b);
    ThreadPreserves(AnyEnv(), cfg, root, b);
  }

  /** Some blocks of NOPs after block b have been stepped over. */
  ghost predicate Following(was: Cfg, cfg: Cfg, root: int, b: nat) {
    && Wf(cfg, root) && Live(cfg, b) && |cfg| == |was| && cfg[b].ops == was[b].ops && |cfg[b].ops| > 0
    && Last(cfg[b]).CondJmp?
    && 0 <= cfg[b].followTo < |cfg| && SteadyFollow(cfg, root, b) && SkipAll(was, b) == SkipAll(cfg, b)
  }

  lemma FollowingOnce(was: Cfg, cfg: Cfg, root: int, b: nat)
    requires Following(was, cfg, root, b) && NopOnly(cfg[cfg[b].followTo])
    ensures var y := cfg[b].followTo;
      var blk, add := cfg[b].(followTo := cfg[y].followTo), Led(-1, -1, -1, cfg[y].followTo);
      && y < cfg[y].followTo && y != b && Edge(cfg[b], y)
      && Redirect(cfg, b, y, blk, add)[b].followTo == cfg[y].followTo
      && Following(was, Redirect(cfg, b, y, blk, add), root, b)
  {
    SkipOnce(cfg, root, b);
    var y := cfg[b].followTo;
    var r := Redirect(cfg, b, y, SkipRewriting(cfg, b).blk, SkipRewriting(cfg, b).add);
    FollowsLive(cfg, root, b);
    FollowsLive(r, root, b);
  }

  lemma FollowingDone(was: Cfg, cfg: Cfg, root: int, b: nat)
    requires Following(was, cfg, root, b) && !NopOnly(cfg[cfg[b].followTo])
    ensures SkipAll(was, b) == cfg
  {
  }

  lemma ExtendsTrans(a: Cfg, b: Cfg, c: Cfg)
    requires Extends(a, b) && Extends(b, c)
    ensures Extends(a, c)
  {
  }

  lemma TakeMore(done: seq<nat>, l: seq<nat>, i: nat)
    requires i < |l|
    ensures done + l[..i] + [l[i]] == done + l[..i + 1] && l[i] in l
  {
  }

  lemma TakeAll(done: seq<nat>, l: seq<nat>)
    ensures done + l[..|l|] == done + l && done + l[..0] == done
  {
  }

  /** A block with a jump that was not stripped. */
  lemma AimedIsNotStripped(g: Cfg, root: int, j: nat)
    requires Wf(g, root) && j < |g| && g[j].access
    requires var blk := StripJump(g, j); blk.op1To >= 0 || blk.op2To >= 0 || blk.extTo >= 0
    ensures !Stripped(g, j) && StripJump(g, j) == g[j] && |g[j].ops| > 0
  {
    assert Live(g, j) && Shaped(g[j]);
  }

  lemma NothingToAim(g: Cfg, root: int, start: seq<nat>, out: seq<Op>, j: nat)
    requires Wf(g, root) && j < |g| && Based(g, start) && Copied(g, start, out, |g|, j)
    requires var blk := StripJump(g, j); !(blk.access && (blk.op1To >= 0 || blk.op2To >= 0 || blk.extTo >= 0))
    ensures Copied(g, start, out, |g|, j + 1)
  {
    if !g[j].access || Stripped(g, j) {
      AimNone(g, start, out, j);
    } else {
      assert Live(g, j) && Shaped(g[j]);
      var at := start[j] + |g[j].ops| - 1;
      AimOneMore(g, start, out, j, at);
      assert out[at := Aimed(start, g[j], out[at])] == out;
    }
  }

  lemma CopiedPrefix(g: Cfg, start: seq<nat>, out: seq<Op>, n: nat)
    requires Based(g, start) && Copied(g, start, out, |g|, |g|) && n == start[|g|] <= |out|
    ensures Laid(g, start, out[..n])
  {
    var m := |g|;
    forall x: nat, i: nat | x < |g| && i < Len(g, x) ensures OpAt(g, start, out[..n], x, i, m) {
      assert OpAt(g, start, out, x, i, m);
      BaseGrows(g, start, x + 1, |g|);
      assert start[x + 1] == start[x] + Len(g, x);
    }
  }

  lemma BlockFits(g: Cfg, j: nat, at: nat, n: nat)
    requires j < |g| && at <= Size(g, j) && Size(g, |g|) <= n
    ensures at + Len(g, j) <= Size(g, j + 1) <= n && (g[j].access ==> at + |g[j].ops| <= n) && at <= n
  {
    SizeGrows(g, j + 1, |g|);
  }

  class ControlFlow {
    var blocks: Cfg

    /** ADD_SOURCE */
    method AddSource(from: nat, to: int)
      modifies this
      ensures blocks == Cfgs.AddSource(old(blocks), from, to)
    {
      if 0 <= to < |blocks| {
        var list, i := blocks[to].sources, 0;
        while i < |list| && list[i] != from
          invariant 0 <= i <= |list| && from !in list[..i]
        {
          i := i + 1;
        }
        if i == |list| {
          assert list[..i] == list;
          blocks := blocks[to := blocks[to].(sources := [from] + list)];
        }
      }
    }

    /** replace_source on the sources of block at, if there is one. Not ok: it looks behind the end of the list. */
    method ReplaceSource(at: int, gone: nat, kept: nat) returns (ok: bool)
      requires gone != kept
      modifies this
      ensures var was := old(blocks);
        if !(0 <= at < |was|) then ok && blocks == was
        else var r := Walk(was[at].sources, false, gone, kept);
          ok == r.Some? && blocks == if ok then was[at := was[at].(sources := r.value)] else was
    {
      ok := true;
      if 0 <= at < |blocks| {
        var done, rest, found := [], blocks[at].sources, false;
        ghost var goal := Walk(rest, false, gone, kept);
        assert goal == After([], goal) by {
          assert goal.Some? ==> [] + goal.value == goal.value;
        }
        while rest != []
          invariant goal == After(done, Walk(rest, found, gone, kept)) && blocks == old(blocks)
          decreases |rest|
        {
          if rest[0] == kept {
            if found {
              rest := rest[1..];
            } else {
              found := true;
            }
          }
          if rest == [] {
            return false;
          }
          if rest[0] == gone {
            if found {
              rest := rest[1..];
            } else {
              rest := [kept] + rest[1..];
              found := true;
            }
          }
          if rest == [] {
            return false;
          }
          AfterBoth(done, rest[0], Walk(rest[1..], found, gone, kept));
          done, rest := done + [rest[0]], rest[1..];
        }
        assert done + [] == done;
        blocks := blocks[at := blocks[at].(sources := done)];
      }
    }

    /** A call of it by del_source. */
    method ReplaceOne(to: Block, at: int, gone: nat, kept: nat)
      requires gone != kept && ListsFit(blocks, to, gone, kept) && (at >= 0 ==> Edge(to, at))
      modifies this
      ensures blocks == ReplaceIn(old(blocks), at, gone, kept) && ListsFit(blocks, to, gone, kept)
    {
      ListsStay(blocks, to, gone, kept, at);
      if 0 <= at < |blocks| {
        WalkFits(blocks[at].sources, gone, kept);
      }
      var ok := ReplaceSource(at, gone, kept);
    }

    /** The loop of del_source: the first entry for b is unlinked. */
    static method DropFirst(list: seq<nat>, b: nat) returns (left: seq<nat>)
      ensures left == Without(list, b)
    {
      var i := 0;
      while i < |list| && list[i] != b
        invariant 0 <= i <= |list| && b !in list[..i]
      {
        i := i + 1;
      }
      if i < |list| {
        WithoutAt(list, b, i);
        left := list[..i] + list[i + 1..];
      } else {
        assert list[..i] == list;
        WithoutNone(list, b);
        left := list;
      }
    }

    /** del_source */
    method DelSource(from: nat, to: nat, ghost root: int)
      requires Wf(blocks, root) && Live(blocks, from) && Edge(blocks[from], to) && Live(blocks, to)
      modifies this
      ensures to < old(|blocks|) && blocks == Cfgs.DelSource(old(blocks), from, to)
    {
      ghost var was := blocks;
      assert from in blocks[to].sources;
      DelSourceCases(blocks, from, to);
      var list := DropFirst(blocks[to].sources, from);
      blocks := blocks[to := blocks[to].(sources := list)];
      if list == [] {
        blocks := blocks[to := blocks[to].(access := false)];
      } else if !blocks[to].protected && |list| == 1 && list[0] < |blocks| && list[0] != to
        && OnlyFallsTo(blocks[list[0]], to) {
        Join(list[0], to, was, from, root);
      }
    }

    /** The part of del_source that joins block y to block f. */
    method Join(f: nat, y: nat, ghost was: Cfg, ghost b: nat, ghost root: int)
      requires Wf(was, root) && Live(was, y) && FateOf(was, b, y) == Merged(f)
      requires blocks == Unlinked(was, b, y) && f < |blocks| && f != y
      modifies this
      ensures blocks == Merge(old(blocks), f, y)
    {
      var to := blocks[y];
      blocks := blocks[y := to.(ops := [], access := false, sources := [])]
                      [f := blocks[f].(ops := blocks[f].ops + to.ops, followTo := to.followTo, op1To := to.op1To,
                                       op2To := to.op2To, extTo := to.extTo)];
      JoinLists(was, root, b, y, f, blocks);
      ReplaceOne(to, to.op1To, y, f);
      ReplaceOne(to, to.op2To, y, f);
      ReplaceOne(to, to.extTo, y, f);
      ReplaceOne(to, to.followTo, y, f);
    }

    /** Block b stops leading to y and gets new code: del_source, the assignments to its fields, ADD_SOURCE. */
    method Retarget(b: nat, y: nat, blk: Block, add: Block, ghost root: int)
      requires Wf(blocks, root) && Live(blocks, b) && Live(blocks, y) && Edge(blocks[b], y)
      requires (y != b || FateOf(blocks, b, y) == Kept)
      modifies this
      ensures y < old(|blocks|) && blocks == Redirect(old(blocks), b, y, blk, add)
    {
      DelSource(b, y, root);
      blocks := SetCode(blocks, b, blk);
      AddSource(b, add.op2To);
      AddSource(b, add.extTo);
      AddSource(b, add.op1To);
      AddSource(b, add.followTo);
    }

    /** delete_code_block */
    method DeleteCodeBlock(b: nat)
      requires b < |blocks| && 0 <= blocks[b].followTo
      requires b !in blocks[b].sources && blocks[b].followTo != b
      modifies this
      ensures blocks == DeleteBlock(old(blocks), b, old(blocks[b].followTo))
    {
      if blocks[b].protected {
        return;
      }
      var list, to, i := blocks[b].sources, blocks[b].followTo, 0;
      ghost var was := blocks;
      while i < |list|
        invariant 0 <= i <= |list| && blocks == MoveSources(was, list[..i], b, to)
      {
        assert list[..i + 1] == list[..i] + [list[i]] && list[..i + 1][..i] == list[..i];
        if list[i] < |blocks| && Edge(blocks[list[i]], b) {
          blocks := blocks[list[i] := Moved(blocks[list[i]], b, to)];
          AddSource(list[i], to);
        }
        i := i + 1;
      }
      assert list[..i] == list;
      blocks := blocks[b := blocks[b].(access := false)];
    }

    method FindNext(b: nat) returns (next: int)
      requires b < |blocks|
      ensures next == NextLive(blocks, b)
    {
      next := b + 1;
      while next < |blocks| && !blocks[next].access
        invariant b < next <= |blocks| && NextLive(blocks, b) == NextLive(blocks, next - 1)
        decreases |blocks| - next
      {
        next := next + 1;
      }
      if next == |blocks| {
        next := -1;
      }
    }

    /** The target and target_end loop: the block's first op that is not a NOP, or its length. */
    static method SkipNops(ops: seq<Op>) returns (k: nat)
      ensures k == FirstReal(ops)
    {
      k := 0;
      while k < |ops| && ops[k].Nop?
        invariant k <= |ops| && FirstReal(ops) == k + FirstReal(ops[k..])
      {
        assert ops[k..][1..] == ops[k + 1..];
        k := k + 1;
      }
    }

    /** The next_target loop: past blocks of NOPs. */
    method FindTarget(y: nat, ghost root: int) returns (t: nat, target: Op)
      requires Wf(blocks, root) && Live(blocks, y)
      ensures t == Past(blocks, y) && t < |blocks| && target == Head(blocks[t])
    {
      t := y;
      var k := SkipNops(blocks[t].ops);
      while k == |blocks[t].ops|
        invariant Live(blocks, t) && Past(blocks, t) == Past(blocks, y) && k == FirstReal(blocks[t].ops)
        decreases |blocks| - t
      {
        assert Shaped(blocks[t]) && NopOnly(blocks[t]);
        assert blocks[t].ops[k - 1].Nop?;
        assert Falls(blocks, t, blocks[t].followTo);
        t := blocks[t].followTo;
        k := SkipNops(blocks[t].ops);
      }
      target := blocks[t].ops[k];
      assert !NopOnly(blocks[t]);
    }

    method OptimizeJump(b: nat, ghost root: int)
      requires Wf(blocks, root) && Live(blocks, b) && Tame(blocks, root, b) && Last(blocks[b]).Jmp?
      modifies this
      ensures blocks == JmpOptimize(old(blocks), b)
    {
      assert Shaped(blocks[b]);
      var blk := blocks[b];
      LedTo(blocks, root, b, blk.op1To);
      NextLiveIs(blocks, b);
      assert Shaped(blocks[blk.op1To]);
      var to := blocks[blk.op1To];
      var target := to.ops[0];
      var next := FindNext(b);
      if blk.op1To == next {
        var was := blocks;
        blocks := blocks[b := Fallen(blk, next)];
        if |blocks[b].ops| == 0 {
          NoSelfSource(was, root, b);
          DeleteCodeBlock(b);
        }
      } else if ((target.Jmp? && blk.op1To != to.op1To) || target.JmpZnz?) && !to.protected {
        JumpNotSelf(blocks, root, b);
        Retarget(b, blk.op1To,
          blk.(ops := WithLast(blk, target), op2To := to.op2To, extTo := to.extTo, op1To := to.op1To),
                 Led(to.op1To, to.op2To, to.extTo, -1), root);
      } else if target.Return? {
        JumpNotSelf(blocks, root, b);
        Retarget(b, blk.op1To, blk.(ops := WithLast(blk, target), op1To := -1), NOWHERE, root);
      }
    }

    /** JMPZ and JMPNZ on a constant */
    method OptimizeConst(b: nat, ghost root: int)
      requires Wf(blocks, root) && Live(blocks, b) && Tame(blocks, root, b) && Last(blocks[b]).CondJmp?
      requires Last(blocks[b]).cond.Const?
      modifies this
      ensures blocks == JmpOptimize(old(blocks), b)
    {
      assert Shaped(blocks[b]);
      var blk, op := blocks[b], Last(blocks[b]);
      LedTo(blocks, root, b, blk.op2To);
      LedTo(blocks, root, b, blk.followTo);
      assert Falls(blocks, b, blk.followTo);
      var shouldJmp := Truthy(op.cond.v);
      if !op.nz {
        shouldJmp := !shouldJmp;
      }
      if shouldJmp {
        Retarget(b, blk.followTo,
          blk.(ops := WithLast(blk, Jmp(op.target)), op1To := blk.op2To, op2To := -1, followTo := -1),
                 NOWHERE, root);
      } else {
        Retarget(b, blk.op2To, blk.(ops := WithLast(blk, Nop), op2To := -1), NOWHERE, root);
      }
    }

    /** A JMPZ or JMPNZ on a variable whose target tests the same variable again, or jumps on. */
    method ThreadBranch(b: nat, ghost root: int)
      requires Wf(blocks, root) && Live(blocks, b) && Last(blocks[b]).CondJmp?
      requires Safe(blocks, root, b, ThreadRewriting(blocks, b))
      modifies this
      ensures b < old(|blocks|) && blocks == Threaded(old(blocks), b)
    {
      assert Shaped(blocks[b]);
      var blk, op := blocks[b], Last(blocks[b]);
      LedTo(blocks, root, b, blk.op2To);
      LastIsReal(blocks, root, b);
      var t, target := FindTarget(blk.op2To, root);
      var to := blocks[t];
      if target.CondJmp? && target.nz != op.nz && SameVar(op.cond, target.cond) && to.followTo >= 0 && !to.protected {
        Retarget(b, blk.op2To, blk.(op2To := to.followTo), Led(-1, to.followTo, -1, -1), root);
      } else if to.op2To >= 0 && target.CondJmp? && target.nz == op.nz && SameVar(op.cond, target.cond)
        && !to.protected {
        Retarget(b, blk.op2To, blk.(op2To := to.op2To), Led(-1, to.op2To, -1, -1), root);
      } else if to.op1To >= 0 && target.Jmp? && !to.protected {
        Retarget(b, blk.op2To, blk.(op2To := to.op1To), Led(-1, to.op1To, -1, -1), root);
      } else if to.op2To >= 0 && to.extTo >= 0 && target.JmpZnz? && SameVar(op.cond, target.cond) && !to.protected {
        var e := if op.nz then to.extTo else to.op2To;
        Retarget(b, blk.op2To, blk.(op2To := e), Led(-1, e, -1, -1), root);
      }
    }

    /** What follows a JMPZ or JMPNZ: blocks of NOPs are stepped over, and a JMP there is taken in. */
    method OptimizeFollow(b: nat, ghost root: int)
      requires Wf(blocks, root) && Live(blocks, b) && Last(blocks[b]).CondJmp? && |blocks[b].ops| > 0
      requires SteadyFollow(blocks, root, b)
      modifies this
      ensures old(|blocks|) > b && blocks == FuseNext(SkipAll(old(blocks), b), b)
    {
      ghost var was := blocks;
      var onlyNops := FollowsNops(b, root);
      while onlyNops
        invariant Following(was, blocks, root, b)
        invariant onlyNops <==> NopOnly(blocks[blocks[b].followTo])
        decreases |blocks| - blocks[b].followTo
      {
        FollowingOnce(was, blocks, root, b);
        var y := blocks[b].followTo;
        FollowsLive(blocks, root, b);
        Retarget(b, y, blocks[b].(followTo := blocks[y].followTo), Led(-1, -1, -1, blocks[y].followTo), root);
        onlyNops := FollowsNops(b, root);
      }
      FollowingDone(was, blocks, root, b);
      Fuse(b, root);
    }

    method FollowsNops(b: nat, ghost root: int) returns (r: bool)
      requires Wf(blocks, root) && Live(blocks, b) && Last(blocks[b]).CondJmp?
      ensures 0 <= blocks[b].followTo < |blocks| && (r <==> NopOnly(blocks[blocks[b].followTo]))
    {
      FollowsLive(blocks, root, b);
      var k := SkipNops(blocks[blocks[b].followTo].ops);
      r := k == |blocks[blocks[b].followTo].ops|;
    }

    method Fuse(b: nat, ghost root: int)
      requires Wf(blocks, root) && Live(blocks, b) && Last(blocks[b]).CondJmp?
      modifies this
      ensures b < old(|blocks|) && blocks == FuseNext(old(blocks), b)
    {
      FollowsLive(blocks, root, b);
      var blk, op, y := blocks[b], Last(blocks[b]), blocks[b].followTo;
      var k := SkipNops(blocks[y].ops);
      if k < |blocks[y].ops| && blocks[y].ops[k].Jmp? && blocks[y].op1To >= 0 && !blocks[y].protected {
        var znz := WithLast(blk, JmpZnz(op.cond, op.target, op.target));
        if op.nz {
          Retarget(b, y, blk.(ops := znz, extTo := blk.op2To, op2To := blocks[y].op1To, followTo := -1),
                   Led(-1, blocks[y].op1To, -1, -1), root);
        } else {
          Retarget(b, y, blk.(ops := znz, extTo := blocks[y].op1To, followTo := -1), Led(-1, -1, blocks[y].op1To, -1),
            root);
        }
      }
    }

    /** JMPZNZ: on a constant, with both ways the same, or with one way to the next block. */
    method SplitZnz(b: nat, ghost root: int)
      requires Wf(blocks, root) && Live(blocks, b) && Tame(blocks, root, b) && Last(blocks[b]).JmpZnz?
      modifies this
      ensures b < old(|blocks|) && 0 <= old(blocks)[b].op2To < old(|blocks|)
      ensures 0 <= old(blocks)[b].extTo < old(|blocks|)
      ensures blocks == Apply(old(blocks), b, SplitRewriting(old(blocks), b))
    {
      assert Shaped(blocks[b]);
      var blk, op := blocks[b], Last(blocks[b]);
      LedTo(blocks, root, b, blk.op2To);
      LedTo(blocks, root, b, blk.extTo);
      var next := FindNext(b);
      if op.cond.Const? {
        if !Truthy(op.cond.v) {
          Retarget(b, blk.extTo,
            blk.(ops := WithLast(blk, Jmp(op.onZero)), op1To := blk.op2To, op2To := -1, extTo := -1),
                   NOWHERE, root);
        } else {
          Retarget(b, blk.op2To,
            blk.(ops := WithLast(blk, Jmp(op.onZero)), op1To := blk.extTo, op2To := -1, extTo := -1),
                   NOWHERE, root);
        }
      } else if blk.op2To == blk.extTo {
        blocks := blocks[b := blk.(ops := WithLast(blk, Jmp(op.onZero)), op1To := blk.op2To, op2To := -1, extTo := -1)];
      } else if blk.op2To == next {
        blocks := blocks[b := blk.(ops := WithLast(blk, CondJmp(true, op.cond, op.onZero)), op2To := blk.extTo,
          followTo := next, extTo := -1)];
      } else if blk.extTo == next {
        blocks := blocks[b := blk.(ops := WithLast(blk, CondJmp(false, op.cond, op.onZero)), followTo := next,
          extTo := -1)];
      }
    }

    /** A JMPZNZ whose way on zero leads to a test of the same variable, or to a JMP. */
    method ThreadZero(b: nat, ghost root: int)
      requires Wf(blocks, root) && Live(blocks, b) && Last(blocks[b]).JmpZnz?
      requires Safe(blocks, root, b, ZeroRewriting(blocks, b))
      modifies this
      ensures blocks == Apply(old(blocks), b, ZeroRewriting(old(blocks), b))
    {
      assert Shaped(blocks[b]);
      var blk, op := blocks[b], Last(blocks[b]);
      LedTo(blocks, root, b, blk.op2To);
      LastIsReal(blocks, root, b);
      var t, target := FindTarget(blk.op2To, root);
      var to := blocks[t];
      if to.op2To >= 0 && ((target.CondJmp? && !target.nz) || target.JmpZnz?) && SameVarByte(op.cond, target.cond)
        && !to.protected {
        Retarget(b, blk.op2To, blk.(op2To := to.op2To), Led(-1, to.op2To, -1, -1), root);
      } else if target.CondJmp? && target.nz && SameVarByte(op.cond, target.cond) && to.followTo >= 0 && !to.protected {
        Retarget(b, blk.op2To, blk.(op2To := to.followTo), Led(-1, to.followTo, -1, -1), root);
      } else if to.op1To >= 0 && target.Jmp? && !to.protected {
        Retarget(b, blk.op2To, blk.(op2To := to.op1To), Led(-1, to.op1To, -1, -1), root);
      }
    }

    method ThreadAndFuse(b: nat, ghost root: int)
      requires Wf(blocks, root) && Live(blocks, b) && Tame(blocks, root, b) && Last(blocks[b]).CondJmp?
      requires !Last(blocks[b]).cond.Const?
      modifies this
      ensures b < old(|blocks|) && blocks == JmpOptimize(old(blocks), b)
    {
      ghost var was := blocks;
      LastIsReal(blocks, root, b);
      ThreadBranch(b, root);
      ghost var t := ThreadOnce(was, root, b);
      OptimizeFollow(b, root);
    }

    /** zend_jmp_optimization */
    method JmpOptimization(b: nat, ghost root: int)
      requires Wf(blocks, root) && Live(blocks, b) && Tame(blocks, root, b)
      modifies this
      ensures b < old(|blocks|) && blocks == JmpOptimize(old(blocks), b)
    {
      assert Shaped(blocks[b]);
      match Last(blocks[b])
      case Jmp(_) => OptimizeJump(b, root);
      case CondJmp(_, x, _) =>
        if x.Const? {
          OptimizeConst(b, root);
        } else {
          ThreadAndFuse(b, root);
        }
      case JmpZnz(_, _, _) =>
        ghost var was := blocks;
        SplitZnz(b, root);
        SplitKeepsBlock(was, root, b);
        if Last(blocks[b]).JmpZnz? {
          ThreadZero(b, root);
        }
      case _ =>
    }

    /** zend_access_path */
    method AccessPath(b: nat, ghost g: Cfg, ghost w: set<nat>, ghost grey: set<nat>)
      requires Visiting(g, blocks, grey) && Within(g, w) && b in w
      modifies this
      ensures Visiting(g, blocks, grey) && Extends(old(blocks), blocks) && blocks[b].access
      ensures MarksReach(g, b, old(blocks), blocks)
      decreases |Unseen(blocks)|, 0
    {
      ghost var was := blocks;
      if blocks[b].access {
        return;
      }
      MarkKeepsVisiting(g, blocks, grey, b);
      blocks := blocks[b := blocks[b].(access := true)];
      UnseenLess(was, blocks, b);
      ReachSelf(g, b);
      ghost var c0 := blocks;
      VisitWay(b, blocks[b].op1To, g, w, grey + {b}, was);
      ghost var c1 := blocks;
      UnseenShrinks(c0, c1);
      VisitWay(b, blocks[b].op2To, g, w, grey + {b}, was);
      ghost var c2 := blocks;
      UnseenShrinks(c1, c2);
      VisitWay(b, blocks[b].extTo, g, w, grey + {b}, was);
      ghost var c3 := blocks;
      UnseenShrinks(c2, c3);
      VisitWay(b, blocks[b].followTo, g, w, grey + {b}, was);
      ExtendsTrans(c1, c2, c3);
      ExtendsTrans(c1, c3, blocks);
      ExtendsTrans(c0, c1, blocks);
      ExtendsTrans(was, c0, blocks);
      FinishBlock(g, blocks, grey, b);
    }

    /** One way out of block b: everything past it first, then ADD_SOURCE. */
    method VisitWay(b: nat, to: int, ghost g: Cfg, ghost w: set<nat>, ghost grey: set<nat>, ghost was: Cfg)
      requires Visiting(g, blocks, grey) && Within(g, w) && b in w && blocks[b].access && (to >= 0 ==> Edge(g[b], to))
      requires MarksReach(g, b, was, blocks)
      modifies this
      ensures Visiting(g, blocks, grey) && Extends(old(blocks), blocks)
      ensures to >= 0 ==> to < |g| && blocks[to].access && b in blocks[to].sources
      ensures MarksReach(g, b, was, blocks)
      decreases |Unseen(blocks)|, 1
    {
      if to >= 0 {
        ghost var c0 := blocks;
        AccessPath(to, g, w, grey);
        ghost var c1 := blocks;
        MarksOneStep(g, b, to, was, c0, c1);
        AddKeepsVisiting(g, blocks, grey, b, to);
        AddSource(b, to);
        ExtendsTrans(c0, c1, blocks);
      }
    }

    /** The first loop of zend_rebuild_access_path: marks and source lists go, and the entry is found. */
    method ClearMarks(findStart: bool) returns (start: int)
      requires |blocks| > 0
      modifies this
      ensures blocks == Cleared(old(blocks))
      ensures start == if findStart then NextLive(old(blocks), -1) else 0
    {
      start := if findStart then -1 else 0;
      ghost var was := blocks;
      var b := 0;
      while b < |blocks|
        invariant 0 <= b <= |blocks| == |was|
        invariant forall x: nat {:trigger blocks[x]} :: x < |was| ==>
          blocks[x] == if x < b then was[x].(access := false, sources := []) else was[x]
        invariant start >= 0 || NextLive(was, -1) == NextLive(was, b - 1)
        invariant findStart && start >= 0 ==> NextLive(was, -1) == start
        invariant !findStart ==> start == 0
      {
        if start < 0 && blocks[b].access {
          start := b;
        }
        blocks := blocks[b := blocks[b].(access := false, sources := [])];
        b := b + 1;
      }
      assert blocks == Cleared(was);
    }

    /** zend_rebuild_access_path: from the first block, or the first accessible one, and from the loop and
        catch blocks. */
    method RebuildAccessPath(findStart: bool, roots: seq<nat>, ghost w: set<nat>) returns (start: nat)
      requires Within(blocks, w) && (forall a :: a in roots ==> a in w) && |blocks| > 0
      requires if findStart then NextLive(blocks, -1) in w else 0 in w
      modifies this
      ensures start == if findStart then NextLive(old(blocks), -1) else 0
      ensures Rebuilt(old(blocks), [start] + roots, blocks)
    {
      ghost var g := blocks;
      start := ClearMarks(findStart);
      ClearedVisits(g);
      AccessPath(start, g, w, {});
      SearchFirst(g, start, blocks);
      VisitRoots(roots, g, w, [start]);
      SearchDone(g, [start] + roots, blocks);
    }

    method VisitRoots(roots: seq<nat>, ghost g: Cfg, ghost w: set<nat>, ghost done: seq<nat>)
      requires Searched(g, done, blocks) && Within(g, w) && (forall a :: a in roots ==> a in w)
      modifies this
      ensures Searched(g, done + roots, blocks)
    {
      TakeAll(done, roots);
      var i := 0;
      ghost var all := done;
      while i < |roots|
        invariant 0 <= i <= |roots| && all == done + roots[..i]
        invariant Searched(g, all, blocks)
      {
        TakeMore(done, roots, i);
        VisitRoot(roots[i], g, w, all);
        all := all + [roots[i]];
        i := i + 1;
      }
    }

    method VisitRoot(root: nat, ghost g: Cfg, ghost w: set<nat>, ghost all: seq<nat>)
      requires Searched(g, all, blocks) && Within(g, w) && root in w
      modifies this
      ensures Searched(g, all + [root], blocks)
    {
      ghost var c := blocks;
      AccessPath(root, g, w, {});
      SearchMore(g, all, root, c, blocks);
    }

    /** The first loop of assemble_code_blocks: accessible blocks are copied one after the other, each JMP to
        the next of them is stripped, and where every block starts is recorded. */
    method CopyBlocks(code: array<Op>) returns (start: seq<nat>)
      requires code.Length >= Size(blocks, |blocks|)
      modifies this, code
      ensures StrippedTo(old(blocks), blocks, |old(blocks)|) && Based(old(blocks), start)
      ensures start[|blocks|] <= code.Length
      ensures Copied(old(blocks), start, code[..], |blocks|, 0)
    {
      ghost var g := blocks;
      start := [0];
      var opline, j := 0, 0;
      while j < |blocks|
        invariant 0 <= j <= |g| && StrippedTo(g, blocks, j) && code.Length >= Size(g, |g|)
        invariant BasedTo(g, start, j) && opline == start[j] <= Size(g, j)
        invariant Copied(g, start, code[..], j, 0)
      {
        opline := CopyBlock(code, j, opline, start, g);
        start := start + [opline];
        j := j + 1;
      }
    }

    /** JMP to the next block - strip it */
    method StripBlock(j: nat, ghost g: Cfg)
      requires j < |g| && StrippedTo(g, blocks, j) && blocks[j].access
      modifies this
      ensures StrippedTo(g, blocks, j + 1) && |blocks[j].ops| == Len(g, j)
    {
      NextLiveSame(blocks, g, j);
      var next := FindNext(j);
      if Last(blocks[j]).Jmp? && 0 <= next && next == blocks[j].op1To {
        blocks := blocks[j := Fallen(blocks[j], next)];
      }
    }

    method CopyBlock(code: array<Op>, j: nat, at: nat, ghost start: seq<nat>, ghost g: Cfg) returns (opline: nat)
      requires j < |g| && StrippedTo(g, blocks, j) && code.Length >= Size(g, |g|)
      requires BasedTo(g, start, j) && at == start[j] <= Size(g, j) && Copied(g, start, code[..], j, 0)
      modifies this, code
      ensures StrippedTo(g, blocks, j + 1) && opline == at + Len(g, j) <= Size(g, j + 1)
      ensures BasedTo(g, start + [opline], j + 1) && Copied(g, start + [opline], code[..], j + 1, 0)
    {
      BlockFits(g, j, at, code.Length);
      ghost var was := code[..];
      opline := at;
      if blocks[j].access {
        opline := CopyLive(code, j, at, g);
      }
      CopyOneMore(g, start, was, code[..], j);
    }

    method CopyLive(code: array<Op>, j: nat, at: nat, ghost g: Cfg) returns (opline: nat)
      requires j < |g| && StrippedTo(g, blocks, j) && blocks[j].access && at + |g[j].ops| <= code.Length
      modifies this, code
      ensures StrippedTo(g, blocks, j + 1) && opline == at + Len(g, j)
      ensures code[..at] == old(code[..at]) && code[at..at + |g[j].ops|] == g[j].ops
    {
      CopyOps(code, at, blocks[j].ops);
      StripBlock(j, g);
      opline := at + |blocks[j].ops|;
    }

    /** memcpy of a block's ops */
    static method CopyOps(code: array<Op>, at: nat, ops: seq<Op>)
      requires at + |ops| <= code.Length
      modifies code
      ensures code[..at] == old(code[..at]) && code[at..at + |ops|] == ops
    {
      var i := 0;
      while i < |ops|
        invariant 0 <= i <= |ops| && code[..at] == old(code[..at]) && code[at..at + i] == ops[..i]
      {
        code[at + i] := ops[i];
        i := i + 1;
      }
    }

    /** The last loop of assemble_code_blocks: the jump at the end of every block gets its addresses. */
    method AimBlocks(code: array<Op>, start: seq<nat>, ghost g: Cfg, ghost root: int)
      requires Wf(g, root) && StrippedTo(g, blocks, |g|) && Based(g, start) && Copied(g, start, code[..], |g|, 0)
      modifies code
      ensures Copied(g, start, code[..], |g|, |g|)
    {
      var j := 0;
      while j < |blocks|
        invariant 0 <= j <= |g| && Copied(g, start, code[..], |g|, j)
      {
        AimBlock(code, j, start, g, root);
        j := j + 1;
      }
    }

    method AimBlock(code: array<Op>, j: nat, start: seq<nat>, ghost g: Cfg, ghost root: int)
      requires Wf(g, root) && StrippedTo(g, blocks, |g|) && j < |g| && Based(g, start)
      requires Copied(g, start, code[..], |g|, j)
      modifies code
      ensures Copied(g, start, code[..], |g|, j + 1)
    {
      ghost var was := code[..];
      if blocks[j].access && (blocks[j].op1To >= 0 || blocks[j].op2To >= 0 || blocks[j].extTo >= 0) {
        AimedIsNotStripped(g, root, j);
        var at := start[j] + |blocks[j].ops| - 1;
        AimOneMore(g, start, was, j, at);
        code[at] := Aimed(start, blocks[j], code[at]);
        assert code[..] == was[at := Aimed(start, g[j], was[at])];
      } else {
        NothingToAim(g, root, start, was, j);
      }
    }

    /** assemble_code_blocks */
    method AssembleCodeBlocks(last: nat, ghost root: int) returns (opcodes: array<Op>, start: seq<nat>)
      requires Wf(blocks, root) && Size(blocks, |blocks|) <= last
      modifies this
      ensures fresh(opcodes) && opcodes.Length == last && |start| == old(|blocks|) + 1 && start[old(|blocks|)] <= last
      ensures Laid(old(blocks), start, opcodes[..start[old(|blocks|)]])
    {
      ghost var g := blocks;
      opcodes := new Op[last](_ => Nop);
      start := CopyBlocks(opcodes);
      AimBlocks(opcodes, start, g, root);
      CopiedPrefix(g, start, opcodes[..], start[|g|]);
    }

    /** The first loop of find_code_blocks. */
    static method MarkStarts(ops: seq<Op>) returns (ok: bool, started: seq<bool>)
      requires TargetsIn(ops)
      ensures ok <==> forall i: nat {:trigger ops[i]} :: i < |ops| ==> !ops[i].Brk? && !ops[i].Cont?
      ensures ok ==> |started| == |ops| + 1 && forall t: nat {:trigger started[t]} :: t <= |ops| ==>
        (started[t] <==> IsStart(ops, t))
    {
      started := seq(|ops| + 1, i => i == 0);
      var opno := 0;
      while opno < |ops|
        invariant 0 <= opno <= |ops| && Marked(ops, started, opno)
        invariant forall i: nat {:trigger ops[i]} :: i < opno ==> !ops[i].Brk? && !ops[i].Cont?
      {
        if ops[opno].Brk? || ops[opno].Cont? {
          return false, started;
        }
        MarkOneMore(ops, started, opno);
        started := MarkOp(started, ops[opno], opno);
        opno := opno + 1;
      }
      ok := true;
    }

    /** find_code_blocks: false if there are unresolved BRK or CONT ops. */
    method FindCodeBlocks(ops: seq<Op>) returns (ok: bool)
      requires TargetsIn(ops) && |ops| > 0
      modifies this
      ensures ok <==> forall i: nat {:trigger ops[i]} :: i < |ops| ==> !ops[i].Brk? && !ops[i].Cont?
      ensures ok ==> Split(ops, blocks)
    {
      var started;
      ok, started := MarkStarts(ops);
      if ok {
        blocks := seq(|ops|, i => NO_BLOCK);
        var cur, opno := 0, 1;
        while opno < |ops|
          invariant 0 <= cur < opno <= |ops| && IsStart(ops, cur) && CutTo(ops, blocks, cur)
          invariant forall u {:trigger IsStart(ops, u)} :: cur < u < opno ==> !IsStart(ops, u)
        {
          if started[opno] {
            CutOneMore(ops, blocks, cur, opno);
            blocks := blocks[cur := Cut(ops, cur, opno)];
            cur := opno;
          }
          opno := opno + 1;
        }
        CutOneMore(ops, blocks, cur, opno);
        blocks := blocks[cur := Cut(ops, cur, opno)];
      }
    }

    /** strip_nop: leading NOPs go first; a block that has nothing else is deleted. */
    method StripNop(b: nat, ghost root: int)
      requires Wf(blocks, root) && Live(blocks, b)
      modifies this
      ensures b < old(|blocks|) && blocks == StripNops.StripNop(old(blocks), b)
    {
      assert Shaped(blocks[b]);
      ghost var was := blocks;
      var ops := blocks[b].ops;
      while |ops| > 0 && ops[0].Nop?
        invariant |ops| > 0 && Real(ops) == Real(was[b].ops) && blocks == was
        invariant NopOnly(was[b]) <==> forall k {:trigger ops[k]} :: 0 <= k < |ops| ==> ops[k].Nop?
      {
        if |ops| == 1 {
          assert ops == [Nop];
          blocks := blocks[b := blocks[b].(ops := ops)];
          if blocks[b].followTo >= 0 {
            assert !Edge(was[b], b) by {
              assert was[b].ops[|was[b].ops| - 1].Nop?;
              assert Falls(was, b, was[b].followTo);
            }
            NoSelfSource(was, root, b);
            DeleteCodeBlock(b);
          }
          return;
        }
        RealHead(ops);
        ops := ops[1..];
      }
      assert !NopOnly(was[b]) by {
        assert !ops[0].Nop?;
      }
      var kept, i := [], 0;
      while i < |ops|
        invariant 0 <= i <= |ops| && kept == Real(ops[..i]) && blocks == was
      {
        RealSnoc(ops, i);
        if !ops[i].Nop? {
          kept := kept + [ops[i]];
        }
        i := i + 1;
      }
      assert ops[..i] == ops;
      blocks := blocks[b := blocks[b].(ops := kept)];
    }

    /** Each accessible block in turn loses its NOPs. */
    method StripAll(ghost root: int) returns (ghost root2: int)
      requires Wf(blocks, root)
      modifies this
      ensures blocks == StripFrom(old(blocks), 0) && Wf(blocks, root2) && root2 == StrippedRoot(old(blocks), root, 0)
    {
      ghost var was := blocks;
      root2 := root;
      var b := 0;
      while b < |blocks|
        invariant 0 <= b <= |blocks| == |was| && Wf(blocks, root2) && StripFrom(was, 0) == StripFrom(blocks, b)
        invariant StrippedRoot(was, root, 0) == StrippedRoot(blocks, root2, b)
      {
        if blocks[b].access {
          StripPreserves(AnyEnv(), blocks, root2, b);
          ghost var next := RootAfterStrip(blocks, root2, b);
          StripNop(b, root2);
          root2 := next;
        }
        b := b + 1;
      }
    }

    /** Each accessible block in turn has its jump optimized. */
    method OptimizeAll(ghost root: int) returns (ghost root2: int)
      requires Wf(blocks, root) && TameFrom(blocks, root, 0)
      modifies this
      ensures blocks == JmpFrom(old(blocks), 0) && Wf(blocks, root2)
    {
      ghost var was := blocks;
      root2 := root;
      var b := 0;
      while b < |blocks|
        invariant 0 <= b <= |blocks| == |was| && Wf(blocks, root2)
        invariant TameFrom(blocks, root2, b) && JmpFrom(was, 0) == JmpFrom(blocks, b)
      {
        if blocks[b].access {
          JmpOptimizePreserves(AnyEnv(), blocks, root2, b);
          ghost var next := RootAfterCall(blocks, root2, b);
          JmpOptimization(b, root2);
          root2 := next;
        }
        b := b + 1;
      }
    }

    /** One round: strip, optimize jumps, mark afresh what can be reached. */
    method OneRound(ghost root: int)
      requires Wf(blocks, root) && TameFrom(StripFrom(blocks, 0), StrippedRoot(blocks, root, 0), 0)
      modifies this
      ensures Round(old(blocks), blocks)
    {
      ghost var root2 := StripAll(root);
      root2 := OptimizeAll(root2);
      LiveWithin(blocks, root2);
      var start := RebuildAccessPath(true, [], LiveSet(blocks));
    }

    /** zend_block_optimization, for code without exception and loop tables: either there are unresolved BRK or
        CONT ops and nothing happens, or the new code has the same runs and is no longer, and is that of a graph that
        comes out of the last round. */
    method ZendBlockOptimization(c: Code) returns (done: bool, opcodes: array<Op>, last: nat)
      requires c.tryCatch == [] && TargetsIn(c.ops) && |c.ops| > 0 && c.ops[|c.ops| - 1].Return? && AllTame(c.ops)
      modifies this
      ensures done <==> forall i: nat {:trigger c.ops[i]} :: i < |c.ops| ==> !c.ops[i].Brk? && !c.ops[i].Cont?
      ensures last <= opcodes.Length
      ensures done ==> last <= |c.ops| && forall env :: Runs(env, Glued(opcodes[..last], c.temps)) == Runs(env, c)
      ensures done ==> Optimized(c.ops, opcodes[..last])
    {
      done := FindCodeBlocks(c.ops);
      if !done {
        return false, new Op[0], 0;
      }
      ghost var g := blocks;
      StartsWithin(c.ops, g);
      var start := RebuildAccessPath(false, [], StartSet(c.ops));
      ghost var rs := [blocks];
      var pass := 0;
      while pass < PASSES
        invariant 0 <= pass <= PASSES && |rs| == pass + 1
        invariant Chain(c.ops, g, rs) && AllReady(rs) && blocks == rs[|rs| - 1]
      {
        ChainPreserves(AnyEnv(), c, g, rs);
        ghost var was := blocks;
        OneRound(NextLive(blocks, -1));
        ChainMore(c.ops, g, rs, blocks);
        rs := rs + [blocks];
        pass := pass + 1;
      }
      ghost var r := blocks;
      ChainPreserves(AnyEnv(), c, g, rs);
      var base;
      opcodes, base := AssembleCodeBlocks(|c.ops|, NextLive(blocks, -1));
      last := base[|base| - 1];
      forall env: Env ensures Runs(env, Glued(opcodes[..last], c.temps)) == Runs(env, c) {
        BlockPassPreserves(env, c, g, rs, base, opcodes[..last], c.temps);
      }
    }
  }
}
