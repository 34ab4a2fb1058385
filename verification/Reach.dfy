/** Which blocks can be reached, and the source lists that zend_rebuild_access_path leaves behind. */
module Reach {
  import opened FiniteSets
  import opened Cfgs
  import opened CfgEdit
  import opened Redirects

  // ---- paths

  ghost predicate Path(g: Cfg, p: seq<nat>) {
    && |p| > 0
    && (forall i {:trigger p[i]} :: 0 <= i < |p| ==> p[i] < |g|)
    && forall i, j {:trigger p[i], p[j]} :: 0 <= i < j < |p| && j == i + 1 ==> Edge(g[p[i]], p[j])
  }

  ghost predicate Reachable(g: Cfg, a: nat, x: nat) {
    exists p: seq<nat> :: Path(g, p) && p[0] == a && p[|p| - 1] == x
  }

  ghost predicate ReachableFrom(g: Cfg, roots: seq<nat>, x: nat) {
    exists a :: a in roots && Reachable(g, a, x)
  }

  lemma ReachSelf(g: Cfg, a: nat)
    requires a < |g|
    ensures Reachable(g, a, a)
  {
    assert Path(g, [a]) && [a][0] == a;
  }

  lemma ReachFirst(g: Cfg, a: nat, b: nat, x: nat)
    requires a < |g| && Edge(g[a], b) && Reachable(g, b, x)
    ensures Reachable(g, a, x)
  {
    var p: seq<nat> :| Path(g, p) && p[0] == b && p[|p| - 1] == x;
    var q := [a] + p;
    assert forall i {:trigger q[i]} :: 0 < i < |q| ==> q[i] == p[i - 1];
    assert Path(g, q);
  }

  lemma ReachLast(g: Cfg, a: nat, x: nat, y: nat)
    requires Reachable(g, a, x) && x < |g| && Edge(g[x], y) && y < |g|
    ensures Reachable(g, a, y)
  {
    var p: seq<nat> :| Path(g, p) && p[0] == a && p[|p| - 1] == x;
    var q := p + [y];
    assert forall i {:trigger q[i]} :: 0 <= i < |p| ==> q[i] == p[i];
    assert Path(g, q) && q[0] == a && q[|q| - 1] == y;
  }

  /** Marked blocks that nothing leads out of are all that can be reached from one of them. */
  lemma {:induction false} ReachStays(g: Cfg, p: seq<nat>, r: Cfg)
    requires |r| == |g| && Path(g, p) && p[0] < |g| && r[p[0]].access
    requires forall x: nat, y: nat {:trigger Edge(g[x], y)} :: x < |g| && r[x].access && Edge(g[x], y) ==>
      y < |g| && r[y].access
    ensures p[|p| - 1] < |g| && r[p[|p| - 1]].access
    decreases |p|
  {
    if |p| > 1 {
      var q := p[..|p| - 1];
      assert Path(g, q) && q[0] == p[0];
      ReachStays(g, q, r);
      assert p[|p| - 1 - 1] == q[|q| - 1] && Edge(g[p[|p| - 2]], p[|p| - 1]);
    }
  }

  // ---- what the search keeps

  /** From the blocks of w no way leads out of the array, or out of w. */
  ghost predicate Within(g: Cfg, w: set<nat>) {
    && (forall x {:trigger x in w} :: x in w ==> x < |g|)
    && (forall x: nat, y: nat {:trigger Edge(g[x], y)} :: x in w && Edge(g[x], y) ==> y in w)
  }

  ghost predicate SameGraph(g: Cfg, cur: Cfg) {
    |cur| == |g| && forall x: nat {:trigger cur[x]} {:trigger g[x]} :: x < |g| ==>
      SameCode(cur[x], g[x]) && cur[x].protected == g[x].protected
  }

  /** Of the blocks marked so far, those not in grey are finished; the source lists hold nothing wrong. */
  ghost predicate Visiting(g: Cfg, cur: Cfg, grey: set<nat>) {
    && SameGraph(g, cur)
    && (forall x: nat, y: nat {:trigger Edge(g[x], y)} :: x < |g| && cur[x].access && x !in grey && Edge(g[x], y) ==>
          y < |g| && cur[y].access && x in cur[y].sources)
    && (forall y: nat, s: nat {:trigger s in cur[y].sources} :: y < |g| && s in cur[y].sources ==>
          s < |g| && cur[s].access && Edge(g[s], y))
    && (forall y: nat {:trigger cur[y].sources} :: y < |g| ==> NoDup(cur[y].sources))
  }

  /** Nothing already there is taken back. */
  ghost predicate Extends(cur: Cfg, next: Cfg) {
    && |cur| == |next|
    && (forall x: nat {:trigger next[x]} :: x < |cur| && cur[x].access ==> next[x].access)
    && (forall y: nat, s: nat {:trigger s in next[y].sources} {:trigger s in cur[y].sources} ::
          y < |cur| && s in cur[y].sources ==> s in next[y].sources)
  }

  function Unseen(cur: Cfg): set<nat> { set x: nat | x < |cur| && !cur[x].access }

  lemma UnseenShrinks(cur: Cfg, next: Cfg)
    requires Extends(cur, next)
    ensures |Unseen(next)| <= |Unseen(cur)|
  {
    assert Unseen(next) <= Unseen(cur);
    SubsetSize(Unseen(next), Unseen(cur));
  }

  lemma UnseenLess(cur: Cfg, next: Cfg, b: nat)
    requires Extends(cur, next) && b < |cur| && !cur[b].access && next[b].access
    ensures |Unseen(next)| < |Unseen(cur)|
  {
    assert Unseen(next) <= Unseen(cur) - {b};
    SubsetSize(Unseen(next), Unseen(cur) - {b});
  }

  /** After the search: accessible means reachable, and the source lists are the edges turned round. */
  ghost predicate Rebuilt(g: Cfg, roots: seq<nat>, r: Cfg) {
    && SameGraph(g, r)
    && (forall x: nat {:trigger r[x]} :: x < |g| ==> (r[x].access <==> ReachableFrom(g, roots, x)))
    && (forall y: nat, s: nat {:trigger s in r[y].sources} :: y < |g| ==>
          (s in r[y].sources <==> s < |g| && r[s].access && Edge(g[s], y)))
    && (forall y: nat {:trigger r[y].sources} :: y < |g| ==> NoDup(r[y].sources))
  }

  /** The search has been made from these roots. */
  ghost predicate Searched(g: Cfg, roots: seq<nat>, r: Cfg) {
    && Visiting(g, r, {})
    && (forall a {:trigger a in roots} :: a in roots ==> a < |g| && r[a].access)
    && (forall x: nat {:trigger r[x]} :: x < |g| && r[x].access ==> ReachableFrom(g, roots, x))
  }

  lemma SearchDone(g: Cfg, roots: seq<nat>, r: Cfg)
    requires Searched(g, roots, r)
    ensures Rebuilt(g, roots, r)
  {
    forall x: nat | x < |g| && ReachableFrom(g, roots, x) ensures r[x].access {
      var a :| a in roots && Reachable(g, a, x);
      var p: seq<nat> :| Path(g, p) && p[0] == a && p[|p| - 1] == x;
      ReachStays(g, p, r);
    }
    forall y: nat, s: nat | y < |g| && s < |g| && r[s].access && Edge(g[s], y) ensures s in r[y].sources {
    }
    assert forall y: nat, s: nat {:trigger s in r[y].sources} :: y < |g| && s in r[y].sources ==>
      s < |g| && r[s].access && Edge(g[s], y);
  }

  lemma AddKeepsVisiting(g: Cfg, cur: Cfg, grey: set<nat>, b: nat, to: nat)
    requires Visiting(g, cur, grey) && b < |g| && cur[b].access && to < |g| && Edge(g[b], to)
    ensures Visiting(g, AddSource(cur, b, to), grey) && Extends(cur, AddSource(cur, b, to))
    ensures b in AddSource(cur, b, to)[to].sources
    ensures forall x: nat {:trigger AddSource(cur, b, to)[x]} :: x < |g| ==>
      AddSource(cur, b, to)[x].access == cur[x].access
  {
    AddSourceFacts(cur, b, to);
    assert NoDups(cur) ==> NoDups(AddSource(cur, b, to));
    var r := AddSource(cur, b, to);
    forall y: nat | y < |g| ensures NoDup(r[y].sources) {
      assert NoDup(cur[y].sources);
    }
  }

  lemma MarkKeepsVisiting(g: Cfg, cur: Cfg, grey: set<nat>, b: nat)
    requires Visiting(g, cur, grey) && b < |g|
    ensures var r := cur[b := cur[b].(access := true)]; Visiting(g, r, grey + {b}) && Extends(cur, r)
  {
  }

  /** What was marked meanwhile can be reached from b. */
  ghost predicate MarksReach(g: Cfg, b: nat, cur: Cfg, next: Cfg) {
    |cur| == |g| == |next| && forall x: nat {:trigger next[x]} :: x < |g| && next[x].access ==>
      cur[x].access || Reachable(g, b, x)
  }

  lemma FinishBlock(g: Cfg, cur: Cfg, grey: set<nat>, b: nat)
    requires Visiting(g, cur, grey + {b}) && b < |g|
    requires forall y: nat {:trigger Edge(g[b], y)} :: Edge(g[b], y) ==> y < |g| && cur[y].access && b in cur[y].sources
    ensures Visiting(g, cur, grey)
  {
  }

  lemma MarksOneStep(g: Cfg, b: nat, to: nat, cur: Cfg, mid: Cfg, next: Cfg)
    requires b < |g| && Edge(g[b], to) && MarksReach(g, b, cur, mid) && MarksReach(g, to, mid, next)
    ensures MarksReach(g, b, cur, next)
  {
    forall x: nat | x < |g| && next[x].access ensures cur[x].access || Reachable(g, b, x) {
      if !mid[x].access {
        ReachFirst(g, b, to, x);
      } else {
        assert mid[x].access;
      }
    }
  }

  /** All blocks unmarked, all source lists destroyed. */
  function Cleared(cfg: Cfg): (r: Cfg)
    ensures |r| == |cfg| && forall x: nat {:trigger r[x]} :: x < |r| ==> r[x] == cfg[x].(access := false, sources := [])
  {
    seq(|cfg|, i requires 0 <= i < |cfg| => cfg[i].(access := false, sources := []))
  }

  lemma ClearedVisits(g: Cfg)
    ensures Visiting(g, Cleared(g), {})
  {
  }

  lemma SearchFirst(g: Cfg, b: nat, cur: Cfg)
    requires b < |g| && Visiting(g, cur, {}) && cur[b].access && MarksReach(g, b, Cleared(g), cur)
    ensures Searched(g, [b], cur)
  {
    forall x: nat | x < |g| && cur[x].access ensures ReachableFrom(g, [b], x) {
      assert b in [b] && Reachable(g, b, x);
    }
  }

  lemma FromMore(g: Cfg, roots: seq<nat>, b: nat, x: nat)
    requires ReachableFrom(g, roots, x) || Reachable(g, b, x)
    ensures ReachableFrom(g, roots + [b], x)
  {
    if ReachableFrom(g, roots, x) {
      var a :| a in roots && Reachable(g, a, x);
      assert a in roots + [b];
    } else {
      assert b in roots + [b];
    }
  }

  lemma SearchMore(g: Cfg, roots: seq<nat>, b: nat, cur: Cfg, next: Cfg)
    requires Searched(g, roots, cur) && b < |g| && Visiting(g, next, {}) && next[b].access
    requires MarksReach(g, b, cur, next) && Extends(cur, next)
    ensures Searched(g, roots + [b], next)
  {
    forall x: nat | x < |g| && next[x].access ensures ReachableFrom(g, roots + [b], x) {
      assert cur[x].access ==> ReachableFrom(g, roots, x);
      FromMore(g, roots, b, x);
    }
    forall a | a in roots + [b] ensures a < |g| && next[a].access {
    }
  }
}
