/** The order in which a program's modules are initialised: a depth-first walk of the dependency graph. */
module ModuleOrder {
  import opened Base

  type Graph = seq<seq<nat>>

  // ---- Reachability -----------------------------------------------------

  ghost predicate ReachIn(g: Graph, u: nat, v: nat, n: nat)
    decreases n
  {
    if n == 0 then u == v else u < |g| && exists w: nat :: w in g[u] && ReachIn(g, w, v, n - 1)
  }

  ghost predicate Reach(g: Graph, u: nat, v: nat) { exists n: nat :: ReachIn(g, u, v, n) }

  lemma {:induction false} ReachInMore(g: Graph, u: nat, v: nat, w: nat, n: nat)
    requires ReachIn(g, u, v, n) && v < |g| && w in g[v]
    ensures ReachIn(g, u, w, n + 1)
    decreases n
  {
    if n == 0 {
      assert ReachIn(g, w, w, 0);
    } else {
      var x :| x in g[u] && ReachIn(g, x, v, n - 1);
      ReachInMore(g, x, v, w, n - 1);
    }
  }

  lemma ReachMore(g: Graph, u: nat, v: nat, w: nat)
    requires Reach(g, u, v) && v < |g| && w in g[v]
    ensures Reach(g, u, w)
  {
    var n: nat :| ReachIn(g, u, v, n);
    ReachInMore(g, u, v, w, n);
  }

  lemma ReachSelf(g: Graph, u: nat)
    ensures Reach(g, u, u)
  {
    assert ReachIn(g, u, u, 0);
  }

  /** A set closed under dependencies holds everything that its members reach. */
  lemma {:induction false} ClosedHolds(g: Graph, s: seq<nat>, u: nat, v: nat, n: nat)
    requires (forall x, y :: x in s && x < |g| && y in g[x] ==> y in s) && u in s && ReachIn(g, u, v, n)
    ensures v in s
    decreases n
  {
    if n > 0 {
      var w :| w in g[u] && ReachIn(g, w, v, n - 1);
      ClosedHolds(g, s, w, v, n - 1);
    }
  }

  /** Each module that `main` reaches comes once, and after every dependency that does not lead back to it. */
  ghost predicate IsOrder(g: Graph, main: nat, order: seq<nat>) {
    && NoDup(order)
    && (forall v: nat :: v in order <==> Reach(g, main, v))
    && (forall v :: v in order ==> v < |g|)
    && Ordered(g, order)
  }

  ghost predicate Ordered(g: Graph, order: seq<nat>) {
    forall i :: 0 <= i < |order| ==> Follows(g, order, i)
  }

  /** The dependencies of the module at `i` stand before it, unless they lead back to it. */
  ghost predicate Follows(g: Graph, order: seq<nat>, i: nat)
    requires i < |order|
  {
    order[i] < |g| && forall v :: v in g[order[i]] ==> v in order[..i] || Reach(g, v, order[i])
  }

  /** Some reachable module names a dependency that does not exist. */
  ghost predicate Broken(g: Graph, main: nat) { exists v: nat :: Reach(g, main, v) && v >= |g| }

  // ---- The walk ---------------------------------------------------------

  datatype Color = White | Gray | Black

  predicate Is(color: seq<Color>, v: nat, c: Color) { v < |color| && color[v] == c }

  predicate Seen(color: seq<Color>, v: nat) { v < |color| && color[v] != White }

  /** The finished modules are listed in order, all of their dependencies have been seen, and all seen are reachable. */
  ghost predicate ValidWalk(g: Graph, main: nat, color: seq<Color>, order: seq<nat>) {
    && |color| == |g| && NoDup(order) && Ordered(g, order)
    && (forall v: nat :: v in order <==> Is(color, v, Black))
    && (forall v: nat :: Seen(color, v) ==> Reach(g, main, v))
    && (forall v: nat :: Is(color, v, Black) ==> DepsSeen(g, color, v))
  }

  ghost predicate DepsSeen(g: Graph, color: seq<Color>, v: nat) {
    v < |g| && forall w :: w in g[v] ==> Seen(color, w)
  }

  /** Modules being visited lead to `u`. */
  ghost predicate GrayLeadTo(g: Graph, color: seq<Color>, u: nat) {
    forall v: nat :: Is(color, v, Gray) ==> Reach(g, v, u)
  }

  /** Colours only darken; exactly `open` of the modules not being visited before is being visited now. */
  ghost predicate Darkens(before: seq<Color>, after: seq<Color>, open: set<nat>) {
    && |after| == |before|
    && (forall v: nat :: Is(after, v, Gray) <==> Is(before, v, Gray) || v in open)
    && (forall v: nat :: Seen(before, v) ==> after[v] == before[v])
  }

  ghost function Whites(color: seq<Color>): set<nat> { set v: nat | v < |color| && color[v] == White }

  lemma FewerWhites(before: seq<Color>, after: seq<Color>, u: nat)
    requires |after| == |before| && Is(before, u, White) && Seen(after, u)
             && forall v: nat :: Seen(before, v) ==> Seen(after, v)
    ensures Whites(after) < Whites(before)
  {
    assert u in Whites(before) && u !in Whites(after);
    forall v | v in Whites(after) ensures v in Whites(before) {
      assert !Seen(after, v);
      assert !Seen(before, v);
    }
  }

  lemma Opens(g: Graph, main: nat, color: seq<Color>, order: seq<nat>, u: nat)
    requires ValidWalk(g, main, color, order) && Is(color, u, White) && Reach(g, main, u) && GrayLeadTo(g, color, u)
    ensures var c := color[u := Gray]; ValidWalk(g, main, c, order) && Darkens(color, c, {u}) && GrayLeadTo(g, c, u)
  {
    var c := color[u := Gray];
    ReachSelf(g, u);
    assert forall v: nat :: Is(c, v, Black) <==> Is(color, v, Black);
    assert forall v: nat :: Seen(color, v) ==> Seen(c, v);
    forall v: nat | Is(c, v, Black) ensures DepsSeen(g, c, v) { assert DepsSeen(g, color, v); }
  }

  lemma OrderGrows(g: Graph, color: seq<Color>, order: seq<nat>, u: nat)
    requires Ordered(g, order) && DepsSeen(g, color, u) && GrayLeadTo(g, color, u) && |color| == |g|
    requires forall v: nat :: v in order <==> Is(color, v, Black)
    ensures Ordered(g, order + [u])
  {
    var more := order + [u];
    forall i | 0 <= i < |more| ensures Follows(g, more, i) {
      if i < |order| {
        assert Follows(g, order, i) && more[..i] == order[..i];
      } else {
        assert more[..i] == order;
        forall v | v in g[u] ensures v in order || Reach(g, v, u) {
          assert Seen(color, v);
          assert Is(color, v, Black) || Is(color, v, Gray);
        }
      }
    }
  }

  lemma Closes(g: Graph, main: nat, color: seq<Color>, order: seq<nat>, u: nat)
    requires ValidWalk(g, main, color, order) && Is(color, u, Gray) && DepsSeen(g, color, u) && GrayLeadTo(g, color, u)
    ensures ValidWalk(g, main, color[u := Black], order + [u])
  {
    var c := color[u := Black];
    OrderGrows(g, color, order, u);
    assert !Is(color, u, Black) && u !in order;
    assert forall v: nat :: v in order + [u] <==> v in order || v == u;
    assert forall v: nat :: Seen(c, v) <==> Seen(color, v);
    assert forall v: nat :: Is(c, v, Black) <==> Is(color, v, Black) || v == u;
    forall v: nat | Is(c, v, Black) ensures DepsSeen(g, c, v) { assert DepsSeen(g, color, v); }
  }

  class Walk {
    const g: Graph
    const main: nat
    var color: seq<Color>
    var order: seq<nat>

    ghost predicate Valid()
      reads this
    {
      ValidWalk(g, main, color, order)
    }

    constructor (g: Graph, main: nat)
      ensures Valid() && this.g == g && this.main == main && order == [] && forall v: nat :: !Is(color, v, Gray)
    {
      this.g, this.main := g, main;
      color, order := seq(|g|, _ => White), [];
    }

    /** Visits a module after everything it depends on. */
    method Visit(u: nat) returns (ok: bool)
      requires Valid() && Reach(g, main, u) && GrayLeadTo(g, color, u)
      modifies this
      decreases Whites(color)
      ensures ok ==> Valid() && Darkens(old(color), color, {}) && Seen(color, u)
      ensures !ok ==> Broken(g, main)
    {
      if u >= |g| { return false; }
      if color[u] != White { return true; }
      Opens(g, main, color, order, u);
      color := color[u := Gray];
      FewerWhites(old(color), color, u);
      for i := 0 to |g[u]|
        invariant Valid() && Darkens(old(color), color, {u}) && GrayLeadTo(g, color, u)
                  && Whites(color) < Whites(old(color))
        invariant forall j :: 0 <= j < i ==> Seen(color, g[u][j])
      {
        ghost var before := color;
        LeadsOn(g, main, color, u, g[u][i]);
        ok := Visit(g[u][i]);
        if !ok { return; }
        StillDark(g, old(color), before, color, u);
      }
      Closes(g, main, color, order, u);
      color, order := color[u := Black], order + [u];
      ok := true;
    }
  }

  lemma LeadsOn(g: Graph, main: nat, color: seq<Color>, u: nat, w: nat)
    requires u < |g| && w in g[u] && Reach(g, main, u) && GrayLeadTo(g, color, u)
    ensures Reach(g, main, w) && GrayLeadTo(g, color, w)
  {
    ReachMore(g, main, u, w);
    forall v: nat | Is(color, v, Gray) ensures Reach(g, v, w) { ReachMore(g, v, u, w); }
  }

  /** A visit between leaves what was seen as it was. */
  lemma StillDark(g: Graph, c0: seq<Color>, c1: seq<Color>, c2: seq<Color>, u: nat)
    requires Darkens(c0, c1, {u}) && Darkens(c1, c2, {}) && GrayLeadTo(g, c1, u) && Is(c0, u, White)
    ensures Darkens(c0, c2, {u}) && GrayLeadTo(g, c2, u) && Whites(c2) < Whites(c0)
    ensures forall v: nat :: Seen(c1, v) ==> Seen(c2, v)
  {
    assert forall v: nat :: Seen(c0, v) ==> Seen(c1, v);
    assert Is(c1, u, Gray);
    FewerWhites(c0, c2, u);
  }

  /** initialize_program's order, or nothing exactly where a reachable module names a dependency that does not exist. */
  method InitializationOrder(g: Graph, main: nat) returns (order: Option<seq<nat>>)
    ensures order.Some? ==> IsOrder(g, main, order.value)
    ensures order.None? <==> Broken(g, main)
  {
    var w := new Walk(g, main);
    ReachSelf(g, main);
    var ok := w.Visit(main);
    if !ok { return None; }
    Complete(g, main, w.color, w.order);
    return Some(w.order);
  }

  lemma Complete(g: Graph, main: nat, color: seq<Color>, order: seq<nat>)
    requires ValidWalk(g, main, color, order) && Seen(color, main) && forall v: nat :: !Is(color, v, Gray)
    ensures IsOrder(g, main, order) && !Broken(g, main)
  {
    forall x: nat, y: nat | x in order && x < |g| && y in g[x] ensures y in order {
      assert DepsSeen(g, color, x) && Seen(color, y) && !Is(color, y, Gray);
      assert Is(color, y, Black);
    }
    assert !Is(color, main, Gray);
    forall v: nat | Reach(g, main, v) ensures v in order {
      var n: nat :| ReachIn(g, main, v, n);
      assert Is(color, main, Black);
      ClosedHolds(g, order, main, v, n);
    }
    forall v: nat | v in order ensures Reach(g, main, v) { assert Seen(color, v); }
  }
}
