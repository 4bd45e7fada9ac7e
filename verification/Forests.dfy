/**
  Parent links and child lists over nodes 0..n-1: which nodes the roots reach, and what a walk down from the
  roots meets. A node is rooted when following parent links from it ends. The main results are `WalkMeetsRooted`
  (a walk from the roots meets each rooted node once and no other) and `SizeIffAcyclic`.
 */
module Forests {
  import opened OrderedDicts

  type Links = seq<Option<nat>>

  ghost predicate ValidLinks(par: Links) {
    forall i :: 0 <= i < |par| && par[i].Some? ==> par[i].value < |par|
  }

  /** The node `k` links above `i`. */
  ghost function Up(par: Links, i: nat, k: nat): (r: Option<nat>)
    requires ValidLinks(par) && i < |par|
    ensures r.Some? ==> r.value < |par|
    decreases k
  {
    if k == 0 then Some(i)
    else if par[i].None? then None
    else Up(par, par[i].value, k - 1)
  }

  ghost predicate OnCycle(par: Links, i: nat)
    requires ValidLinks(par) && i < |par|
  {
    exists k: nat :: k >= 1 && Up(par, i, k) == Some(i)
  }

  ghost predicate Acyclic(par: Links)
    requires ValidLinks(par)
  {
    forall i: nat :: i < |par| ==> !OnCycle(par, i)
  }

  /** How many links lead from `i` to a root, when at most `fuel` do. */
  ghost function Steps(par: Links, i: nat, fuel: nat): (r: Option<nat>)
    requires ValidLinks(par) && i < |par|
    ensures r.Some? ==> r.value <= fuel
    decreases fuel
  {
    if par[i].None? then Some(0)
    else if fuel == 0 then None
    else
      var above := Steps(par, par[i].value, fuel - 1);
      if above.Some? then Some(above.value + 1) else None
  }

  ghost predicate Rooted(par: Links, i: nat)
    requires ValidLinks(par)
  {
    i < |par| && Steps(par, i, |par|).Some?
  }

  ghost function Depth(par: Links, i: nat): nat
    requires ValidLinks(par) && Rooted(par, i)
  {
    Steps(par, i, |par|).value
  }

  lemma {:induction false} StepsFuel(par: Links, i: nat, fuel: nat, fuel': nat)
    requires ValidLinks(par) && i < |par|
    requires Steps(par, i, fuel).Some? && Steps(par, i, fuel).value <= fuel'
    ensures Steps(par, i, fuel') == Steps(par, i, fuel)
    decreases fuel
  {
    if par[i].Some? {
      StepsFuel(par, par[i].value, fuel - 1, fuel' - 1);
    }
  }

  /** Up and Steps agree: a root is exactly `Steps` links above. */
  lemma {:induction false} StepsUp(par: Links, i: nat, fuel: nat, k: nat)
    requires ValidLinks(par) && i < |par|
    requires Steps(par, i, fuel).Some? && k <= Steps(par, i, fuel).value
    ensures Up(par, i, k).Some?
    ensures Steps(par, Up(par, i, k).value, fuel) == Some(Steps(par, i, fuel).value - k)
    decreases k
  {
    if k != 0 {
      StepsUp(par, par[i].value, fuel - 1, k - 1);
      StepsFuel(par, Up(par, i, k).value, fuel - 1, fuel);
    }
  }

  lemma {:induction false} UpSum(par: Links, i: nat, j: nat, k: nat)
    requires ValidLinks(par) && i < |par|
    ensures Up(par, i, j + k) == if Up(par, i, j).Some? then Up(par, Up(par, i, j).value, k) else None
    decreases j
  {
    if j != 0 && par[i].Some? {
      UpSum(par, par[i].value, j - 1, k);
    }
  }

  // ---- Counting nodes ----

  ghost function Below(n: nat): (r: set<nat>)
    ensures forall x: nat :: x in r <==> x < n
  {
    if n == 0 then {} else Below(n - 1) + {n - 1}
  }

  lemma {:induction false} BelowSize(n: nat)
    ensures |Below(n)| == n
  {
    if n != 0 {
      BelowSize(n - 1);
      assert n - 1 !in Below(n - 1);
    }
  }

  /** The first `k + 1` nodes on the way up from `i`. */
  ghost function Trail(par: Links, i: nat, k: nat): set<nat>
    requires ValidLinks(par) && i < |par|
  {
    var top := Up(par, i, k);
    (if k == 0 then {} else Trail(par, i, k - 1)) + (if top.Some? then {top.value} else {})
  }

  lemma {:induction false} TrailMembers(par: Links, i: nat, k: nat, x: nat) returns (a: nat)
    requires ValidLinks(par) && i < |par| && x in Trail(par, i, k)
    ensures a <= k && Up(par, i, a) == Some(x) && x < |par|
    decreases k
  {
    if Up(par, i, k) == Some(x) {
      a := k;
    } else {
      a := TrailMembers(par, i, k - 1, x);
    }
  }

  ghost predicate NoRepeat(par: Links, i: nat, k: nat)
    requires ValidLinks(par) && i < |par|
  {
    forall a: nat, b: nat :: a < b <= k && Up(par, i, a).Some? ==> Up(par, i, a) != Up(par, i, b)
  }

  lemma {:induction false} NotOnTrail(par: Links, i: nat, k: nat, x: nat)
    requires ValidLinks(par) && i < |par| && forall a: nat :: a <= k ==> Up(par, i, a) != Some(x)
    ensures x !in Trail(par, i, k)
  {
    if k != 0 {
      NotOnTrail(par, i, k - 1, x);
    }
  }

  /** As long as no node repeats, the trail has one more node at each step. */
  lemma {:induction false} TrailGrows(par: Links, i: nat, k: nat)
    requires ValidLinks(par) && i < |par| && Up(par, i, k).Some? && NoRepeat(par, i, k)
    ensures |Trail(par, i, k)| == k + 1
  {
    if k != 0 {
      UpSum(par, i, k - 1, 1);
      TrailGrows(par, i, k - 1);
      NotOnTrail(par, i, k - 1, Up(par, i, k).value);
    }
  }

  /** So it cannot outlast the nodes there are. */
  lemma {:induction false} TrailSize(par: Links, i: nat, k: nat)
    requires ValidLinks(par) && i < |par| && Up(par, i, k).Some? && NoRepeat(par, i, k)
    ensures k < |par|
  {
    TrailGrows(par, i, k);
    forall x | x in Trail(par, i, k)
      ensures x in Below(|par|)
    {
      var a := TrailMembers(par, i, k, x);
    }
    BelowSize(|par|);
    SubsetSize(Trail(par, i, k), Below(|par|));
  }

  /** A rooted node is fewer than `|par|` links from its root. */
  lemma StepsBound(par: Links, i: nat, fuel: nat)
    requires ValidLinks(par) && i < |par| && Steps(par, i, fuel).Some?
    ensures Steps(par, i, fuel).value < |par|
    ensures Rooted(par, i) && Depth(par, i) == Steps(par, i, fuel).value
  {
    var d := Steps(par, i, fuel).value;
    StepsUp(par, i, fuel, d);
    forall a: nat, b: nat | a < b <= d
      ensures Up(par, i, a) != Up(par, i, b)
    {
      StepsUp(par, i, fuel, a);
      StepsUp(par, i, fuel, b);
    }
    TrailSize(par, i, d);
    StepsFuel(par, i, fuel, |par|);
  }

  lemma ChildDepth(par: Links, c: nat)
    requires ValidLinks(par) && c < |par| && par[c].Some? && Rooted(par, par[c].value)
    ensures Rooted(par, c) && Depth(par, c) == Depth(par, par[c].value) + 1 < |par|
  {
    assert Steps(par, c, |par| + 1) == Some(Depth(par, par[c].value) + 1);
    StepsBound(par, c, |par| + 1);
  }

  /** Every ancestor of a rooted node is rooted, one link higher per step. */
  lemma AncestorDepth(par: Links, x: nat, k: nat)
    requires ValidLinks(par) && Rooted(par, x) && k <= Depth(par, x)
    ensures Up(par, x, k).Some? && Rooted(par, Up(par, x, k).value)
    ensures Depth(par, Up(par, x, k).value) == Depth(par, x) - k
  {
    StepsUp(par, x, |par|, k);
  }

  /** The links reach a root from every node exactly when no node is its own ancestor. */
  lemma RootedIffAcyclic(par: Links)
    requires ValidLinks(par)
    ensures (forall i: nat :: i < |par| ==> Rooted(par, i)) <==> Acyclic(par)
  {
    forall i: nat | i < |par| && Rooted(par, i)
      ensures !OnCycle(par, i)
    {
      RootedOffCycle(par, i);
    }
    if Acyclic(par) {
      forall i: nat | i < |par|
        ensures Rooted(par, i)
      {
        if !Rooted(par, i) {
          UnrootedEndless(par, i, |par|);
          forall a: nat, b: nat | a < b <= |par| && Up(par, i, a).Some?
            ensures Up(par, i, a) != Up(par, i, b)
          {
            UpSum(par, i, a, b - a);
            assert !OnCycle(par, Up(par, i, a).value);
          }
          TrailSize(par, i, |par|);
          assert false;
        }
      }
    }
  }

  lemma RootedOffCycle(par: Links, i: nat)
    requires ValidLinks(par) && Rooted(par, i)
    ensures !OnCycle(par, i)
  {
    if k: nat :| k >= 1 && Up(par, i, k) == Some(i) {
      var d := Depth(par, i);
      if k <= d {
        AncestorDepth(par, i, k);
      } else {
        AncestorDepth(par, i, d);
        UpSum(par, i, d, k - d);
      }
      assert false;
    }
  }

  lemma {:induction false} UnrootedEndless(par: Links, i: nat, fuel: nat)
    requires ValidLinks(par) && i < |par| && Steps(par, i, fuel).None?
    ensures Up(par, i, fuel).Some?
    decreases fuel
  {
    if fuel != 0 {
      UnrootedEndless(par, par[i].value, fuel - 1);
    }
  }

  // ---- Walking down ----

  /** `kids[j]` lists the children of `j`, each once. */
  ghost predicate Lists(par: Links, kids: seq<seq<nat>>)
    requires ValidLinks(par)
  {
    && |kids| == |par|
    && (forall j :: 0 <= j < |kids| ==> Distinct(kids[j]))
    && (forall j: nat, c: nat :: j < |kids| ==> (c in kids[j] <==> c < |par| && par[c] == Some(j)))
  }

  ghost predicate AtDepth(par: Links, nodes: seq<nat>, d: nat)
    requires ValidLinks(par)
  {
    forall c :: c in nodes ==> Rooted(par, c) && Depth(par, c) == d
  }

  lemma KidsDepth(par: Links, kids: seq<seq<nat>>, i: nat)
    requires ValidLinks(par) && Lists(par, kids) && Rooted(par, i)
    ensures AtDepth(par, kids[i], Depth(par, i) + 1)
    ensures Depth(par, i) < |par|
  {
    StepsBound(par, i, |par|);
    forall c | c in kids[i]
      ensures Rooted(par, c) && Depth(par, c) == Depth(par, i) + 1
    {
      assert c < |par| && par[c] == Some(i);
      ChildDepth(par, c);
    }
  }

  /** The node `i` and everything below it, parents first and siblings in list order. */
  ghost function Walk(par: Links, kids: seq<seq<nat>>, i: nat): seq<nat>
    requires ValidLinks(par) && Lists(par, kids) && Rooted(par, i)
    decreases |par| - Depth(par, i), 0
  {
    KidsDepth(par, kids, i);
    [i] + WalkAll(par, kids, kids[i], Depth(par, i) + 1)
  }

  ghost function WalkAll(par: Links, kids: seq<seq<nat>>, nodes: seq<nat>, d: nat): seq<nat>
    requires ValidLinks(par) && Lists(par, kids) && AtDepth(par, nodes, d)
    decreases |par| - d, |nodes| + 1
  {
    if nodes == [] then []
    else
      assert nodes[0] in nodes;
      Walk(par, kids, nodes[0]) + WalkAll(par, kids, nodes[1..], d)
  }

  /** The ancestor of `x` at depth `d` is one of `nodes`. */
  ghost predicate Reaches(par: Links, nodes: seq<nat>, d: nat, x: nat)
    requires ValidLinks(par)
  {
    Rooted(par, x) && d <= Depth(par, x) &&
    var above := Up(par, x, Depth(par, x) - d);
    above.Some? && above.value in nodes
  }

  lemma KidsReach(par: Links, kids: seq<seq<nat>>, i: nat, x: nat)
    requires ValidLinks(par) && Lists(par, kids) && Rooted(par, i)
    ensures Reaches(par, [i], Depth(par, i), x) <==> x == i || Reaches(par, kids[i], Depth(par, i) + 1, x)
    ensures !(x == i && Reaches(par, kids[i], Depth(par, i) + 1, x))
  {
    var d := Depth(par, i);
    if Rooted(par, x) {
      if d < Depth(par, x) {
        var k := Depth(par, x) - d - 1;
        UpSum(par, x, k, 1);
        AncestorDepth(par, x, k);
        var c := Up(par, x, k).value;
        assert Up(par, x, k + 1) == par[c] by {
          if par[c].Some? {
            assert Up(par, par[c].value, 0) == par[c];
          }
        }
      } else if d == Depth(par, x) {
        assert Up(par, x, 0) == Some(x);
      }
    }
  }

  lemma {:induction false} WalkCount(par: Links, kids: seq<seq<nat>>, i: nat, x: nat)
    requires ValidLinks(par) && Lists(par, kids) && Rooted(par, i)
    ensures multiset(Walk(par, kids, i))[x] == if Reaches(par, [i], Depth(par, i), x) then 1 else 0
    decreases |par| - Depth(par, i), 0
  {
    KidsDepth(par, kids, i);
    KidsReach(par, kids, i, x);
    WalkAllCount(par, kids, kids[i], Depth(par, i) + 1, x);
  }

  lemma {:induction false} WalkAllCount(par: Links, kids: seq<seq<nat>>, nodes: seq<nat>, d: nat, x: nat)
    requires ValidLinks(par) && Lists(par, kids) && AtDepth(par, nodes, d) && Distinct(nodes)
    ensures multiset(WalkAll(par, kids, nodes, d))[x] == if Reaches(par, nodes, d, x) then 1 else 0
    decreases |par| - d, |nodes| + 1
  {
    if nodes != [] {
      assert nodes == [nodes[0]] + nodes[1..];
      assert nodes[0] in nodes && nodes[0] !in nodes[1..];
      WalkCount(par, kids, nodes[0], x);
      WalkAllCount(par, kids, nodes[1..], d, x);
      assert Reaches(par, nodes, d, x) <==> Reaches(par, [nodes[0]], d, x) || Reaches(par, nodes[1..], d, x);
    }
  }

  /** `roots` lists the nodes without a parent, each once. */
  ghost predicate RootList(par: Links, roots: seq<nat>) {
    Distinct(roots) && forall r: nat :: r in roots <==> r < |par| && par[r].None?
  }

  lemma RootsDepth(par: Links, roots: seq<nat>)
    requires ValidLinks(par) && RootList(par, roots)
    ensures AtDepth(par, roots, 0)
  {
    forall r | r in roots
      ensures Rooted(par, r) && Depth(par, r) == 0
    {
      assert Steps(par, r, |par|) == Some(0);
    }
  }

  ghost function WalkForest(par: Links, kids: seq<seq<nat>>, roots: seq<nat>): seq<nat>
    requires ValidLinks(par) && Lists(par, kids) && RootList(par, roots)
  {
    RootsDepth(par, roots);
    WalkAll(par, kids, roots, 0)
  }

  /** A walk from the roots meets every rooted node exactly once and nothing else. */
  lemma WalkMeetsRooted(par: Links, kids: seq<seq<nat>>, roots: seq<nat>, x: nat)
    requires ValidLinks(par) && Lists(par, kids) && RootList(par, roots)
    ensures multiset(WalkForest(par, kids, roots))[x] == if Rooted(par, x) then 1 else 0
  {
    RootsDepth(par, roots);
    WalkAllCount(par, kids, roots, 0, x);
    if Rooted(par, x) {
      AncestorDepth(par, x, Depth(par, x));
      var top := Up(par, x, Depth(par, x)).value;
      assert par[top].None? by {
        if par[top].Some? {
          assert Steps(par, top, |par|) == Some(0);
        }
      }
    }
  }

  ghost function Upto(n: nat): (r: seq<nat>)
    ensures |r| == n
  {
    if n == 0 then [] else Upto(n - 1) + [n - 1]
  }

  lemma {:induction false} UptoCount(n: nat, x: nat)
    ensures multiset(Upto(n))[x] == if x < n then 1 else 0
  {
    if n != 0 {
      UptoCount(n - 1, x);
    }
  }

  /** The walk covers all nodes, each once, exactly when the parent links have no cycle. */
  lemma SizeIffAcyclic(par: Links, kids: seq<seq<nat>>, roots: seq<nat>)
    requires ValidLinks(par) && Lists(par, kids) && RootList(par, roots)
    ensures |WalkForest(par, kids, roots)| == |par| <==> Acyclic(par)
    ensures Acyclic(par) ==> multiset(WalkForest(par, kids, roots)) == multiset(Upto(|par|))
    ensures |WalkForest(par, kids, roots)| <= |par|
  {
    var met := multiset(WalkForest(par, kids, roots));
    var all := multiset(Upto(|par|));
    forall x: nat
      ensures met[x] == (if Rooted(par, x) then 1 else 0) && all[x] == if x < |par| then 1 else 0
    {
      WalkMeetsRooted(par, kids, roots, x);
      UptoCount(|par|, x);
    }
    assert met <= all;
    assert all == met + (all - met);
    RootedIffAcyclic(par);
    if |met| == |par| {
      assert |all - met| == 0;
      assert met == all;
      forall i: nat | i < |par|
        ensures Rooted(par, i)
      {
        assert met[i] == 1;
      }
    }
    if Acyclic(par) {
      assert met == all;
    }
  }

  /** Whenever every link points forward, no node is its own ancestor. */
  lemma {:induction false} ForwardAcyclic(par: Links)
    requires ValidLinks(par)
    requires forall i :: 0 <= i < |par| && par[i].Some? ==> par[i].value > i
    ensures Acyclic(par)
  {
    forall i: nat, k: nat | i < |par| && k >= 1 && Up(par, i, k).Some?
      ensures Up(par, i, k).value > i
    {
      UpForward(par, i, k);
    }
  }

  lemma {:induction false} UpForward(par: Links, i: nat, k: nat)
    requires ValidLinks(par) && i < |par| && k >= 1 && Up(par, i, k).Some?
    requires forall i :: 0 <= i < |par| && par[i].Some? ==> par[i].value > i
    ensures Up(par, i, k).value > i
    decreases k
  {
    if k > 1 {
      UpForward(par, par[i].value, k - 1);
    } else {
      assert Up(par, par[i].value, 0) == par[i];
    }
  }
}
