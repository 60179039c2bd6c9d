/**
 The route table: location confs collected from nginx's static-location trees, and their lookup.

 The trees are walked server by server: at each node the exact conf, the inclusive one when it is another,
 then the subtree below, the left and the right. A conf is registered at its first appearance, up to the
 capacity of the table; everything else shares the overflow slot.

 - `Distinct` and `DistinctIsSet`: first appearances, each pointer once.
 - `TableIsFirstDistinct`: the table is the first 64 of them.
 - `RouteTable` is the table as code, over an array of pointers, and `SlotsSeparate` what its lookup
   tells apart.
 */
module Routes {

  const ROUTE_CAP: nat := 64

  /** A location-tree node; confs are addresses, zero the null pointer. */
  datatype Tree =
    | Null
    | Node(exact: nat, inclusive: nat, tree: Tree, left: Tree, right: Tree)

  /** The confs at one node, in registration order. */
  function Here(exact: nat, inclusive: nat): seq<nat> {
    (if exact != 0 then [exact] else []) + (if inclusive != 0 && inclusive != exact then [inclusive] else [])
  }

  function WalkOrder(t: Tree): seq<nat> {
    match t
    case Null => []
    case Node(exact, inclusive, tree, left, right) =>
      Here(exact, inclusive) + WalkOrder(tree) + WalkOrder(left) + WalkOrder(right)
  }

  /** All servers' trees, in server order. */
  function ForestOrder(servers: seq<Tree>): seq<nat> {
    if servers == [] then []
    else ForestOrder(servers[..|servers| - 1]) + WalkOrder(servers[|servers| - 1])
  }

  function Register(table: seq<nat>, p: nat): seq<nat> {
    if p in table || |table| >= ROUTE_CAP then table else table + [p]
  }

  function RegisterAll(table: seq<nat>, ps: seq<nat>): seq<nat> {
    if ps == [] then table
    else Register(RegisterAll(table, ps[..|ps| - 1]), ps[|ps| - 1])
  }

  // ── What the table holds ────────────────────────────────────────────────────

  /** First occurrences, in order. */
  function Distinct(ps: seq<nat>): seq<nat> {
    if ps == [] then []
    else
      var rest, p := ps[..|ps| - 1], ps[|ps| - 1];
      Distinct(rest) + if p in rest then [] else [p]
  }

  function FirstUpTo(ps: seq<nat>, cap: nat): (first: seq<nat>)
    ensures first <= ps && (|first| == cap || first == ps) && |first| <= cap
  {
    if |ps| <= cap then ps else ps[..cap]
  }

  ghost predicate NoDuplicates(s: seq<nat>) {
    forall i, j | 0 <= i < j < |s| :: s[i] != s[j]
  }

  lemma {:induction false} DistinctIsSet(ps: seq<nat>)
    ensures NoDuplicates(Distinct(ps)) && forall p :: p in Distinct(ps) <==> p in ps
  {
    if ps != [] {
      var rest := ps[..|ps| - 1];
      DistinctIsSet(rest);
      assert ps == rest + [ps[|ps| - 1]];
    }
  }

  /** Registration keeps the first sixty-four distinct pointers of the walk, in order of first appearance. */
  lemma {:induction false} TableIsFirstDistinct(ps: seq<nat>)
    ensures RegisterAll([], ps) == FirstUpTo(Distinct(ps), 64)
  {
    if ps != [] {
      var rest, p := ps[..|ps| - 1], ps[|ps| - 1];
      TableIsFirstDistinct(rest);
      DistinctIsSet(rest);
      DistinctIsSet(ps);
    }
  }

  lemma {:induction false} RegisterConcat(table: seq<nat>, a: seq<nat>, b: seq<nat>)
    ensures RegisterAll(table, a + b) == RegisterAll(RegisterAll(table, a), b)
    decreases |b|
  {
    if b == [] {
      assert a + b == a;
    } else {
      assert (a + b)[..|a + b| - 1] == a + b[..|b| - 1];
      RegisterConcat(table, a, b[..|b| - 1]);
    }
  }

  ghost predicate NonNull(s: seq<nat>) { forall i | 0 <= i < |s| :: s[i] != 0 }

  lemma {:induction false} WalkNonNull(t: Tree)
    ensures NonNull(WalkOrder(t))
  {
    if t.Node? {
      WalkNonNull(t.tree);
      WalkNonNull(t.left);
      WalkNonNull(t.right);
    }
  }

  lemma {:induction false} ForestNonNull(servers: seq<Tree>)
    ensures NonNull(ForestOrder(servers))
  {
    if servers != [] {
      ForestNonNull(servers[..|servers| - 1]);
      WalkNonNull(servers[|servers| - 1]);
    }
  }

  // ── What the walk visits, and in which order ────────────────────────────────

  /** The pointer stands somewhere in the tree. */
  predicate Occurs(p: nat, t: Tree) {
    t.Node? && (p == t.exact || p == t.inclusive || Occurs(p, t.tree) || Occurs(p, t.left) || Occurs(p, t.right))
  }

  /** The walk visits exactly the confs of the tree. */
  lemma {:induction false} WalkIsTree(t: Tree, p: nat)
    ensures p in WalkOrder(t) <==> p != 0 && Occurs(p, t)
  {
    if t.Node? {
      WalkIsTree(t.tree, p);
      WalkIsTree(t.left, p);
      WalkIsTree(t.right, p);
      assert p in Here(t.exact, t.inclusive) <==> p != 0 && (p == t.exact || p == t.inclusive);
    }
  }

  lemma {:induction false} ForestIsTrees(servers: seq<Tree>, p: nat)
    ensures p in ForestOrder(servers) <==> p != 0 && exists k | 0 <= k < |servers| :: Occurs(p, servers[k])
  {
    if servers != [] {
      var n := |servers| - 1;
      ForestIsTrees(servers[..n], p);
      WalkIsTree(servers[n], p);
      if k :| 0 <= k < |servers| && Occurs(p, servers[k]) { assert k < n ==> servers[..n][k] == servers[k]; }
    }
  }

  datatype Turn = Below | Left | Right

  /** The node a path leads to; no node when the path leaves the tree. */
  function NodeAt(t: Tree, path: seq<Turn>): Tree
    decreases |path|
  {
    if path == [] || t.Null? then t
    else
      match path[0]
      case Below => NodeAt(t.tree, path[1..])
      case Left => NodeAt(t.left, path[1..])
      case Right => NodeAt(t.right, path[1..])
  }

  predicate Earlier(a: Turn, b: Turn) { (a.Below? && !b.Below?) || (a.Left? && b.Right?) }

  /** A node comes before everything under it, what is below before what is left, and that before what is right. */
  predicate Before(u: seq<Turn>, v: seq<Turn>)
    decreases |u|
  {
    v != [] && (u == [] || Earlier(u[0], v[0]) || (u[0] == v[0] && Before(u[1..], v[1..])))
  }

  /** The confs of a node stand in the walk from `i` on: the exact one, then the inclusive one if it is another. */
  ghost predicate StandsAt(walk: seq<nat>, t: Tree, i: nat)
    requires t.Node?
  {
    && i + NodeSize(t) <= |walk|
    && (t.exact != 0 ==> walk[i] == t.exact)
    && (t.inclusive != 0 && t.inclusive != t.exact ==> walk[i + NodeSize(t) - 1] == t.inclusive)
  }

  function NodeSize(t: Tree): nat
    requires t.Node?
  {
    (if t.exact != 0 then 1 else 0) + (if t.inclusive != 0 && t.inclusive != t.exact then 1 else 0)
  }

  /** How much of the walk of a tree comes before the subtree a turn leads to. */
  function Ahead(t: Tree, a: Turn): seq<nat>
    requires t.Node?
  {
    var here := Here(t.exact, t.inclusive);
    match a
    case Below => here
    case Left => here + WalkOrder(t.tree)
    case Right => here + WalkOrder(t.tree) + WalkOrder(t.left)
  }

  function Child(t: Tree, a: Turn): Tree
    requires t.Node?
  {
    match a case Below => t.tree case Left => t.left case Right => t.right
  }

  lemma ChildInWalk(t: Tree, a: Turn)
    requires t.Node?
    ensures Ahead(t, a) + WalkOrder(Child(t, a)) <= WalkOrder(t) && |Here(t.exact, t.inclusive)| <= |Ahead(t, a)|
  {
    var here, x, y, z := Here(t.exact, t.inclusive), WalkOrder(t.tree), WalkOrder(t.left), WalkOrder(t.right);
    assert WalkOrder(t) == here + x + y + z;
  }

  lemma EarlierChild(t: Tree, a: Turn, b: Turn)
    requires t.Node? && Earlier(a, b)
    ensures |Ahead(t, a)| + |WalkOrder(Child(t, a))| <= |Ahead(t, b)|
  {
  }

  lemma StandsShifted(ahead: seq<nat>, part: seq<nat>, whole: seq<nat>, node: Tree, i: nat)
    requires node.Node? && ahead + part <= whole && StandsAt(part, node, i)
    ensures StandsAt(whole, node, |ahead| + i)
  {
    assert forall k | 0 <= k < |part| :: whole[|ahead| + k] == part[k];
  }

  /** The node stands in the walk of the tree from `i` on. */
  ghost predicate In(t: Tree, node: Tree, i: nat) { node.Node? && StandsAt(WalkOrder(t), node, i) }

  /** One turn further up. */
  lemma Up(t: Tree, a: Turn, child: Tree, node: Tree, k: nat) returns (i: nat)
    requires t.Node? && child == Child(t, a) && In(child, node, k)
    ensures In(t, node, i) && i == |Ahead(t, a)| + k && i + NodeSize(node) <= |Ahead(t, a)| + |WalkOrder(child)|
  {
    i := |Ahead(t, a)| + k;
    ChildInWalk(t, a);
    StandsShifted(Ahead(t, a), WalkOrder(child), WalkOrder(t), node, k);
  }

  /** The first turn of a path to a node. */
  lemma Down(t: Tree, u: seq<Turn>, node: Tree) returns (child: Tree, rest: seq<Turn>)
    requires u != [] && node.Node? && NodeAt(t, u) == node
    ensures t.Node? && child == Child(t, u[0]) && rest == u[1..] && NodeAt(child, rest) == node && (rest == [] || child.Node?)
  {
    child, rest := Child(t, u[0]), u[1..];
  }

  lemma InRoot(t: Tree)
    requires t.Node?
    ensures In(t, t, 0) && NodeSize(t) == |Here(t.exact, t.inclusive)|
  {
    ChildInWalk(t, Below);
    assert Here(t.exact, t.inclusive) <= WalkOrder(t);
  }

  /** Within the part of the walk that belongs to the turn taken. */
  ghost predicate WithinTurn(t: Tree, u: seq<Turn>, i: nat, size: nat)
    requires t.Node?
  {
    if u == [] then i == 0 else |Ahead(t, u[0])| <= i && i + size <= |Ahead(t, u[0])| + |WalkOrder(Child(t, u[0]))|
  }

  /** Where a node stands in the walk. */
  lemma {:induction false} Stands(t: Tree, u: seq<Turn>, node: Tree) returns (i: nat)
    requires t.Node? && node.Node? && NodeAt(t, u) == node
    ensures In(t, node, i) && WithinTurn(t, u, i, NodeSize(node))
    decreases |u|
  {
    if u == [] {
      i := 0;
      InRoot(t);
    } else {
      var child, rest := Down(t, u, node);
      var k := Stands(child, rest, node);
      i := Up(t, u[0], child, node, k);
    }
  }

  /** Paths that part at the first turn, or the root. */
  lemma Parted(t: Tree, u: seq<Turn>, v: seq<Turn>, i: nat, j: nat, size: nat, size': nat)
    requires t.Node? && v != [] && (u == [] || Earlier(u[0], v[0]))
    requires WithinTurn(t, u, i, size) && WithinTurn(t, v, j, size') && (u == [] ==> size == |Here(t.exact, t.inclusive)|)
    ensures i + size <= j
  {
    if u == [] { ChildInWalk(t, v[0]); } else { EarlierChild(t, u[0], v[0]); }
  }

  lemma {:induction false} InOrder(t: Tree, u: seq<Turn>, v: seq<Turn>, x: Tree, y: Tree) returns (i: nat, j: nat)
    requires x.Node? && y.Node? && NodeAt(t, u) == x && NodeAt(t, v) == y && Before(u, v)
    ensures In(t, x, i) && In(t, y, j) && i + NodeSize(x) <= j
    decreases |u|
  {
    var below, rest := Down(t, v, y);
    if u == [] || u[0] != v[0] {
      i := Stands(t, u, x);
      j := Stands(t, v, y);
      if u == [] { InRoot(t); }
      Parted(t, u, v, i, j, NodeSize(x), NodeSize(y));
    } else {
      var child, path := Down(t, u, x);
      var k, l := InOrder(child, path, rest, x, y);
      i := Up(t, u[0], child, x, k);
      j := Up(t, v[0], below, y, l);
    }
  }

  /** For any two nodes of any tree, the one that comes before has all its confs in the walk before the other's. */
  lemma WalkKeepsOrder(t: Tree, u: seq<Turn>, v: seq<Turn>) returns (i: nat, j: nat)
    requires NodeAt(t, u).Node? && NodeAt(t, v).Node? && Before(u, v)
    ensures StandsAt(WalkOrder(t), NodeAt(t, u), i) && StandsAt(WalkOrder(t), NodeAt(t, v), j)
    ensures i + NodeSize(NodeAt(t, u)) <= j
  {
    i, j := InOrder(t, u, v, NodeAt(t, u), NodeAt(t, v));
  }

  /** Servers one after the other. */
  lemma {:induction false} ForestKeepsOrder(servers: seq<Tree>, k: nat) returns (before: seq<nat>, after: seq<nat>)
    requires k < |servers|
    ensures ForestOrder(servers) == before + WalkOrder(servers[k]) + after && before == ForestOrder(servers[..k])
    decreases |servers|
  {
    var n := |servers| - 1;
    if k == n {
      before, after := ForestOrder(servers[..n]), [];
    } else {
      before, after := ForestKeepsOrder(servers[..n], k);
      assert servers[..n][..k] == servers[..k] && servers[..n][k] == servers[k];
      assert before + WalkOrder(servers[k]) + after + WalkOrder(servers[n]) == before + WalkOrder(servers[k]) + (after + WalkOrder(servers[n]));
      after := after + WalkOrder(servers[n]);
    }
  }

  /** The first place of a pointer. */
  ghost predicate FirstAt(ps: seq<nat>, p: nat, k: nat) {
    k < |ps| && ps[k] == p && forall j | 0 <= j < k :: ps[j] != p
  }

  /** First appearances stand in the order in which they appeared. */
  lemma {:induction false} DistinctInOrder(ps: seq<nat>) returns (at: seq<nat>)
    ensures |at| == |Distinct(ps)| && forall i | 0 <= i < |at| :: FirstAt(ps, Distinct(ps)[i], at[i])
    ensures forall i, j | 0 <= i < j < |at| :: at[i] < at[j]
  {
    if ps == [] {
      at := [];
    } else {
      var n := |ps| - 1;
      at := DistinctInOrder(ps[..n]);
      forall i | 0 <= i < |at| ensures FirstAt(ps, Distinct(ps[..n])[i], at[i]) {
        assert FirstAt(ps[..n], Distinct(ps[..n])[i], at[i]);
      }
      if ps[n] !in ps[..n] {
        assert FirstAt(ps, ps[n], n);
        at := at + [n];
      }
    }
  }

  /** A table without duplicates answers with the one slot of a pointer, or the shared slot. */
  function RouteOf(table: seq<nat>, p: nat): (i: nat)
    requires NoDuplicates(table) && |table| <= ROUTE_CAP
    ensures i < |table| <==> p in table && p != 0
    ensures i < |table| ==> table[i] == p
    ensures i >= |table| ==> i == ROUTE_CAP
  {
    if p in table && p != 0 then var i :| 0 <= i < |table| && table[i] == p; i else ROUTE_CAP
  }

  // ── The table as code ───────────────────────────────────────────────────────

  class RouteTable {
    const entries: array<nat>
    var n: nat

    ghost predicate Valid()
      reads this, entries
    {
      entries.Length == ROUTE_CAP && n <= ROUTE_CAP && NoDuplicates(Contents()) && NonNull(Contents())
    }

    ghost function Contents(): seq<nat>
      requires entries.Length == ROUTE_CAP && n <= ROUTE_CAP
      reads this, entries
    {
      entries[..n]
    }

    constructor ()
      ensures Valid() && fresh(entries) && Contents() == []
    {
      entries := new nat[ROUTE_CAP](_ => 0);
      n := 0;
    }

    method TryRegisterRoute(p: nat)
      requires Valid() && p != 0
      modifies this, entries
      ensures Valid() && Contents() == Register(old(Contents()), p)
    {
      for i := 0 to n
        invariant p !in entries[..i]
        invariant Valid() && Contents() == old(Contents())
      {
        if entries[i] == p {
          assert Contents()[i] == p;
          return;
        }
      }
      if n >= ROUTE_CAP {
        return;
      }
      entries[n] := p;
      n := n + 1;
      assert Contents() == old(Contents()) + [p];
    }

    method WalkLocationTree(t: Tree)
      requires Valid()
      modifies this, entries
      ensures Valid() && Contents() == RegisterAll(old(Contents()), WalkOrder(t))
      decreases t
    {
      if t.Null? {
        return;
      }
      RegisterHere(t.exact, t.inclusive);
      WalkLocationTree(t.tree);
      WalkLocationTree(t.left);
      WalkLocationTree(t.right);
      ghost var here, a, b, c := Here(t.exact, t.inclusive), WalkOrder(t.tree), WalkOrder(t.left), WalkOrder(t.right);
      RegisterConcat(old(Contents()), here, a);
      RegisterConcat(old(Contents()), here + a, b);
      RegisterConcat(old(Contents()), here + a + b, c);
    }

    /** The exact conf, then the inclusive one when it is another. */
    method RegisterHere(exact: nat, inclusive: nat)
      requires Valid()
      modifies this, entries
      ensures Valid() && Contents() == RegisterAll(old(Contents()), Here(exact, inclusive))
    {
      ghost var was := Contents();
      if exact != 0 {
        TryRegisterRoute(exact);
      }
      ghost var first := if exact != 0 then [exact] else [];
      assert Contents() == RegisterAll(was, first) by { assert [exact][..0] == []; }
      if inclusive != 0 && inclusive != exact {
        TryRegisterRoute(inclusive);
        assert (first + [inclusive])[..|first|] == first;
      } else {
        assert first + [] == first;
      }
    }

    /** Over every forest of servers the table ends as the first distinct confs of the walk. */
    method BuildRouteTable(servers: seq<Tree>)
      requires Valid() && Contents() == []
      modifies this, entries
      ensures Valid() && Contents() == FirstUpTo(Distinct(ForestOrder(servers)), ROUTE_CAP)
    {
      for i := 0 to |servers|
        invariant Valid() && Contents() == RegisterAll([], ForestOrder(servers[..i]))
      {
        WalkLocationTree(servers[i]);
        RegisterConcat([], ForestOrder(servers[..i]), WalkOrder(servers[i]));
        assert servers[..i + 1][..i] == servers[..i];
      }
      assert servers[..|servers|] == servers;
      TableIsFirstDistinct(ForestOrder(servers));
    }

    method RouteIdxForClcf(p: nat) returns (i: nat)
      requires Valid()
      ensures i == RouteOf(Contents(), p)
    {
      if p == 0 {
        return ROUTE_CAP;
      }
      for k := 0 to n
        invariant p !in entries[..k]
      {
        if entries[k] == p {
          assert Contents()[k] == p;
          return k;
        }
      }
      return ROUTE_CAP;
    }
  }

  /** Two different confs of the walk share a slot only in the overflow slot, and never when at most sixty-four exist. */
  lemma SlotsSeparate(servers: seq<Tree>, p: nat, q: nat)
    requires p in ForestOrder(servers) && q in ForestOrder(servers) && p != q
    ensures
      var d := Distinct(ForestOrder(servers));
      var table := FirstUpTo(d, ROUTE_CAP);
      && NoDuplicates(table)
      && (RouteOf(table, p) == RouteOf(table, q) ==> RouteOf(table, p) == ROUTE_CAP)
      && (|d| <= ROUTE_CAP ==> RouteOf(table, p) < ROUTE_CAP && RouteOf(table, p) != RouteOf(table, q))
  {
    ForestNonNull(servers);
    DistinctIsSet(ForestOrder(servers));
  }
}
