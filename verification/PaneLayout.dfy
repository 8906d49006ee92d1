/** The tree of split panes: surgery on leaves, moving a pane next to another, and pruning a restored
    tree down to the panes that could be spawned again. */
module PaneLayout {
  import opened Sequences
  import opened Wrappers

  type PaneId = nat

  datatype Dir = Horizontal | Vertical

  datatype Edge = Top | Right | Bottom | Left

  datatype Layout = Leaf(id: PaneId) | Split(dir: Dir, a: Layout, b: Layout, ratio: real)

  // ------------------------------------------------------------ specification

  function Leaves(t: Layout): (s: seq<PaneId>)
    ensures s != []
  {
    match t
    case Leaf(id) => [id]
    case Split(_, a, b, _) => Leaves(a) + Leaves(b)
  }

  /** The first leaf `target`, in order, replaced by `sub`. */
  function Replaced(t: Layout, target: PaneId, sub: Layout): Layout {
    match t
    case Leaf(id) => if id == target then sub else t
    case Split(dir, a, b, ratio) =>
      if target in Leaves(a) then Split(dir, Replaced(a, target, sub), b, ratio)
      else Split(dir, a, Replaced(b, target, sub), ratio)
  }

  /** One leaf `target` below the root gone, its sibling promoted: a direct child first, then the left
      subtree, then the right one. */
  function Pruned(t: Layout, target: PaneId): Layout {
    match t
    case Leaf(_) => t
    case Split(dir, a, b, ratio) =>
      if a == Leaf(target) then b
      else if b == Leaf(target) then a
      else if target in Leaves(a) then Split(dir, Pruned(a, target), b, ratio)
      else Split(dir, a, Pruned(b, target), ratio)
  }

  /** The split that dropping `source` on an edge of `target` makes. */
  function DropSplit(source: PaneId, target: PaneId, edge: Edge): Layout {
    match edge
    case Top => Split(Horizontal, Leaf(source), Leaf(target), 0.5)
    case Bottom => Split(Horizontal, Leaf(target), Leaf(source), 0.5)
    case Left => Split(Vertical, Leaf(source), Leaf(target), 0.5)
    case Right => Split(Vertical, Leaf(target), Leaf(source), 0.5)
  }

  // ------------------------------------------------------------- the surgery

  /** `node` with its first leaf `target` replaced, and whether there was one. */
  method ReplaceLeafWith(node: Layout, target: PaneId, sub: Layout) returns (result: Layout, done: bool)
    ensures done == (target in Leaves(node)) && result == Replaced(node, target, sub)
    decreases node
  {
    match node {
      case Leaf(id) =>
        if id == target {
          return sub, true;
        }
        return node, false;
      case Split(dir, a, b, ratio) =>
        var a1, doneA := ReplaceLeafWith(a, target, sub);
        if doneA {
          return Split(dir, a1, b, ratio), true;
        }
        var b1, doneB := ReplaceLeafWith(b, target, sub);
        return Split(dir, a, b1, ratio), doneB;
    }
  }

  method RemoveLeafIn(node: Layout, target: PaneId) returns (result: Layout, done: bool)
    ensures done == (node.Split? && target in Leaves(node)) && result == Pruned(node, target)
    decreases node
  {
    match node {
      case Leaf(_) => return node, false;
      case Split(dir, a, b, ratio) =>
        if a.Leaf? && a.id == target {
          return b, true;
        }
        if b.Leaf? && b.id == target {
          return a, true;
        }
        var a1, doneA := RemoveLeafIn(a, target);
        if doneA {
          return Split(dir, a1, b, ratio), true;
        }
        var b1, doneB := RemoveLeafIn(b, target);
        return Split(dir, a, b1, ratio), doneB;
    }
  }

  class Tree {
    var root: Layout

    constructor (root: Layout)
      ensures this.root == root
    {
      this.root := root;
    }

    method ReplaceLeaf(target: PaneId, sub: Layout) returns (done: bool)
      modifies this
      ensures done == (target in Leaves(old(root))) && root == Replaced(old(root), target, sub)
    {
      root, done := ReplaceLeafWith(root, target, sub);
    }

    method RemoveLeaf(target: PaneId) returns (done: bool)
      modifies this
      ensures done == (old(root).Split? && target in Leaves(old(root)))
      ensures root == Pruned(old(root), target)
    {
      if root.Leaf? && root.id == target {
        return false;
      }
      root, done := RemoveLeafIn(root, target);
    }

    /** Succeeds exactly when the panes differ and both occur; the rollback is never needed. */
    method Reparent(source: PaneId, target: PaneId, edge: Edge) returns (done: bool)
      modifies this
      ensures done == (source != target && source in Leaves(old(root)) && target in Leaves(old(root)))
      ensures root == if done then Replaced(Pruned(old(root), source), target, DropSplit(source, target, edge)) else old(root)
    {
      if source == target {
        return false;
      }
      var leaves := Leaves(root);
      if source !in leaves || target !in leaves {
        return false;
      }
      PrunedKeepsOthers(root, source, target);
      var removed := RemoveLeaf(source);
      if !removed {
        assert false;
      }
      var placed := ReplaceLeaf(target, DropSplit(source, target, edge));
      // Here the program would put back a copy of the tree; the target is always still there.
      if !placed {
        assert false;
      }
      return true;
    }
  }

  // ------------------------------------------------------------- leaf orders

  /** Removing a leaf takes exactly one occurrence out of the leaf order. */
  lemma {:induction false} PrunedLeaves(t: Layout, target: PaneId) returns (p: seq<PaneId>, q: seq<PaneId>)
    requires t.Split? && target in Leaves(t)
    ensures Leaves(t) == p + ([target] + q) && Leaves(Pruned(t, target)) == p + q
  {
    var a, b := Leaves(t.a), Leaves(t.b);
    if t.a == Leaf(target) {
      p, q := [], b;
    } else if t.b == Leaf(target) {
      p, q := a, [];
    } else if target in a {
      p, q := PrunedLeaves(t.a, target);
      Regroup(p, q, b);
      Regroup(p, [target] + q, b);
      Regroup([target], q, b);
      q := q + b;
    } else {
      p, q := PrunedLeaves(t.b, target);
      Regroup(a, p, q);
      Regroup(a, p, [target] + q);
      p := a + p;
    }
  }

  lemma PrunedKeepsOthers(t: Layout, source: PaneId, target: PaneId)
    requires source != target && source in Leaves(t) && target in Leaves(t)
    ensures t.Split? && target in Leaves(Pruned(t, source))
  {
    var p, q := PrunedLeaves(t, source);
    assert target in p || target in q;
  }

  function PositionOf(s: seq<PaneId>, x: PaneId): (k: nat)
    requires x in s
    ensures k < |s| && s[k] == x && forall j | 0 <= j < k :: s[j] != x
  {
    if s[0] == x then 0 else 1 + PositionOf(s[1..], x)
  }

  /** The first `x` of `s`, in order, replaced by `sub`. */
  function Spliced(s: seq<PaneId>, x: PaneId, sub: seq<PaneId>): seq<PaneId>
    requires x in s
  {
    s[..PositionOf(s, x)] + sub + s[PositionOf(s, x) + 1..]
  }

  lemma PositionIs(s: seq<PaneId>, x: PaneId, k: nat)
    requires k < |s| && s[k] == x && forall j | 0 <= j < k :: s[j] != x
    ensures x in s && PositionOf(s, x) == k
  {
  }

  lemma {:induction false} ReplacedLeaves(t: Layout, target: PaneId, sub: Layout)
    requires target in Leaves(t)
    ensures Leaves(Replaced(t, target, sub)) == Spliced(Leaves(t), target, Leaves(sub))
  {
    if t.Leaf? {
      PositionIs([target], target, 0);
      assert [] + Leaves(sub) + [] == Leaves(sub);
    } else if target in Leaves(t.a) {
      ReplacedLeaves(t.a, target, sub);
      SplicedLeft(Leaves(t.a), Leaves(t.b), target, Leaves(sub));
    } else {
      ReplacedLeaves(t.b, target, sub);
      SplicedRight(Leaves(t.a), Leaves(t.b), target, Leaves(sub));
    }
  }

  lemma SplicedLeft(a: seq<PaneId>, b: seq<PaneId>, x: PaneId, sub: seq<PaneId>)
    requires x in a
    ensures x in a + b && Spliced(a + b, x, sub) == Spliced(a, x, sub) + b
  {
    var k := PositionOf(a, x);
    PositionIs(a + b, x, k);
    assert (a + b)[..k] == a[..k] && (a + b)[k + 1..] == a[k + 1..] + b;
    Regroup(a[..k] + sub, a[k + 1..], b);
  }

  lemma SplicedRight(a: seq<PaneId>, b: seq<PaneId>, x: PaneId, sub: seq<PaneId>)
    requires x !in a && x in b
    ensures x in a + b && Spliced(a + b, x, sub) == a + Spliced(b, x, sub)
  {
    var k := PositionOf(b, x);
    PositionIs(a + b, x, |a| + k);
    assert (a + b)[..|a| + k] == a + b[..k] && (a + b)[|a| + k + 1..] == b[k + 1..];
    Regroup(a, b[..k], sub);
    Regroup(a, b[..k] + sub, b[k + 1..]);
  }

  predicate Unique(s: seq<PaneId>) {
    forall i, j | 0 <= i < j < |s| :: s[i] != s[j]
  }

  function Dropped(s: seq<PaneId>, x: PaneId): (r: seq<PaneId>)
    ensures forall y :: y in r <==> y in s && y != x
  {
    if s == [] then [] else (if s[0] == x then [] else [s[0]]) + Dropped(s[1..], x)
  }

  lemma {:induction false} DroppedIs(p: seq<PaneId>, x: PaneId, q: seq<PaneId>)
    requires x !in p && x !in q
    ensures Dropped(p + ([x] + q), x) == p + q
  {
    var s := p + ([x] + q);
    if p == [] {
      assert s[1..] == q;
      NothingDropped(q, x);
    } else {
      DroppedIs(p[1..], x, q);
      assert s[1..] == p[1..] + ([x] + q);
      assert p + q == [p[0]] + (p[1..] + q);
    }
  }

  lemma UniqueParts(p: seq<PaneId>, x: PaneId, q: seq<PaneId>)
    requires Unique(p + ([x] + q))
    ensures x !in p && x !in q
  {
    var s := p + ([x] + q);
    assert s[|p|] == x;
    assert forall i | 0 <= i < |p| :: s[i] == p[i];
    assert forall i | 0 <= i < |q| :: s[|p| + 1 + i] == q[i];
  }

  lemma {:induction false} NothingDropped(s: seq<PaneId>, x: PaneId)
    requires x !in s
    ensures Dropped(s, x) == s
  {
    if s != [] {
      NothingDropped(s[1..], x);
    }
  }

  lemma PrunedDrops(t: Layout, x: PaneId)
    requires t.Split? && x in Leaves(t) && Unique(Leaves(t))
    ensures Leaves(Pruned(t, x)) == Dropped(Leaves(t), x)
  {
    var p, q := PrunedLeaves(t, x);
    UniqueParts(p, x, q);
    DroppedIs(p, x, q);
  }

  /** With unique ids, a move takes the source out of the leaf order and puts it back directly before
      the target (top, left) or directly after it (bottom, right); nothing else moves. */
  lemma ReparentOrder(t: Layout, source: PaneId, target: PaneId, edge: Edge)
    requires source != target && source in Leaves(t) && target in Leaves(t) && Unique(Leaves(t))
    ensures var rest := Dropped(Leaves(t), source);
      && target in rest
      && Leaves(Replaced(Pruned(t, source), target, DropSplit(source, target, edge)))
         == Spliced(rest, target, if edge == Top || edge == Left then [source, target] else [target, source])
  {
    PrunedKeepsOthers(t, source, target);
    PrunedDrops(t, source);
    var pair := if edge == Top || edge == Left then [source, target] else [target, source];
    assert Leaves(DropSplit(source, target, edge)) == pair;
    ReplacedLeaves(Pruned(t, source), target, DropSplit(source, target, edge));
  }

  /** The smallest part of a tree that holds both panes. */
  function Parting(t: Layout, x: PaneId, y: PaneId): Layout {
    match t
    case Leaf(_) => t
    case Split(_, a, b, _) =>
      if x in Leaves(a) && y in Leaves(a) then Parting(a, x, y)
      else if x in Leaves(b) && y in Leaves(b) then Parting(b, x, y)
      else t
  }

  /** The same split of the same panes, but for one that comes or goes. */
  predicate SameSplit(s: Layout, t: Layout, moved: PaneId) {
    && s.Split? && t.Split? && s.dir == t.dir && s.ratio == t.ratio
    && Dropped(Leaves(s.a), moved) == Dropped(Leaves(t.a), moved)
    && Dropped(Leaves(s.b), moved) == Dropped(Leaves(t.b), moved)
  }

  lemma UniqueHalves(a: seq<PaneId>, b: seq<PaneId>)
    requires Unique(a + b)
    ensures Unique(a) && Unique(b) && forall x | x in a :: x !in b
  {
    assert forall i | 0 <= i < |a| :: (a + b)[i] == a[i];
    assert forall i | 0 <= i < |b| :: (a + b)[|a| + i] == b[i];
  }

  /** Two different panes part at a split. */
  lemma {:induction false} PartsAtSplit(t: Layout, x: PaneId, y: PaneId)
    requires x in Leaves(t) && y in Leaves(t) && x != y
    ensures Parting(t, x, y).Split?
  {
    if t.Split? {
      if x in Leaves(t.a) && y in Leaves(t.a) {
        PartsAtSplit(t.a, x, y);
      } else if x in Leaves(t.b) && y in Leaves(t.b) {
        PartsAtSplit(t.b, x, y);
      }
    }
  }

  lemma {:induction false} DroppedTwice(s: seq<PaneId>, x: PaneId)
    ensures Dropped(Dropped(s, x), x) == Dropped(s, x)
  {
    NothingDropped(Dropped(s, x), x);
  }

  /** Taking a pane away leaves the other panes in their splits. */
  lemma {:induction false} PrunedParting(t: Layout, gone: PaneId, x: PaneId, y: PaneId)
    requires Unique(Leaves(t)) && gone in Leaves(t) && x in Leaves(t) && y in Leaves(t)
    requires x != y && x != gone && y != gone
    ensures SameSplit(Parting(t, x, y), Parting(Pruned(t, gone), x, y), gone)
  {
    UniqueHalves(Leaves(t.a), Leaves(t.b));
    PartsAtSplit(t, x, y);
    if t.a != Leaf(gone) && t.b != Leaf(gone) {
      var inA := gone in Leaves(t.a);
      var part := if inA then t.a else t.b;
      PrunedDrops(part, gone);
      DroppedTwice(Leaves(part), gone);
      if x in Leaves(part) && y in Leaves(part) {
        PrunedParting(part, gone, x, y);
      }
    }
  }

  /** `sub` is a split of the panes `added` and `target`. */
  predicate SplitOf(sub: Layout, added: PaneId, target: PaneId) {
    sub.Split? && ((sub.a == Leaf(added) && sub.b == Leaf(target)) || (sub.a == Leaf(target) && sub.b == Leaf(added)))
  }

  /** With a split of a pane and a new one in that pane's place, the leaves but for the new one are the old ones. */
  lemma ReplacedAdds(t: Layout, target: PaneId, sub: Layout, added: PaneId)
    requires target in Leaves(t) && added !in Leaves(t) && added != target && SplitOf(sub, added, target)
    ensures Dropped(Leaves(Replaced(t, target, sub)), added) == Leaves(t)
    ensures forall x :: x in Leaves(Replaced(t, target, sub)) <==> x in Leaves(t) || x == added
  {
    ReplacedLeaves(t, target, sub);
    assert Leaves(sub) == if sub.a == Leaf(added) then [added, target] else [target, added];
    SplicedAdds(Leaves(t), target, added, sub.a == Leaf(added));
    HasAdded(Leaves(Replaced(t, target, sub)), Leaves(t), added);
  }

  lemma SplicedAdds(s: seq<PaneId>, target: PaneId, added: PaneId, first: bool)
    requires target in s && added !in s
    ensures var r := Spliced(s, target, if first then [added, target] else [target, added]);
      Dropped(r, added) == s && |r| == |s| + 1
  {
    var k := PositionOf(s, target);
    assert s == s[..k] + ([target] + s[k + 1..]);
    if first {
      AddsBefore(s[..k], target, s[k + 1..], added);
    } else {
      AddsAfter(s[..k], target, s[k + 1..], added);
    }
  }

  lemma AddsBefore(p: seq<PaneId>, target: PaneId, q: seq<PaneId>, added: PaneId)
    requires added !in p + ([target] + q)
    ensures Dropped(p + [added, target] + q, added) == p + ([target] + q)
  {
    DroppedIs(p, added, [target] + q);
    assert [added] + [target] == [added, target];
    Regroup([added], [target], q);
    Regroup(p, [added, target], q);
  }

  lemma AddsAfter(p: seq<PaneId>, target: PaneId, q: seq<PaneId>, added: PaneId)
    requires added !in p + ([target] + q)
    ensures Dropped(p + [target, added] + q, added) == p + ([target] + q)
  {
    Regroup(p, [target], q);
    DroppedIs(p + [target], added, q);
    assert [target] + [added] == [target, added];
    Regroup(p, [target], [added] + q);
    Regroup([target], [added], q);
    Regroup(p, [target, added], q);
  }

  lemma HasAdded(s: seq<PaneId>, rest: seq<PaneId>, added: PaneId)
    requires Dropped(s, added) == rest && |s| > |rest|
    ensures forall x :: x in s <==> x in rest || x == added
  {
    if added !in s {
      NothingDropped(s, added);
    }
  }

  /** The panes that were there stay in their splits. */
  lemma {:induction false} ReplacedParting(t: Layout, target: PaneId, sub: Layout, added: PaneId, x: PaneId, y: PaneId)
    requires Unique(Leaves(t)) && target in Leaves(t) && added !in Leaves(t) && added != target && SplitOf(sub, added, target)
    requires x in Leaves(t) && y in Leaves(t) && x != y
    ensures SameSplit(Parting(t, x, y), Parting(Replaced(t, target, sub), x, y), added)
  {
    UniqueHalves(Leaves(t.a), Leaves(t.b));
    PartsAtSplit(t, x, y);
    var part := if target in Leaves(t.a) then t.a else t.b;
    ReplacedAdds(part, target, sub, added);
    NothingDropped(Leaves(part), added);
    if x in Leaves(part) && y in Leaves(part) {
      ReplacedParting(part, target, sub, added, x, y);
    }
  }

  /** The new pane parts from its target at the new split, and from every other pane where its target does. */
  lemma {:induction false} AddedParting(t: Layout, target: PaneId, sub: Layout, added: PaneId, y: PaneId)
    requires Unique(Leaves(t)) && target in Leaves(t) && added !in Leaves(t) && added != target && SplitOf(sub, added, target)
    requires y in Leaves(t)
    ensures Parting(Replaced(t, target, sub), added, target) == sub
    ensures y != target ==> Parting(Replaced(t, target, sub), added, y) == Parting(Replaced(t, target, sub), target, y)
  {
    if t.Split? {
      UniqueHalves(Leaves(t.a), Leaves(t.b));
      var part := if target in Leaves(t.a) then t.a else t.b;
      ReplacedAdds(part, target, sub, added);
      AddedParting(part, target, sub, added, if y in Leaves(part) then y else target);
    }
  }

  /** After a move the source and the target are the halves of one even split: one above the other for the top
      and bottom edges, side by side for the left and right ones, the source first at the top and at the left. */
  predicate IsDrop(s: Layout, source: PaneId, target: PaneId, edge: Edge) {
    && s.Split? && s.ratio + s.ratio == 1.0
    && (s.dir == Horizontal <==> edge == Top || edge == Bottom)
    && (if edge == Top || edge == Left then s.a == Leaf(source) && s.b == Leaf(target) else s.a == Leaf(target) && s.b == Leaf(source))
  }

  /** What a move does to the shape of the tree, with unique ids: any two other panes stay in the same split, with
      its direction, its ratio and the other panes of its halves. The source comes to share an even split
      with the target alone, and is parted from every third pane by the split that parts the target from it. */
  lemma ReparentShape(t: Layout, source: PaneId, target: PaneId, edge: Edge, x: PaneId, y: PaneId)
    requires source != target && source in Leaves(t) && target in Leaves(t) && Unique(Leaves(t))
    requires x in Leaves(t) && y in Leaves(t) && x != source && y != source
    ensures var moved := Replaced(Pruned(t, source), target, DropSplit(source, target, edge));
      && IsDrop(Parting(moved, source, target), source, target, edge)
      && (x != y ==> SameSplit(Parting(t, x, y), Parting(moved, x, y), source))
      && (y != target ==> Parting(moved, source, y) == Parting(moved, target, y))
  {
    var sub, small := DropSplit(source, target, edge), Pruned(t, source);
    PrunedDrops(t, source);
    DroppedUnique(Leaves(t), source);
    AddedParting(small, target, sub, source, y);
    if x != y {
      PrunedParting(t, source, x, y);
      ReplacedParting(small, target, sub, source, x, y);
    }
  }

  lemma {:induction false} DroppedUnique(s: seq<PaneId>, x: PaneId)
    requires Unique(s)
    ensures Unique(Dropped(s, x))
  {
    if s != [] {
      DroppedUnique(s[1..], x);
      assert forall i | 1 <= i < |s| :: s[i] != s[0];
      assert s[0] !in s[1..];
    }
  }

  /** A move keeps all panes, duplicates included. */
  lemma ReparentConserves(t: Layout, source: PaneId, target: PaneId, edge: Edge)
    requires source != target && source in Leaves(t) && target in Leaves(t)
    ensures multiset(Leaves(Replaced(Pruned(t, source), target, DropSplit(source, target, edge)))) == multiset(Leaves(t))
  {
    PrunedKeepsOthers(t, source, target);
    PrunedMultiset(t, source);
    var small, sub := Pruned(t, source), DropSplit(source, target, edge);
    ReplacedMultiset(small, target, sub);
    DropSplitMultiset(source, target, edge);
    Cancel(multiset(Leaves(Replaced(small, target, sub))), multiset(Leaves(small)), source, target);
  }

  lemma DropSplitMultiset(source: PaneId, target: PaneId, edge: Edge)
    ensures multiset(Leaves(DropSplit(source, target, edge))) == multiset{source, target}
  {
  }

  lemma PrunedMultiset(t: Layout, x: PaneId)
    requires t.Split? && x in Leaves(t)
    ensures multiset(Leaves(t)) == multiset(Leaves(Pruned(t, x))) + multiset{x}
  {
    var p, q := PrunedLeaves(t, x);
    assert multiset(p + ([x] + q)) == multiset(p + q) + multiset{x};
  }

  lemma ReplacedMultiset(t: Layout, x: PaneId, sub: Layout)
    requires x in Leaves(t)
    ensures multiset(Leaves(Replaced(t, x, sub))) + multiset{x} == multiset(Leaves(t)) + multiset(Leaves(sub))
  {
    ReplacedLeaves(t, x, sub);
    SplicedMultiset(Leaves(t), x, Leaves(sub));
  }

  lemma Cancel(a: multiset<PaneId>, b: multiset<PaneId>, x: PaneId, y: PaneId)
    requires a + multiset{y} == b + multiset{x, y}
    ensures a == b + multiset{x}
  {
    assert (a + multiset{y}) - multiset{y} == a;
    assert (b + multiset{x, y}) - multiset{y} == b + multiset{x};
  }

  lemma SplicedMultiset(s: seq<PaneId>, x: PaneId, sub: seq<PaneId>)
    requires x in s
    ensures multiset(Spliced(s, x, sub)) + multiset{x} == multiset(s) + multiset(sub)
  {
    var k := PositionOf(s, x);
    var a, c := s[..k], s[k + 1..];
    assert s == a + [x] + c;
    MultisetOfThree(a, [x], c);
    MultisetOfThree(a, sub, c);
  }

  lemma MultisetOfThree(a: seq<PaneId>, b: seq<PaneId>, c: seq<PaneId>)
    ensures multiset(a + b + c) == multiset(a) + multiset(b) + multiset(c)
  {
  }

  /** Splitting a leaf with a new id and then removing that id gives back the identical tree, on
      whichever side the new pane went and whatever the ratio. */
  lemma {:induction false} SplitThenRemove(t: Layout, target: PaneId, newId: PaneId, dir: Dir, ratio: real, newFirst: bool)
    requires target in Leaves(t) && newId !in Leaves(t)
    ensures var sub := if newFirst then Split(dir, Leaf(newId), Leaf(target), ratio) else Split(dir, Leaf(target), Leaf(newId), ratio);
      Pruned(Replaced(t, target, sub), newId) == t
  {
    if t.Split? {
      var sub := if newFirst then Split(dir, Leaf(newId), Leaf(target), ratio) else Split(dir, Leaf(target), Leaf(newId), ratio);
      if target in Leaves(t.a) {
        SplitThenRemove(t.a, target, newId, dir, ratio, newFirst);
        ReplacedHas(t.a, target, sub, newId);
        assert t.b != Leaf(newId);
      } else {
        SplitThenRemove(t.b, target, newId, dir, ratio, newFirst);
        ReplacedHas(t.b, target, sub, newId);
        assert t.a != Leaf(newId);
      }
    }
  }

  lemma ReplacedHas(t: Layout, target: PaneId, sub: Layout, x: PaneId)
    requires target in Leaves(t) && x in Leaves(sub) && sub.Split?
    ensures x in Leaves(Replaced(t, target, sub)) && Replaced(t, target, sub).Split?
  {
    ReplacedLeaves(t, target, sub);
    var s, k := Leaves(t), PositionOf(Leaves(t), target);
    assert s[..k] + Leaves(sub) + s[k + 1..] == Spliced(s, target, Leaves(sub));
  }

  // ------------------------------------------------------------------ restore

  const U32_MAX := 0xFFFF_FFFF

  datatype Restored = Restored(survivors: set<PaneId>, layout: Layout, focused: PaneId, anchors: set<PaneId>, nextId: PaneId)

  function Kept(s: seq<PaneId>, survivors: set<PaneId>): (r: seq<PaneId>) {
    if s == [] then [] else (if s[0] in survivors then [s[0]] else []) + Kept(s[1..], survivors)
  }

  lemma {:induction false} KeptHas(s: seq<PaneId>, survivors: set<PaneId>, x: PaneId)
    ensures x in Kept(s, survivors) <==> x in s && x in survivors
  {
    if s != [] {
      KeptHas(s[1..], survivors, x);
      assert s == [s[0]] + s[1..];
    }
  }

  lemma KeptArePanes(s: seq<PaneId>, survivors: set<PaneId>)
    ensures forall x | x in Kept(s, survivors) :: x in survivors
  {
    forall x | x in Kept(s, survivors)
      ensures x in survivors
    {
      KeptHas(s, survivors, x);
    }
  }

  lemma {:induction false} KeptConcat(s: seq<PaneId>, t: seq<PaneId>, survivors: set<PaneId>)
    ensures Kept(s + t, survivors) == Kept(s, survivors) + Kept(t, survivors)
  {
    if s == [] {
      assert s + t == t;
    } else {
      var head, rest := if s[0] in survivors then [s[0]] else [], Kept(s[1..], survivors);
      assert (s + t)[1..] == s[1..] + t;
      KeptConcat(s[1..], t, survivors);
      Regroup(head, rest, Kept(t, survivors));
    }
  }

  lemma OneLessKept(p: seq<PaneId>, x: PaneId, q: seq<PaneId>, survivors: set<PaneId>)
    requires x !in survivors
    ensures Kept(p + q, survivors) == Kept(p + ([x] + q), survivors)
  {
    KeptConcat(p, q, survivors);
    KeptConcat(p, [x] + q, survivors);
    assert ([x] + q)[1..] == q;
  }

  function MaxOf(s: seq<PaneId>): (m: PaneId)
    requires s != []
    ensures m in s && forall x | x in s :: x <= m
  {
    if |s| == 1 then s[0]
    else
      var m := MaxOf(s[1..]);
      assert s == [s[0]] + s[1..];
      if s[0] > m then s[0] else m
  }

  function MinOf(s: set<PaneId>): (m: PaneId)
    requires s != {}
    ensures m in s && forall x | x in s :: m <= x
  {
    MinIsThere(s);
    var m :| m in s && forall x | x in s :: m <= x;
    m
  }

  lemma MinIsThere(s: set<PaneId>)
    requires s != {}
    ensures exists m :: m in s && forall x | x in s :: m <= x
  {
    var m := MinExists(s);
    assert m in s && forall x | x in s :: m <= x;
  }

  lemma {:induction false} MinExists(s: set<PaneId>) returns (m: PaneId)
    requires s != {}
    ensures m in s && forall x | x in s :: m <= x
  {
    var y :| y in s;
    var rest := s - {y};
    m := y;
    if rest != {} {
      var other := MinExists(rest);
      m := if y <= other then y else other;
    }
    forall x | x in s
      ensures m <= x
    {
      assert x == y || x in rest;
    }
  }

  /** The survivors when the leaves are visited in order and `spawned[i]` says whether leaf `i`, having
      a recorded working directory, could be spawned. */
  function Survivors(leaves: seq<PaneId>, cwds: set<PaneId>, spawned: seq<bool>): set<PaneId>
    requires |spawned| == |leaves|
  {
    set i | 0 <= i < |leaves| && leaves[i] in cwds && spawned[i] :: leaves[i]
  }

  /** A tree cut down to some panes at once: a split stays, as it is, where both of its halves keep something,
      and gives way to the half that does otherwise. */
  function Restricted(t: Layout, panes: set<PaneId>): Option<Layout> {
    match t
    case Leaf(id) => if id in panes then Some(t) else None
    case Split(dir, a, b, ratio) =>
      var left, right := Restricted(a, panes), Restricted(b, panes);
      if left.None? then right else if right.None? then left else Some(Split(dir, left.value, right.value, ratio))
  }

  /** Removing a leaf that does not come back, wherever it stands, leaves what the tree is cut down to. */
  lemma {:induction false} PrunedRestricted(t: Layout, gone: PaneId, panes: set<PaneId>)
    requires t.Split? && gone in Leaves(t) && gone !in panes
    ensures Restricted(Pruned(t, gone), panes) == Restricted(t, panes)
  {
    if t.a != Leaf(gone) && t.b != Leaf(gone) {
      PrunedRestricted(if gone in Leaves(t.a) then t.a else t.b, gone, panes);
    }
  }

  lemma {:induction false} NothingRestricted(t: Layout, panes: set<PaneId>)
    requires forall x | x in Leaves(t) :: x in panes
    ensures Restricted(t, panes) == Some(t)
  {
    if t.Split? {
      NothingRestricted(t.a, panes);
      NothingRestricted(t.b, panes);
    }
  }

  /** Restoring a snapshot: drop the leaves that do not come back, filter the anchors, pick focus and the
      next free id. */
  method BuildRestored(snapshot: Layout, cwds: set<PaneId>, spawned: seq<bool>, recorded: set<PaneId>)
    returns (r: Option<Restored>)
    requires |spawned| == |Leaves(snapshot)|
    ensures r.None? <==> Survivors(Leaves(snapshot), cwds, spawned) == {}
    ensures r.Some? ==>
      && r.value.survivors == Survivors(Leaves(snapshot), cwds, spawned)
      && Leaves(r.value.layout) == Kept(Leaves(snapshot), r.value.survivors)
      && Restricted(snapshot, r.value.survivors) == Some(r.value.layout)
      && r.value.anchors == recorded * r.value.survivors
      && r.value.focused == (if r.value.anchors != {} then MinOf(r.value.anchors) else Leaves(r.value.layout)[0])
      && r.value.nextId == (MaxOf(Leaves(r.value.layout)) + 1) % (U32_MAX + 1)
  {
    var leaves := Leaves(snapshot);
    var panes := SpawnPanes(leaves, cwds, spawned);
    if panes == {} {
      return None;
    }
    var layout := PruneGhosts(snapshot, panes);
    var anchors := recorded * panes;
    var focused := if anchors != {} then MinOf(anchors) else Leaves(layout)[0];
    var nextId := (MaxOf(Leaves(layout)) + 1) % (U32_MAX + 1);
    return Some(Restored(panes, layout, focused, anchors, nextId));
  }

  /** The first loop of a restore: one pane for each leaf that comes back. */
  method SpawnPanes(leaves: seq<PaneId>, cwds: set<PaneId>, spawned: seq<bool>) returns (panes: set<PaneId>)
    requires |spawned| == |leaves|
    ensures panes == Survivors(leaves, cwds, spawned)
  {
    panes := {};
    for i := 0 to |leaves|
      invariant panes == set j | 0 <= j < i && leaves[j] in cwds && spawned[j] :: leaves[j]
    {
      if leaves[i] !in cwds {
        continue;
      }
      if !spawned[i] {
        continue;
      }
      panes := panes + {leaves[i]};
    }
  }

  /** The second loop: every leaf without a pane is removed, and each removal finds its leaf below the root. */
  method PruneGhosts(snapshot: Layout, panes: set<PaneId>) returns (layout: Layout)
    requires panes != {} && forall x | x in panes :: x in Leaves(snapshot)
    ensures Leaves(layout) == Kept(Leaves(snapshot), panes) && Restricted(snapshot, panes) == Some(layout)
  {
    var leaves := Leaves(snapshot);
    var tree := new Tree(snapshot);
    PruningStarts(leaves, panes);
    SomeKept(leaves, panes);
    var i := 0;
    while i < |leaves|
      invariant i <= |leaves| && Pruning(leaves, Leaves(tree.root), i, panes)
      invariant Restricted(tree.root, panes) == Restricted(snapshot, panes)
    {
      PruneOne(tree, leaves, i, panes);
      i := i + 1;
    }
    NoGhostsLeft(leaves, Leaves(tree.root), panes);
    layout := tree.root;
    KeptArePanes(leaves, panes);
    NothingRestricted(layout, panes);
  }

  /** One round of that loop. */
  method PruneOne(tree: Tree, leaves: seq<PaneId>, i: nat, panes: set<PaneId>)
    requires i < |leaves| && Pruning(leaves, Leaves(tree.root), i, panes) && Kept(leaves, panes) != []
    modifies tree
    ensures Pruning(leaves, Leaves(tree.root), i + 1, panes)
    ensures leaves[i] !in panes ==> old(tree.root).Split? && leaves[i] in Leaves(old(tree.root))
    ensures Restricted(tree.root, panes) == Restricted(old(tree.root), panes)
  {
    var id := leaves[i];
    if id !in panes {
      GhostRemoved(leaves, tree.root, i, panes);
      PrunedRestricted(tree.root, id, panes);
      var removed := tree.RemoveLeaf(id);
      assert removed;
    } else {
      SurvivorPassed(leaves, Leaves(tree.root), i, panes);
    }
  }

  /** The leaves without a pane, as often as they occur. */
  ghost function Ghosts(s: seq<PaneId>, panes: set<PaneId>): multiset<PaneId> {
    if s == [] then multiset{} else (if s[0] in panes then multiset{} else multiset{s[0]}) + Ghosts(s[1..], panes)
  }

  /** After the first `i` leaves, the tree has the same survivors, in order, and as many leaves without
      a pane as are still to be visited. */
  ghost predicate Pruning(leaves: seq<PaneId>, now: seq<PaneId>, i: nat, panes: set<PaneId>) {
    i <= |leaves| && Kept(now, panes) == Kept(leaves, panes) && Ghosts(now, panes) == Ghosts(leaves[i..], panes)
  }

  lemma PruningStarts(leaves: seq<PaneId>, panes: set<PaneId>)
    ensures Pruning(leaves, leaves, 0, panes)
  {
    assert leaves[0..] == leaves;
  }

  lemma NoGhostsLeft(leaves: seq<PaneId>, s: seq<PaneId>, panes: set<PaneId>)
    requires Pruning(leaves, s, |leaves|, panes)
    ensures s == Kept(leaves, panes)
  {
    NoGhosts(s, panes);
  }

  lemma {:induction false} NoGhosts(s: seq<PaneId>, panes: set<PaneId>)
    requires Ghosts(s, panes) == multiset{}
    ensures Kept(s, panes) == s
  {
    if s != [] {
      assert s[0] in panes by {
        assert s[0] !in Ghosts(s, panes);
      }
      NoGhosts(s[1..], panes);
    }
  }

  lemma {:induction false} GhostsConcat(s: seq<PaneId>, t: seq<PaneId>, panes: set<PaneId>)
    ensures Ghosts(s + t, panes) == Ghosts(s, panes) + Ghosts(t, panes)
  {
    if s == [] {
      assert s + t == t;
    } else {
      assert (s + t)[1..] == s[1..] + t;
      GhostsConcat(s[1..], t, panes);
    }
  }

  lemma {:induction false} GhostIsLeaf(s: seq<PaneId>, panes: set<PaneId>, x: PaneId)
    requires x in Ghosts(s, panes)
    ensures x in s
  {
    if s[0] != x {
      GhostIsLeaf(s[1..], panes, x);
    }
  }

  lemma TakeFirst(leaves: seq<PaneId>, i: nat, panes: set<PaneId>)
    requires i < |leaves|
    ensures Ghosts(leaves[i..], panes)
         == (if leaves[i] in panes then multiset{} else multiset{leaves[i]}) + Ghosts(leaves[i + 1..], panes)
  {
    assert leaves[i..][1..] == leaves[i + 1..];
  }

  lemma SurvivorPassed(leaves: seq<PaneId>, s: seq<PaneId>, i: nat, panes: set<PaneId>)
    requires Pruning(leaves, s, i, panes) && i < |leaves| && leaves[i] in panes
    ensures Pruning(leaves, s, i + 1, panes)
  {
    TakeFirst(leaves, i, panes);
  }

  lemma OneGhostLess(p: seq<PaneId>, x: PaneId, q: seq<PaneId>, panes: set<PaneId>)
    requires x !in panes
    ensures Ghosts(p + ([x] + q), panes) == Ghosts(p + q, panes) + multiset{x}
  {
    GhostsConcat(p, q, panes);
    GhostsConcat(p, [x] + q, panes);
    assert ([x] + q)[1..] == q;
  }

  lemma GhostRemoved(leaves: seq<PaneId>, root: Layout, i: nat, panes: set<PaneId>)
    requires Kept(leaves, panes) != []
    requires Pruning(leaves, Leaves(root), i, panes) && i < |leaves| && leaves[i] !in panes
    ensures root.Split? && leaves[i] in Leaves(root)
    ensures Pruning(leaves, Leaves(Pruned(root, leaves[i])), i + 1, panes)
  {
    var id := leaves[i];
    TakeFirst(leaves, i, panes);
    GhostIsLeaf(Leaves(root), panes, id);
    SomeoneElseStays(root, panes);
    var p, q := PrunedLeaves(root, id);
    OneLessKept(p, id, q, panes);
    OneGhostLess(p, id, q, panes);
    TakeAway(Ghosts(p + q, panes), Ghosts(leaves[i + 1..], panes), id);
  }

  lemma TakeAway(a: multiset<PaneId>, b: multiset<PaneId>, x: PaneId)
    requires a + multiset{x} == multiset{x} + b
    ensures a == b
  {
    assert (a + multiset{x}) - multiset{x} == a && (multiset{x} + b) - multiset{x} == b;
  }

  /** While a surviving pane is in the tree, the pane being removed is never the root. */
  lemma SomeoneElseStays(root: Layout, panes: set<PaneId>)
    requires Kept(Leaves(root), panes) != []
    ensures root.Leaf? ==> root.id in panes
  {
  }

  lemma SomeKept(s: seq<PaneId>, survivors: set<PaneId>)
    requires survivors != {} && forall x | x in survivors :: x in s
    ensures Kept(s, survivors) != []
  {
    var x :| x in survivors;
    KeptHas(s, survivors, x);
  }

  /** What a restore hands on is consistent: anchors and focus are panes of the tree, the tree holds
      exactly the survivors, and the next id is above every leaf exactly when no leaf is the largest
      32-bit number, where the increment wraps to 0. */
  lemma RestoredIsConsistent(snapshot: Layout, cwds: set<PaneId>, spawned: seq<bool>, recorded: set<PaneId>, layout: Layout)
    requires |spawned| == |Leaves(snapshot)|
    requires forall x | x in Leaves(snapshot) :: x <= U32_MAX
    requires var survivors := Survivors(Leaves(snapshot), cwds, spawned);
      survivors != {} && Leaves(layout) == Kept(Leaves(snapshot), survivors)
    ensures var survivors := Survivors(Leaves(snapshot), cwds, spawned);
      && (forall x :: x in Leaves(layout) <==> x in survivors)
      && (recorded * survivors != {} ==> MinOf(recorded * survivors) in Leaves(layout))
      && (forall x | x in recorded * survivors :: x in Leaves(layout))
    ensures Below(Leaves(layout), (MaxOf(Leaves(layout)) + 1) % (U32_MAX + 1)) <==> U32_MAX !in Leaves(layout)
  {
    var leaves, survivors, kept := Leaves(snapshot), Survivors(Leaves(snapshot), cwds, spawned), Leaves(layout);
    assert forall x | x in survivors :: x in leaves;
    KeptAreSurvivors(leaves, survivors, kept);
    AnchorsInTree(recorded, survivors, kept);
    NextIdAboveIff(kept);
  }

  lemma AnchorsInTree(recorded: set<PaneId>, survivors: set<PaneId>, kept: seq<PaneId>)
    requires forall x :: x in kept <==> x in survivors
    ensures forall x | x in recorded * survivors :: x in kept
    ensures recorded * survivors != {} ==> MinOf(recorded * survivors) in kept
  {
  }

  lemma KeptAreSurvivors(leaves: seq<PaneId>, survivors: set<PaneId>, kept: seq<PaneId>)
    requires kept == Kept(leaves, survivors) && forall x | x in survivors :: x in leaves
    ensures forall x :: x in kept <==> x in survivors
    ensures forall x | x in kept :: x in leaves
  {
    forall x
      ensures (x in kept <==> x in survivors) && (x in kept ==> x in leaves)
    {
      KeptHas(leaves, survivors, x);
    }
  }

  predicate Below(s: seq<PaneId>, bound: nat) {
    forall x | x in s :: x < bound
  }

  lemma NextIdAboveIff(s: seq<PaneId>)
    requires s != [] && forall x | x in s :: x <= U32_MAX
    ensures Below(s, (MaxOf(s) + 1) % (U32_MAX + 1)) <==> U32_MAX !in s
  {
    var m := MaxOf(s);
    if m < U32_MAX {
      assert (m + 1) % (U32_MAX + 1) == m + 1;
    } else {
      assert m == U32_MAX && (m + 1) % (U32_MAX + 1) == 0;
    }
  }

  /** The largest leaf there can be: the next pane of the restored tree would be pane 0. */
  lemma LargestLeafWraps() returns (snapshot: Layout)
    ensures Leaves(snapshot) == [3, U32_MAX] && (MaxOf(Leaves(snapshot)) + 1) % (U32_MAX + 1) == 0
  {
    snapshot := Split(Vertical, Leaf(3), Leaf(U32_MAX), 0.5);
    assert Leaves(snapshot)[1] == U32_MAX;
  }
}
