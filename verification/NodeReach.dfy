/** Which nodes of a compiled array are reached from node 0: all but the nodes of characters that
    began a range, to which nothing links. */
module NodeReach {
  import opened Regex
  import opened Nodes
  import opened NodeTree

  // ----- reaching a node -----

  predicate Links(n: Node, k: int) {
    LinksTo(n, k) > 0
  }

  /** From node `a`, at most `d` links lead to node `b`. */
  ghost predicate ReachesIn(nodes: seq<Node>, a: int, b: int, d: nat)
    decreases d
  {
    Live(nodes, a) && (a == b || (d > 0 && exists c :: Links(nodes[a], c) && ReachesIn(nodes, c, b, d - 1)))
  }

  ghost predicate Reaches(nodes: seq<Node>, a: int, b: int) {
    exists d: nat :: ReachesIn(nodes, a, b, d)
  }

  lemma ReachesSelf(nodes: seq<Node>, a: int)
    requires Live(nodes, a)
    ensures Reaches(nodes, a, a)
  {
    assert ReachesIn(nodes, a, a, 0);
  }

  /** One link, and on from there. */
  lemma ReachesBy(nodes: seq<Node>, a: int, m: int, b: int)
    requires Live(nodes, a) && Links(nodes[a], m) && Reaches(nodes, m, b)
    ensures Reaches(nodes, a, b)
  {
    var d: nat :| ReachesIn(nodes, m, b, d);
    assert ReachesIn(nodes, a, b, d + 1);
  }

  lemma {:induction false} ReachedHasParent(nodes: seq<Node>, a: int, b: int, d: nat)
    requires ReachesIn(nodes, a, b, d) && a != b
    ensures Parents(nodes, b) >= 1
    decreases d
  {
    var m :| Links(nodes[a], m) && ReachesIn(nodes, m, b, d - 1);
    if m == b {
      LinkCounts(nodes, a, b);
    } else {
      ReachedHasParent(nodes, m, b, d - 1);
    }
  }

  lemma LinkCounts(nodes: seq<Node>, a: int, b: int)
    requires Live(nodes, a) && Links(nodes[a], b)
    ensures Parents(nodes, b) >= 1
  {
    assert nodes == nodes[..a] + [nodes[a]] + nodes[a + 1..];
    ParentsMiddle(nodes, nodes[..a], nodes[a], nodes[a + 1..], b);
  }

  // ----- characters that began a range -----

  predicate HeadItems(items: seq<Item>, base: nat, k: int) {
    items != [] && ((items[0].Span? && k == base) || HeadItems(items[1..], base + WidthItem(items[0]), k))
  }

  /** Node `k` was made for the first character of a range, before the dash was seen. */
  predicate Head(e: Elem, base: nat, k: int)
    decreases e, 0
  {
    match e
    case Class(_, items) => HeadItems(items, base + 1, k)
    case Group(_, body) => HeadSeq(body, base + 1, k)
    case Or(left, right) => HeadSeq(left, base, k) || HeadSeq(right, base + WidthSeq(left) + 1, k)
    case Greedy(_, _, x) => Head(x, base, k)
    case _ => false
  }

  predicate HeadSeq(es: seq<Elem>, base: nat, k: int)
    decreases es, 0
  {
    es != [] && (Head(es[0], base, k) || HeadSeq(es[1..], base + Width(es[0]), k))
  }

  // ----- everything else is reached -----

  lemma {:induction false} ItemsReached(nodes: seq<Node>, items: seq<Item>, base: nat, k: int)
    requires Holds(nodes, base, EmitItems(items, base)) && base <= k < base + WidthItems(items)
      && !HeadItems(items, base, k)
    ensures Reaches(nodes, RootItems(items, base), k)
    decreases items
  {
    var later := base + WidthItem(items[0]);
    var next := RootItems(items[1..], later);
    var first := EmitItem(items[0], next);
    HoldsParts(nodes, base, first, EmitItems(items[1..], later));
    assert nodes[later - 1] == first[|first| - 1];
    if k < later {
      ReachesSelf(nodes, k);
    } else {
      ItemsReached(nodes, items[1..], later, k);
      ReachesBy(nodes, later - 1, next, k);
    }
  }

  lemma ClassLinks(nodes: seq<Node>, negated: bool, items: seq<Item>, base: nat, cap: nat, next: int)
    requires Holds(nodes, base, Emit(Class(negated, items), base, cap, next))
    ensures Holds(nodes, base + 1, EmitItems(items, base + 1)) && Live(nodes, base)
    ensures Links(nodes[base], RootItems(items, base + 1))
  {
    hide EmitItems, Holds;
    var s := Emit(Class(negated, items), base, cap, next);
    EmitStands(nodes, Class(negated, items), base, cap, next);
    HoldsParts(nodes, base, [s[0]], EmitItems(items, base + 1));
  }

  lemma GroupLinks(nodes: seq<Node>, capturing: bool, body: seq<Elem>, base: nat, cap: nat, next: int)
    requires Holds(nodes, base, Emit(Group(capturing, body), base, cap, next))
    ensures Holds(nodes, base + 1, EmitSeq(body, base + 1, if capturing then cap + 1 else cap)) && Live(nodes, base)
    ensures Links(nodes[base], RootSeq(body, base + 1))
  {
    hide EmitSeq, Holds;
    var s := Emit(Group(capturing, body), base, cap, next);
    EmitStands(nodes, Group(capturing, body), base, cap, next);
    HoldsParts(nodes, base, [s[0]], EmitSeq(body, base + 1, if capturing then cap + 1 else cap));
  }

  lemma OrLinks(nodes: seq<Node>, left: seq<Elem>, right: seq<Elem>, base: nat, cap: nat, next: int)
    requires Holds(nodes, base, Emit(Or(left, right), base, cap, next))
    ensures var mid := base + WidthSeq(left);
      Live(nodes, mid) && Links(nodes[mid], RootSeq(left, base)) && Links(nodes[mid], RootSeq(right, mid + 1))
  {
    hide EmitSeq, Holds;
    EmitStands(nodes, Or(left, right), base, cap, next);
  }

  lemma GreedyLinks(nodes: seq<Node>, p0: U16, p1: U16, x: Elem, base: nat, cap: nat, next: int)
    requires Holds(nodes, base, Emit(Greedy(p0, p1, x), base, cap, next))
    ensures Holds(nodes, base, Emit(x, base, cap, -1)) && Live(nodes, base + Width(x))
    ensures Links(nodes[base + Width(x)], Root(x, base))
  {
    hide Holds;
    var s := Emit(Greedy(p0, p1, x), base, cap, next);
    EmitStands(nodes, Greedy(p0, p1, x), base, cap, next);
    HoldsParts(nodes, base, Emit(x, base, cap, -1), [s[|s| - 1]]);
  }

  lemma {:induction false} ElemReached(nodes: seq<Node>, e: Elem, base: nat, cap: nat, next: int, k: int)
    requires Holds(nodes, base, Emit(e, base, cap, next)) && base <= k < base + Width(e) && !Head(e, base, k)
    ensures Reaches(nodes, Root(e, base), k)
    decreases e, 0
  {
    hide Emit, EmitSeq, EmitItems, Holds, Reaches, Links;
    if k == Root(e, base) {
      EmitStands(nodes, e, base, cap, next);
      ReachesSelf(nodes, k);
    } else {
      match e
      case Class(negated, items) =>
        ClassLinks(nodes, negated, items, base, cap, next);
        ItemsReached(nodes, items, base + 1, k);
        ReachesBy(nodes, base, RootItems(items, base + 1), k);
      case Group(capturing, body) =>
        GroupLinks(nodes, capturing, body, base, cap, next);
        SeqReached(nodes, body, base + 1, if capturing then cap + 1 else cap, k);
        ReachesBy(nodes, base, RootSeq(body, base + 1), k);
      case Or(left, right) =>
        var mid := base + WidthSeq(left);
        EmitOrParts(nodes, left, right, base, cap, next);
        OrLinks(nodes, left, right, base, cap, next);
        if k < mid {
          SeqReached(nodes, left, base, cap, k);
          ReachesBy(nodes, mid, RootSeq(left, base), k);
        } else {
          SeqReached(nodes, right, mid + 1, cap + CapturesSeq(left), k);
          ReachesBy(nodes, mid, RootSeq(right, mid + 1), k);
        }
      case Greedy(p0, p1, x) =>
        GreedyLinks(nodes, p0, p1, x, base, cap, next);
        ElemReached(nodes, x, base, cap, -1, k);
        ReachesBy(nodes, base + Width(x), Root(x, base), k);
      case _ =>
    }
  }

  lemma {:induction false} SeqReached(nodes: seq<Node>, es: seq<Elem>, base: nat, cap: nat, k: int)
    requires Holds(nodes, base, EmitSeq(es, base, cap)) && base <= k < base + WidthSeq(es) && !HeadSeq(es, base, k)
    ensures Reaches(nodes, RootSeq(es, base), k)
    decreases es, 0
  {
    hide Emit, Holds, Reaches, Head;
    var later := base + Width(es[0]);
    var next := RootSeq(es[1..], later);
    HoldsParts(nodes, base, Emit(es[0], base, cap, next), EmitSeq(es[1..], later, cap + Captures(es[0])));
    if k < later {
      ElemReached(nodes, es[0], base, cap, next, k);
    } else {
      SeqReached(nodes, es[1..], later, cap + Captures(es[0]), k);
      EmitStands(nodes, es[0], base, cap, next);
      ReachesBy(nodes, Root(es[0], base), next, k);
    }
  }

  // ----- nothing links to the beginning of a range -----

  lemma {:induction false} HeadItemsWithin(items: seq<Item>, base: nat, k: int)
    requires HeadItems(items, base, k)
    ensures base <= k < base + WidthItems(items) && k != RootItems(items, base)
    decreases items
  {
    if !(items[0].Span? && k == base) {
      HeadItemsWithin(items[1..], base + WidthItem(items[0]), k);
    }
  }

  lemma {:induction false} HeadWithin(e: Elem, base: nat, k: int)
    requires Head(e, base, k)
    ensures base <= k < base + Width(e) && k != Root(e, base)
    decreases e, 0
  {
    match e
    case Class(_, items) => HeadItemsWithin(items, base + 1, k);
    case Group(_, body) => HeadSeqWithin(body, base + 1, k);
    case Or(left, right) =>
      if HeadSeq(left, base, k) {
        HeadSeqWithin(left, base, k);
      } else {
        HeadSeqWithin(right, base + WidthSeq(left) + 1, k);
      }
    case Greedy(_, _, x) => HeadWithin(x, base, k);
  }

  lemma {:induction false} HeadSeqWithin(es: seq<Elem>, base: nat, k: int)
    requires HeadSeq(es, base, k)
    ensures base <= k < base + WidthSeq(es) && k != RootSeq(es, base)
    decreases es, 0
  {
    if Head(es[0], base, k) {
      HeadWithin(es[0], base, k);
    } else {
      HeadSeqWithin(es[1..], base + Width(es[0]), k);
    }
  }

  lemma {:induction false} HeadItemsUnlinked(items: seq<Item>, base: nat, k: int)
    requires HeadItems(items, base, k)
    ensures Parents(EmitItems(items, base), k) == 0
    decreases items
  {
    var later := base + WidthItem(items[0]);
    var next := RootItems(items[1..], later);
    HeadItemsWithin(items, base, k);
    ParentsAppend(EmitItem(items[0], next), EmitItems(items[1..], later), k);
    ItemParents(items[0], next, k);
    if HeadItems(items[1..], later, k) {
      HeadItemsWithin(items[1..], later, k);
      HeadItemsUnlinked(items[1..], later, k);
    } else {
      ItemsTreelike(items[1..], later, k);
    }
  }

  lemma {:induction false} HeadUnlinked(e: Elem, base: nat, cap: nat, next: int, k: int)
    requires Head(e, base, k) && (next == -1 || next >= base + Width(e))
    ensures Parents(Emit(e, base, cap, next), k) == 0
    decreases e, 0
  {
    hide Emit, EmitSeq, EmitItems, Parents, Captures, CapturesSeq, RootSeq;
    HeadWithin(e, base, k);
    match e
    case Class(negated, items) =>
      HeadItemsWithin(items, base + 1, k);
      HeadItemsUnlinked(items, base + 1, k);
      ClassParents(negated, items, base, cap, next, k);
    case Group(capturing, body) =>
      HeadSeqWithin(body, base + 1, k);
      HeadSeqUnlinked(body, base + 1, cap + NodeTree.One(capturing), k);
      GroupParents(capturing, body, base, cap, next, k);
    case Or(left, right) =>
      var mid := base + WidthSeq(left);
      OrParents(left, right, base, cap, next, k);
      if HeadSeq(left, base, k) {
        HeadSeqWithin(left, base, k);
        HeadSeqUnlinked(left, base, cap, k);
        EmitSeqTreelike(right, mid + 1, cap + CapturesSeq(left), k);
      } else {
        HeadSeqWithin(right, mid + 1, k);
        HeadSeqUnlinked(right, mid + 1, cap + CapturesSeq(left), k);
        EmitSeqTreelike(left, base, cap, k);
      }
    case Greedy(p0, p1, x) =>
      HeadWithin(x, base, k);
      HeadUnlinked(x, base, cap, -1, k);
      GreedyParents(p0, p1, x, base, cap, next, k);
  }

  lemma {:induction false} HeadSeqUnlinked(es: seq<Elem>, base: nat, cap: nat, k: int)
    requires HeadSeq(es, base, k)
    ensures Parents(EmitSeq(es, base, cap), k) == 0
    decreases es, 0
  {
    hide Emit, Parents, Captures, Head;
    var later := base + Width(es[0]);
    var next := RootSeq(es[1..], later);
    ParentsAppend(Emit(es[0], base, cap, next), EmitSeq(es[1..], later, cap + Captures(es[0])), k);
    if Head(es[0], base, k) {
      HeadWithin(es[0], base, k);
      HeadUnlinked(es[0], base, cap, next, k);
      EmitSeqTreelike(es[1..], later, cap + Captures(es[0]), k);
    } else {
      HeadSeqWithin(es[1..], later, k);
      HeadSeqUnlinked(es[1..], later, cap + Captures(es[0]), k);
      EmitTreelike(es[0], base, cap, next, k);
    }
  }

  // ----- the tree -----

  /** Every compiled array is a tree rooted at node 0: no node has two parents, node 0 has none,
      and whatever has a parent is reached from node 0.  (A node without a parent is what is left
      of a character that began a range.) */
  lemma PatternIsTree(body: seq<Elem>, k: int)
    requires k != -1
    ensures var nodes := EmitPattern(body);
      && Parents(nodes, k) <= NodeTree.One(0 < k < |nodes|)
      && (0 <= k < |nodes| ==> (Reaches(nodes, 0, k) <==> k == 0 || Parents(nodes, k) == 1))
      && (0 < k < |nodes| ==> (Parents(nodes, k) == 0 <==> Head(Group(true, body), 0, k)))
  {
    var nodes, root := EmitPattern(body), Group(true, body);
    AtMostOneParent(body, k);
    if 0 <= k < |nodes| {
      if Head(root, 0, k) {
        HeadWithin(root, 0, k);
        HeadUnlinked(root, 0, 0, -1, k);
      } else {
        assert Holds(nodes, 0, nodes) by { assert nodes[0..0 + |nodes|] == nodes; }
        ElemReached(nodes, root, 0, 0, -1, k);
      }
      if d: nat :| k != 0 && ReachesIn(nodes, 0, k, d) {
        ReachedHasParent(nodes, 0, k, d);
      }
    }
  }
}
