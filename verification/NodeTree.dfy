/** The compiled node array is a tree: every link is -1 or in range, node 0 has no parent, and
    no node has two. */
module NodeTree {
  import opened Regex
  import opened Nodes

  function One(b: bool): nat {
    if b then 1 else 0
  }

  /** How often a node links to `k`.  `left` and `right` are links only in some kinds of node. */
  function LinksTo(n: Node, k: int): nat {
    One(n.next == k) +
    match n.kind
    case EXPR => One(n.left == k)
    case NOCAPEXPR => One(n.left == k)
    case CLASS => One(n.left == k)
    case NCLASS => One(n.left == k)
    case GREEDY => One(n.left == k)
    case OR => One(n.left == k) + One(n.right == k)
    case _ => 0
  }

  /** How many links in a stretch of the array lead to `k`: the number of its parents there. */
  function Parents(s: seq<Node>, k: int): nat {
    if s == [] then 0 else LinksTo(s[0], k) + Parents(s[1..], k)
  }

  lemma {:induction false} ParentsAppend(a: seq<Node>, b: seq<Node>, k: int)
    ensures Parents(a + b, k) == Parents(a, k) + Parents(b, k)
  {
    if a == [] {
      assert a + b == b;
    } else {
      assert (a + b)[1..] == a[1..] + b;
      ParentsAppend(a[1..], b, k);
    }
  }

  lemma ParentsSingle(n: Node, k: int)
    ensures Parents([n], k) == LinksTo(n, k)
  {
    assert Parents([n][1..], k) == 0;
  }

  lemma ParentsFirst(s: seq<Node>, n: Node, rest: seq<Node>, k: int)
    requires s == [n] + rest
    ensures Parents(s, k) == LinksTo(n, k) + Parents(rest, k)
  {
    ParentsAppend([n], rest, k);
    ParentsSingle(n, k);
  }

  lemma ParentsMiddle(s: seq<Node>, a: seq<Node>, n: Node, b: seq<Node>, k: int)
    requires s == a + [n] + b
    ensures Parents(s, k) == Parents(a, k) + LinksTo(n, k) + Parents(b, k)
  {
    ParentsAppend(a + [n], b, k);
    ParentsAppend(a, [n], k);
    ParentsSingle(n, k);
  }

  /** Apart from the link to `next`, the links of a stretch stay within `[lo, hi)`, spare its
      root, and reach no node twice. */
  function AtMost(lo: int, hi: int, root: int, next: int, k: int): nat {
    One(lo <= k < hi && k != root) + One(k == next)
  }

  lemma ItemParents(item: Item, next: int, k: int)
    requires k != -1
    ensures Parents(EmitItem(item, next), k) == One(next == k)
  {
    var s := EmitItem(item, next);
    if item.Span? {
      ParentsFirst(s, s[0], [s[1]], k);
      ParentsSingle(s[1], k);
    } else {
      ParentsSingle(s[0], k);
    }
  }

  lemma {:induction false} ItemsTreelike(items: seq<Item>, base: nat, k: int)
    requires k != -1
    ensures Parents(EmitItems(items, base), k) <= AtMost(base, base + WidthItems(items), RootItems(items, base), -1, k)
    decreases items
  {
    if items != [] {
      var later := base + WidthItem(items[0]);
      var next := RootItems(items[1..], later);
      ParentsAppend(EmitItem(items[0], next), EmitItems(items[1..], later), k);
      ItemParents(items[0], next, k);
      ItemsTreelike(items[1..], later, k);
    }
  }

  lemma OrParents(left: seq<Elem>, right: seq<Elem>, base: nat, cap: nat, next: int, k: int)
    ensures var mid := base + WidthSeq(left);
      Parents(Emit(Or(left, right), base, cap, next), k)
      == Parents(EmitSeq(left, base, cap), k)
       + One(next == k) + One(RootSeq(left, base) == k) + One(RootSeq(right, mid + 1) == k)
       + Parents(EmitSeq(right, mid + 1, cap + CapturesSeq(left)), k)
  {
    hide EmitSeq, Parents;
    var s := Emit(Or(left, right), base, cap, next);
    var l, mid := EmitSeq(left, base, cap), base + WidthSeq(left);
    ParentsMiddle(s, l, s[|l|], EmitSeq(right, mid + 1, cap + CapturesSeq(left)), k);
  }

  lemma GreedyParents(p0: U16, p1: U16, x: Elem, base: nat, cap: nat, next: int, k: int)
    ensures Parents(Emit(Greedy(p0, p1, x), base, cap, next), k)
      == Parents(Emit(x, base, cap, -1), k) + One(next == k) + One(Root(x, base) == k)
  {
    hide Parents;
    var inner := Emit(x, base, cap, -1);
    var n := Node(GREEDY, Root(x, base), Counts(p0, p1), next);
    ParentsMiddle(inner + [n], inner, n, [], k);
    NoParents(k);
  }

  lemma ClassParents(negated: bool, items: seq<Item>, base: nat, cap: nat, next: int, k: int)
    ensures Parents(Emit(Class(negated, items), base, cap, next), k)
      == One(next == k) + One(RootItems(items, base + 1) == k) + Parents(EmitItems(items, base + 1), k)
  {
    hide Parents;
    var s := Emit(Class(negated, items), base, cap, next);
    ParentsFirst(s, s[0], EmitItems(items, base + 1), k);
  }

  lemma GroupParents(capturing: bool, body: seq<Elem>, base: nat, cap: nat, next: int, k: int)
    ensures Parents(Emit(Group(capturing, body), base, cap, next), k)
      == One(next == k) + One(RootSeq(body, base + 1) == k) + Parents(EmitSeq(body, base + 1, cap + One(capturing)), k)
  {
    hide Parents;
    var s := Emit(Group(capturing, body), base, cap, next);
    ParentsFirst(s, s[0], EmitSeq(body, base + 1, cap + One(capturing)), k);
  }

  lemma LeafParents(e: Elem, base: nat, cap: nat, next: int, k: int)
    requires !e.Class? && !e.Group? && !e.Or? && !e.Greedy?
    ensures Parents(Emit(e, base, cap, next), k) == One(next == k)
  {
    ParentsSingle(Emit(e, base, cap, next)[0], k);
  }

  /** A node `root`, with a child region `lo .. end` whose own root is `child`. */
  lemma ChildBound(p: nat, lo: nat, end: nat, child: int, base: nat, hi: nat, root: int, next: int, k: int)
    requires p <= AtMost(lo, end, child, -1, k) && k != -1
    requires base <= lo <= end <= hi && base <= root < hi && (root < lo || root >= end) && (next == -1 || next >= hi)
    requires child == -1 || lo <= child < end
    ensures p + One(next == k) + One(child == k) <= AtMost(base, hi, root, next, k)
  {
  }

  /** A node `mid` between two such regions. */
  lemma OrBound(l: nat, r: nat, base: nat, mid: nat, hi: nat, rootL: int, rootR: int, next: int, k: int)
    requires l <= AtMost(base, mid, rootL, -1, k) && r <= AtMost(mid + 1, hi, rootR, -1, k)
    requires k != -1 && base <= mid < hi && (next == -1 || next >= hi)
    requires rootL == -1 || base <= rootL < mid
    requires rootR == -1 || mid < rootR < hi
    ensures l + One(next == k) + One(rootL == k) + One(rootR == k) + r <= AtMost(base, hi, mid, next, k)
  {
  }

  lemma ClassTreelike(negated: bool, items: seq<Item>, base: nat, cap: nat, next: int, k: int)
    requires k != -1 && (next == -1 || next >= base + 1 + WidthItems(items))
    ensures Parents(Emit(Class(negated, items), base, cap, next), k)
      <= AtMost(base, base + Width(Class(negated, items)), Root(Class(negated, items), base), next, k)
  {
    hide Emit, EmitItems, Parents;
    ClassParents(negated, items, base, cap, next, k);
    ItemsTreelike(items, base + 1, k);
    ChildBound(Parents(EmitItems(items, base + 1), k), base + 1, base + 1 + WidthItems(items),
               RootItems(items, base + 1),
               base, base + 1 + WidthItems(items), base, next, k);
  }

  lemma GroupTreelike(capturing: bool, body: seq<Elem>, base: nat, cap: nat, next: int, k: int)
    requires k != -1 && (next == -1 || next >= base + 1 + WidthSeq(body))
    requires Parents(EmitSeq(body, base + 1, cap + One(capturing)), k)
      <= AtMost(base + 1, base + 1 + WidthSeq(body), RootSeq(body, base + 1), -1, k)
    ensures Parents(Emit(Group(capturing, body), base, cap, next), k)
      <= AtMost(base, base + Width(Group(capturing, body)), Root(Group(capturing, body), base), next, k)
  {
    hide Emit, EmitSeq, Parents, RootSeq, WidthSeq;
    GroupParents(capturing, body, base, cap, next, k);
    ChildBound(Parents(EmitSeq(body, base + 1, cap + One(capturing)), k), base + 1, base + 1 + WidthSeq(body),
               RootSeq(body, base + 1),
               base, base + 1 + WidthSeq(body), base, next, k);
  }

  lemma OrTreelike(left: seq<Elem>, right: seq<Elem>, base: nat, cap: nat, next: int, k: int)
    requires k != -1 && (next == -1 || next >= base + WidthSeq(left) + 1 + WidthSeq(right))
    requires Parents(EmitSeq(left, base, cap), k) <= AtMost(base, base + WidthSeq(left), RootSeq(left, base), -1, k)
    requires var mid := base + WidthSeq(left);
      Parents(EmitSeq(right, mid + 1, cap + CapturesSeq(left)), k)
      <= AtMost(mid + 1, mid + 1 + WidthSeq(right), RootSeq(right, mid + 1), -1, k)
    ensures Parents(Emit(Or(left, right), base, cap, next), k)
      <= AtMost(base, base + Width(Or(left, right)), Root(Or(left, right), base), next, k)
  {
    hide Emit, EmitSeq, Parents, RootSeq, WidthSeq, CapturesSeq;
    var mid := base + WidthSeq(left);
    OrParents(left, right, base, cap, next, k);
    OrBound(Parents(EmitSeq(left, base, cap), k), Parents(EmitSeq(right, mid + 1, cap + CapturesSeq(left)), k),
            base, mid, mid + 1 + WidthSeq(right), RootSeq(left, base), RootSeq(right, mid + 1), next, k);
  }

  lemma GreedyTreelike(p0: U16, p1: U16, x: Elem, base: nat, cap: nat, next: int, k: int)
    requires k != -1 && (next == -1 || next >= base + Width(x) + 1)
    requires Parents(Emit(x, base, cap, -1), k) <= AtMost(base, base + Width(x), Root(x, base), -1, k)
    ensures Parents(Emit(Greedy(p0, p1, x), base, cap, next), k)
      <= AtMost(base, base + Width(Greedy(p0, p1, x)), Root(Greedy(p0, p1, x), base), next, k)
  {
    GreedyParents(p0, p1, x, base, cap, next, k);
    hide Emit, Parents;
    ChildBound(Parents(Emit(x, base, cap, -1), k), base, base + Width(x), Root(x, base), base, base + Width(x) + 1,
               base + Width(x), next, k);
  }

  lemma LeafTreelike(e: Elem, base: nat, cap: nat, next: int, k: int)
    requires !e.Class? && !e.Group? && !e.Or? && !e.Greedy?
    requires k != -1 && (next == -1 || next >= base + Width(e))
    ensures Parents(Emit(e, base, cap, next), k) <= AtMost(base, base + Width(e), Root(e, base), next, k)
  {
    LeafParents(e, base, cap, next, k);
    ChildBound(0, base, base, -1, base, base + Width(e), base, next, k);
  }

  lemma {:induction false} EmitTreelike(e: Elem, base: nat, cap: nat, next: int, k: int)
    requires k != -1 && (next == -1 || next >= base + Width(e))
    ensures Parents(Emit(e, base, cap, next), k) <= AtMost(base, base + Width(e), Root(e, base), next, k)
    decreases e, 0
  {
    hide Emit, EmitSeq, EmitItems, Parents, AtMost, Root, RootSeq, Captures, CapturesSeq;
    match e
    case Class(negated, items) =>
      ClassTreelike(negated, items, base, cap, next, k);
    case Group(capturing, body) =>
      EmitSeqTreelike(body, base + 1, cap + One(capturing), k);
      GroupTreelike(capturing, body, base, cap, next, k);
    case Or(left, right) =>
      EmitSeqTreelike(left, base, cap, k);
      EmitSeqTreelike(right, base + WidthSeq(left) + 1, cap + CapturesSeq(left), k);
      OrTreelike(left, right, base, cap, next, k);
    case Greedy(p0, p1, x) =>
      EmitTreelike(x, base, cap, -1, k);
      GreedyTreelike(p0, p1, x, base, cap, next, k);
    case _ =>
      LeafTreelike(e, base, cap, next, k);
  }

  lemma NoParents(k: int)
    ensures Parents([], k) == 0
  {
  }

  lemma {:induction false} EmitSeqTreelike(es: seq<Elem>, base: nat, cap: nat, k: int)
    requires k != -1
    ensures Parents(EmitSeq(es, base, cap), k) <= AtMost(base, base + WidthSeq(es), RootSeq(es, base), -1, k)
    decreases es, 0
  {
    hide Emit, Captures, Root, Parents;
    if es == [] {
      NoParents(k);
    } else {
      var later := base + Width(es[0]);
      var next := RootSeq(es[1..], later);
      EmitTreelike(es[0], base, cap, next, k);
      EmitSeqTreelike(es[1..], later, cap + Captures(es[0]), k);
      ParentsAppend(Emit(es[0], base, cap, next), EmitSeq(es[1..], later, cap + Captures(es[0])), k);
    }
  }

  /** Links of a compiled array lead to nodes `1 .. n - 1`, each of
      which has at most one parent. */
  lemma AtMostOneParent(body: seq<Elem>, k: int)
    requires k != -1
    ensures Parents(EmitPattern(body), k) <= One(0 < k < |EmitPattern(body)|)
  {
    EmitTreelike(Group(true, body), 0, 0, -1, k);
  }
}
