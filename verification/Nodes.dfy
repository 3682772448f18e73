/** The node array TRex compiles a pattern into, and when it represents a pattern tree. */
module Nodes {
  import opened Regex

  /** A node type: a literal character, or an OP_ code. */
  datatype Kind =
    | Literal(c: char) | GREEDY | OR | EXPR | NOCAPEXPR | DOT
    | CLASS | CCLASS | NCLASS | RANGE | EOL | BOL | WB

  /** Links are indices, -1 for none; some kinds keep other data in `left` and `right`. */
  datatype Node = Node(kind: Kind, left: int, right: int, next: int)

  // ----- what a node index represents -----

  predicate Live(nodes: seq<Node>, k: int) {
    0 <= k < |nodes|
  }

  /** Node `k`, its `next` link aside, represents element `e`. */
  ghost predicate Represents(nodes: seq<Node>, k: int, e: Elem, ncap: nat)
    decreases e, 0
  {
    Live(nodes, k) &&
    var n := nodes[k];
    match e
    case Chr(c) => n.kind == Literal(c)
    case Dot => n.kind == DOT
    case Bol => n.kind == BOL
    case Eol => n.kind == EOL
    case WordBoundary(letter) => n.kind == WB && n.left == letter as int
    case CharClass(cls) => n.kind == CCLASS && n.left == cls as int
    case Class(negated, items) =>
      n.kind == (if negated then NCLASS else CLASS) && items != [] && RepresentsItems(nodes, n.left, items)
    case Group(capturing, body) =>
      && n.kind == (if capturing then EXPR else NOCAPEXPR) && (capturing ==> 0 <= n.right < ncap)
      && body != [] && RepresentsSeq(nodes, n.left, body, ncap)
    case Or(left, right) =>
      && n.kind == OR && left != [] && right != []
      && RepresentsSeq(nodes, n.left, left, ncap) && RepresentsSeq(nodes, n.right, right, ncap)
    case Greedy(p0, p1, x) =>
      && n.kind == GREEDY && n.right == Counts(p0, p1)
      && Represents(nodes, n.left, x, ncap) && nodes[n.left].next == -1
  }

  /** The chain that starts at node `k` and follows `next` represents `es`. */
  ghost predicate RepresentsSeq(nodes: seq<Node>, k: int, es: seq<Elem>, ncap: nat)
    decreases es, 0
  {
    if es == [] then k == -1
    else Represents(nodes, k, es[0], ncap) && RepresentsSeq(nodes, nodes[k].next, es[1..], ncap)
  }

  /** The same for the items of a class. */
  ghost predicate RepresentsItems(nodes: seq<Node>, k: int, items: seq<Item>)
    decreases items
  {
    if items == [] then k == -1
    else
      Live(nodes, k) && ItemNode(items[0], nodes[k]) && RepresentsItems(nodes, nodes[k].next, items[1..])
  }

  predicate ItemNode(item: Item, n: Node) {
    match item
    case One(c) => n.kind == Literal(c)
    case Span(lo, hi) => n.kind == RANGE && n.left == lo as int && n.right == hi as int
    case Named(cls) => n.kind == CCLASS && n.left == cls as int
  }

  /** Both repetition counts in one 32-bit `int`: `(p0 << 16) | p1`. */
  function Counts(p0: U16, p1: U16): int {
    var v := p0 * 0x1_0000 + p1;
    if v < 0x8000_0000 then v else v - 0x1_0000_0000
  }

  /** `(right >> 16) & 0xFFFF`, the shift keeping the sign. */
  function HighCount(right: int): U16 {
    (right / 0x1_0000) % 0x1_0000
  }

  /** `right & 0xFFFF` */
  function LowCount(right: int): U16 {
    right % 0x1_0000
  }

  lemma CountsRecovered(p0: U16, p1: U16)
    ensures HighCount(Counts(p0, p1)) == p0 && LowCount(Counts(p0, p1)) == p1
  {
    if p0 * 0x1_0000 + p1 >= 0x8000_0000 {
      assert Counts(p0, p1) == (p0 - 0x1_0000) * 0x1_0000 + p1;
    }
  }

  // ----- the array the compiler builds for a tree -----

  function Width(e: Elem): (n: nat)
    ensures n >= 1
    decreases e, 0
  {
    match e
    case Class(_, items) => 1 + WidthItems(items)
    case Group(_, body) => 1 + WidthSeq(body)
    case Or(left, right) => WidthSeq(left) + 1 + WidthSeq(right)
    case Greedy(_, _, x) => Width(x) + 1
    case _ => 1
  }

  function WidthSeq(es: seq<Elem>): (n: nat)
    ensures es != [] ==> n >= 1
    decreases es, 0
  {
    if es == [] then 0 else Width(es[0]) + WidthSeq(es[1..])
  }

  /** A range leaves behind the node of its first character, which nothing links to. */
  function WidthItem(item: Item): (n: nat)
    ensures 1 <= n <= 2
  {
    if item.Span? then 2 else 1
  }

  function WidthItems(items: seq<Item>): nat {
    if items == [] then 0 else WidthItem(items[0]) + WidthItems(items[1..])
  }

  /** How many groups an element numbers. */
  function Captures(e: Elem): nat
    decreases e, 0
  {
    match e
    case Group(capturing, body) => (if capturing then 1 else 0) + CapturesSeq(body)
    case Or(left, right) => CapturesSeq(left) + CapturesSeq(right)
    case Greedy(_, _, x) => Captures(x)
    case _ => 0
  }

  function CapturesSeq(es: seq<Elem>): nat
    decreases es, 0
  {
    if es == [] then 0 else Captures(es[0]) + CapturesSeq(es[1..])
  }

  /** The index of an element's own node when its nodes start at `base`: a repetition and an
      alternative come after what they apply to. */
  function Root(e: Elem, base: nat): (k: nat)
    ensures base <= k < base + Width(e)
  {
    match e
    case Or(left, _) => base + WidthSeq(left)
    case Greedy(_, _, x) => base + Width(x)
    case _ => base
  }

  function RootSeq(es: seq<Elem>, base: nat): (k: int)
    ensures es == [] <==> k == -1
    ensures es != [] ==> base <= k < base + WidthSeq(es)
  {
    if es == [] then -1 else Root(es[0], base)
  }

  function RootItems(items: seq<Item>, base: nat): int {
    if items == [] then -1 else base + WidthItem(items[0]) - 1
  }

  function EmitItem(item: Item, next: int): (s: seq<Node>)
    ensures |s| == WidthItem(item)
  {
    match item
    case One(c) => [Node(Literal(c), -1, -1, next)]
    case Span(lo, hi) => [Node(Literal(lo), -1, -1, -1), Node(RANGE, lo as int, hi as int, next)]
    case Named(cls) => [Node(CCLASS, cls as int, -1, next)]
  }

  function EmitItems(items: seq<Item>, base: nat): (s: seq<Node>)
    ensures |s| == WidthItems(items)
    decreases items
  {
    if items == [] then []
    else
      EmitItem(items[0], RootItems(items[1..], base + WidthItem(items[0])))
        + EmitItems(items[1..], base + WidthItem(items[0]))
  }

  /** The nodes of element `e`, placed at `base`, its groups numbered from `cap`, and its own
      node linked to `next`. */
  function Emit(e: Elem, base: nat, cap: nat, next: int): (s: seq<Node>)
    ensures |s| == Width(e)
    ensures s[Root(e, base) - base].next == next
    decreases e, 0
  {
    match e
    case Chr(c) => [Node(Literal(c), -1, -1, next)]
    case Dot => [Node(DOT, -1, -1, next)]
    case Bol => [Node(BOL, -1, -1, next)]
    case Eol => [Node(EOL, -1, -1, next)]
    case WordBoundary(letter) => [Node(WB, letter as int, -1, next)]
    case CharClass(cls) => [Node(CCLASS, cls as int, -1, next)]
    case Class(negated, items) =>
      [Node(if negated then NCLASS else CLASS, RootItems(items, base + 1), -1, next)] + EmitItems(items, base + 1)
    case Group(capturing, body) =>
      [Node(if capturing then EXPR else NOCAPEXPR, RootSeq(body, base + 1), if capturing then cap else -1, next)]
      + EmitSeq(body, base + 1, if capturing then cap + 1 else cap)
    case Or(left, right) =>
      var mid := base + WidthSeq(left);
      EmitSeq(left, base, cap) + [Node(OR, RootSeq(left, base), RootSeq(right, mid + 1), next)]
      + EmitSeq(right, mid + 1, cap + CapturesSeq(left))
    case Greedy(p0, p1, x) =>
      Emit(x, base, cap, -1) + [Node(GREEDY, Root(x, base), Counts(p0, p1), next)]
  }

  function EmitSeq(es: seq<Elem>, base: nat, cap: nat): (s: seq<Node>)
    ensures |s| == WidthSeq(es)
    decreases es, 0
  {
    if es == [] then []
    else
      var later := base + Width(es[0]);
      Emit(es[0], base, cap, RootSeq(es[1..], later)) + EmitSeq(es[1..], later, cap + Captures(es[0]))
  }

  /** The whole array for a pattern: node 0 is group 0 around the body. */
  function EmitPattern(body: seq<Elem>): seq<Node> {
    Emit(Group(true, body), 0, 0, -1)
  }

  /** The parts of a tree that must not be empty are not. */
  predicate Proper(e: Elem)
    decreases e, 0
  {
    match e
    case Class(_, items) => items != []
    case Group(_, body) => body != [] && ProperSeq(body)
    case Or(left, right) => left != [] && right != [] && ProperSeq(left) && ProperSeq(right)
    case Greedy(_, _, x) => Proper(x)
    case _ => true
  }

  predicate ProperSeq(es: seq<Elem>)
    decreases es, 0
  {
    es == [] || (Proper(es[0]) && ProperSeq(es[1..]))
  }

  // ----- the array represents the tree -----

  /** `segment` stands at `base` in the array. */
  predicate Holds(nodes: seq<Node>, base: nat, segment: seq<Node>) {
    base + |segment| <= |nodes| && nodes[base..base + |segment|] == segment
  }

  lemma HoldsParts(nodes: seq<Node>, base: nat, a: seq<Node>, b: seq<Node>)
    requires Holds(nodes, base, a + b)
    ensures Holds(nodes, base, a) && Holds(nodes, base + |a|, b)
    ensures forall i :: 0 <= i < |a| ==> nodes[base + i] == a[i]
  {
    var ab := a + b;
    assert nodes[base..base + |ab|][..|a|] == ab[..|a|] == a;
    assert nodes[base..base + |ab|][|a|..] == ab[|a|..] == b;
    forall i | 0 <= i < |a| ensures nodes[base + i] == a[i] {
      assert nodes[base..base + |a|][i] == a[i];
    }
  }

  lemma HoldsAt(nodes: seq<Node>, base: nat, s: seq<Node>, i: nat)
    requires Holds(nodes, base, s) && i < |s|
    ensures nodes[base + i] == s[i]
  {
    assert nodes[base..base + |s|][i] == s[i];
  }

  lemma {:induction false} ItemsRepresented(nodes: seq<Node>, base: nat, items: seq<Item>)
    requires Holds(nodes, base, EmitItems(items, base))
    ensures RepresentsItems(nodes, RootItems(items, base), items)
    decreases items
  {
    if items != [] {
      var later := base + WidthItem(items[0]);
      var first := EmitItem(items[0], RootItems(items[1..], later));
      HoldsParts(nodes, base, first, EmitItems(items[1..], later));
      ItemsRepresented(nodes, later, items[1..]);
      assert nodes[base + |first| - 1] == first[|first| - 1];
    }
  }

  lemma {:induction false} EmitRepresents(nodes: seq<Node>, e: Elem, base: nat, cap: nat, next: int, ncap: nat)
    requires Proper(e) && Holds(nodes, base, Emit(e, base, cap, next)) && cap + Captures(e) <= ncap
    ensures Represents(nodes, Root(e, base), e, ncap) && nodes[Root(e, base)].next == next
    decreases e, 0
  {
    hide EmitSeq, EmitItems, RepresentsSeq, RepresentsItems, ProperSeq, Holds;
    var s := Emit(e, base, cap, next);
    EmitStands(nodes, e, base, cap, next);
    match e
    case Class(negated, items) =>
      HoldsParts(nodes, base, [s[0]], EmitItems(items, base + 1));
      ItemsRepresented(nodes, base + 1, items);
    case Group(capturing, body) =>
      var cap' := if capturing then cap + 1 else cap;
      HoldsParts(nodes, base, [s[0]], EmitSeq(body, base + 1, cap'));
      EmitSeqRepresents(nodes, body, base + 1, cap', ncap);
    case Or(left, right) =>
      EmitOrParts(nodes, left, right, base, cap, next);
      EmitSeqRepresents(nodes, left, base, cap, ncap);
      EmitSeqRepresents(nodes, right, base + WidthSeq(left) + 1, cap + CapturesSeq(left), ncap);
    case Greedy(p0, p1, x) =>
      HoldsParts(nodes, base, Emit(x, base, cap, -1), [s[|s| - 1]]);
      EmitRepresents(nodes, x, base, cap, -1, ncap);
    case _ =>
  }

  lemma EmitStands(nodes: seq<Node>, e: Elem, base: nat, cap: nat, next: int)
    requires Holds(nodes, base, Emit(e, base, cap, next))
    ensures Live(nodes, Root(e, base)) && nodes[Root(e, base)] == Emit(e, base, cap, next)[Root(e, base) - base]
    ensures nodes[Root(e, base)].next == next
  {
    HoldsAt(nodes, base, Emit(e, base, cap, next), Root(e, base) - base);
  }

  lemma EmitOrParts(nodes: seq<Node>, left: seq<Elem>, right: seq<Elem>, base: nat, cap: nat, next: int)
    requires Holds(nodes, base, Emit(Or(left, right), base, cap, next))
    ensures Holds(nodes, base, EmitSeq(left, base, cap))
    ensures Holds(nodes, base + WidthSeq(left) + 1, EmitSeq(right, base + WidthSeq(left) + 1, cap + CapturesSeq(left)))
  {
    hide EmitSeq, Holds;
    var s := Emit(Or(left, right), base, cap, next);
    var l, mid := EmitSeq(left, base, cap), base + WidthSeq(left);
    var r := EmitSeq(right, mid + 1, cap + CapturesSeq(left));
    assert s == (l + [s[|l|]]) + r;
    HoldsParts(nodes, base, l + [s[|l|]], r);
    HoldsParts(nodes, base, l, [s[|l|]]);
  }

  lemma {:induction false} EmitSeqRepresents(nodes: seq<Node>, es: seq<Elem>, base: nat, cap: nat, ncap: nat)
    requires ProperSeq(es) && Holds(nodes, base, EmitSeq(es, base, cap)) && cap + CapturesSeq(es) <= ncap
    ensures RepresentsSeq(nodes, RootSeq(es, base), es, ncap)
    decreases es, 0
  {
    hide Emit, Represents, Holds, Proper;
    if es != [] {
      var later := base + Width(es[0]);
      HoldsParts(nodes, base, Emit(es[0], base, cap, RootSeq(es[1..], later)),
                 EmitSeq(es[1..], later, cap + Captures(es[0])));
      EmitRepresents(nodes, es[0], base, cap, RootSeq(es[1..], later), ncap);
      EmitSeqRepresents(nodes, es[1..], later, cap + Captures(es[0]), ncap);
    }
  }
}
