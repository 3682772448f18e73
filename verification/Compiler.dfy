/** `trex_compile`: a recursive-descent compiler that appends nodes to a growing array and links
    them as it returns. */
module Compiler {
  import opened CType
  import opened Regex
  import opened Nodes
  import opened PatternSyntax
  import opened Wrappers

  /** The result of a step that may leave by `longjmp`. */
  datatype Jump<+T> = Done(value: T) | Thrown(error: Error) {
    predicate IsFailure() { Thrown? }
    function PropagateFailure<U>(): Jump<U> requires Thrown? { Thrown(error) }
    function Extract(): T requires Done? { value }
  }

  // ----- linking after the fact -----

  /** Setting the `next` link of an element's own node afterwards is the same as emitting it. */
  lemma {:induction false} LinkedLater(e: Elem, base: nat, cap: nat, next: int)
    ensures var s := Emit(e, base, cap, -1); var k := Root(e, base) - base;
      Emit(e, base, cap, next) == s[k := s[k].(next := next)]
  {
    hide EmitSeq, EmitItems;
    match e
    case Or(left, right) =>
    case Greedy(_, _, x) =>
    case _ =>
  }

  lemma SingleElem(e: Elem, base: nat, cap: nat)
    ensures EmitSeq([e], base, cap) == Emit(e, base, cap, -1)
    ensures RootSeq([e], base) == Root(e, base) && WidthSeq([e]) == Width(e) && CapturesSeq([e]) == Captures(e)
  {
    hide Emit, Root, Width, Captures;
    assert [e][1..] == [];
    assert EmitSeq([e], base, cap) == Emit(e, base, cap, -1) + [];
  }

  lemma ConsElem(e: Elem, later: seq<Elem>, base: nat, cap: nat)
    ensures EmitSeq([e] + later, base, cap)
         == Emit(e, base, cap, RootSeq(later, base + Width(e))) + EmitSeq(later, base + Width(e), cap + Captures(e))
    ensures RootSeq([e] + later, base) == Root(e, base)
    ensures WidthSeq([e] + later) == Width(e) + WidthSeq(later)
    ensures CapturesSeq([e] + later) == Captures(e) + CapturesSeq(later)
  {
    hide Emit, Root, Width, Captures;
    assert ([e] + later)[1..] == later;
  }

  /** `exp->_nodes[ret].next = nnode`: an element gets the elements after it. */
  lemma ChainLinked(nodes0: seq<Node>, e: Elem, later: seq<Elem>, cap: nat)
    ensures var base := |nodes0|;
      var nodes := nodes0 + Emit(e, base, cap, -1) + EmitSeq(later, base + Width(e), cap + Captures(e));
      var ret, nnode := Root(e, base), RootSeq(later, base + Width(e));
      nodes[ret := nodes[ret].(next := nnode)] == nodes0 + EmitSeq([e] + later, base, cap)
  {
    hide Emit, EmitSeq, Root, RootSeq, Width, Captures;
    var base := |nodes0|;
    ConsElem(e, later, base, cap);
    LinkedLater(e, base, cap, RootSeq(later, base + Width(e)));
  }

  /** `exp->_nodes[expr].left = newn`: a group gets its body. */
  lemma GroupLinked(nodes0: seq<Node>, capturing: bool, body: seq<Elem>, cap: nat)
    ensures var base, cap' := |nodes0|, if capturing then cap + 1 else cap;
      var n := Node(if capturing then EXPR else NOCAPEXPR, -1, if capturing then cap else -1, -1);
      var nodes := nodes0 + [n] + EmitSeq(body, base + 1, cap');
      nodes[base := n.(left := RootSeq(body, base + 1))] == nodes0 + Emit(Group(capturing, body), base, cap, -1)
  {
    hide EmitSeq, RootSeq;
  }

  /** `exp->_nodes[temp].left = ret; exp->_nodes[temp].right = tright`: an alternative gets its
      two chains. */
  lemma OrLinked(nodes0: seq<Node>, left: seq<Elem>, right: seq<Elem>, cap: nat)
    ensures var base, temp := |nodes0|, |nodes0| + WidthSeq(left);
      nodes0 + EmitSeq(left, base, cap) + [Node(OR, RootSeq(left, base), RootSeq(right, temp + 1), -1)]
        + EmitSeq(right, temp + 1, cap + CapturesSeq(left))
      == nodes0 + EmitSeq([Or(left, right)], base, cap)
    ensures RootSeq([Or(left, right)], |nodes0|) == |nodes0| + WidthSeq(left)
    ensures CapturesSeq([Or(left, right)]) == CapturesSeq(left) + CapturesSeq(right)
  {
    hide EmitSeq, RootSeq, CapturesSeq, WidthSeq;
    SingleElem(Or(left, right), |nodes0|, cap);
  }

  /** A class node (its items still hanging off `next`) and the item nodes linked so far. */
  function ClassSoFar(kind: Kind, items: seq<Item>, base: nat): (s: seq<Node>)
    ensures |s| == 1 + WidthItems(items)
  {
    [Node(kind, -1, -1, RootItems(items, base + 1))] + EmitItems(items, base + 1)
  }

  lemma WidthItemsAppend(a: seq<Item>, b: seq<Item>)
    ensures WidthItems(a + b) == WidthItems(a) + WidthItems(b)
  {
    if a == [] {
      assert a + b == b;
    } else {
      assert (a + b)[1..] == a[1..] + b;
      WidthItemsAppend(a[1..], b);
    }
  }

  /** A list of nodes with its last link set, and one more item after it. */
  function Attached(s: seq<Node>, x: Item, end: nat): seq<Node>
    requires s != []
  {
    s[|s| - 1 := s[|s| - 1].(next := RootItems([x], end))] + EmitItem(x, -1)
  }

  lemma AttachedBehind(front: seq<Node>, s: seq<Node>, x: Item, end: nat)
    requires s != []
    ensures Attached(front + s, x, end) == front + Attached(s, x, end)
  {
  }

  lemma SingleItem(x: Item, base: nat)
    ensures EmitItems([x], base) == EmitItem(x, -1) && WidthItems([x]) == WidthItem(x)
  {
    assert [x][1..] == [];
    assert EmitItems([x][1..], base + WidthItem(x)) == [];
  }

  /** Linking one more item to the last one. */
  lemma {:induction false} EmitItemsSnoc(items: seq<Item>, x: Item, base: nat)
    requires items != []
    ensures WidthItems(items) >= 1
    ensures EmitItems(items + [x], base) == Attached(EmitItems(items, base), x, base + WidthItems(items))
  {
    hide EmitItem, EmitItems, WidthItem, WidthItems, Attached;
    var later := base + WidthItem(items[0]);
    assert (items + [x])[0] == items[0] && (items + [x])[1..] == items[1..] + [x];
    ItemsStep(items, base);
    ItemsStep(items + [x], base);
    if |items| == 1 {
      assert items == [items[0]] && items[1..] + [x] == [x];
      SingleItem(x, later);
      SingleItem(items[0], base);
      ItemLinkedLater(items[0], RootItems([x], later));
      AttachedIs(EmitItem(items[0], -1), x, later);
    } else {
      EmitItemsSnoc(items[1..], x, later);
      var first := EmitItem(items[0], RootItems(items[1..], later));
      assert RootItems(items[1..] + [x], later) == RootItems(items[1..], later);
      AttachedBehind(first, EmitItems(items[1..], later), x, base + WidthItems(items));
    }
  }

  lemma ItemsStep(items: seq<Item>, base: nat)
    requires items != []
    ensures var later := base + WidthItem(items[0]);
      EmitItems(items, base) == EmitItem(items[0], RootItems(items[1..], later)) + EmitItems(items[1..], later)
    ensures WidthItems(items) == WidthItem(items[0]) + WidthItems(items[1..]) && WidthItem(items[0]) >= 1
  {
  }

  lemma ItemLinkedLater(item: Item, next: int)
    ensures var s := EmitItem(item, -1); EmitItem(item, next) == s[|s| - 1 := s[|s| - 1].(next := next)]
  {
  }

  lemma AttachedIs(s: seq<Node>, x: Item, end: nat)
    requires s != []
    ensures Attached(s, x, end) == s[|s| - 1 := s[|s| - 1].(next := RootItems([x], end))] + EmitItem(x, -1)
  {
  }

  lemma ClassSnoc(kind: Kind, items: seq<Item>, x: Item, base: nat)
    ensures ClassSoFar(kind, items + [x], base)
      == Attached(ClassSoFar(kind, items, base), x, base + 1 + WidthItems(items))
  {
    hide EmitItem, EmitItems, Attached, WidthItems;
    if items == [] {
      ClassFirst(kind, x, base);
      assert items + [x] == [x];
      assert base + 1 + WidthItems(items) == base + 1;
    } else {
      EmitItemsSnoc(items, x, base + 1);
      var head := [Node(kind, -1, -1, RootItems(items, base + 1))];
      var end := base + 1 + WidthItems(items);
      assert RootItems(items + [x], base + 1) == RootItems(items, base + 1);
      calc {
        ClassSoFar(kind, items + [x], base);
        head + EmitItems(items + [x], base + 1);
        head + Attached(EmitItems(items, base + 1), x, end);
        { AttachedBehind(head, EmitItems(items, base + 1), x, end); }
        Attached(head + EmitItems(items, base + 1), x, end);
        Attached(ClassSoFar(kind, items, base), x, end);
      }
    }
  }

  lemma ClassFirst(kind: Kind, x: Item, base: nat)
    ensures ClassSoFar(kind, [x], base) == Attached(ClassSoFar(kind, [], base), x, base + 1)
    ensures WidthItems([]) == 0
  {
    hide EmitItem;
    SingleItem(x, base + 1);
    assert ClassSoFar(kind, [], base) == [Node(kind, -1, -1, -1)];
  }

  function PendingNodes(pending: Option<Pending>): seq<Node> {
    if pending.Some? then EmitItem(pending.value.item, -1) else []
  }

  /** Items read earlier, in front of a result. */
  function Prefixed(items: seq<Item>, r: Parse<seq<Item>>): Parse<seq<Item>> {
    match r
    case Ok(later, rest) => Ok(items + later, rest)
    case Fail(error) => r
  }

  lemma PrefixedTwice(a: seq<Item>, b: seq<Item>, r: Parse<seq<Item>>)
    ensures Prefixed(a, Prefixed(b, r)) == Prefixed(a + b, r)
    ensures Prefixed([], r) == r
  {
    if r.Ok? {
      assert a + (b + r.value) == (a + b) + r.value;
      assert [] + r.value == r.value;
    }
  }

  class TRex {
    var p: string              // the pattern from the cursor on
    var nodes: seq<Node>
    var nallocated: nat
    var nsubexpr: nat

    /** The array has room for what it holds, and can be doubled. */
    ghost predicate Ready()
      reads this
    {
      |nodes| <= nallocated && nallocated >= 1
    }

    constructor ()
      ensures p == "" && nodes == [] && nallocated == 0 && nsubexpr == 0
    {
      p, nodes, nallocated, nsubexpr := "", [], 0, 0;
    }

    /** `trex_newnode`.  The node is stored in any case; there is room for it if and only if there was
        any room before the first one. */
    method NewNode(kind: Kind) returns (newid: int)
      requires |nodes| <= nallocated
      modifies this`nodes, this`nallocated, this`nsubexpr
      ensures nallocated == Doubled(old(nallocated), |old(nodes)|)
      ensures |nodes| <= nallocated <==> old(nallocated) >= 1
      ensures (Ready() <==> old(Ready())) && newid == |old(nodes)|
      ensures nodes == old(nodes) + [Node(kind, -1, if kind == EXPR then old(nsubexpr) else -1, -1)]
      ensures nsubexpr == old(nsubexpr) + if kind == EXPR then 1 else 0
    {
      DoublingMakesRoom(nallocated, |nodes|);
      var n := Node(kind, -1, -1, -1);
      if kind == EXPR {
        n := n.(right := nsubexpr);
        nsubexpr := nsubexpr + 1;
      }
      if nallocated < |nodes| + 1 {
        nallocated := nallocated * 2;
      }
      nodes := nodes + [n];
      return |nodes| - 1;
    }

    /** A step that read `es` has appended the nodes of `es` and returned their root. */
    ghost predicate Built(r: Jump<int>, parsed: Parse<seq<Elem>>, nodes0: seq<Node>, nsubexpr0: nat)
      reads this
    {
      match parsed
      case Fail(error) => r == Thrown(error)
      case Ok(es, rest) =>
        && r == Done(RootSeq(es, |nodes0|)) && p == rest
        && nodes == nodes0 + EmitSeq(es, |nodes0|, nsubexpr0)
        && nsubexpr == nsubexpr0 + CapturesSeq(es)
    }

    ghost predicate BuiltOne(r: Jump<int>, parsed: Parse<Elem>, nodes0: seq<Node>, nsubexpr0: nat)
      reads this
    {
      match parsed
      case Fail(error) => r == Thrown(error)
      case Ok(e, rest) =>
        && r == Done(Root(e, |nodes0|)) && p == rest
        && nodes == nodes0 + Emit(e, |nodes0|, nsubexpr0, -1)
        && nsubexpr == nsubexpr0 + Captures(e)
    }

    method ExpectChar(c: char) returns (r: Jump<()>)
      requires c != '\0'
      modifies this`p
      ensures match Expect(old(p), c)
        case Ok(_, rest) => r == Done(()) && p == rest
        case Fail(error) => r == Thrown(error)
    {
      if Peek(p) != c || p == "" {
        return Thrown(ExpectedParen);
      }
      p := p[1..];
      return Done(());
    }

    /** A node for the letter `c`. */
    method LetterNode(c: char) returns (r: Jump<int>)
      requires Ready()
      modifies this`nodes, this`nallocated, this`nsubexpr
      ensures Ready() && BuiltOne(r, Ok(Chr(c), p), old(nodes), old(nsubexpr))
    {
      var node := NewNode(Literal(c));
      return Done(node);
    }

    /** A node for the class or the boundary that the letter `c` names. */
    method NamedNode(kind: Kind, c: char) returns (r: Jump<int>)
      requires Ready() && (kind == CCLASS || kind == WB)
      modifies this`nodes, this`nallocated, this`nsubexpr
      ensures Ready()
      ensures BuiltOne(r, Ok(if kind == WB then WordBoundary(c) else CharClass(c), p), old(nodes), old(nsubexpr))
    {
      var node := NewNode(kind);
      nodes := nodes[node := nodes[node].(left := c as int)];
      return Done(node);
    }

    /** `trex_charnode` */
    method CharNodeHere(isClass: bool) returns (r: Jump<int>)
      requires Ready()
      modifies this`p, this`nodes, this`nallocated, this`nsubexpr
      ensures Ready() && BuiltOne(r, CharNode(old(p), isClass), old(nodes), old(nsubexpr))
    {
      hide Emit, Root, Captures;
      if Peek(p) == '\\' {
        p := p[1..];
        if p == "" {
          return Thrown(Overread);
        }
        var c := p[0];
        p := p[1..];
        if Control(c).Some? {
          r := LetterNode(Control(c).value);
        } else if IsClassLetter(c) {
          r := NamedNode(CCLASS, c);
        } else if (c == 'b' || c == 'B') && !isClass {
          r := NamedNode(WB, c);
        } else {
          r := LetterNode(c);
        }
        return;
      }
      if p == "" || !IsPrint(p[0]) {
        return Thrown(LetterExpected);
      }
      var c := p[0];
      p := p[1..];
      r := LetterNode(c);
    }

    /** `trex_escapechar` */
    method EscapeCharHere() returns (r: Jump<char>)
      modifies this`p
      ensures match EscapeChar(old(p))
        case Ok(c, rest) => r == Done(c) && p == rest
        case Fail(error) => r == Thrown(error)
    {
      if Peek(p) == '\\' {
        p := p[1..];
        if p == "" {
          return Thrown(Overread);
        }
        var c := p[0];
        p := p[1..];
        return Done(if Control(c).Some? then Control(c).value else c);
      }
      if p == "" || !IsPrint(p[0]) {
        return Thrown(LetterExpected);
      }
      var c := p[0];
      p := p[1..];
      return Done(c);
    }

    /** Inside a class that starts at the end of `nodes0`: `items` are linked, and the node of a
        pending character (if any) stands unlinked behind them. */
    ghost predicate InClass(nodes0: seq<Node>, kind: Kind, items: seq<Item>, pending: Option<Pending>, chain: int,
                            first: int)
      reads this
    {
      var end := |nodes0| + 1 + WidthItems(items);
      && nodes == nodes0 + ClassSoFar(kind, items, |nodes0|) + PendingNodes(pending)
      && chain == end - 1
      && (pending.Some? ==> pending.value.node == end && !pending.value.item.Span?)
      && first == (if pending.Some? then pending.value.node else -1)
    }

    /** Link the item whose nodes stand at the end of the array. */
    method LinkItem(ghost nodes0: seq<Node>, ghost kind: Kind, ghost items: seq<Item>, ghost x: Item, chain: int,
                    c: int)
      requires nodes == nodes0 + ClassSoFar(kind, items, |nodes0|) + EmitItem(x, -1)
      requires chain == |nodes0| + WidthItems(items) && c == RootItems([x], chain + 1)
      modifies this`nodes
      ensures nodes == nodes0 + ClassSoFar(kind, items + [x], |nodes0|)
      ensures c == |nodes0| + WidthItems(items + [x])
    {
      hide EmitItems, WidthItems;
      ClassSnoc(kind, items, x, |nodes0|);
      WidthItemsAppend(items, [x]);
      SingleItem(x, 0);
      ghost var s := ClassSoFar(kind, items, |nodes0|);
      nodes := nodes[chain := nodes[chain].(next := c)];
      assert nodes == nodes0 + Attached(s, x, chain + 1);
    }

    /** The outcome of one round of the loop in `trex_class`. */
    ghost predicate Stepped(r: Jump<int>, nodes0: seq<Node>, kind: Kind, items: seq<Item>, pending: Option<Pending>,
                            chain: int, first: int,
                            before: Parse<seq<Item>>)
      reads this
    {
      match r
      case Thrown(error) => before == Fail(error)
      case Done(_) =>
        && InClass(nodes0, kind, items, pending, chain, first)
        && before == Prefixed(items, ClassItems(p, |nodes|, pending))
    }

    /** The upper end of the range that starts with `lo`, whose nodes stand unlinked. */
    method EndRange(ghost nodes0: seq<Node>, ghost kind: Kind, ghost items: seq<Item>, ghost lo: char,
                    range: int, chain: int)
      returns (r: Jump<char>)
      requires nodes == nodes0 + ClassSoFar(kind, items, |nodes0|)
                      + [Node(Literal(lo), -1, -1, -1), Node(RANGE, lo as int, -1, -1)]
      requires range == |nodes| - 1 && chain == |nodes0| + WidthItems(items)
      modifies this`p, this`nodes
      ensures |nodes| == |old(nodes)|
      ensures match EscapeChar(old(p))
        case Fail(error) => r == Thrown(error)
        case Ok(hi, rest) =>
          r == Done(hi) && p == rest && InClass(nodes0, kind, items + [Span(lo, hi)], None, range, -1)
    {
      hide EmitItems, WidthItems, EscapeChar, ClassSoFar;
      r := EscapeCharHere();
      if r.Thrown? {
        return;
      }
      nodes := nodes[range := nodes[range].(right := r.value as int)];
      LinkItem(nodes0, kind, items, Span(lo, r.value), chain, range);
    }

    /** A dash after a pending character: a range. */
    method RangeStep(ghost nodes0: seq<Node>, ghost kind: Kind, ghost items: seq<Item>, ghost pending: Option<Pending>,
                     first: int, chain: int)
      returns (r: Jump<int>, chain': int, ghost items': seq<Item>)
      requires Ready() && InClass(nodes0, kind, items, pending, chain, first)
      requires Peek(p) == '-' && first != -1
      modifies this`p, this`nodes, this`nallocated, this`nsubexpr
      ensures Ready() && nsubexpr == old(nsubexpr) && (r.Done? ==> |p| < |old(p)|)
      ensures Stepped(r, nodes0, kind, items', None, chain', -1, old(Prefixed(items, ClassItems(p, |nodes|, pending))))
    {
      hide EmitItems, WidthItems, EscapeChar, ClassItems, ClassSoFar;
      chain', items' := chain, items;
      ghost var s0, n0 := p, |nodes|;
      RangeFails(p, |nodes|, pending.value);
      p := p[1..];
      var range := NewNode(RANGE);
      if first > Peek(p) as int {
        return Thrown(InvalidRange), chain', items';
      }
      if nodes[first].kind == CCLASS {
        return Thrown(ClassInRange), chain', items';
      }
      nodes := nodes[range := nodes[range].(left := nodes[first].kind.c as int)];
      var t := EndRange(nodes0, kind, items, pending.value.item.c, range, chain);
      if t.Thrown? {
        return Thrown(t.error), chain', items';
      }
      ghost var x := Span(pending.value.item.c, t.value);
      chain', items' := range, items + [x];
      PrefixedTwice(items, [x], ClassItems(p, |nodes|, None));
      RangeItems(s0, n0, pending.value, t.value, p);
      r := Done(0);
    }

    /** Link the item that was pending, if there is one. */
    method LinkPending(ghost nodes0: seq<Node>, ghost kind: Kind, ghost items: seq<Item>,
                       ghost pending: Option<Pending>, first: int, chain: int)
      returns (chain': int)
      requires InClass(nodes0, kind, items, pending, chain, first)
      modifies this`nodes
      ensures |nodes| == |old(nodes)| && InClass(nodes0, kind, items + Flush(pending), None, chain', -1)
    {
      hide EmitItem, EmitItems, WidthItems;
      if first != -1 {
        LinkItem(nodes0, kind, items, pending.value.item, chain, first);
        return first;
      }
      assert items + Flush(pending) == items;
      return chain;
    }

    /** A character or named class; the one pending before it is linked. */
    method CharStep(ghost nodes0: seq<Node>, ghost kind: Kind, ghost items: seq<Item>, ghost pending: Option<Pending>,
                    first: int, chain: int)
      returns (r: Jump<int>, first': int, chain': int, ghost items': seq<Item>, ghost pending': Option<Pending>)
      requires Ready() && InClass(nodes0, kind, items, pending, chain, first)
      requires Peek(p) != ']' && !(Peek(p) == '-' && first != -1)
      modifies this`p, this`nodes, this`nallocated, this`nsubexpr
      ensures Ready() && (r.Done? ==> nsubexpr == old(nsubexpr) && |p| < |old(p)|)
      ensures Stepped(r, nodes0, kind, items', pending', chain', first',
                      old(Prefixed(items, ClassItems(p, |nodes|, pending))))
    {
      hide Emit, Root, Width, Captures, EmitItem, EmitItems, WidthItems, CharNode, ClassItems, ClassSoFar, Flush;
      ghost var s0, n0, e := p, |nodes|, CharNode(p, true);
      CharFails(s0, n0, pending);
      chain' := LinkPending(nodes0, kind, items, pending, first, chain);
      items' := items + Flush(pending);
      assert nodes == nodes0 + ClassSoFar(kind, items', |nodes0|);
      var node := CharNodeHere(true);
      if node.Thrown? {
        return Thrown(node.error), first, chain', items', pending;
      }
      CharItems(s0, n0, pending, e.value, p);
      ElemOfItem(e.value, n0, nsubexpr);
      first', pending' := node.value, Some(Pending(ItemOf(e.value), n0));
      PrefixedTwice(items, Flush(pending), ClassItems(p, |nodes|, pending'));
      r := Done(0);
    }

    /** The loop of `trex_class`: link the items up to the closing bracket behind the class node. */
    method LinkItems(ghost nodes0: seq<Node>, ghost kind: Kind, ret: int) returns (r: Jump<int>)
      requires Ready() && ret == |nodes0| && nodes == nodes0 + ClassSoFar(kind, [], |nodes0|)
      modifies this`p, this`nodes, this`nallocated, this`nsubexpr
      ensures Ready()
      ensures match ClassItems(old(p), |nodes0| + 1, None)
        case Fail(error) => r == Thrown(error)
        case Ok(items, rest) =>
          r == Done(ret) && p == rest && nsubexpr == old(nsubexpr)
            && nodes == nodes0 + ClassSoFar(kind, items, |nodes0|)
    {
      hide EmitItem, EmitItems, ClassSoFar, ClassItems, Flush;
      var first, chain := -1, ret;
      ghost var goal := ClassItems(p, |nodes0| + 1, None);
      ghost var items: seq<Item>, pending: Option<Pending> := [], None;
      PrefixedTwice([], [], goal);
      assert nodes == nodes + PendingNodes(pending);
      while Peek(p) != ']'
        invariant Ready() && nsubexpr == old(nsubexpr)
        invariant InClass(nodes0, kind, items, pending, chain, first)
        invariant goal == Prefixed(items, ClassItems(p, |nodes|, pending))
        decreases |p|
      {
        if Peek(p) == '-' && first != -1 {
          r, chain, items := RangeStep(nodes0, kind, items, pending, first, chain);
          first, pending := -1, None;
        } else {
          r, first, chain, items, pending := CharStep(nodes0, kind, items, pending, first, chain);
        }
        if r.Thrown? {
          return;
        }
      }
      ClassEnds(p, |nodes|, pending);
      chain := LinkPending(nodes0, kind, items, pending, first, chain);
      return Done(ret);
    }

    /** `trex_class`, after the opening bracket. */
    method ClassHere() returns (r: Jump<int>)
      requires Ready()
      modifies this`p, this`nodes, this`nallocated, this`nsubexpr
      ensures Ready() && BuiltOne(r, ParseClass(old(p), |old(nodes)|), old(nodes), old(nsubexpr))
    {
      hide ClassItems, Emit, EmitItems;
      ghost var nodes0 := nodes;
      var kind := if Peek(p) == '^' then NCLASS else CLASS;
      var ret := NewNode(kind);
      if Peek(p) == '^' {
        p := p[1..];
      }
      if Peek(p) == ']' {
        return Thrown(EmptyClass);
      }
      ghost var items := ClassItems(p, |nodes|, None);
      r := LinkItems(nodes0, kind, ret);
      if r.Thrown? {
        return;
      }
      FinishClass(nodes0, kind, items.value, ret);
    }

    /** The chain of items moves from the class node's `next` link to its `left` link. */
    method FinishClass(ghost nodes0: seq<Node>, ghost kind: Kind, ghost items: seq<Item>, ret: int)
      requires nodes == nodes0 + ClassSoFar(kind, items, |nodes0|) && ret == |nodes0|
        && (kind == CLASS || kind == NCLASS)
      modifies this`nodes
      ensures nodes == nodes0 + Emit(Class(kind == NCLASS, items), |nodes0|, nsubexpr, -1)
    {
      hide EmitItems, RootItems;
      nodes := nodes[ret := nodes[ret].(left := nodes[ret].next)];
      nodes := nodes[ret := nodes[ret].(next := -1)];
    }

    /** `trex_parsenumber` */
    method NumberHere() returns (r: Jump<nat>)
      requires p != "" && IsDigit(p[0])
      modifies this`p
      ensures match ParseNumber(old(p))
        case Ok(n, rest) => r == Done(n) && p == rest
        case Fail(error) => r == Thrown(error)
    {
      var ret: nat := p[0] as int - '0' as int;
      var positions: nat := 10;
      p := p[1..];
      while p != "" && IsDigit(p[0])
        invariant NumberFrom(p, ret, positions) == ParseNumber(old(p))
        decreases |p|
      {
        ret := ret * 10 + (p[0] as int - '0' as int);
        p := p[1..];
        if positions == 1_000_000_000 {
          return Thrown(NumberOverflow);
        }
        positions := positions * 10;
      }
      return Done(ret);
    }

    /** The second switch of `trex_element`: is there a repetition, and how often? */
    method CountsHere() returns (r: Jump<Option<(U16, U16)>>)
      modifies this`p
      ensures match ParseCounts(old(p))
        case Ok(counts, rest) => r == Done(counts) && p == rest
        case Fail(error) => r == Thrown(error)
    {
      match Peek(p) {
        case '*' =>
          p := p[1..];
          return Done(Some((0, UNBOUNDED)));
        case '+' =>
          p := p[1..];
          return Done(Some((1, UNBOUNDED)));
        case '?' =>
          p := p[1..];
          return Done(Some((0, 1)));
        case '{' =>
          p := p[1..];
          if !IsDigit(Peek(p)) {
            return Thrown(NumberExpected);
          }
          var lo :- NumberHere();
          if Peek(p) == '}' {
            p := p[1..];
            return Done(Some((ToU16(lo), ToU16(lo))));
          }
          if Peek(p) != ',' {
            return Thrown(CommaOrBraceExpected);
          }
          p := p[1..];
          var hi: nat := UNBOUNDED;
          if IsDigit(Peek(p)) {
            hi :- NumberHere();
          }
          var _ :- ExpectChar('}');
          return Done(Some((ToU16(lo), ToU16(hi))));
        case _ =>
          return Done(None);
      }
    }

    /** The opening of a group: its node, with no body yet. */
    method OpenGroup() returns (r: Jump<int>)
      requires Ready() && Peek(p) == '('
      modifies this`p, this`nodes, this`nallocated, this`nsubexpr
      ensures Ready()
      ensures var plain := Peek(old(p)[1..]) == '?';
        match if plain then Expect(old(p)[2..], ':') else Ok((), old(p)[1..])
        case Fail(error) => r == Thrown(error)
        case Ok(_, rest) =>
          && r == Done(|old(nodes)|) && p == rest && |p| < |old(p)|
          && nodes
            == old(nodes) + [Node(if plain then NOCAPEXPR else EXPR, -1, if plain then -1 else old(nsubexpr), -1)]
          && nsubexpr == if plain then old(nsubexpr) else old(nsubexpr) + 1
    {
      p := p[1..];
      var expr;
      if Peek(p) == '?' {
        p := p[1..];
        var _ :- ExpectChar(':');
        expr := NewNode(NOCAPEXPR);
      } else {
        expr := NewNode(EXPR);
      }
      return Done(expr);
    }

    /** A parenthesised group, from its opening parenthesis. */
    method GroupHere() returns (r: Jump<int>)
      requires Ready() && Peek(p) == '('
      modifies this`p, this`nodes, this`nallocated, this`nsubexpr
      ensures Ready() && BuiltOne(r, ParseBase(old(p), |old(nodes)|), old(nodes), old(nsubexpr))
      decreases |p|, 0, 0
    {
      hide Emit, EmitSeq, ParseList, ParseBase, Expect;
      ghost var nodes0, cap := nodes, nsubexpr;
      ghost var capturing := Peek(p[1..]) != '?';
      GroupRead(p, |nodes|);
      var expr :- OpenGroup();
      ghost var body := ParseList(p, |nodes|);
      var newn :- ListHere();
      GroupLinked(nodes0, capturing, body.value, cap);
      nodes := nodes[expr := nodes[expr].(left := newn)];
      var _ :- ExpectChar(')');
      return Done(expr);
    }

    /** The first switch of `trex_element`. */
    method BaseHere() returns (r: Jump<int>)
      requires Ready()
      modifies this`p, this`nodes, this`nallocated, this`nsubexpr
      ensures Ready() && BuiltOne(r, ParseBase(old(p), |old(nodes)|), old(nodes), old(nsubexpr))
      decreases |p|, 0, 1
    {
      match Peek(p) {
        case '(' =>
          r := GroupHere();
        case '[' =>
          p := p[1..];
          var ret :- ClassHere();
          var _ :- ExpectChar(']');
          return Done(ret);
        case '$' =>
          p := p[1..];
          var ret := NewNode(EOL);
          return Done(ret);
        case '.' =>
          p := p[1..];
          var ret := NewNode(DOT);
          return Done(ret);
        case _ =>
          r := CharNodeHere(false);
      }
    }

    /** `trex_element` up to, and not including, the elements chained after it. */
    method RepeatedHere() returns (r: Jump<int>)
      requires Ready()
      modifies this`p, this`nodes, this`nallocated, this`nsubexpr
      ensures Ready() && BuiltOne(r, ParseRepeated(old(p), |old(nodes)|), old(nodes), old(nsubexpr))
      decreases |p|, 1
    {
      hide ParseCounts, ParseBase, Emit, Root, Captures;
      ghost var nodes0, cap, s := nodes, nsubexpr, p;
      var ret :- BaseHere();
      ghost var base := ParseBase(s, |nodes0|).value;
      var counts :- CountsHere();
      if counts.Some? {
        GreedyNode(counts.value.0, counts.value.1, base, |nodes0|, cap);
        var nnode := NewNode(GREEDY);
        nodes := nodes[nnode := nodes[nnode].(left := ret)];
        nodes := nodes[nnode := nodes[nnode].(right := Counts(counts.value.0, counts.value.1))];
        ret := nnode;
      }
      return Done(ret);
    }

    /** `trex_element` */
    method ChainHere() returns (r: Jump<int>)
      requires Ready()
      modifies this`p, this`nodes, this`nallocated, this`nsubexpr
      ensures Ready() && Built(r, ParseChain(old(p), |old(nodes)|), old(nodes), old(nsubexpr))
      decreases |p|, 2
    {
      hide Emit, EmitSeq, Root, RootSeq, ParseRepeated, Width, WidthSeq;
      ghost var nodes0, cap, s := nodes, nsubexpr, p;
      var ret :- RepeatedHere();
      ghost var e := ParseRepeated(s, |nodes0|).value;
      SingleElem(e, |nodes0|, cap);
      if !EndsChain(Peek(p)) {
        ghost var later := ParseChain(p, |nodes|);
        var nnode :- ChainHere();
        ChainLinked(nodes0, e, later.value, cap);
        ConsElem(e, later.value, |nodes0|, cap);
        nodes := nodes[ret := nodes[ret].(next := nnode)];
      }
      return Done(ret);
    }

    /** The first part of `trex_list`: a chain, perhaps anchored at the beginning of the text. */
    method AnchoredHere() returns (r: Jump<int>)
      requires Ready()
      modifies this`p, this`nodes, this`nallocated, this`nsubexpr
      ensures Ready() && Built(r, ParseAnchored(old(p), |old(nodes)|), old(nodes), old(nsubexpr))
      decreases |p|, 3
    {
      hide Emit, EmitSeq, Root, RootSeq, ParseChain, ParseAnchored, Width, WidthSeq, Captures, CapturesSeq;
      ghost var nodes0, cap := nodes, nsubexpr;
      AnchoredRead(p, |nodes|);
      var ret := -1;
      if Peek(p) == '^' {
        p := p[1..];
        ret := NewNode(BOL);
        BolNode(|nodes0|, cap);
      }
      ghost var es := ParseChain(p, |nodes|);
      var e :- ChainHere();
      if ret != -1 {
        ChainLinked(nodes0, Bol, es.value, cap);
        ConsElem(Bol, es.value, |nodes0|, cap);
        nodes := nodes[ret := nodes[ret].(next := e)];
      } else {
        ret := e;
      }
      return Done(ret);
    }

    /** `trex_list` */
    method ListHere() returns (r: Jump<int>)
      requires Ready()
      modifies this`p, this`nodes, this`nallocated, this`nsubexpr
      ensures Ready() && Built(r, ParseList(old(p), |old(nodes)|), old(nodes), old(nsubexpr))
      decreases |p|, 4
    {
      hide Emit, EmitSeq, Root, RootSeq, ParseAnchored, ParseList, Width, WidthSeq, CapturesSeq;
      ghost var nodes0, cap := nodes, nsubexpr;
      ListRead(p, |nodes|);
      ghost var chain := ParseAnchored(p, |nodes|);
      var ret :- AnchoredHere();
      if Peek(p) == '|' {
        p := p[1..];
        ret :- OrHere(nodes0, cap, chain.value, ret);
      }
      return Done(ret);
    }

    /** The alternative to the chain `left`, whose root is `ret`. */
    method OrHere(ghost nodes0: seq<Node>, ghost cap: nat, ghost left: seq<Elem>, ret: int) returns (r: Jump<int>)
      requires Ready() && Built(Done(ret), Ok(left, p), nodes0, cap)
      modifies this`p, this`nodes, this`nallocated, this`nsubexpr
      ensures Ready()
      ensures match ParseList(old(p), |old(nodes)| + 1)
        case Fail(error) => r == Thrown(error)
        case Ok(right, rest) => Built(r, Ok([Or(left, right)], rest), nodes0, cap)
      decreases |p|, 5
    {
      hide Emit, EmitSeq, Root, RootSeq, ParseList, WidthSeq, CapturesSeq;
      var temp := NewNode(OR);
      nodes := nodes[temp := nodes[temp].(left := ret)];
      ghost var right := ParseList(p, |nodes|);
      var tright :- ListHere();
      nodes := nodes[temp := nodes[temp].(right := tright)];
      OrLinked(nodes0, left, right.value, cap);
      return Done(temp);
    }
  }

  /** The beginning of `trex_compile`: an array for as many nodes as the pattern has characters, and
      the first node, for which an empty pattern has left no room. */
  method Begin(pattern: string) returns (exp: TRex)
    ensures fresh(exp) && exp.p == pattern && exp.nsubexpr == 1 && exp.nodes == [Node(EXPR, -1, 0, -1)]
    ensures |exp.nodes| <= exp.nallocated <==> pattern != ""
    ensures pattern != "" ==> exp.Ready()
  {
    exp := new TRex();
    exp.p := pattern;
    exp.nallocated := |pattern|;
    exp.nodes := [];
    exp.nsubexpr := 0;
    var _ := exp.NewNode(EXPR);
  }

  /** `trex_compile`: the node array, unless the pattern is malformed. */
  method Compile(pattern: string) returns (r: Jump<TRex>)
    requires pattern != ""
    ensures match ParsePattern(pattern)
      case Fail(error) => r == Thrown(error)
      case Ok(body, _) =>
        && r.Done? && fresh(r.value) && r.value.Ready()
        && r.value.nodes == EmitPattern(body) && r.value.nsubexpr == 1 + CapturesSeq(body)
  {
    hide ParseList, EmitSeq, WidthSeq, RootSeq, CapturesSeq;
    var exp := Begin(pattern);
    ghost var body := ParseList(pattern, 1);
    var res :- exp.ListHere();
    GroupLinked([], true, body.value, 0);
    exp.nodes := exp.nodes[0 := exp.nodes[0].(left := res)];
    if Peek(exp.p) != '\0' {
      return Thrown(UnexpectedCharacter);
    }
    return Done(exp);
  }

  /** The capacity `trex_newnode` leaves behind before it stores a node. */
  function Doubled(nallocated: nat, nsize: nat): nat {
    if nallocated < nsize + 1 then nallocated * 2 else nallocated
  }

  /** Doubling makes room for one more node exactly when there was any room to begin with. */
  lemma DoublingMakesRoom(nallocated: nat, nsize: nat)
    requires nsize <= nallocated
    ensures nsize + 1 <= Doubled(nallocated, nsize) <==> nallocated >= 1
  {
  }

  lemma ClassEnds(s: string, n: nat, first: Option<Pending>)
    requires Peek(s) == ']'
    ensures ClassItems(s, n, first) == Ok(Flush(first), s)
  {
  }

  lemma CharFails(s: string, n: nat, first: Option<Pending>)
    requires Peek(s) != ']' && !(Peek(s) == '-' && first.Some?)
    ensures CharNode(s, true).Fail? ==> ClassItems(s, n, first) == Fail(CharNode(s, true).error)
  {
    hide CharNode;
  }

  lemma CharItems(s: string, n: nat, first: Option<Pending>, e: Elem, s': string)
    requires Peek(s) != ']' && !(Peek(s) == '-' && first.Some?) && CharNode(s, true) == Ok(e, s')
    ensures ClassItems(s, n, first) == Prefixed(Flush(first), ClassItems(s', n + 1, Some(Pending(ItemOf(e), n))))
  {
    hide CharNode;
  }

  /** A character or named class in a bracket has the node it would have outside. */
  lemma ElemOfItem(e: Elem, base: nat, cap: nat)
    requires e.Chr? || e.CharClass?
    ensures Emit(e, base, cap, -1) == EmitItem(ItemOf(e), -1) && |EmitItem(ItemOf(e), -1)| == 1
    ensures Root(e, base) == base && Captures(e) == 0
  {
  }

  lemma RangeFails(s: string, n: nat, first: Pending)
    requires Peek(s) == '-' && s != ""
    ensures first.node > Peek(s[1..]) as int ==> ClassItems(s, n, Some(first)) == Fail(InvalidRange)
    ensures first.node <= Peek(s[1..]) as int && !first.item.One? ==>
      ClassItems(s, n, Some(first)) == Fail(ClassInRange)
    ensures first.node <= Peek(s[1..]) as int && first.item.One? && EscapeChar(s[1..]).Fail? ==>
      ClassItems(s, n, Some(first)) == Fail(EscapeChar(s[1..]).error)
  {
  }

  lemma RangeItems(s: string, n: nat, first: Pending, hi: char, s': string)
    requires Peek(s) == '-' && s != "" && first.node <= Peek(s[1..]) as int && first.item.One?
    requires EscapeChar(s[1..]) == Ok(hi, s')
    ensures ClassItems(s, n, Some(first)) == Prefixed([Span(first.item.c, hi)], ClassItems(s', n + 1, None))
  {
  }

  /** A repetition is one node behind those of its element. */
  lemma GreedyNode(p0: U16, p1: U16, x: Elem, base: nat, cap: nat)
    ensures var g := Greedy(p0, p1, x);
      && Emit(g, base, cap, -1) == Emit(x, base, cap, -1) + [Node(GREEDY, Root(x, base), Counts(p0, p1), -1)]
      && Root(g, base) == base + |Emit(x, base, cap, -1)| && Captures(g) == Captures(x)
  {
  }

  /** How a group is read. */
  lemma GroupRead(s: string, n: nat)
    requires Peek(s) == '('
    ensures var plain := Peek(s[1..]) == '?';
      match if plain then Expect(s[2..], ':') else Ok((), s[1..])
      case Fail(error) => ParseBase(s, n) == Fail(error)
      case Ok(_, s') =>
        match ParseList(s', n + 1)
        case Fail(error) => ParseBase(s, n) == Fail(error)
        case Ok(body, s'') =>
          match Expect(s'', ')')
          case Fail(error) => ParseBase(s, n) == Fail(error)
          case Ok(_, s3) => ParseBase(s, n) == Ok(Group(!plain, body), s3)
  {
    hide ParseList, Expect;
  }

  /** How a list of alternatives is read. */
  lemma ListRead(s: string, n: nat)
    ensures match ParseAnchored(s, n)
      case Fail(error) => ParseList(s, n) == Fail(error)
      case Ok(chain, s') =>
        if Peek(s') != '|' then ParseList(s, n) == Ok(chain, s')
        else
          match ParseList(s'[1..], n + WidthSeq(chain) + 1)
          case Fail(error) => ParseList(s, n) == Fail(error)
          case Ok(right, s'') => ParseList(s, n) == Ok([Or(chain, right)], s'')
  {
    hide ParseAnchored;
  }

  /** How a chain with its anchor is read. */
  lemma AnchoredRead(s: string, n: nat)
    ensures Peek(s) != '^' ==> ParseAnchored(s, n) == ParseChain(s, n)
    ensures Peek(s) == '^' ==>
      match ParseChain(s[1..], n + 1)
      case Fail(error) => ParseAnchored(s, n) == Fail(error)
      case Ok(es, s') => ParseAnchored(s, n) == Ok([Bol] + es, s')
  {
    hide ParseChain;
  }

  lemma BolNode(base: nat, cap: nat)
    ensures Emit(Bol, base, cap, -1) == [Node(BOL, -1, -1, -1)]
    ensures Root(Bol, base) == base && Width(Bol) == 1 && Captures(Bol) == 0
  {
  }
}
