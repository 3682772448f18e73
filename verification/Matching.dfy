/** `trex_matchnode` as a function of the pattern tree, and its soundness.

    The matcher is greedy and never backtracks: a repetition stops early when the element that
    follows it would match.  Positions are offsets into the text; -1 stands for NULL. */
module Matching {
  import opened Regex

  function Size(e: Elem): (n: nat)
    ensures n >= 1
    decreases e, 0
  {
    match e
    case Group(_, body) => 1 + SizeSeq(body)
    case Or(left, right) => 1 + SizeSeq(left) + SizeSeq(right)
    case Greedy(_, _, x) => 1 + Size(x)
    case _ => 1
  }

  function SizeSeq(es: seq<Elem>): nat
    decreases es, 0
  {
    if es == [] then 0 else Size(es[0]) + SizeSeq(es[1..])
  }

  /** What follows an element: its own siblings, or else what its caller says comes next. */
  function Following(sibs: seq<Elem>, next: seq<Elem>): seq<Elem> {
    if sibs != [] then sibs else next
  }

  /** `next`, if given, is the element's own next sibling whenever it has one. */
  predicate Linked(sibs: seq<Elem>, next: seq<Elem>) {
    sibs == [] || next == [] || next == sibs
  }

  /** Three ways to be satisfied with `n` repetitions, as the code tests them. */
  predicate Satisfied(p0: U16, p1: U16, n: nat) {
    || (p0 == p1 && p0 == n)
    || (n >= p0 && p1 == UNBOUNDED)
    || (n >= p0 && n <= p1)
  }

  /** An element that can match nothing is not used to stop a repetition. */
  predicate CanStop(e: Elem) {
    !e.Greedy? || e.p0 != 0
  }

  /** `trex_matchnode`: where a match of `e` at `i` ends, or -1. */
  function MatchElem(t: Text, e: Elem, sibs: seq<Elem>, next: seq<Elem>, i: nat): (j: int)
    requires Linked(sibs, next)
    ensures j >= -1
    decreases Size(e) + SizeSeq(Following(sibs, next)), 1, 0
  {
    match e
    case Greedy(p0, p1, x) => Repeat(t, p0, p1, x, Following(sibs, next), i, 0)
    case Or(left, right) =>
      var l := MatchAlternative(t, left, i);
      if l >= 0 then l else MatchAlternative(t, right, i)
    case Group(_, body) => MatchBody(t, body, next, i)
    case WordBoundary(letter) => if t.AtBoundary(i) == (letter == 'b') then i else -1
    case Bol => if i == 0 then i else -1
    case Eol => if i == |t.s| then i else -1
    case Dot => i + 1
    case Class(negated, items) => if InItems(t.icase, items, t.At(i)) != negated then i + 1 else -1
    case CharClass(cls) => if InNamed(cls, t.At(i)) then i + 1 else -1
    case Chr(c) => if SameChar(t.icase, c, t.At(i)) then i + 1 else -1
  }

  /** The loop of OP_EXPR: the elements of a group, one after another. */
  function MatchBody(t: Text, body: seq<Elem>, next: seq<Elem>, i: nat): (j: int)
    ensures j >= -1
    decreases SizeSeq(body) + SizeSeq(next), 2, 0
  {
    if body == [] then i
    else
      var k := MatchElem(t, body[0], body[1..], Following(body[1..], next), i);
      if k < 0 then -1 else MatchBody(t, body[1..], next, k)
  }

  /** The loops of OP_OR: the elements of one alternative; nothing is said to follow them. */
  function MatchAlternative(t: Text, chain: seq<Elem>, i: nat): (j: int)
    ensures j >= -1
    decreases SizeSeq(chain), 2, 0
  {
    if chain == [] then i
    else
      var k := MatchElem(t, chain[0], chain[1..], [], i);
      if k < 0 then -1 else MatchAlternative(t, chain[1..], k)
  }

  /** The loop of OP_GREEDY after `n` repetitions that ended at `at`. */
  function Repeat(t: Text, p0: U16, p1: U16, x: Elem, stop: seq<Elem>, at: nat, n: nat): (j: int)
    requires n <= 0x1_0000
    ensures j >= -1
    decreases 1 + Size(x) + SizeSeq(stop), 0, 0x1_0000 - n
  {
    if !(n == 0xFFFF || n < p1) then Leave(p0, p1, at, n)
    else
      var k := MatchElem(t, x, [], stop, at);
      if k < 0 then Leave(p0, p1, at, n)
      else if WouldStop(t, stop, k) && Satisfied(p0, p1, n + 1) then Leave(p0, p1, k, n + 1)
      else if k >= |t.s| then Leave(p0, p1, k, n + 1)
      else Repeat(t, p0, p1, x, stop, k, n + 1)
  }

  /** The lookahead of OP_GREEDY: what follows the repetition would match at `at`. */
  predicate WouldStop(t: Text, stop: seq<Elem>, at: nat)
    decreases 1 + SizeSeq(stop), 0, 0
  {
    stop != [] && CanStop(stop[0]) && MatchElem(t, stop[0], stop[1..], stop[1..], at) >= 0
  }

  function Leave(p0: U16, p1: U16, at: nat, n: nat): int {
    if Satisfied(p0, p1, n) then at else -1
  }

  // ----- soundness -----

  /** What the matcher finds is described, and within the limits of its loops. */
  lemma {:induction false} ElemSound(t: Text, e: Elem, sibs: seq<Elem>, next: seq<Elem>, i: nat)
    requires Linked(sibs, next) && MatchElem(t, e, sibs, next, i) >= 0
    ensures InLimits(t, e, i, MatchElem(t, e, sibs, next, i))
    ensures In(t, e, i, MatchElem(t, e, sibs, next, i))
    decreases Size(e) + SizeSeq(Following(sibs, next)), 1, 0
  {
    match e {
      case Greedy(p0, p1, x) =>
        assert InLimitsTimes(t, x, 0, i, i);
        RepeatSound(t, p0, p1, x, Following(sibs, next), i, i, 0);
      case Or(left, right) =>
        if MatchAlternative(t, left, i) >= 0 {
          AlternativeSound(t, left, i);
        } else {
          AlternativeSound(t, right, i);
        }
      case Group(_, body) => BodySound(t, body, next, i);
      case _ =>
    }
    LimitsIn(t, e, i, MatchElem(t, e, sibs, next, i));
  }

  lemma {:induction false} BodySound(t: Text, body: seq<Elem>, next: seq<Elem>, i: nat)
    requires MatchBody(t, body, next, i) >= 0
    ensures InLimitsSeq(t, body, i, MatchBody(t, body, next, i))
    decreases SizeSeq(body) + SizeSeq(next), 2, 0
  {
    if body != [] {
      ElemSound(t, body[0], body[1..], Following(body[1..], next), i);
      BodySound(t, body[1..], next, MatchElem(t, body[0], body[1..], Following(body[1..], next), i));
    }
  }

  lemma {:induction false} AlternativeSound(t: Text, chain: seq<Elem>, i: nat)
    requires MatchAlternative(t, chain, i) >= 0
    ensures InLimitsSeq(t, chain, i, MatchAlternative(t, chain, i))
    decreases SizeSeq(chain), 2, 0
  {
    if chain != [] {
      ElemSound(t, chain[0], chain[1..], [], i);
      AlternativeSound(t, chain[1..], MatchElem(t, chain[0], chain[1..], [], i));
    }
  }

  lemma OneMoreRound(t: Text, x: Elem, n: nat, i: nat, at: nat, k: nat)
    requires InLimitsTimes(t, x, n, i, at) && InLimits(t, x, at, k)
    ensures InLimitsTimes(t, x, n + 1, i, k)
  {
  }

  lemma LeaveSound(t: Text, p0: U16, p1: U16, x: Elem, n: nat, i: nat, at: nat)
    requires InLimitsTimes(t, x, n, i, at) && n <= MOST_ROUNDS && Leave(p0, p1, at, n) >= 0
    requires n == 0 ==> !TakesEnd(t, p1, x, i)
    ensures InLimits(t, Greedy(p0, p1, x), i, Leave(p0, p1, at, n))
  {
    assert InLimitsRounds(t, p0, p1, x, n, i, at);
  }

  /** One character is matched wherever it stands, even at the terminator. */
  lemma {:induction false} UnitMatches(t: Text, x: Elem, sibs: seq<Elem>, next: seq<Elem>, i: nat)
    requires Linked(sibs, next) && Unit(x)
    ensures MatchElem(t, x, sibs, next, i) == if TakesUnit(t.icase, x, t.At(i)) then i + 1 else -1
  {
    if x.Group? {
      assert x.body[1..] == [];
      UnitMatches(t, x.body[0], x.body[1..], next, i);
      assert MatchBody(t, x.body[1..], next, i + 1) == i + 1;
    }
  }

  /** One round of the loop. */
  lemma RepeatStep(t: Text, p0: U16, p1: U16, x: Elem, stop: seq<Elem>, at: nat, n: nat)
    requires n <= 0x1_0000
    ensures !(n == 0xFFFF || n < p1) ==> Repeat(t, p0, p1, x, stop, at, n) == Leave(p0, p1, at, n)
    ensures n == 0xFFFF || n < p1 ==>
      var k := MatchElem(t, x, [], stop, at);
      Repeat(t, p0, p1, x, stop, at, n)
        == if k < 0 then Leave(p0, p1, at, n)
           else if (WouldStop(t, stop, k) && Satisfied(p0, p1, n + 1)) || k >= |t.s| then Leave(p0, p1, k, n + 1)
           else Repeat(t, p0, p1, x, stop, k, n + 1)
  {
    hide MatchElem, WouldStop, Satisfied, Leave;
  }

  lemma NotAtEnd(t: Text, p1: U16, x: Elem, stop: seq<Elem>, at: nat)
    requires p1 == 0 || MatchElem(t, x, [], stop, at) < 0
    ensures !TakesEnd(t, p1, x, at)
  {
    if Unit(x) {
      UnitMatches(t, x, [], stop, at);
    }
  }

  lemma {:induction false} RepeatSound(t: Text, p0: U16, p1: U16, x: Elem, stop: seq<Elem>, i: nat, at: nat, n: nat)
    requires n <= MOST_ROUNDS && InLimitsTimes(t, x, n, i, at)
    requires Repeat(t, p0, p1, x, stop, at, n) >= 0
    ensures InLimits(t, Greedy(p0, p1, x), i, Repeat(t, p0, p1, x, stop, at, n))
    decreases 1 + Size(x) + SizeSeq(stop), 0, 0x1_0000 - n
  {
    assert n == 0 ==> at == i;
    hide In, InLimits, InLimitsTimes, Satisfied, MatchElem, WouldStop, TakesEnd;
    RepeatStep(t, p0, p1, x, stop, at, n);
    hide Repeat, Leave;
    if !(n == 0xFFFF || n < p1) || MatchElem(t, x, [], stop, at) < 0 {
      LeaveNowSound(t, p0, p1, x, stop, n, i, at);
    } else {
      var k := MatchElem(t, x, [], stop, at);
      ElemSound(t, x, [], stop, at);
      OneMoreRound(t, x, n, i, at, k);
      if (WouldStop(t, stop, k) && Satisfied(p0, p1, n + 1)) || k >= |t.s| {
        LeaveSound(t, p0, p1, x, n + 1, i, k);
      } else {
        RepeatSound(t, p0, p1, x, stop, i, k, n + 1);
      }
    }
  }

  lemma LeaveNowSound(t: Text, p0: U16, p1: U16, x: Elem, stop: seq<Elem>, n: nat, i: nat, at: nat)
    requires n <= MOST_ROUNDS && InLimitsTimes(t, x, n, i, at) && (n == 0 ==> at == i)
    requires !(n == 0xFFFF || n < p1) || MatchElem(t, x, [], stop, at) < 0
    requires Leave(p0, p1, at, n) >= 0
    ensures InLimits(t, Greedy(p0, p1, x), i, Leave(p0, p1, at, n))
  {
    hide InLimits, InLimitsTimes, MatchElem, TakesEnd, Leave;
    if n == 0 {
      NotAtEnd(t, p1, x, stop, at);
    }
    LeaveSound(t, p0, p1, x, n, i, at);
  }

  /** `trex_match`: the match of the root node ends exactly at the end of the text. */
  predicate Accepts(t: Text, root: Elem) {
    MatchElem(t, root, [], [], 0) == |t.s|
  }

  /** An accepted text is in the language of the pattern, whatever memory lies beyond it --
      unless the pattern asks about word boundaries, when it is in the language for the memory
      the matcher saw. */
  lemma AcceptsSound(t: Text, root: Elem)
    requires Accepts(t, root)
    ensures InLimits(t, root, 0, |t.s|) && Matches(t, root)
    ensures BoundaryFree(root) ==> forall beyond :: Matches(Text(t.s, beyond, t.icase), root)
  {
    ElemSound(t, root, [], [], 0);
    if BoundaryFree(root) {
      forall beyond ensures Matches(Text(t.s, beyond, t.icase), root) {
        BeyondIrrelevant(t, Text(t.s, beyond, t.icase), root, 0, |t.s|);
      }
    }
  }

  // ----- completeness fails -----

  /** `.*` describes the empty text but does not accept it: the matcher always takes one step
      before it looks at the end of the text. */
  lemma DotStarRefusesEmpty(beyond: nat -> char, icase: bool)
    ensures var t, root := Text("", beyond, icase), Group(true, [Greedy(0, UNBOUNDED, Dot)]);
      Matches(t, root) && !Accepts(t, root)
  {
    var t, star := Text("", beyond, icase), Greedy(0, UNBOUNDED, Dot);
    assert InTimes(t, Dot, 0, 0, 0);
    assert In(t, star, 0, 0);
    assert InSeq(t, [star][1..], 0, 0);
    assert InSeq(t, [star], 0, 0);
    assert MatchElem(t, Dot, [], [], 0) == 1;
    assert Repeat(t, 0, UNBOUNDED, Dot, [], 0, 0) == 1;
    assert MatchBody(t, [star], [], 0) == 1 by {
      assert MatchElem(t, star, [], [], 0) == 1;
    }
  }
}
