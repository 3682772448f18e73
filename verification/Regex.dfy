/** TRex patterns as trees, and the language they stand for.

    A pattern is a chain of elements.  `In` is the declarative meaning of an element: which
    stretches of the text it describes.  It knows nothing of nodes, greediness or lookahead.
 */
module Regex {
  import opened CType

  datatype Item = One(c: char) | Span(lo: char, hi: char) | Named(cls: char)

  /** `unsigned short` */
  type U16 = n: nat | n <= 0xFFFF

  datatype Elem =
    | Chr(c: char)
    | Dot
    | Bol
    | Eol
    | WordBoundary(letter: char)
    | CharClass(cls: char)
    | Class(negated: bool, items: seq<Item>)
    | Group(capturing: bool, body: seq<Elem>)
    | Or(left: seq<Elem>, right: seq<Elem>)
    | Greedy(p0: U16, p1: U16, elem: Elem)

  /** A repetition count of 0xFFFF means: no upper bound. */
  const UNBOUNDED: U16 := 0xFFFF

  // ----- characters -----

  /** `trex_matchcclass` */
  predicate InNamed(cls: char, c: char) {
    match cls
    case 'a' => IsAlpha(c)
    case 'A' => !IsAlpha(c)
    case 'w' => IsAlnum(c) || c == '_'
    case 'W' => !IsAlnum(c) && c != '_'
    case 's' => IsSpace(c)
    case 'S' => !IsSpace(c)
    case 'd' => IsDigit(c)
    case 'D' => !IsDigit(c)
    case 'x' => IsXDigit(c)
    case 'X' => !IsXDigit(c)
    case 'c' => IsCntrl(c)
    case 'C' => !IsCntrl(c)
    case 'p' => IsPunct(c)
    case 'P' => !IsPunct(c)
    case 'l' => IsLower(c)
    case 'u' => IsUpper(c)
    case _ => false
  }

  predicate SameChar(icase: bool, pattern: char, c: char) {
    if icase then c == ToLower(pattern) || c == ToUpper(pattern) else c == pattern
  }

  predicate InItem(icase: bool, item: Item, c: char) {
    match item
    case One(x) => SameChar(icase, x, c)
    case Span(lo, hi) =>
      if icase then ToUpper(lo) <= c <= ToUpper(hi) || ToLower(lo) <= c <= ToLower(hi) else lo <= c <= hi
    case Named(cls) => InNamed(cls, c)
  }

  predicate InItems(icase: bool, items: seq<Item>, c: char) {
    exists i :: 0 <= i < |items| && InItem(icase, items[i], c)
  }

  /** Elements that take exactly one character. */
  predicate Single(x: Elem) {
    x.Chr? || x.Dot? || x.CharClass? || x.Class?
  }

  predicate Takes(icase: bool, x: Elem, c: char)
    requires Single(x)
  {
    match x
    case Chr(d) => SameChar(icase, d, c)
    case Dot => true
    case CharClass(cls) => InNamed(cls, c)
    case Class(negated, items) => InItems(icase, items, c) <==> !negated
  }

  // ----- the text being matched -----

  /** A C string in memory: its characters, the terminator, and whatever lies beyond it. */
  datatype Text = Text(s: string, beyond: nat -> char, icase: bool) {
    function At(i: nat): char {
      if i < |s| then s[i] else if i == |s| then '\0' else beyond(i)
    }

    /** What `\b` tests at position `i`. */
    predicate AtBoundary(i: nat) {
      || (i == 0 && !IsSpace(At(i)))
      || (i == |s| && i > 0 && !IsSpace(At(i - 1)))
      || (!IsSpace(At(i)) && IsSpace(At(i + 1)))
      || (IsSpace(At(i)) && !IsSpace(At(i + 1)))
    }
  }

  // ----- the language -----

  /** Element `e` describes the text from `i` up to `j`. */
  ghost predicate In(t: Text, e: Elem, i: nat, j: nat)
    decreases e, 0
  {
    match e
    case Chr(c) => j == i + 1 && SameChar(t.icase, c, t.At(i))
    case Dot => j == i + 1
    case Bol => j == i == 0
    case Eol => j == i == |t.s|
    case WordBoundary(letter) => j == i && (t.AtBoundary(i) <==> letter == 'b')
    case CharClass(cls) => j == i + 1 && InNamed(cls, t.At(i))
    case Class(negated, items) => j == i + 1 && (InItems(t.icase, items, t.At(i)) <==> !negated)
    case Group(_, body) => InSeq(t, body, i, j)
    case Or(left, right) => InSeq(t, left, i, j) || InSeq(t, right, i, j)
    case Greedy(p0, p1, x) => exists n: nat :: CountOk(p0, p1, n) && InTimes(t, x, n, i, j)
  }

  /** The elements of a chain describe consecutive stretches. */
  ghost predicate InSeq(t: Text, es: seq<Elem>, i: nat, j: nat)
    decreases es, 0
  {
    if es == [] then i == j
    else exists k: nat :: In(t, es[0], i, k) && InSeq(t, es[1..], k, j)
  }

  /** `n` consecutive stretches, each described by `e`. */
  ghost predicate InTimes(t: Text, e: Elem, n: nat, i: nat, j: nat)
    decreases e, n + 1
  {
    if n == 0 then i == j
    else exists k: nat :: InTimes(t, e, n - 1, i, k) && In(t, e, k, j)
  }

  predicate CountOk(p0: U16, p1: U16, n: nat) {
    p0 <= n && (n <= p1 || p1 == UNBOUNDED)
  }

  /** The whole text is in the language of the element. */
  ghost predicate Matches(t: Text, e: Elem) {
    In(t, e, 0, |t.s|)
  }

  lemma {:induction false} InMonotone(t: Text, e: Elem, i: nat, j: nat)
    requires In(t, e, i, j)
    ensures i <= j
    decreases e, 0
  {
    match e
    case Group(_, body) => InSeqMonotone(t, body, i, j);
    case Or(left, right) =>
      if InSeq(t, left, i, j) {
        InSeqMonotone(t, left, i, j);
      } else {
        InSeqMonotone(t, right, i, j);
      }
    case Greedy(p0, p1, x) =>
      var n: nat :| CountOk(p0, p1, n) && InTimes(t, x, n, i, j);
      InTimesMonotone(t, x, n, i, j);
    case _ =>
  }

  lemma {:induction false} InSeqMonotone(t: Text, es: seq<Elem>, i: nat, j: nat)
    requires InSeq(t, es, i, j)
    ensures i <= j
    decreases es, 0
  {
    if es != [] {
      var k: nat :| In(t, es[0], i, k) && InSeq(t, es[1..], k, j);
      InMonotone(t, es[0], i, k);
      InSeqMonotone(t, es[1..], k, j);
    }
  }

  lemma {:induction false} InTimesMonotone(t: Text, e: Elem, n: nat, i: nat, j: nat)
    requires InTimes(t, e, n, i, j)
    ensures i <= j
    decreases e, n + 1
  {
    if n > 0 {
      var k: nat :| InTimes(t, e, n - 1, i, k) && In(t, e, k, j);
      InTimesMonotone(t, e, n - 1, i, k);
      InMonotone(t, e, k, j);
    }
  }

  // ----- the part of the language that loops can find -----

  /** No loop makes more rounds than this. */
  const MOST_ROUNDS: nat := 0x1_0000

  /** One character, perhaps in parentheses. */
  predicate Unit(x: Elem) {
    Single(x) || (x.Group? && |x.body| == 1 && Unit(x.body[0]))
  }

  predicate TakesUnit(icase: bool, x: Elem, c: char)
    requires Unit(x)
  {
    if x.Group? then TakesUnit(icase, x.body[0], c) else Takes(icase, x, c)
  }

  /** A loop that is entered at the end of the text takes the terminator for a character. */
  predicate TakesEnd(t: Text, p1: U16, x: Elem, i: nat) {
    i == |t.s| && p1 > 0 && Unit(x) && TakesUnit(t.icase, x, '\0')
  }

  /** Like `In`, but repetitions are counted to `MOST_ROUNDS` only, and do not end before their
      first round where they would take the terminator. */
  ghost predicate InLimits(t: Text, e: Elem, i: nat, j: nat)
    decreases e, 0
  {
    match e
    case Group(_, body) => InLimitsSeq(t, body, i, j)
    case Or(left, right) => InLimitsSeq(t, left, i, j) || InLimitsSeq(t, right, i, j)
    case Greedy(p0, p1, x) => exists n: nat :: InLimitsRounds(t, p0, p1, x, n, i, j)
    case _ => In(t, e, i, j)
  }

  ghost predicate InLimitsSeq(t: Text, es: seq<Elem>, i: nat, j: nat)
    decreases es, 0
  {
    if es == [] then i == j
    else exists k: nat :: InLimits(t, es[0], i, k) && InLimitsSeq(t, es[1..], k, j)
  }

  /** A repetition of `n` rounds. */
  ghost predicate InLimitsRounds(t: Text, p0: U16, p1: U16, x: Elem, n: nat, i: nat, j: nat)
    decreases x, n + 2
  {
    CountOk(p0, p1, n) && n <= MOST_ROUNDS && InLimitsTimes(t, x, n, i, j) && (n == 0 ==> !TakesEnd(t, p1, x, i))
  }

  ghost predicate InLimitsTimes(t: Text, e: Elem, n: nat, i: nat, j: nat)
    decreases e, n + 1
  {
    if n == 0 then i == j
    else exists k: nat :: InLimitsTimes(t, e, n - 1, i, k) && InLimits(t, e, k, j)
  }

  /** Whatever loops can find is described. */
  lemma {:induction false} LimitsIn(t: Text, e: Elem, i: nat, j: nat)
    requires InLimits(t, e, i, j)
    ensures In(t, e, i, j)
    decreases e, 0
  {
    match e
    case Group(_, body) => LimitsInSeq(t, body, i, j);
    case Or(left, right) =>
      if InLimitsSeq(t, left, i, j) {
        LimitsInSeq(t, left, i, j);
      } else {
        LimitsInSeq(t, right, i, j);
      }
    case Greedy(p0, p1, x) =>
      var n: nat :| InLimitsRounds(t, p0, p1, x, n, i, j);
      LimitsInTimes(t, x, n, i, j);
    case _ =>
  }

  lemma {:induction false} LimitsInSeq(t: Text, es: seq<Elem>, i: nat, j: nat)
    requires InLimitsSeq(t, es, i, j)
    ensures InSeq(t, es, i, j)
    decreases es, 0
  {
    if es != [] {
      var k: nat :| InLimits(t, es[0], i, k) && InLimitsSeq(t, es[1..], k, j);
      LimitsIn(t, es[0], i, k);
      LimitsInSeq(t, es[1..], k, j);
    }
  }

  lemma {:induction false} LimitsInTimes(t: Text, e: Elem, n: nat, i: nat, j: nat)
    requires InLimitsTimes(t, e, n, i, j)
    ensures InTimes(t, e, n, i, j)
    decreases e, n + 1
  {
    if n > 0 {
      var k: nat :| InLimitsTimes(t, e, n - 1, i, k) && InLimits(t, e, k, j);
      LimitsInTimes(t, e, n - 1, i, k);
      LimitsIn(t, e, k, j);
    }
  }

  // ----- what lies beyond the terminator does not matter -----

  /** `\b` and `\B` are the only elements that look at a character they do not consume. */
  predicate BoundaryFree(e: Elem)
    decreases e, 0
  {
    match e
    case WordBoundary(_) => false
    case Group(_, body) => BoundaryFreeSeq(body)
    case Or(left, right) => BoundaryFreeSeq(left) && BoundaryFreeSeq(right)
    case Greedy(_, _, x) => BoundaryFree(x)
    case _ => true
  }

  predicate BoundaryFreeSeq(es: seq<Elem>)
    decreases es, 0
  {
    es == [] || (BoundaryFree(es[0]) && BoundaryFreeSeq(es[1..]))
  }

  /** The language of an element within the text does not depend on memory beyond it. */
  lemma {:induction false} BeyondIrrelevant(t: Text, t': Text, e: Elem, i: nat, j: nat)
    requires t.s == t'.s && t.icase == t'.icase && BoundaryFree(e)
    requires In(t, e, i, j) && j <= |t.s|
    ensures In(t', e, i, j)
    decreases e, 0
  {
    match e
    case Group(_, body) => BeyondIrrelevantSeq(t, t', body, i, j);
    case Or(left, right) =>
      if InSeq(t, left, i, j) {
        BeyondIrrelevantSeq(t, t', left, i, j);
      } else {
        BeyondIrrelevantSeq(t, t', right, i, j);
      }
    case Greedy(p0, p1, x) =>
      var n: nat :| CountOk(p0, p1, n) && InTimes(t, x, n, i, j);
      BeyondIrrelevantTimes(t, t', x, n, i, j);
    case _ =>
  }

  lemma {:induction false} BeyondIrrelevantSeq(t: Text, t': Text, es: seq<Elem>, i: nat, j: nat)
    requires t.s == t'.s && t.icase == t'.icase && BoundaryFreeSeq(es)
    requires InSeq(t, es, i, j) && j <= |t.s|
    ensures InSeq(t', es, i, j)
    decreases es, 0
  {
    if es != [] {
      var k: nat :| In(t, es[0], i, k) && InSeq(t, es[1..], k, j);
      InSeqMonotone(t, es[1..], k, j);
      BeyondIrrelevant(t, t', es[0], i, k);
      BeyondIrrelevantSeq(t, t', es[1..], k, j);
    }
  }

  lemma {:induction false} BeyondIrrelevantTimes(t: Text, t': Text, e: Elem, n: nat, i: nat, j: nat)
    requires t.s == t'.s && t.icase == t'.icase && BoundaryFree(e)
    requires InTimes(t, e, n, i, j) && j <= |t.s|
    ensures InTimes(t', e, n, i, j)
    decreases e, n + 1
  {
    if n > 0 {
      var k: nat :| InTimes(t, e, n - 1, i, k) && In(t, e, k, j);
      InMonotone(t, e, k, j);
      BeyondIrrelevantTimes(t, t', e, n - 1, i, k);
      BeyondIrrelevant(t, t', e, k, j);
    }
  }
}
