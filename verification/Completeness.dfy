/** What the exact condition for determined patterns amounts to: for short texts, for patterns
    without repetitions, and for one repeated character.

    The matcher, which never backtracks, is not complete: `.*` refuses the empty text, and no text
    of more than 0x10000 characters is accepted by `a*`. */
module Completeness {
  import opened Regex
  import opened Matching
  import opened Determinism

  // ----- short texts -----

  lemma {:induction false} UnitFirst(icase: bool, x: Elem, c: char)
    requires Unit(x)
    ensures TakesUnit(icase, x, c) ==> First(icase, x, c)
  {
    if x.Group? {
      UnitFirst(icase, x.body[0], c);
    }
  }

  /** In a text that is short enough to be counted, the limits matter only at its end. */
  lemma {:induction false} ShortElem(t: Text, e: Elem, sibs: seq<Elem>, next: seq<Elem>, i: nat, j: nat)
    requires Determined(t.icase, e, sibs, next) && In(t, e, i, j)
    requires j <= |t.s| <= MOST_ROUNDS && !GoesOn(t.icase, e, t.At(j))
    ensures InLimits(t, e, i, j)
    decreases e, 1
  {
    match e
    case Group(_, body) => ShortBody(t, body, next, i, j);
    case Or(left, right) =>
      if InSeq(t, left, i, j) {
        ShortAlternative(t, left, i, j);
      } else {
        ShortAlternative(t, right, i, j);
      }
    case Greedy(p0, p1, x) =>
      var n: nat :| CountOk(p0, p1, n) && InTimes(t, x, n, i, j);
      ShortTimes(t, x, Following(sibs, next), n, i, j);
      if Unit(x) {
        UnitFirst(t.icase, x, '\0');
      }
      assert InLimitsRounds(t, p0, p1, x, n, i, j);
    case _ =>
  }

  /** Where one element of a chain ends, it cannot be continued. */
  lemma NoContinuation(t: Text, es: seq<Elem>, k: nat, j: nat)
    requires es != [] && InSeq(t, es[1..], k, j) && !GoesOnSeq(t.icase, es, t.At(j))
    requires forall c :: !(GoesOn(t.icase, es[0], c) && FirstSeq(t.icase, es[1..], c))
    ensures k <= j && !GoesOn(t.icase, es[0], t.At(k)) && !GoesOnSeq(t.icase, es[1..], t.At(j))
  {
    var c := t.At(k);
    assert !(GoesOn(t.icase, es[0], c) && FirstSeq(t.icase, es[1..], c));
    BeginsSeq(t, es[1..], k, j);
  }

  lemma {:induction false} ShortBody(t: Text, es: seq<Elem>, next: seq<Elem>, i: nat, j: nat)
    requires DeterminedBody(t.icase, es, next) && InSeq(t, es, i, j)
    requires j <= |t.s| <= MOST_ROUNDS && !GoesOnSeq(t.icase, es, t.At(j))
    ensures InLimitsSeq(t, es, i, j)
    decreases es, 0
  {
    if es != [] {
      var k := FirstStretch(t, es, i, j);
      NoContinuation(t, es, k, j);
      ShortElem(t, es[0], es[1..], Following(es[1..], next), i, k);
      ShortBody(t, es[1..], next, k, j);
    }
  }

  lemma {:induction false} ShortAlternative(t: Text, es: seq<Elem>, i: nat, j: nat)
    requires DeterminedAlternative(t.icase, es) && InSeq(t, es, i, j)
    requires j <= |t.s| <= MOST_ROUNDS && !GoesOnSeq(t.icase, es, t.At(j))
    ensures InLimitsSeq(t, es, i, j)
    decreases es, 0
  {
    if es != [] {
      var k := FirstStretch(t, es, i, j);
      NoContinuation(t, es, k, j);
      ShortElem(t, es[0], es[1..], [], i, k);
      ShortAlternative(t, es[1..], k, j);
    }
  }

  lemma {:induction false} ShortTimes(t: Text, x: Elem, stop: seq<Elem>, n: nat, i: nat, j: nat)
    requires !Nullable(x) && Determined(t.icase, x, [], stop)
    requires forall c :: !(First(t.icase, x, c) && GoesOn(t.icase, x, c))
    requires InTimes(t, x, n, i, j) && j <= |t.s| <= MOST_ROUNDS && !GoesOn(t.icase, x, t.At(j))
    ensures InLimitsTimes(t, x, n, i, j) && i + n <= j
    decreases x, 2, n
  {
    if n > 0 {
      var k := LastTime(t, x, n, i, j);
      Begins(t, x, k, j);
      assert !(First(t.icase, x, t.At(k)) && GoesOn(t.icase, x, t.At(k)));
      ShortTimes(t, x, stop, n - 1, i, k);
      ShortElem(t, x, [], stop, k, j);
    }
  }

  lemma {:induction false} NeverGoingOnEndsWell(icase: bool, e: Elem)
    ensures !GoesOn(icase, e, '\0') ==> EndsWell(icase, e)
    decreases e, 0
  {
    match e
    case Group(_, body) => NeverGoingOnEndsWellSeq(icase, body);
    case Or(left, right) =>
      NeverGoingOnEndsWellSeq(icase, left);
      NeverGoingOnEndsWellSeq(icase, right);
    case Greedy(_, _, x) => NeverGoingOnEndsWell(icase, x);
    case _ =>
  }

  lemma {:induction false} NeverGoingOnEndsWellSeq(icase: bool, es: seq<Elem>)
    ensures !GoesOnSeq(icase, es, '\0') ==> EndsWellSeq(icase, es)
    decreases es, 0
  {
    if es != [] {
      NeverGoingOnEndsWell(icase, es[0]);
      NeverGoingOnEndsWellSeq(icase, es[1..]);
    }
  }

  /** A determined pattern that does not go on with the terminator accepts exactly the texts it
      describes, as far as these can be counted. */
  lemma DeterminedAccepts(t: Text, root: Elem)
    requires Determined(t.icase, root, [], []) && !GoesOn(t.icase, root, '\0') && |t.s| <= 0x1_0000
    ensures Accepts(t, root) <==> Matches(t, root)
  {
    NeverGoingOnEndsWell(t.icase, root);
    DeterminedAcceptsIff(t, root);
    if Matches(t, root) {
      ShortElem(t, root, [], [], 0, |t.s|);
    }
    if Accepts(t, root) {
      AcceptsSound(t, root);
    }
  }

  // ----- no repetitions -----

  /** No repetition and no alternative. */
  predicate ChoiceFree(e: Elem)
    decreases e, 0
  {
    match e
    case Or(_, _) => false
    case Greedy(_, _, _) => false
    case Group(_, body) => ChoiceFreeSeq(body)
    case _ => true
  }

  predicate ChoiceFreeSeq(es: seq<Elem>)
    decreases es, 0
  {
    es == [] || (ChoiceFree(es[0]) && ChoiceFreeSeq(es[1..]))
  }

  lemma {:induction false} ChoiceFreeDetermined(icase: bool, e: Elem, sibs: seq<Elem>, next: seq<Elem>)
    requires ChoiceFree(e)
    ensures Determined(icase, e, sibs, next) && EndsWell(icase, e) && forall c :: !GoesOn(icase, e, c)
    decreases e, 1
  {
    if e.Group? {
      ChoiceFreeSeqDetermined(icase, e.body, next);
    }
  }

  lemma {:induction false} ChoiceFreeSeqDetermined(icase: bool, es: seq<Elem>, next: seq<Elem>)
    requires ChoiceFreeSeq(es)
    ensures DeterminedBody(icase, es, next) && EndsWellSeq(icase, es) && forall c :: !GoesOnSeq(icase, es, c)
    decreases es, 0
  {
    if es != [] {
      ChoiceFreeDetermined(icase, es[0], es[1..], Following(es[1..], next));
      ChoiceFreeSeqDetermined(icase, es[1..], next);
    }
  }

  lemma {:induction false} ChoiceFreeLimits(t: Text, e: Elem, i: nat, j: nat)
    requires ChoiceFree(e) && In(t, e, i, j)
    ensures InLimits(t, e, i, j)
    decreases e, 1
  {
    if e.Group? {
      ChoiceFreeSeqLimits(t, e.body, i, j);
    }
  }

  lemma {:induction false} ChoiceFreeSeqLimits(t: Text, es: seq<Elem>, i: nat, j: nat)
    requires ChoiceFreeSeq(es) && InSeq(t, es, i, j)
    ensures InLimitsSeq(t, es, i, j)
    decreases es, 0
  {
    if es != [] {
      var k := FirstStretch(t, es, i, j);
      ChoiceFreeLimits(t, es[0], i, k);
      ChoiceFreeSeqLimits(t, es[1..], k, j);
    }
  }

  /** Without repetitions and alternatives there are no limits. */
  lemma ChoiceFreeAccepts(t: Text, root: Elem)
    requires ChoiceFree(root)
    ensures Accepts(t, root) <==> Matches(t, root)
  {
    ChoiceFreeDetermined(t.icase, root, [], []);
    DeterminedAcceptsIff(t, root);
    if Matches(t, root) {
      ChoiceFreeLimits(t, root, 0, |t.s|);
    }
    if Accepts(t, root) {
      AcceptsSound(t, root);
    }
  }

  // ----- one repeated character -----

  ghost predicate TakesAll(t: Text, x: Elem, i: nat, j: nat)
    requires Single(x) && j <= |t.s|
  {
    forall k :: i <= k < j ==> Takes(t.icase, x, t.s[k])
  }

  lemma {:induction false} TimesSingle(t: Text, x: Elem, n: nat, i: nat, j: nat)
    requires Single(x) && j <= |t.s|
    ensures InTimes(t, x, n, i, j) <==> InLimitsTimes(t, x, n, i, j)
    ensures InTimes(t, x, n, i, j) <==> i + n == j && TakesAll(t, x, i, j)
    decreases n
  {
    if n > 0 {
      if j > 0 {
        TimesSingle(t, x, n - 1, i, j - 1);
        assert InLimits(t, x, j - 1, j) <==> In(t, x, j - 1, j);
        assert In(t, x, j - 1, j) <==> Takes(t.icase, x, t.s[j - 1]);
      }
      if InTimes(t, x, n, i, j) {
        var k := LastTime(t, x, n, i, j);
        assert k == j - 1;
      }
      if InLimitsTimes(t, x, n, i, j) {
        var k := LastRound(t, x, n, i, j);
        assert k == j - 1;
      }
    }
  }

  lemma RoundsOf(t: Text, p0: U16, p1: U16, x: Elem, i: nat, j: nat) returns (n: nat)
    requires InLimits(t, Greedy(p0, p1, x), i, j)
    ensures InLimitsRounds(t, p0, p1, x, n, i, j)
  {
    n :| InLimitsRounds(t, p0, p1, x, n, i, j);
  }

  /** What a repeated character describes, and what of it its loop can find. */
  lemma RepetitionIn(t: Text, p0: U16, p1: U16, x: Elem, i: nat, j: nat)
    requires Single(x) && j <= |t.s|
    ensures In(t, Greedy(p0, p1, x), i, j) <==> i <= j && CountOk(p0, p1, j - i) && TakesAll(t, x, i, j)
    ensures InLimits(t, Greedy(p0, p1, x), i, j)
      <==> In(t, Greedy(p0, p1, x), i, j) && j - i <= 0x1_0000
           && (i == j == |t.s| && p1 > 0 ==> !Takes(t.icase, x, '\0'))
  {
    var e := Greedy(p0, p1, x);
    if In(t, e, i, j) {
      var n: nat :| CountOk(p0, p1, n) && InTimes(t, x, n, i, j);
      TimesSingle(t, x, n, i, j);
    }
    if InLimits(t, e, i, j) {
      LimitsIn(t, e, i, j);
      var n := RoundsOf(t, p0, p1, x, i, j);
      TimesSingle(t, x, n, i, j);
    }
    if i <= j && CountOk(p0, p1, j - i) && TakesAll(t, x, i, j) {
      TimesSingle(t, x, j - i, i, j);
      assert In(t, e, i, j);
      if j - i <= 0x1_0000 && (i == j == |t.s| && p1 > 0 ==> !Takes(t.icase, x, '\0')) {
        assert InLimitsRounds(t, p0, p1, x, j - i, i, j);
      }
    }
  }

  /** A group of one element. */
  lemma AloneIn(t: Text, e: Elem, i: nat, j: nat)
    ensures InSeq(t, [e], i, j) <==> In(t, e, i, j)
    ensures InLimitsSeq(t, [e], i, j) <==> InLimits(t, e, i, j)
  {
    hide In, InLimits;
    assert [e][1..] == [] && InSeq(t, [e][1..], j, j) && InLimitsSeq(t, [e][1..], j, j);
  }

  /** The language of a repeated character. */
  lemma RepetitionMatches(t: Text, p0: U16, p1: U16, x: Elem)
    requires Single(x)
    ensures Matches(t, Group(true, [Greedy(p0, p1, x)])) <==> CountOk(p0, p1, |t.s|) && TakesAll(t, x, 0, |t.s|)
  {
    AloneIn(t, Greedy(p0, p1, x), 0, |t.s|);
    RepetitionIn(t, p0, p1, x, 0, |t.s|);
  }

  lemma RepetitionDetermined(icase: bool, p0: U16, p1: U16, x: Elem)
    requires Single(x)
    ensures var root := Group(true, [Greedy(p0, p1, x)]); Determined(icase, root, [], []) && EndsWell(icase, root)
  {
    GroupDetermined(icase, Greedy(p0, p1, x));
    assert Determined(icase, x, [], []) && EndsWell(icase, x) && forall c :: !GoesOn(icase, x, c);
  }

  lemma GroupDetermined(icase: bool, e: Elem)
    ensures var root := Group(true, [e]);
      && (Determined(icase, root, [], []) <==> Determined(icase, e, [], []))
      && (EndsWell(icase, root) <==> EndsWell(icase, e))
  {
    hide GoesOn, First, Nullable;
    assert [e][1..] == [] && forall c :: !FirstSeq(icase, [], c);
    assert DeterminedBody(icase, [], []) && NullableSeq([]) && EndsWellSeq(icase, []);
  }

  /** Exactly when a repeated character accepts a text of its language: the text must not be longer
      than the loop can count, and on the empty text the loop must not take the terminator. */
  lemma RepetitionAcceptsIff(t: Text, p0: U16, p1: U16, x: Elem)
    requires Single(x)
    ensures var root := Group(true, [Greedy(p0, p1, x)]);
      Accepts(t, root)
      <==> Matches(t, root) && |t.s| <= 0x1_0000 && (t.s == "" && p1 > 0 ==> !Takes(t.icase, x, '\0'))
  {
    RepetitionDetermined(t.icase, p0, p1, x);
    DeterminedAcceptsIff(t, Group(true, [Greedy(p0, p1, x)]));
    AloneIn(t, Greedy(p0, p1, x), 0, |t.s|);
    RepetitionIn(t, p0, p1, x, 0, |t.s|);
  }

  /** `a*` refuses a text of 0x10001 a's. */
  lemma LongRunRefused(beyond: nat -> char, icase: bool)
    ensures var t, root := Text(seq(0x1_0001, i => 'a'), beyond, icase), Group(true, [Greedy(0, UNBOUNDED, Chr('a'))]);
      Matches(t, root) && !Accepts(t, root)
  {
    var t := Text(seq(0x1_0001, i => 'a'), beyond, icase);
    RepetitionMatches(t, 0, UNBOUNDED, Chr('a'));
    RepetitionAcceptsIff(t, 0, UNBOUNDED, Chr('a'));
  }
}
