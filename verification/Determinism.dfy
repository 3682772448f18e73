/** Patterns in which the next character always decides what to do: whether to go on repeating,
    and which alternative to take.  On these the matcher finds everything they describe within the
    limits of its loops, and nothing else, in a text of any length. */
module Determinism {
  import opened Regex
  import opened Matching

  // ----- how an element can begin, and go on -----

  predicate ZeroWidth(e: Elem) {
    e.Bol? || e.Eol? || e.WordBoundary?
  }

  predicate Nullable(e: Elem)
    decreases e, 0
  {
    match e
    case Group(_, body) => NullableSeq(body)
    case Or(left, right) => NullableSeq(left) || NullableSeq(right)
    case Greedy(p0, _, x) => p0 == 0 || Nullable(x)
    case _ => ZeroWidth(e)
  }

  predicate NullableSeq(es: seq<Elem>)
    decreases es, 0
  {
    es == [] || (Nullable(es[0]) && NullableSeq(es[1..]))
  }

  /** A stretch of at least one character can begin with `c`. */
  predicate First(icase: bool, e: Elem, c: char)
    decreases e, 0
  {
    match e
    case Group(_, body) => FirstSeq(icase, body, c)
    case Or(left, right) => FirstSeq(icase, left, c) || FirstSeq(icase, right, c)
    case Greedy(_, _, x) => First(icase, x, c)
    case _ => Single(e) && Takes(icase, e, c)
  }

  predicate FirstSeq(icase: bool, es: seq<Elem>, c: char)
    decreases es, 0
  {
    es != [] && (First(icase, es[0], c) || (Nullable(es[0]) && FirstSeq(icase, es[1..], c)))
  }

  /** A stretch that is complete can go on with `c`. */
  predicate GoesOn(icase: bool, e: Elem, c: char)
    decreases e, 0
  {
    match e
    case Group(_, body) => GoesOnSeq(icase, body, c)
    case Or(left, right) => GoesOnSeq(icase, left, c) || GoesOnSeq(icase, right, c)
    case Greedy(_, _, x) => First(icase, x, c) || GoesOn(icase, x, c)
    case _ => false
  }

  predicate GoesOnSeq(icase: bool, es: seq<Elem>, c: char)
    decreases es, 0
  {
    es != [] && ((NullableSeq(es[1..]) && GoesOn(icase, es[0], c)) || GoesOnSeq(icase, es[1..], c))
  }

  /** What a repetition that is entered at the end of the text does can be told from the text: it
      takes the terminator for its one character, or cannot begin with it.  (Anything else that
      begins with the terminator goes on to the memory beyond.) */
  predicate EndsWell(icase: bool, e: Elem)
    decreases e, 0
  {
    match e
    case Group(_, body) => EndsWellSeq(icase, body)
    case Or(left, right) => EndsWellSeq(icase, left) && EndsWellSeq(icase, right)
    case Greedy(_, _, x) => (Unit(x) || !First(icase, x, '\0')) && EndsWell(icase, x)
    case _ => true
  }

  predicate EndsWellSeq(icase: bool, es: seq<Elem>)
    decreases es, 0
  {
    es == [] || ((NullableSeq(es[1..]) ==> EndsWell(icase, es[0])) && EndsWellSeq(icase, es[1..]))
  }

  // ----- nothing to choose -----

  /** The lookahead never ends a repetition of `x` that could go on. */
  ghost predicate HarmlessStop(icase: bool, x: Elem, stop: seq<Elem>) {
    || stop == [] || !CanStop(stop[0]) || stop[0].Bol? || stop[0].Eol?
    || (!Nullable(stop[0]) && forall c :: !(First(icase, x, c) && First(icase, stop[0], c)))
  }

  /** `sibs` and `next` are what `MatchElem` is told. */
  ghost predicate Determined(icase: bool, e: Elem, sibs: seq<Elem>, next: seq<Elem>)
    decreases e, 1
  {
    match e
    case Group(_, body) => DeterminedBody(icase, body, next)
    case Or(left, right) =>
      && DeterminedAlternative(icase, left) && DeterminedAlternative(icase, right)
      && !NullableSeq(left) && !NullableSeq(right)
      && forall c :: !(FirstSeq(icase, left, c) && FirstSeq(icase, right, c))
    case Greedy(_, _, x) =>
      && !Nullable(x) && Determined(icase, x, [], Following(sibs, next))
      && (forall c :: !(First(icase, x, c) && GoesOn(icase, x, c)))
      && HarmlessStop(icase, x, Following(sibs, next))
    case _ => true
  }

  ghost predicate DeterminedBody(icase: bool, es: seq<Elem>, next: seq<Elem>)
    decreases es, 0
  {
    es == [] || (
      && Determined(icase, es[0], es[1..], Following(es[1..], next)) && DeterminedBody(icase, es[1..], next)
      && forall c :: !(GoesOn(icase, es[0], c) && FirstSeq(icase, es[1..], c)))
  }

  ghost predicate DeterminedAlternative(icase: bool, es: seq<Elem>)
    decreases es, 0
  {
    es == [] || (
      && Determined(icase, es[0], es[1..], []) && DeterminedAlternative(icase, es[1..])
      && forall c :: !(GoesOn(icase, es[0], c) && FirstSeq(icase, es[1..], c)))
  }

  // ----- a stretch begins with one of its first characters -----

  lemma FirstStretch(t: Text, es: seq<Elem>, i: nat, j: nat) returns (k: nat)
    requires es != [] && InSeq(t, es, i, j)
    ensures In(t, es[0], i, k) && InSeq(t, es[1..], k, j)
  {
    k :| In(t, es[0], i, k) && InSeq(t, es[1..], k, j);
  }

  lemma LastTime(t: Text, x: Elem, n: nat, i: nat, j: nat) returns (k: nat)
    requires n > 0 && InTimes(t, x, n, i, j)
    ensures InTimes(t, x, n - 1, i, k) && In(t, x, k, j)
  {
    k :| InTimes(t, x, n - 1, i, k) && In(t, x, k, j);
  }

  lemma {:induction false} Begins(t: Text, e: Elem, i: nat, j: nat)
    requires In(t, e, i, j)
    ensures i <= j && if i == j then Nullable(e) else First(t.icase, e, t.At(i))
    decreases e, 0
  {
    match e
    case Group(_, body) => BeginsSeq(t, body, i, j);
    case Or(left, right) =>
      if InSeq(t, left, i, j) {
        BeginsSeq(t, left, i, j);
      } else {
        BeginsSeq(t, right, i, j);
      }
    case Greedy(p0, p1, x) =>
      var n: nat :| CountOk(p0, p1, n) && InTimes(t, x, n, i, j);
      BeginsTimes(t, x, n, i, j);
    case _ =>
  }

  lemma {:induction false} BeginsSeq(t: Text, es: seq<Elem>, i: nat, j: nat)
    requires InSeq(t, es, i, j)
    ensures i <= j && if i == j then NullableSeq(es) else FirstSeq(t.icase, es, t.At(i))
    decreases es, 0
  {
    if es != [] {
      var k := FirstStretch(t, es, i, j);
      Begins(t, es[0], i, k);
      BeginsSeq(t, es[1..], k, j);
    }
  }

  lemma {:induction false} BeginsTimes(t: Text, e: Elem, n: nat, i: nat, j: nat)
    requires InTimes(t, e, n, i, j)
    ensures i <= j && if i == j then n == 0 || Nullable(e) else First(t.icase, e, t.At(i))
    decreases e, n + 1
  {
    if n > 0 {
      var k := LastTime(t, e, n, i, j);
      BeginsTimes(t, e, n - 1, i, k);
      Begins(t, e, k, j);
    }
  }

  lemma FirstStretchWithin(t: Text, es: seq<Elem>, i: nat, j: nat) returns (k: nat)
    requires es != [] && InLimitsSeq(t, es, i, j)
    ensures InLimits(t, es[0], i, k) && InLimitsSeq(t, es[1..], k, j) && InSeq(t, es[1..], k, j)
  {
    k :| InLimits(t, es[0], i, k) && InLimitsSeq(t, es[1..], k, j);
    LimitsInSeq(t, es[1..], k, j);
  }

  lemma LastRound(t: Text, x: Elem, n: nat, i: nat, j: nat) returns (k: nat)
    requires n > 0 && InLimitsTimes(t, x, n, i, j)
    ensures InLimitsTimes(t, x, n - 1, i, k) && InLimits(t, x, k, j)
  {
    k :| InLimitsTimes(t, x, n - 1, i, k) && InLimits(t, x, k, j);
  }

  /** The first of several rounds. */
  lemma {:induction false} FirstRound(t: Text, x: Elem, n: nat, i: nat, j: nat) returns (k: nat)
    requires n > 0 && InLimitsTimes(t, x, n, i, j)
    ensures InLimits(t, x, i, k) && InLimitsTimes(t, x, n - 1, k, j)
    decreases n
  {
    var m := LastRound(t, x, n, i, j);
    if n == 1 {
      k := j;
    } else {
      k := FirstRound(t, x, n - 1, i, m);
      OneMoreRound(t, x, n - 2, k, m, j);
    }
  }

  // ----- the matcher finds it -----

  /** The stretch cannot be continued at `j`. */
  predicate Over(t: Text, e: Elem, j: nat) {
    if j < |t.s| then !GoesOn(t.icase, e, t.At(j)) else EndsWell(t.icase, e)
  }

  predicate OverSeq(t: Text, es: seq<Elem>, j: nat) {
    if j < |t.s| then !GoesOnSeq(t.icase, es, t.At(j)) else EndsWellSeq(t.icase, es)
  }

  lemma {:induction false} FindsElem(t: Text, e: Elem, sibs: seq<Elem>, next: seq<Elem>, i: nat, j: nat)
    requires Linked(sibs, next) && Determined(t.icase, e, sibs, next)
    requires InLimits(t, e, i, j) && Over(t, e, j) && j <= |t.s|
    ensures MatchElem(t, e, sibs, next, i) == j
    decreases e, 1
  {
    match e
    case Group(_, body) => FindsBody(t, body, next, i, j);
    case Or(left, right) =>
      if InLimitsSeq(t, left, i, j) {
        FindsAlternative(t, left, i, j);
      } else {
        LimitsInSeq(t, right, i, j);
        LeftFails(t, left, right, i, j);
        FindsAlternative(t, right, i, j);
      }
    case Greedy(p0, p1, x) =>
      var n: nat :| InLimitsRounds(t, p0, p1, x, n, i, j);
      FindsRepeat(t, p0, p1, x, Following(sibs, next), i, 0, n, j);
    case _ =>
  }

  /** The left alternative matches only where the right one does not describe anything. */
  lemma LeftFails(t: Text, left: seq<Elem>, right: seq<Elem>, i: nat, j: nat)
    requires InSeq(t, right, i, j) && !NullableSeq(left) && !NullableSeq(right)
    requires forall c :: !(FirstSeq(t.icase, left, c) && FirstSeq(t.icase, right, c))
    ensures MatchAlternative(t, left, i) < 0
  {
    BeginsSeq(t, right, i, j);
    assert !(FirstSeq(t.icase, left, t.At(i)) && FirstSeq(t.icase, right, t.At(i)));
    if MatchAlternative(t, left, i) >= 0 {
      AlternativeSound(t, left, i);
      LimitsInSeq(t, left, i, MatchAlternative(t, left, i));
      BeginsSeq(t, left, i, MatchAlternative(t, left, i));
      assert false;
    }
  }

  /** Where one element of a chain ends, it is over. */
  lemma OverWithin(t: Text, es: seq<Elem>, k: nat, j: nat)
    requires es != [] && InSeq(t, es[1..], k, j) && OverSeq(t, es, j) && j <= |t.s|
    requires forall c :: !(GoesOn(t.icase, es[0], c) && FirstSeq(t.icase, es[1..], c))
    ensures k <= j && Over(t, es[0], k) && OverSeq(t, es[1..], j)
  {
    var c := t.At(k);
    assert !(GoesOn(t.icase, es[0], c) && FirstSeq(t.icase, es[1..], c));
    BeginsSeq(t, es[1..], k, j);
  }

  lemma {:induction false} FindsBody(t: Text, es: seq<Elem>, next: seq<Elem>, i: nat, j: nat)
    requires DeterminedBody(t.icase, es, next)
    requires InLimitsSeq(t, es, i, j) && OverSeq(t, es, j) && j <= |t.s|
    ensures MatchBody(t, es, next, i) == j
    decreases es, 0
  {
    if es != [] {
      var k := FirstStretchWithin(t, es, i, j);
      OverWithin(t, es, k, j);
      FindsElem(t, es[0], es[1..], Following(es[1..], next), i, k);
      FindsBody(t, es[1..], next, k, j);
    }
  }

  lemma {:induction false} FindsAlternative(t: Text, es: seq<Elem>, i: nat, j: nat)
    requires DeterminedAlternative(t.icase, es)
    requires InLimitsSeq(t, es, i, j) && OverSeq(t, es, j) && j <= |t.s|
    ensures MatchAlternative(t, es, i) == j
    decreases es, 0
  {
    if es != [] {
      var k := FirstStretchWithin(t, es, i, j);
      OverWithin(t, es, k, j);
      FindsElem(t, es[0], es[1..], [], i, k);
      FindsAlternative(t, es[1..], k, j);
    }
  }

  /** Nothing more is taken where the repetition is over. */
  lemma NoMore(t: Text, x: Elem, stop: seq<Elem>, j: nat)
    requires !Nullable(x) && !First(t.icase, x, t.At(j))
    ensures MatchElem(t, x, [], stop, j) < 0
  {
    if MatchElem(t, x, [], stop, j) >= 0 {
      ElemSound(t, x, [], stop, j);
      Begins(t, x, j, MatchElem(t, x, [], stop, j));
      assert false;
    }
  }

  /** A repetition that is entered at the end of the text, and has no round there. */
  lemma NoneAtEnd(t: Text, p0: U16, p1: U16, x: Elem, stop: seq<Elem>)
    requires !Nullable(x) && Over(t, Greedy(p0, p1, x), |t.s|) && !TakesEnd(t, p1, x, |t.s|) && p1 > 0
    ensures MatchElem(t, x, [], stop, |t.s|) < 0
  {
    if Unit(x) {
      UnitMatches(t, x, [], stop, |t.s|);
    } else {
      NoMore(t, x, stop, |t.s|);
    }
  }

  /** Where `x` goes on, the lookahead does not stop it. */
  lemma NoStop(t: Text, x: Elem, stop: seq<Elem>, k: nat)
    requires HarmlessStop(t.icase, x, stop) && First(t.icase, x, t.At(k)) && 0 < k < |t.s|
    ensures !WouldStop(t, stop, k)
  {
    if stop != [] && !stop[0].Bol? && !stop[0].Eol? && CanStop(stop[0]) {
      assert !(First(t.icase, x, t.At(k)) && First(t.icase, stop[0], t.At(k)));
    }
    if WouldStop(t, stop, k) {
      ElemSound(t, stop[0], stop[1..], stop[1..], k);
      Begins(t, stop[0], k, MatchElem(t, stop[0], stop[1..], stop[1..], k));
      assert false;
    }
  }

  /** The rounds of a repetition whose element is not empty each take something; where one ends
      and the next begins, the element is over. */
  lemma RoundEnds(t: Text, x: Elem, m: nat, at: nat, k: nat, j: nat)
    requires !Nullable(x) && (forall c :: !(First(t.icase, x, c) && GoesOn(t.icase, x, c)))
    requires m > 0 && InLimits(t, x, at, k) && InLimitsTimes(t, x, m - 1, k, j) && j <= |t.s|
    ensures at < k <= j && (m == 1 ==> k == j)
    ensures m > 1 ==> k < j && First(t.icase, x, t.At(k)) && Over(t, x, k)
  {
    LimitsIn(t, x, at, k);
    LimitsInTimes(t, x, m - 1, k, j);
    hide InLimits, First, GoesOn, Nullable;
    Begins(t, x, at, k);
    BeginsTimes(t, x, m - 1, k, j);
    assert !(First(t.icase, x, t.At(k)) && GoesOn(t.icase, x, t.At(k)));
  }

  /** After `n` rounds, `m` more are described, and `n + m` are allowed. */
  lemma {:induction false} FindsRepeat(t: Text, p0: U16, p1: U16, x: Elem, stop: seq<Elem>, at: nat, n: nat, m: nat,
                                       j: nat)
    requires !Nullable(x) && Determined(t.icase, x, [], stop) && HarmlessStop(t.icase, x, stop)
    requires forall c :: !(First(t.icase, x, c) && GoesOn(t.icase, x, c))
    requires InLimitsTimes(t, x, m, at, j) && CountOk(p0, p1, n + m) && n + m <= MOST_ROUNDS
    requires j <= |t.s| && Over(t, Greedy(p0, p1, x), j)
    requires if n == 0 then m == 0 ==> !TakesEnd(t, p1, x, at) else at < |t.s|
    ensures Repeat(t, p0, p1, x, stop, at, n) == j
    decreases x, 2, m
  {
    assert m == 0 ==> at == j;
    assert j < |t.s| ==> !First(t.icase, x, t.At(j)) && !GoesOn(t.icase, x, t.At(j));
    assert Over(t, x, j);
    hide InLimits, InLimitsTimes, First, GoesOn, Nullable, Determined, HarmlessStop, WouldStop, MatchElem, EndsWell;
    if m > 0 {
      var k := FirstRound(t, x, m, at, j);
      RoundEnds(t, x, m, at, k, j);
      FindsElem(t, x, [], stop, at, k);
      if m > 1 {
        NoStop(t, x, stop, k);
      }
      if k < |t.s| {
        FindsRepeat(t, p0, p1, x, stop, k, n + 1, m - 1, j);
      }
    } else if at < |t.s| {
      NoMore(t, x, stop, at);
    } else if p1 > 0 {
      NoneAtEnd(t, p0, p1, x, stop);
    }
  }

  /** A determined pattern accepts exactly the texts that are described within the limits of its
      loops. */
  lemma DeterminedAcceptsIff(t: Text, root: Elem)
    requires Determined(t.icase, root, [], []) && EndsWell(t.icase, root)
    ensures Accepts(t, root) <==> InLimits(t, root, 0, |t.s|)
  {
    if InLimits(t, root, 0, |t.s|) {
      FindsElem(t, root, [], [], 0, |t.s|);
    }
    if Accepts(t, root) {
      AcceptsSound(t, root);
    }
  }
}
