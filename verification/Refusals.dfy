/** Pattern texts that describe a text which they refuse, and some that never do. */
module Refusals {
  import opened CType
  import opened Regex
  import opened PatternSyntax
  import opened PatternPrinting
  import opened Matching
  import opened Completeness
  import opened Determinism

  function Tree(pattern: string): Elem
    requires ParsePattern(pattern).Ok?
  {
    Group(true, ParsePattern(pattern).value)
  }

  /** The pattern describes the text, and the matcher says no. */
  ghost predicate Refuses(pattern: string, t: Text) {
    ParsePattern(pattern).Ok? && Matches(t, Tree(pattern)) && !Accepts(t, Tree(pattern))
  }

  lemma SinglePrinted(e: Elem)
    requires Printable(e)
    ensures PrintableBody([e]) && PrintBody([e]) == Print(e)
  {
    assert [e][1..] == [];
    assert PrintableChain([e]) && PrintChain([e]) == Print(e);
    assert PrintableAnchored([e]) && PrintAnchored([e]) == Print(e);
  }

  lemma RepetitionPattern(c: char)
    requires Plain(c)
    ensures ParsePattern([c, '*']) == Ok([Greedy(0, UNBOUNDED, Chr(c))], "")
  {
    var star := Greedy(0, UNBOUNDED, Chr(c));
    assert Printable(Chr(c)) && Print(Chr(c)) == [c];
    assert [c] + "*" == [c, '*'];
    SinglePrinted(star);
    SimpleReadBack([star]);
  }

  lemma DotStarPattern()
    ensures ParsePattern(".*") == Ok([Greedy(0, UNBOUNDED, Dot)], "")
  {
    var star := Greedy(0, UNBOUNDED, Dot);
    assert Printable(Dot) && Print(Dot) == ".";
    SinglePrinted(star);
    SimpleReadBack([star]);
  }

  /** `.*` refuses a text if and only if it is empty or too long to count. */
  lemma DotStarRefuses(t: Text)
    ensures Refuses(".*", t) <==> t.s == "" || |t.s| > 0x1_0000
  {
    DotStarPattern();
    RepetitionAcceptsIff(t, 0, UNBOUNDED, Dot);
    RepetitionMatches(t, 0, UNBOUNDED, Dot);
  }

  /** `a*` refuses exactly the long rows of a's. */
  lemma CharStarRefuses(t: Text, c: char)
    requires Plain(c)
    ensures Refuses([c, '*'], t) <==> |t.s| > 0x1_0000 && forall k :: 0 <= k < |t.s| ==> SameChar(t.icase, c, t.s[k])
  {
    RepetitionPattern(c);
    RepetitionAcceptsIff(t, 0, UNBOUNDED, Chr(c));
    RepetitionMatches(t, 0, UNBOUNDED, Chr(c));
  }

  // ----- where the next character does not decide -----

  lemma ChainIsBody(es: seq<Elem>)
    requires PrintableChain(es)
    ensures PrintableBody(es) && PrintBody(es) == PrintChain(es)
  {
    assert Printable(es[0]);
    assert PrintableAnchored(es) && PrintAnchored(es) == PrintChain(es);
  }

  lemma APrinted()
    ensures Printable(Chr('a')) && Print(Chr('a')) == "a"
    ensures Printable(Greedy(0, UNBOUNDED, Chr('a'))) && Print(Greedy(0, UNBOUNDED, Chr('a'))) == "a*"
  {
    assert Plain('a');
    assert "a" + "*" == "a*";
  }

  lemma StarSamePattern()
    ensures ParsePattern("a*a") == Ok([Greedy(0, UNBOUNDED, Chr('a')), Chr('a')], "")
  {
    var a, star := Chr('a'), Greedy(0, UNBOUNDED, Chr('a'));
    hide *;
    APrinted();
    LastPrinted(a);
    ChainPrinted(star, [a]);
    assert [star] + [a] == [star, a];
    ChainIsBody([star, a]);
    SimpleReadBack([star, a]);
    assert "a*" + "a" == "a*a";
  }

  lemma StarSameDescribes(t: Text)
    requires t.s == "a" && !t.icase
    ensures Matches(t, Group(true, [Greedy(0, UNBOUNDED, Chr('a')), Chr('a')]))
  {
    var a, star := Chr('a'), Greedy(0, UNBOUNDED, Chr('a'));
    assert InTimes(t, a, 0, 0, 0) && In(t, star, 0, 0) && In(t, a, 0, 1);
    assert InSeq(t, [a][1..], 1, 1);
    assert InSeq(t, [a], 0, 1);
    assert [star, a][1..] == [a];
  }

  lemma StarTakesAll(t: Text)
    requires t.s == "a" && !t.icase
    ensures !Accepts(t, Group(true, [Greedy(0, UNBOUNDED, Chr('a')), Chr('a')]))
  {
    var a, star := Chr('a'), Greedy(0, UNBOUNDED, Chr('a'));
    assert MatchElem(t, a, [], [a], 0) == 1 && MatchElem(t, a, [], [], 1) == -1;
    assert [a][1..] == [];
    assert !WouldStop(t, [a], 1);
    assert Repeat(t, 0, UNBOUNDED, a, [a], 0, 0) == 1;
    assert MatchElem(t, star, [a], [a], 0) == 1;
    assert [star, a][1..] == [a] && Following([a], []) == [a];
    assert MatchElem(t, a, [], Following([], []), 1) == -1;
    assert MatchBody(t, [a], [], 1) == -1;
    assert MatchBody(t, [star, a], [], 0) == -1;
  }

  /** `a*a` refuses `a`: the repetition takes it, and nothing is given back. */
  lemma StarThenSame(beyond: nat -> char)
    ensures Refuses("a*a", Text("a", beyond, false))
  {
    hide *;
    StarSamePattern();
    StarSameDescribes(Text("a", beyond, false));
    StarTakesAll(Text("a", beyond, false));
    RefusesBy("a*a", [Greedy(0, UNBOUNDED, Chr('a')), Chr('a')], Text("a", beyond, false));
  }

  lemma RefusesBy(pattern: string, body: seq<Elem>, t: Text)
    requires ParsePattern(pattern) == Ok(body, "") && Matches(t, Group(true, body)) && !Accepts(t, Group(true, body))
    ensures Refuses(pattern, t)
  {
  }

  // ----- where it does -----

  /** Digits up to an at sign at `m`, and small letters after it. */
  predicate NumberAtWordText(s: string, m: nat) {
    && 0 < m < |s| - 1 && s[m] == '@'
    && (forall k :: 0 <= k < m ==> IsDigit(s[k])) && (forall k :: m < k < |s| ==> IsLower(s[k]))
  }

  lemma ThreeParts(t: Text, x: Elem, y: Elem, z: Elem, i: nat, j: nat) returns (k: nat, m: nat)
    requires InSeq(t, [x, y, z], i, j)
    ensures In(t, x, i, k) && In(t, y, k, m) && In(t, z, m, j) && m <= j
  {
    assert [x, y, z][1..] == [y, z] && [y, z][1..] == [z];
    hide In, InSeq;
    k := FirstStretch(t, [x, y, z], i, j);
    m := FirstStretch(t, [y, z], k, j);
    AloneIn(t, z, m, j);
    InMonotone(t, z, m, j);
  }

  lemma ThreePartsWithin(t: Text, x: Elem, y: Elem, z: Elem, i: nat, j: nat) returns (k: nat, m: nat)
    requires InLimitsSeq(t, [x, y, z], i, j)
    ensures InLimits(t, x, i, k) && InLimits(t, y, k, m) && InLimits(t, z, m, j) && m <= j
  {
    assert [x, y, z][1..] == [y, z] && [y, z][1..] == [z];
    hide InLimits, InLimitsSeq, InSeq;
    k := FirstStretchWithin(t, [x, y, z], i, j);
    m := FirstStretchWithin(t, [y, z], k, j);
    AloneIn(t, z, m, j);
    LimitsIn(t, z, m, j);
    InMonotone(t, z, m, j);
  }

  const DIGITS := Greedy(1, UNBOUNDED, CharClass('d'))
  const LETTERS := Greedy(1, UNBOUNDED, CharClass('l'))

  lemma DigitsIn(t: Text, i: nat, j: nat)
    requires j <= |t.s|
    ensures In(t, DIGITS, i, j) <==> i < j && forall k :: i <= k < j ==> IsDigit(t.s[k])
    ensures InLimits(t, DIGITS, i, j) <==> In(t, DIGITS, i, j) && j - i <= 0x1_0000
  {
    hide In, InLimits;
    RepetitionIn(t, 1, UNBOUNDED, CharClass('d'), i, j);
  }

  lemma LettersIn(t: Text, i: nat, j: nat)
    requires j <= |t.s|
    ensures In(t, LETTERS, i, j) <==> i < j && forall k :: i <= k < j ==> IsLower(t.s[k])
    ensures InLimits(t, LETTERS, i, j) <==> In(t, LETTERS, i, j) && j - i <= 0x1_0000
  {
    hide In, InLimits;
    RepetitionIn(t, 1, UNBOUNDED, CharClass('l'), i, j);
  }

  lemma AtSignIn(t: Text, i: nat, j: nat)
    ensures InLimits(t, Chr('@'), i, j) <==> In(t, Chr('@'), i, j)
    ensures In(t, Chr('@'), i, j) <==> j == i + 1 && t.At(i) == '@'
  {
  }

  /** Where the at sign is in a text that `\d+@\l+` describes. */
  lemma AtSignAt(t: Text) returns (m: nat)
    requires InSeq(t, [DIGITS, Chr('@'), LETTERS], 0, |t.s|)
    ensures NumberAtWordText(t.s, m)
  {
    hide In, InSeq;
    var k;
    m, k := ThreeParts(t, DIGITS, Chr('@'), LETTERS, 0, |t.s|);
    AtSignIn(t, m, k);
    DigitsIn(t, 0, m);
    LettersIn(t, k, |t.s|);
  }

  lemma AtSignWithin(t: Text) returns (m: nat)
    requires InLimitsSeq(t, [DIGITS, Chr('@'), LETTERS], 0, |t.s|)
    ensures NumberAtWordText(t.s, m) && m <= 0x1_0000 && |t.s| - m - 1 <= 0x1_0000
  {
    hide In, InLimits, InLimitsSeq;
    var k;
    m, k := ThreePartsWithin(t, DIGITS, Chr('@'), LETTERS, 0, |t.s|);
    AtSignIn(t, m, k);
    DigitsIn(t, 0, m);
    LettersIn(t, k, |t.s|);
  }

  lemma PartsIn(t: Text, x: Elem, y: Elem, z: Elem, i: nat, k: nat, m: nat, j: nat)
    ensures In(t, x, i, k) && In(t, y, k, m) && In(t, z, m, j) ==> InSeq(t, [x, y, z], i, j)
    ensures InLimits(t, x, i, k) && InLimits(t, y, k, m) && InLimits(t, z, m, j) ==> InLimitsSeq(t, [x, y, z], i, j)
  {
    assert [x, y, z][1..] == [y, z] && [y, z][1..] == [z];
    hide In, InLimits;
    AloneIn(t, z, m, j);
    assert In(t, y, k, m) && In(t, z, m, j) ==> InSeq(t, [y, z], k, j);
    assert InLimits(t, y, k, m) && InLimits(t, z, m, j) ==> InLimitsSeq(t, [y, z], k, j);
  }

  lemma NumberAtWordIn(t: Text, m: nat)
    requires NumberAtWordText(t.s, m)
    ensures InSeq(t, [DIGITS, Chr('@'), LETTERS], 0, |t.s|)
    ensures m <= 0x1_0000 && |t.s| - m - 1 <= 0x1_0000 ==> InLimitsSeq(t, [DIGITS, Chr('@'), LETTERS], 0, |t.s|)
  {
    hide In, InSeq, InLimits, InLimitsSeq;
    DigitsIn(t, 0, m);
    AtSignIn(t, m, m + 1);
    LettersIn(t, m + 1, |t.s|);
    PartsIn(t, DIGITS, Chr('@'), LETTERS, 0, m, m + 1, |t.s|);
  }

  /** `\d+@\l+` accepts what it describes, unless there are more digits or letters than its loops
      can count. */
  lemma NumberAtWord(t: Text)
    ensures ParsePattern("\\d+@\\l+").Ok?
    ensures Matches(t, Tree("\\d+@\\l+")) <==> exists m: nat :: NumberAtWordText(t.s, m)
    ensures Accepts(t, Tree("\\d+@\\l+"))
      <==> exists m: nat :: NumberAtWordText(t.s, m) && m <= 0x1_0000 && |t.s| - m - 1 <= 0x1_0000
  {
    var root := Group(true, [DIGITS, Chr('@'), LETTERS]);
    NumberAtWordPattern();
    NumberAtWordDetermined(t.icase);
    NeverGoingOnEndsWell(t.icase, root);
    DeterminedAcceptsIff(t, root);
    if InSeq(t, [DIGITS, Chr('@'), LETTERS], 0, |t.s|) {
      var m := AtSignAt(t);
    }
    if InLimitsSeq(t, [DIGITS, Chr('@'), LETTERS], 0, |t.s|) {
      var m := AtSignWithin(t);
    }
    forall m: nat | NumberAtWordText(t.s, m)
      ensures InSeq(t, [DIGITS, Chr('@'), LETTERS], 0, |t.s|)
      ensures m <= 0x1_0000 && |t.s| - m - 1 <= 0x1_0000 ==> InLimitsSeq(t, [DIGITS, Chr('@'), LETTERS], 0, |t.s|)
    {
      NumberAtWordIn(t, m);
    }
  }

  lemma OnceOrMorePrinted(x: Elem)
    requires Printable(x) && !x.Greedy?
    ensures Printable(Greedy(1, UNBOUNDED, x)) && Print(Greedy(1, UNBOUNDED, x)) == Print(x) + "+"
  {
  }

  lemma LettersPrinted()
    ensures Printable(CharClass('d')) && Print(CharClass('d')) == ['\\', 'd']
    ensures Printable(CharClass('l')) && Print(CharClass('l')) == ['\\', 'l']
    ensures Printable(Chr('@')) && Print(Chr('@')) == "@"
  {
  }

  lemma SimpleRows()
    ensures Simple(Greedy(1, UNBOUNDED, CharClass('d'))) && Simple(Greedy(1, UNBOUNDED, CharClass('l')))
    ensures Simple(Chr('@'))
  {
  }

  lemma NumberAtWordPattern()
    ensures ParsePattern("\\d+@\\l+")
      == Ok([Greedy(1, UNBOUNDED, CharClass('d')), Chr('@'), Greedy(1, UNBOUNDED, CharClass('l'))], "")
  {
    SimpleRows();
    hide *;
    var digits, at, word := Greedy(1, UNBOUNDED, CharClass('d')), Chr('@'), Greedy(1, UNBOUNDED, CharClass('l'));
    LettersPrinted();
    OnceOrMorePrinted(CharClass('d'));
    OnceOrMorePrinted(CharClass('l'));
    LastPrinted(word);
    ChainPrinted(at, [word]);
    ChainPrinted(digits, [at] + [word]);
    assert [digits] + ([at] + [word]) == [digits, at, word];
    ChainIsBody([digits, at, word]);
    SimpleReadBack([digits, at, word]);
    assert (['\\', 'd'] + "+") + ("@" + (['\\', 'l'] + "+")) == "\\d+@\\l+";
  }

  /** A row of one class of letters, in front of nothing or of an at sign. */
  lemma RowOf(icase: bool, cls: char, es: seq<Elem>)
    requires es == [] || (es[0] == Chr('@') && (cls == 'd' || cls == 'l'))
    ensures var row := Greedy(1, UNBOUNDED, CharClass(cls));
      && Determined(icase, row, es, es) && !Nullable(row)
      && forall c :: GoesOn(icase, row, c) ==> InNamed(cls, c)
  {
    var x := CharClass(cls);
    assert Determined(icase, x, [], es) && !Nullable(x) && forall c :: !GoesOn(icase, x, c);
    if es != [] {
      AtSign(icase);
      NoAtSign(cls);
    }
    hide InNamed, SameChar;
  }

  lemma NoAtSign(cls: char)
    requires cls == 'd' || cls == 'l'
    ensures !InNamed(cls, '@') && !InNamed(cls, '\0')
  {
  }

  lemma ConsParts(icase: bool, x: Elem, es: seq<Elem>)
    ensures NullableSeq([x] + es) <==> Nullable(x) && NullableSeq(es)
    ensures forall c :: FirstSeq(icase, [x] + es, c) <==> First(icase, x, c) || (Nullable(x) && FirstSeq(icase, es, c))
    ensures forall c ::
      GoesOnSeq(icase, [x] + es, c) <==> (NullableSeq(es) && GoesOn(icase, x, c)) || GoesOnSeq(icase, es, c)
  {
    assert ([x] + es)[1..] == es;
    hide Nullable, First, GoesOn;
  }

  lemma ConsDetermined(icase: bool, x: Elem, es: seq<Elem>)
    requires Determined(icase, x, es, es) && DeterminedBody(icase, es, [])
    requires forall c :: !(GoesOn(icase, x, c) && FirstSeq(icase, es, c))
    ensures DeterminedBody(icase, [x] + es, [])
  {
    assert ([x] + es)[1..] == es;
    hide Determined, GoesOn, FirstSeq;
  }

  lemma NoneParts(icase: bool)
    ensures NullableSeq([]) && DeterminedBody(icase, [], [])
    ensures forall c :: !FirstSeq(icase, [], c) && !GoesOnSeq(icase, [], c)
  {
  }

  lemma NumberAtWordDetermined(icase: bool)
    ensures var digits, word := Greedy(1, UNBOUNDED, CharClass('d')), Greedy(1, UNBOUNDED, CharClass('l'));
      var root := Group(true, [digits, Chr('@'), word]);
      Determined(icase, root, [], []) && !GoesOn(icase, root, '\0')
  {
    hide *;
    var digits, at, word := Greedy(1, UNBOUNDED, CharClass('d')), Chr('@'), Greedy(1, UNBOUNDED, CharClass('l'));
    NoneParts(icase);
    RowOf(icase, 'l', []);
    ConsDetermined(icase, word, []);
    ConsParts(icase, word, []);
    var es1 := [word] + [];
    AtSign(icase);
    AtSignDetermined(icase, es1);
    ConsDetermined(icase, at, es1);
    ConsParts(icase, at, es1);
    var es2 := [at] + es1;
    RowOf(icase, 'd', es2);
    NoAtSign('d');
    NoAtSign('l');
    ConsDetermined(icase, digits, es2);
    ConsParts(icase, digits, es2);
    RootOf(icase, [digits] + es2);
    assert [digits] + es2 == [digits, at, word];
  }

  lemma AtSign(icase: bool)
    ensures !Nullable(Chr('@')) && forall c :: !GoesOn(icase, Chr('@'), c)
    ensures forall c :: First(icase, Chr('@'), c) ==> c == '@'
  {
  }

  lemma AtSignDetermined(icase: bool, es: seq<Elem>)
    ensures Determined(icase, Chr('@'), es, es)
  {
  }

  lemma RootOf(icase: bool, body: seq<Elem>)
    requires DeterminedBody(icase, body, [])
    ensures Determined(icase, Group(true, body), [], [])
    ensures GoesOn(icase, Group(true, body), '\0') <==> GoesOnSeq(icase, body, '\0')
  {
  }
}
