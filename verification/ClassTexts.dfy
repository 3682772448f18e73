/** Which texts some short patterns accept, character by character and for every text. */
module ClassTexts {
  import opened CType
  import opened Regex
  import opened CharacterClasses
  import opened PatternSyntax
  import opened PatternPrinting
  import opened Matching
  import opened Completeness
  import opened Determinism
  import opened Refusals
  import opened Wrappers

  // ----- a row of characters of one class -----

  lemma ClassRowPattern(cls: char)
    requires IsClassLetter(cls)
    ensures ParsePattern(['\\', cls, '+']) == Ok([Greedy(1, UNBOUNDED, CharClass(cls))], "")
  {
    var row := Greedy(1, UNBOUNDED, CharClass(cls));
    assert Printable(CharClass(cls)) && Print(CharClass(cls)) == ['\\', cls];
    assert ['\\', cls] + "+" == ['\\', cls, '+'];
    SinglePrinted(row);
    SimpleReadBack([row]);
  }

  /** For every class letter: `\w+` accepts exactly the texts that are not empty, not too long to
      count, and made of the characters of the class. */
  lemma ClassRowIff(cls: char, t: Text)
    requires cls in "aAwWsSdDxXcCpPlu"
    ensures ParsePattern(['\\', cls, '+']).Ok?
    ensures Accepts(t, Tree(['\\', cls, '+']))
      <==> 0 < |t.s| <= 0x1_0000 && forall k :: 0 <= k < |t.s| ==> Member(cls, t.s[k])
  {
    ClassRowPattern(cls);
    RepetitionAcceptsIff(t, 1, UNBOUNDED, CharClass(cls));
    RepetitionMatches(t, 1, UNBOUNDED, CharClass(cls));
    hide InNamed, Member;
    forall c ensures InNamed(cls, c) <==> Member(cls, c) {
      ClassMembers(cls, c);
    }
  }

  // ----- single characters -----

  lemma OneAccepts(t: Text, x: Elem)
    requires Single(x)
    ensures Accepts(t, Group(true, [x])) <==> |t.s| == 1 && Takes(t.icase, x, t.s[0])
  {
    assert [x][1..] == [];
    UnitMatches(t, x, [], [], 0);
    OneInBody(t, x);
  }

  lemma OneInBody(t: Text, x: Elem)
    ensures MatchBody(t, [x], [], 0) == MatchElem(t, x, [], [], 0)
  {
    hide MatchElem;
    assert [x][1..] == [];
  }

  /** What a backslash and a character stand for. */
  function Escaped(q: char): char {
    match q
    case 'n' => 10 as char
    case 't' => 9 as char
    case 'r' => 13 as char
    case 'f' => 12 as char
    case 'v' => 11 as char
    case _ => q
  }

  lemma OnePattern(pattern: string, x: Elem)
    requires pattern != "" && pattern[0] !in "^([$." && CharNode(pattern, false) == Ok(x, "")
    ensures ParsePattern(pattern) == Ok([x], "")
  {
    hide CharNode;
    assert ParseCounts("") == Ok(None, "");
    assert ParseBase(pattern, 1) == Ok(x, "");
    assert ParseRepeated(pattern, 1) == Ok(x, "");
    assert ParseChain(pattern, 1) == Ok([x], "");
    assert ParseAnchored(pattern, 1) == Ok([x], "");
    assert ParseList(pattern, 1) == Ok([x], "");
  }

  /** The text is the one character, or the same letter in the other case when case is ignored. */
  predicate OneCharacter(t: Text, c: char) {
    |t.s| == 1 && (t.s[0] == c || (t.icase && OtherCase(c, t.s[0])))
  }

  /** A character that does not start anything stands for itself, even `*`, `|` and `)`. */
  lemma PlainCharIff(p: char, t: Text)
    requires ' ' <= p <= '~' && p !in "^([$.\\"
    ensures ParsePattern([p]).Ok? && (Accepts(t, Tree([p])) <==> OneCharacter(t, p))
  {
    assert [p][1..] == "";
    OnePattern([p], Chr(p));
    OneAccepts(t, Chr(p));
    if |t.s| == 1 {
      SameCharIff(t.icase, p, t.s[0]);
    }
  }

  /** Behind a backslash, the letters of control characters stand for these, and every other character
      for itself, unless it names a class or a boundary. */
  lemma EscapedCharIff(q: char, t: Text)
    requires q !in "aAwWsSdDxXcCpPlubB"
    ensures ParsePattern(['\\', q]).Ok? && (Accepts(t, Tree(['\\', q])) <==> OneCharacter(t, Escaped(q)))
  {
    var pattern := ['\\', q];
    assert pattern[2..] == "";
    OnePattern(pattern, Chr(Escaped(q)));
    OneAccepts(t, Chr(Escaped(q)));
    if |t.s| == 1 {
      SameCharIff(t.icase, Escaped(q), t.s[0]);
    }
  }

  // ----- ranges and case -----

  /** `[A-z]` accepts the underscore when case matters, and refuses it when case is ignored. */
  lemma RangeLosesUnderscore(beyond: nat -> char, icase: bool)
    ensures ParsePattern("[A-z]").Ok?
    ensures Accepts(Text("_", beyond, icase), Tree("[A-z]")) <==> !icase
  {
    var t, x := Text("_", beyond, icase), Class(false, [Span('A', 'z')]);
    RangePattern();
    OneAccepts(t, x);
    hide InItem;
    assert InItems(icase, x.items, '_') <==> InItem(icase, Span('A', 'z'), '_') by {
      assert x.items[0] == Span('A', 'z');
    }
    if icase {
      LostUnderscore();
    } else {
      ExactRange('A', 'z', '_');
    }
  }

  lemma LostUnderscore()
    ensures !InItem(true, Span('A', 'z'), '_')
  {
  }

  lemma RangePattern()
    ensures ParsePattern("[A-z]") == Ok([Class(false, [Span('A', 'z')])], "")
  {
    var x := Class(false, [Span('A', 'z')]);
    assert PrintableItem(x.items[0]) && x.items[1..] == [];
    assert PrintItems([]) == "" && PrintItem(Span('A', 'z')) == "A-z";
    assert PrintItems(x.items) == "A-z";
    assert Print(x) == "[A-z]";
    SinglePrinted(x);
    PatternReadBack([x]);
    assert ItemsFit([], 4) && Peek(PrintInClass('z')) == 'z';
    assert ItemsFit(x.items, 2);
    assert FitsSeq([x], 1) by {
      assert [x][1..] == [] && Fits(x, 1);
    }
  }

  // ----- a boundary between two characters -----

  lemma BetweenPattern(x: char, letter: char, y: char)
    requires Plain(x) && Plain(y) && (letter == 'b' || letter == 'B')
    ensures ParsePattern([x, '\\', letter, y]) == Ok([Chr(x), WordBoundary(letter), Chr(y)], "")
  {
    var a, b, c := Chr(x), WordBoundary(letter), Chr(y);
    assert Printable(a) && Printable(b) && Printable(c);
    assert Print(a) == [x] && Print(b) == ['\\', letter] && Print(c) == [y];
    assert Simple(a) && Simple(b) && Simple(c);
    hide *;
    LastPrinted(c);
    ChainPrinted(b, [c]);
    ChainPrinted(a, [b] + [c]);
    assert [a] + ([b] + [c]) == [a, b, c];
    ChainIsBody([a, b, c]);
    SimpleReadBack([a, b, c]);
    assert [x] + (['\\', letter] + [y]) == [x, '\\', letter, y];
  }

  lemma BetweenEnds(t: Text, x: char, letter: char, y: char)
    requires !t.icase
    ensures MatchBody(t, [Chr(x), WordBoundary(letter), Chr(y)], [], 0)
      == if t.At(0) == x && (t.AtBoundary(1) == (letter == 'b')) && t.At(1) == y then 2 else -1
  {
    var a, b, c := Chr(x), WordBoundary(letter), Chr(y);
    assert [a, b, c][1..] == [b, c] && [b, c][1..] == [c] && [c][1..] == [];
    OneBody(t, c, 1);
    var k := MatchElem(t, b, [c], Following([c], []), 1);
    assert k == if t.AtBoundary(1) == (letter == 'b') then 1 else -1;
    assert MatchBody(t, [b, c], [], 1) == if k < 0 then -1 else MatchBody(t, [c], [], 1);
    var m := MatchElem(t, a, [b, c], Following([b, c], []), 0);
    assert m == if t.At(0) == x then 1 else -1;
    assert MatchBody(t, [a, b, c], [], 0) == if m < 0 then -1 else MatchBody(t, [b, c], [], 1);
  }

  lemma OneBody(t: Text, x: Elem, i: nat)
    requires x.Chr?
    ensures MatchBody(t, [x], [], i) == MatchElem(t, x, [], [], i)
  {
    assert [x][1..] == [];
  }

  /** `x\by` accepts `xy` if and only if `y` is white space, whatever `x` is -- and not if exactly one
      of the two is; `x\By` accepts it otherwise. */
  lemma BoundaryBetweenIff(x: char, letter: char, y: char, t: Text)
    requires Plain(x) && Plain(y) && (letter == 'b' || letter == 'B') && !t.icase
    ensures ParsePattern([x, '\\', letter, y]).Ok?
    ensures Accepts(t, Tree([x, '\\', letter, y])) <==> t.s == [x, y] && (White(y) <==> letter == 'b')
  {
    BetweenPattern(x, letter, y);
    BetweenEnds(t, x, letter, y);
    if |t.s| == 2 {
      BoundaryIff(t, 1);
    }
    hide MatchBody, White;
    assert Accepts(t, Tree([x, '\\', letter, y]))
      <==> MatchBody(t, [Chr(x), WordBoundary(letter), Chr(y)], [], 0) == |t.s|;
  }

  // ----- a repetition that looks ahead -----

  /** `x` takes every character but the last, `y` takes the last, and no other one behind the first. */
  predicate StarThenText(t: Text, x: Elem, y: Elem)
    requires Single(x) && Single(y)
  {
    var n := |t.s| - 1;
    && 0 <= n <= 0x1_0000 && Takes(t.icase, y, t.s[n])
    && (forall k :: 0 <= k < n ==> Takes(t.icase, x, t.s[k]))
    && (forall k :: 1 <= k < n ==> !Takes(t.icase, y, t.s[k]))
    && (n == 0 ==> !Takes(t.icase, x, t.s[0]))
  }

  lemma SingleEnds(t: Text, x: Elem, sibs: seq<Elem>, next: seq<Elem>, i: nat)
    requires Single(x) && Linked(sibs, next)
    ensures MatchElem(t, x, sibs, next, i) == if Takes(t.icase, x, t.At(i)) then i + 1 else -1
  {
    UnitMatches(t, x, sibs, next, i);
  }

  /** Where the loop of `x*y` ends, from round `n` on: before a character that `y` takes, or that `x`
      does not take, or at the end. */
  lemma {:induction false} StarLeaves(t: Text, x: Elem, y: Elem, at: nat, n: nat)
    requires Single(x) && Single(y) && n == at < 0x1_0000 && at < |t.s|
    ensures var j := Repeat(t, 0, UNBOUNDED, x, [y], at, n);
      && at <= j <= |t.s| && j - at <= 0x1_0000 - n
      && (forall k :: at <= k < j ==> Takes(t.icase, x, t.s[k]))
      && (forall k :: at < k < j ==> !Takes(t.icase, y, t.s[k]))
      && (j < |t.s| ==> !Takes(t.icase, x, t.s[j]) || (j > at && Takes(t.icase, y, t.s[j])) || j == 0x1_0000)
    decreases |t.s| - at
  {
    SingleEnds(t, x, [], [y], at);
    RepeatStep(t, 0, UNBOUNDED, x, [y], at, n);
    hide Repeat, MatchElem, Takes;
    if Takes(t.icase, x, t.s[at]) {
      var k := at + 1;
      StopsAt(t, y, k);
      if k < |t.s| && !Takes(t.icase, y, t.s[k]) {
        if n + 1 < 0x1_0000 {
          StarLeaves(t, x, y, k, n + 1);
        } else {
          RepeatStep(t, 0, UNBOUNDED, x, [y], k, n + 1);
        }
      }
    }
  }

  lemma StopsAt(t: Text, y: Elem, k: nat)
    requires Single(y)
    ensures WouldStop(t, [y], k) <==> Takes(t.icase, y, t.At(k))
  {
    assert [y][1..] == [];
    SingleEnds(t, y, [], [], k);
    hide MatchElem, Takes;
  }

  lemma StarThenEnds(t: Text, x: Elem, y: Elem)
    requires Single(x) && Single(y)
    ensures var j := Repeat(t, 0, UNBOUNDED, x, [y], 0, 0);
      MatchBody(t, [Greedy(0, UNBOUNDED, x), y], [], 0)
        == if j < 0 then -1 else if Takes(t.icase, y, t.At(j)) then j + 1 else -1
  {
    var star := Greedy(0, UNBOUNDED, x);
    var j := Repeat(t, 0, UNBOUNDED, x, [y], 0, 0);
    assert [star, y][1..] == [y] && [y][1..] == [];
    if j >= 0 {
      SingleEnds(t, y, [], [], j);
    }
    hide Repeat, Takes;
    assert MatchElem(t, star, [y], Following([y], []), 0) == j;
    hide MatchElem;
    assert j >= 0 ==> MatchBody(t, [y], [], j) == MatchElem(t, y, [], [], j);
  }

  /** `x*y`, where both stand for one character: the repetition takes characters until `y` would take
      the next, and gives none back.  So a text is accepted if and only if `x` takes all but the last
      character, `y` takes the last, and no other behind the first. */
  lemma StarThenIff(t: Text, x: Elem, y: Elem)
    requires Single(x) && Single(y)
    ensures Accepts(t, Group(true, [Greedy(0, UNBOUNDED, x), y])) <==> StarThenText(t, x, y)
  {
    StarThenEnds(t, x, y);
    var j := Repeat(t, 0, UNBOUNDED, x, [y], 0, 0);
    hide Takes, MatchBody, Repeat;
    assert Accepts(t, Group(true, [Greedy(0, UNBOUNDED, x), y]))
      <==> MatchBody(t, [Greedy(0, UNBOUNDED, x), y], [], 0) == |t.s|;
    if t.s != "" {
      StarLeaves(t, x, y, 0, 0);
    }
  }

  lemma StarThenPattern(p: char, q: char)
    requires Plain(p) && Plain(q)
    ensures ParsePattern([p, '*', q]) == Ok([Greedy(0, UNBOUNDED, Chr(p)), Chr(q)], "")
  {
    var star, x := Greedy(0, UNBOUNDED, Chr(p)), Chr(q);
    assert Printable(Chr(p)) && Print(Chr(p)) == [p];
    assert Printable(star) && Printable(x);
    assert [p] + "*" == [p, '*'];
    assert Print(star) == [p, '*'] && Print(x) == [q];
    assert Simple(star) && Simple(x);
    hide *;
    LastPrinted(x);
    ChainPrinted(star, [x]);
    assert [star] + [x] == [star, x];
    ChainIsBody([star, x]);
    SimpleReadBack([star, x]);
    assert [p, '*'] + [q] == [p, '*', q];
  }

  /** `a*b` accepts a row of a's, not too long to count, and a `b`; `a*a` accepts `aa`, and no other
      row of a's. */
  lemma StarThenCharIff(p: char, q: char, t: Text)
    requires Plain(p) && Plain(q) && !t.icase
    ensures ParsePattern([p, '*', q]).Ok?
    ensures Accepts(t, Tree([p, '*', q]))
      <==> if p == q then t.s == [p, p]
           else && 0 < |t.s| <= 0x1_0001 && t.s[|t.s| - 1] == q
                && forall k :: 0 <= k < |t.s| - 1 ==> t.s[k] == p
  {
    StarThenPattern(p, q);
    StarThenIff(t, Chr(p), Chr(q));
    hide Accepts, ParsePattern;
    if p == q && StarThenText(t, Chr(p), Chr(q)) {
      var second := (t.s + [p])[1];
      assert second == if |t.s| > 1 then t.s[1] else p;
    }
  }

  // ----- a repetition in parentheses -----

  /** The lookahead reaches out of the parentheses: `(x*)y` accepts what `x*y` does. */
  lemma GroupStarThenIff(t: Text, capturing: bool, x: Elem, y: Elem)
    requires Single(x) && Single(y)
    ensures Accepts(t, Group(true, [Group(capturing, [Greedy(0, UNBOUNDED, x)]), y])) <==> StarThenText(t, x, y)
  {
    var star := Greedy(0, UNBOUNDED, x);
    var group := Group(capturing, [star]);
    StarThenEnds(t, x, y);
    StarThenIff(t, x, y);
    hide StarThenText;
    assert Accepts(t, Group(true, [star, y])) <==> MatchBody(t, [star, y], [], 0) == |t.s|;
    assert Accepts(t, Group(true, [group, y])) <==> MatchBody(t, [group, y], [], 0) == |t.s|;
    GroupEnds(t, capturing, x, y);
  }

  lemma GroupEnds(t: Text, capturing: bool, x: Elem, y: Elem)
    requires Single(x) && Single(y)
    ensures var star := Greedy(0, UNBOUNDED, x);
      MatchBody(t, [Group(capturing, [star]), y], [], 0) == MatchBody(t, [star, y], [], 0)
  {
    var star := Greedy(0, UNBOUNDED, x);
    var group := Group(capturing, [star]);
    var j := Repeat(t, 0, UNBOUNDED, x, [y], 0, 0);
    assert [star][1..] == [] && [group, y][1..] == [y] && [star, y][1..] == [y];
    hide Repeat;
    assert MatchElem(t, star, [], Following([], [y]), 0) == j;
    assert MatchElem(t, star, [y], Following([y], []), 0) == j;
    assert MatchBody(t, [star], [y], 0) == j by {
      assert j >= 0 ==> MatchBody(t, [], [y], j) == j;
    }
    assert MatchElem(t, group, [y], Following([y], []), 0) == MatchBody(t, [star], [y], 0);
  }

  // ----- alternatives -----

  /** Where an alternative of plain characters ends. */
  function RowEnd(t: Text, cs: string, i: nat): int {
    if cs == "" then i else if SameChar(t.icase, cs[0], t.At(i)) then RowEnd(t, cs[1..], i + 1) else -1
  }

  function Chars(cs: string): (es: seq<Elem>)
    ensures |es| == |cs|
  {
    if cs == "" then [] else [Chr(cs[0])] + Chars(cs[1..])
  }

  lemma {:induction false} CharsEnd(t: Text, cs: string, i: nat)
    ensures MatchAlternative(t, Chars(cs), i) == RowEnd(t, cs, i)
    decreases |cs|
  {
    if cs != "" {
      var es := Chars(cs);
      assert es[1..] == Chars(cs[1..]) && es[0] == Chr(cs[0]);
      CharsEnd(t, cs[1..], i + 1);
    }
  }

  lemma {:induction false} RowEndIs(t: Text, cs: string, i: nat)
    requires i <= |t.s| && '\0' !in cs && !t.icase
    ensures RowEnd(t, cs, i) == if cs <= t.s[i..] then i + |cs| else -1
    decreases |cs|
  {
    if cs != "" {
      if i < |t.s| {
        RowEndIs(t, cs[1..], i + 1);
        assert t.s[i..][1..] == t.s[i + 1..];
        assert cs <= t.s[i..] <==> cs[0] == t.s[i] && cs[1..] <= t.s[i..][1..];
      }
    }
  }

  /** Of two alternatives the first that matches is taken, and never the second instead: with the
      words `u` and `v`, the pattern `u|v` accepts `u`, and it accepts `v` if and only if `u` is not the
      beginning of it, or all of it. */
  lemma AlternativesInOrder(t: Text, u: string, v: string)
    requires '\0' !in u && '\0' !in v && !t.icase
    ensures Accepts(t, Group(true, [Or(Chars(u), Chars(v))])) <==> t.s == u || (t.s == v && !(u <= v))
  {
    var or := Or(Chars(u), Chars(v));
    CharsEnd(t, u, 0);
    CharsEnd(t, v, 0);
    RowEndIs(t, u, 0);
    RowEndIs(t, v, 0);
    assert t.s[0..] == t.s && [or][1..] == [];
    hide RowEnd, MatchAlternative;
    var j := MatchElem(t, or, [], [], 0);
    assert MatchBody(t, [or], [], 0) == j;
    hide MatchElem, MatchBody;
    WordPrefix(u, t.s);
    WordPrefix(v, t.s);
  }

  lemma WordPrefix(w: string, s: string)
    ensures w <= s && |w| == |s| <==> w == s
  {
  }
}
