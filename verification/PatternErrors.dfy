/** Patterns that are refused, and repetition counts that are not what they say. */
module PatternErrors {
  import opened CType
  import opened Regex
  import opened Nodes
  import opened PatternSyntax
  import opened PatternPrinting
  import opened Matching
  import opened Completeness
  import opened Refusals
  import opened Wrappers

  // ----- numbers -----

  lemma {:induction false} PositionsFull(n: nat)
    requires 100_000_000 <= n < 1_000_000_000
    ensures Positions(n) == 1_000_000_000
  {
    PositionsPower(n, 8);
  }

  function TenTo(k: nat): nat {
    if k == 0 then 1 else 10 * TenTo(k - 1)
  }

  /** A number of `k + 1` digits. */
  lemma {:induction false} PositionsPower(n: nat, k: nat)
    requires TenTo(k) <= n < 10 * TenTo(k)
    ensures Positions(n) == 10 * TenTo(k)
    decreases k
  {
    if k > 0 {
      TenToPositive(k - 1);
      PositionsPower(n / 10, k - 1);
    }
  }

  lemma {:induction false} TenToPositive(k: nat)
    ensures TenTo(k) >= 1
  {
    if k > 0 {
      TenToPositive(k - 1);
    }
  }

  /** Ten digits are too many, whatever follows them. */
  lemma {:induction false} TooManyDigits(n: nat, rest: string)
    requires n >= 1_000_000_000
    ensures Digits(n) != [] && IsDigit(Digits(n)[0])
    ensures ParseNumber(Digits(n) + rest) == Fail(NumberOverflow)
    decreases n
  {
    var last := MoreDigits(n);
    hide ParseNumber, Digits, Positions;
    assert Digits(n) + rest == Digits(n / 10) + ([last] + rest);
    if n / 10 < 1_000_000_000 {
      NumberRead(n / 10, [last] + rest);
      PositionsFull(n / 10);
    } else {
      TooManyDigits(n / 10, [last] + rest);
    }
  }

  // ----- counts -----

  /** `{n}` is read as n modulo 65536, if it has fewer than ten digits. */
  lemma ExactCount(n: nat, rest: string)
    ensures ParseCounts("{" + Digits(n) + "}" + rest)
      == if n < 1_000_000_000 then Ok(Some((n % 0x1_0000, n % 0x1_0000)), rest) else Fail(NumberOverflow)
  {
    hide Digits, ParseNumber;
    var s := "{" + Digits(n) + "}" + rest;
    assert s[1..] == Digits(n) + ("}" + rest);
    if n < 1_000_000_000 {
      NumberReadBack(n, "}" + rest);
      assert ("}" + rest)[1..] == rest;
    } else {
      TooManyDigits(n, "}" + rest);
    }
    assert s[1..][0] == Digits(n)[0];
  }

  lemma CountPattern(p: char, n: nat)
    requires Plain(p)
    ensures ParsePattern([p] + ("{" + Digits(n) + "}"))
      == if n < 1_000_000_000 then Ok([Greedy(n % 0x1_0000, n % 0x1_0000, Chr(p))], "") else Fail(NumberOverflow)
  {
    var counts := "{" + Digits(n) + "}";
    var s := [p] + counts;
    ExactCount(n, "");
    assert counts + "" == counts && s[1..] == counts;
    hide Digits, ParseCounts;
    assert ParseBase(s, 1) == Ok(Chr(p), counts) by {
      assert CharNode(s, false) == Ok(Chr(p), counts);
    }
    hide ParseBase;
    if n < 1_000_000_000 {
      var x := Greedy(n % 0x1_0000, n % 0x1_0000, Chr(p));
      assert ParseRepeated(s, 1) == Ok(x, "");
      assert ParseChain(s, 1) == Ok([x], "");
      assert ParseAnchored(s, 1) == Ok([x], "");
      assert ParseList(s, 1) == Ok([x], "");
    } else {
      assert ParseRepeated(s, 1) == Fail(NumberOverflow);
      assert ParseChain(s, 1) == Fail(NumberOverflow);
      assert ParseAnchored(s, 1) == Fail(NumberOverflow);
      assert ParseList(s, 1) == Fail(NumberOverflow);
    }
  }

  /** `a{n}` accepts a row of as many a's as n modulo 65536 says -- but if that is 65535, which stands
      for no bound, one more will do, too. */
  lemma CountWraps(p: char, n: nat, t: Text)
    requires Plain(p) && n < 1_000_000_000
    ensures var pattern, m := [p] + ("{" + Digits(n) + "}"), n % 0x1_0000;
      && ParsePattern(pattern).Ok?
      && (Accepts(t, Tree(pattern))
          <==> && (|t.s| == m || (m == 0xFFFF && |t.s| == 0x1_0000))
               && forall k :: 0 <= k < |t.s| ==> SameChar(t.icase, p, t.s[k]))
  {
    hide Digits, SameChar;
    CountPattern(p, n);
    var m: U16 := n % 0x1_0000;
    RepetitionAcceptsIff(t, m, m, Chr(p));
    RepetitionMatches(t, m, m, Chr(p));
    NoTerminator(t.icase, p);
    hide Accepts, Matches, ParsePattern;
  }

  lemma NoTerminator(icase: bool, p: char)
    requires Plain(p)
    ensures !SameChar(icase, p, '\0')
  {
  }

  // ----- what is refused -----

  /** A group that is not closed, and one that is closed twice. */
  lemma Parentheses(body: seq<Elem>, rest: string)
    requires PrintableBody(body)
    ensures FitsSeq(body, 2) ==> ParsePattern("(" + PrintBody(body)) == Fail(ExpectedParen)
    ensures FitsSeq(body, 1) ==> ParsePattern(PrintBody(body) + (")" + rest)) == Fail(UnexpectedCharacter)
  {
    var inner := PrintBody(body);
    BodyReadBack(body, "", 2);
    BodyReadBack(body, ")" + rest, 1);
    BodyStarts(body);
    assert inner + "" == inner;
    hide PrintBody, FitsSeq;
    var s := "(" + inner;
    assert s[1..] == inner;
    if FitsSeq(body, 2) {
      assert ParseBase(s, 1) == Fail(ExpectedParen);
      FailsAtOnce(s, ExpectedParen);
    }
  }

  lemma FailsAtOnce(s: string, error: Error)
    requires ParseBase(s, 1) == Fail(error) && Peek(s) != '^'
    ensures ParsePattern(s) == Fail(error)
  {
    hide ParseBase;
    assert ParseRepeated(s, 1) == Fail(error);
    assert ParseChain(s, 1) == Fail(error);
    assert ParseAnchored(s, 1) == Fail(error);
    assert ParseList(s, 1) == Fail(error);
  }

  /** An empty class, a group whose mark is not `?:`, a backslash at the end, and a character that
      cannot be printed, or none. */
  lemma WrongStarts(rest: string)
    ensures ParsePattern("[]" + rest) == Fail(EmptyClass) == ParsePattern("[^]" + rest)
    ensures Peek(rest) != ':' ==> ParsePattern("(?" + rest) == Fail(ExpectedParen)
    ensures ParsePattern("\\") == Fail(Overread)
    ensures rest == "" || !IsPrint(rest[0]) ==> ParsePattern(rest) == Fail(LetterExpected)
  {
    EmptyClasses(rest);
    hide ParsePattern;
    assert ParseBase("\\", 1) == Fail(Overread);
    assert ("(?" + rest)[2..] == rest && ("(?" + rest)[1..] == "?" + rest;
    assert Peek(rest) != ':' ==> ParseBase("(?" + rest, 1) == Fail(ExpectedParen);
    assert rest == "" || !IsPrint(rest[0]) ==> ParseBase(rest, 1) == Fail(LetterExpected);
    hide ParseBase;
    FailsAtOnce("\\", Overread);
    if Peek(rest) != ':' {
      FailsAtOnce("(?" + rest, ExpectedParen);
    }
    if rest == "" || !IsPrint(rest[0]) {
      FailsAtOnce(rest, LetterExpected);
    }
  }

  lemma EmptyClasses(rest: string)
    ensures ParsePattern("[]" + rest) == Fail(EmptyClass) == ParsePattern("[^]" + rest)
  {
    hide ParsePattern, ClassItems;
    assert ("[]" + rest)[1..] == "]" + rest && ("[^]" + rest)[1..] == "^]" + rest && ("^]" + rest)[1..] == "]" + rest;
    assert ParseClass("]" + rest, 1) == Fail(EmptyClass) == ParseClass("^]" + rest, 1);
    assert ParseBase("[]" + rest, 1) == Fail(EmptyClass) == ParseBase("[^]" + rest, 1);
    hide ParseBase, ParseClass;
    FailsAtOnce("[]" + rest, EmptyClass);
    FailsAtOnce("[^]" + rest, EmptyClass);
  }

  /** A brace that is not followed by a number, or whose number by neither a comma nor a brace. */
  lemma WrongBraces(n: nat, rest: string)
    requires n < 1_000_000_000
    ensures !IsDigit(Peek(rest)) ==> ParseCounts("{" + rest) == Fail(NumberExpected)
    ensures !IsDigit(Peek(rest)) && Peek(rest) != '}' && Peek(rest) != ',' ==>
      ParseCounts("{" + (Digits(n) + rest)) == Fail(CommaOrBraceExpected)
  {
    hide Digits, ParseNumber;
    assert ("{" + rest)[1..] == rest && ("{" + (Digits(n) + rest))[1..] == Digits(n) + rest;
    if !IsDigit(Peek(rest)) {
      NumberReadBack(n, rest);
      assert (Digits(n) + rest)[0] == Digits(n)[0];
    }
  }

  /** What `*`, `+` and `?` behind a character stand for. */
  function Marked(p: char, a: char): Elem {
    Greedy(if a == '+' then 1 else 0, if a == '?' then 1 else UNBOUNDED, Chr(p))
  }

  lemma FirstMark(p: char, a: char, b: char)
    requires Plain(p) && a in "*+?"
    ensures ParseRepeated([p, a, b], 1) == Ok(Marked(p, a), [b])
  {
    var s := [p, a, b];
    assert s[1..] == [a, b] && [a, b][1..] == [b];
    assert CharNode(s, false) == Ok(Chr(p), [a, b]);
    assert ParseBase(s, 1) == Ok(Chr(p), [a, b]);
    var x := Marked(p, a);
    assert ParseCounts([a, b]) == Ok(Some((x.p0, x.p1)), [b]);
    hide ParseBase, ParseCounts;
  }

  /** Behind a repetition, `*` and `+` are refused, and the other marks stand for themselves. */
  lemma SecondMark(p: char, a: char, b: char)
    requires Plain(p) && a in "*+?"
    ensures b in "*+" ==> ParsePattern([p, a, b]) == Fail(UnexpectedCharacter)
    ensures b in "?{}]^" ==> ParsePattern([p, a, b]) == Ok([Marked(p, a), Chr(b)], "")
  {
    FirstMark(p, a, b);
    if b in "*+" {
      RefusedMark([p, a, b], Marked(p, a), b);
    } else if b in "?{}]^" {
      LastMark(b, 1 + Width(Marked(p, a)));
      KeptMark([p, a, b], Marked(p, a), b);
    }
  }

  lemma RefusedMark(s: string, x: Elem, b: char)
    requires ParseRepeated(s, 1) == Ok(x, [b]) && b in "*+" && Peek(s) != '^'
    ensures ParsePattern(s) == Fail(UnexpectedCharacter)
  {
    hide ParseRepeated;
    assert ParseChain(s, 1) == Ok([x], [b]);
    hide ParseChain;
    assert ParseAnchored(s, 1) == Ok([x], [b]);
    assert ParseList(s, 1) == Ok([x], [b]);
  }

  lemma KeptMark(s: string, x: Elem, b: char)
    requires ParseRepeated(s, 1) == Ok(x, [b]) && b in "?{}]^" && Peek(s) != '^'
    requires ParseChain([b], 1 + Width(x)) == Ok([Chr(b)], "")
    ensures ParsePattern(s) == Ok([x, Chr(b)], "")
  {
    hide ParseRepeated;
    assert [x] + [Chr(b)] == [x, Chr(b)];
    assert ParseChain(s, 1) == Ok([x, Chr(b)], "");
    hide ParseChain;
    assert ParseAnchored(s, 1) == Ok([x, Chr(b)], "");
    assert ParseList(s, 1) == Ok([x, Chr(b)], "");
  }

  lemma LastMark(b: char, n: nat)
    requires b in "?{}]^"
    ensures ParseChain([b], n) == Ok([Chr(b)], "")
  {
    assert [b][1..] == "";
    assert ParseBase([b], n) == Ok(Chr(b), "");
    assert ParseCounts("") == Ok(None, "");
    hide ParseBase, ParseCounts;
    assert ParseRepeated([b], n) == Ok(Chr(b), "");
  }
}
