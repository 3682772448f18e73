/** Which characters a pattern's classes, letters, ranges and word boundaries stand for, written out. */
module CharacterClasses {
  import opened CType
  import opened Regex

  // ----- named classes -----

  /** The characters of a class with a small letter. */
  predicate Listed(cls: char, c: char) {
    match cls
    case 'a' => 'A' <= c <= 'Z' || 'a' <= c <= 'z'
    case 'w' => 'A' <= c <= 'Z' || 'a' <= c <= 'z' || '0' <= c <= '9' || c == '_'
    case 's' => c == ' ' || c == '\t' || c == '\n' || c == 11 as char || c == 12 as char || c == '\r'
    case 'd' => '0' <= c <= '9'
    case 'x' => '0' <= c <= '9' || 'A' <= c <= 'F' || 'a' <= c <= 'f'
    case 'c' => c as int <= 31 || c as int == 127
    case 'p' => '!' <= c <= '/' || ':' <= c <= '@' || '[' <= c <= '`' || '{' <= c <= '~'
    case 'l' => 'a' <= c <= 'z'
    case 'u' => 'A' <= c <= 'Z'
    case _ => false
  }

  predicate SmallClass(cls: char) {
    cls in "awsdxcplu"
  }

  /** All but `l` and `u` have an opposite, named by the capital. */
  predicate CapitalClass(cls: char) {
    cls in "AWSDXCP"
  }

  function Opposite(cls: char): char
    requires CapitalClass(cls)
  {
    match cls
    case 'A' => 'a'
    case 'W' => 'w'
    case 'S' => 's'
    case 'D' => 'd'
    case 'X' => 'x'
    case 'C' => 'c'
    case _ => 'p'
  }

  predicate Member(cls: char, c: char) {
    if CapitalClass(cls) then !Listed(Opposite(cls), c) else Listed(cls, c)
  }

  /** A named class has the characters listed for it; a capital names the others. */
  lemma ClassMembers(cls: char, c: char)
    ensures InNamed(cls, c) <==> Member(cls, c)
  {
    if CapitalClass(cls) {
      SmallMembers(Opposite(cls), c);
    } else {
      SmallMembers(cls, c);
    }
  }

  lemma SmallMembers(cls: char, c: char)
    requires !CapitalClass(cls)
    ensures InNamed(cls, c) <==> Listed(cls, c)
  {
  }

  // ----- ignoring case -----

  /** The same letter in the other case. */
  predicate OtherCase(c: char, d: char) {
    || ('A' <= c <= 'Z' && d as int == c as int + 32)
    || ('a' <= c <= 'z' && d as int == c as int - 32)
  }

  /** Ignoring case, a character stands for itself and for the same letter in the other case. */
  lemma SameCharIff(icase: bool, pattern: char, c: char)
    ensures SameChar(icase, pattern, c) <==> c == pattern || (icase && OtherCase(pattern, c))
  {
  }

  predicate Capital(c: char) {
    'A' <= c <= 'Z'
  }

  predicate Small(c: char) {
    'a' <= c <= 'z'
  }

  lemma ExactRange(lo: char, hi: char, c: char)
    ensures InItem(false, Span(lo, hi), c) <==> lo <= c <= hi
  {
  }

  /** Between two letters of one case, a range stands for the letters between them in both cases; if
      neither end is a letter, the range is what it is when case matters, whatever letters are in it. */
  lemma RangeIgnoringCase(lo: char, hi: char, c: char)
    ensures (Capital(lo) && Capital(hi)) || (Small(lo) && Small(hi)) ==>
      (InItem(true, Span(lo, hi), c) <==> lo <= c <= hi || exists d: char :: OtherCase(c, d) && lo <= d <= hi)
    ensures !Capital(lo) && !Small(lo) && !Capital(hi) && !Small(hi) ==>
      (InItem(true, Span(lo, hi), c) <==> lo <= c <= hi)
  {
    if Capital(c) {
      assert OtherCase(c, (c as int + 32) as char);
    } else if Small(c) {
      assert OtherCase(c, (c as int - 32) as char);
    }
  }

  /** Ignoring case, a range loses characters that it has when case matters, if and only if it goes
      from a capital to a small letter. */
  lemma RangeLosesIff(lo: char, hi: char)
    ensures (exists c :: InItem(false, Span(lo, hi), c) && !InItem(true, Span(lo, hi), c)) <==> Capital(lo) && Small(hi)
  {
    if Capital(lo) && Small(hi) {
      assert InItem(false, Span(lo, hi), '_') && !InItem(true, Span(lo, hi), '_');
    }
  }

  // ----- word boundaries -----

  predicate White(c: char) {
    Listed('s', c)
  }

  /** Is there a change between white space and anything else behind character `i`? */
  predicate ChangesBehind(s: string, i: nat)
    requires i < |s|
  {
    White(s[i]) != (i + 1 < |s| && White(s[i + 1]))
  }

  /** Inside a text, `\b` does not look at the characters on both sides of its place, but at the
      character behind it and the one after that.  At the end it looks at the last character, and at
      what lies beyond the terminator. */
  lemma BoundaryIff(t: Text, i: nat)
    ensures i == 0 < |t.s| ==> (t.AtBoundary(i) <==> !White(t.s[0]) || ChangesBehind(t.s, 0))
    ensures 0 < i < |t.s| ==> (t.AtBoundary(i) <==> ChangesBehind(t.s, i))
    ensures i == |t.s| ==> (t.AtBoundary(i) <==> i == 0 || !White(t.s[i - 1]) || White(t.beyond(i + 1)))
  {
  }
}
