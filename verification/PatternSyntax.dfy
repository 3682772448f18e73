/** The pattern syntax TRex accepts, as a function from pattern text to pattern tree. */
module PatternSyntax {
  import opened CType
  import opened Regex
  import opened Nodes
  import opened Wrappers

  /** The compiler's error messages; `Overread` stands for reading past the terminator, which
      happens after a backslash that ends the pattern. */
  datatype Error =
    | ExpectedParen | LetterExpected | EmptyClass | InvalidRange | ClassInRange | NumberExpected
    | NumberOverflow | CommaOrBraceExpected | UnexpectedCharacter | Overread

  /** What was read, and the text that follows it; or an error (a `longjmp`). */
  datatype Parse<+T> = Ok(value: T, rest: string) | Fail(error: Error) {
    predicate IsFailure() { Fail? }
    function PropagateFailure<U>(): Parse<U> requires Fail? { Fail(error) }
    function Extract(): (T, string) requires Ok? { (value, rest) }
  }

  /** `*exp->_p` */
  function Peek(s: string): char {
    if s == "" then '\0' else s[0]
  }

  function Expect(s: string, c: char): (r: Parse<()>)
    requires c != '\0'
    ensures r.Ok? ==> |r.rest| < |s|
  {
    if Peek(s) == c && s != "" then Ok((), s[1..]) else Fail(ExpectedParen)
  }

  /** Control characters with a letter escape. */
  function Control(c: char): Option<char> {
    match c
    case 'n' => Some('\n')
    case 't' => Some('\t')
    case 'r' => Some('\r')
    case 'f' => Some(12 as char)
    case 'v' => Some(11 as char)
    case _ => None
  }

  /** `trex_escapechar`: the upper end of a range. */
  function EscapeChar(s: string): (r: Parse<char>)
    ensures r.Ok? ==> |r.rest| < |s|
  {
    if Peek(s) == '\\' then
      if |s| == 1 then Fail(Overread)
      else Ok(if Control(s[1]).Some? then Control(s[1]).value else s[1], s[2..])
    else if s == "" || !IsPrint(s[0]) then Fail(LetterExpected)
    else Ok(s[0], s[1..])
  }

  predicate IsClassLetter(c: char) {
    c in "aAwWsSdDxXcCpPlu"
  }

  /** `trex_charnode` */
  function CharNode(s: string, inClass: bool): (r: Parse<Elem>)
    ensures r.Ok? ==> |r.rest| < |s| && (r.value.Chr? || r.value.CharClass? || (r.value.WordBoundary? && !inClass))
  {
    if Peek(s) == '\\' then
      if |s| == 1 then Fail(Overread)
      else if Control(s[1]).Some? then Ok(Chr(Control(s[1]).value), s[2..])
      else if IsClassLetter(s[1]) then Ok(CharClass(s[1]), s[2..])
      else if (s[1] == 'b' || s[1] == 'B') && !inClass then Ok(WordBoundary(s[1]), s[2..])
      else Ok(Chr(s[1]), s[2..])
    else if s == "" || !IsPrint(s[0]) then Fail(LetterExpected)
    else Ok(Chr(s[0]), s[1..])
  }

  /** A class item that may yet turn out to start a range, and the index of its node. */
  datatype Pending = Pending(item: Item, node: nat)

  function Flush(first: Option<Pending>): seq<Item> {
    if first.Some? then [first.value.item] else []
  }

  function ItemOf(e: Elem): Item
    requires e.Chr? || e.CharClass?
  {
    if e.Chr? then One(e.c) else Named(e.cls)
  }

  /** The loop of `trex_class`, with `n` nodes built so far.  The code compares the index of the
      pending node, not its character, with the character after the dash. */
  function ClassItems(s: string, n: nat, first: Option<Pending>): (r: Parse<seq<Item>>)
    ensures r.Ok? ==> |r.rest| <= |s| && Peek(r.rest) == ']'
    ensures r.Ok? && (first.Some? || Peek(s) != ']') ==> r.value != []
    decreases |s|
  {
    if Peek(s) == ']' then Ok(Flush(first), s)
    else if Peek(s) == '-' && first.Some? then
      if first.value.node > Peek(s[1..]) as int then Fail(InvalidRange)
      else if !first.value.item.One? then Fail(ClassInRange)
      else
        var (hi, s') :- EscapeChar(s[1..]);
        var (items, s'') :- ClassItems(s', n + 1, None);
        Ok([Span(first.value.item.c, hi)] + items, s'')
    else
      var (e, s') :- CharNode(s, true);
      var (items, s'') :- ClassItems(s', n + 1, Some(Pending(ItemOf(e), n)));
      Ok(Flush(first) + items, s'')
  }

  /** `trex_class`, after the opening bracket. */
  function ParseClass(s: string, n: nat): (r: Parse<Elem>)
    ensures r.Ok? ==> |r.rest| <= |s| && r.value.Class? && r.value.items != []
  {
    var negated := Peek(s) == '^';
    var s' := if negated then s[1..] else s;
    if Peek(s') == ']' then Fail(EmptyClass)
    else
      var (items, s'') :- ClassItems(s', n + 1, None);
      Ok(Class(negated, items), s'')
  }

  /** `trex_parsenumber`: `ret` so far, `positions` the power of ten of the digits read. */
  function NumberFrom(s: string, ret: nat, positions: nat): (r: Parse<nat>)
    ensures r.Ok? ==> |r.rest| <= |s|
    decreases |s|
  {
    if s == "" || !IsDigit(s[0]) then Ok(ret, s)
    else if positions == 1_000_000_000 then Fail(NumberOverflow)
    else NumberFrom(s[1..], ret * 10 + (s[0] as int - '0' as int), positions * 10)
  }

  function ParseNumber(s: string): (r: Parse<nat>)
    requires s != "" && IsDigit(s[0])
    ensures r.Ok? ==> |r.rest| < |s|
  {
    NumberFrom(s[1..], s[0] as int - '0' as int, 10)
  }

  function ToU16(n: nat): U16 {
    n % 0x1_0000
  }

  /** The repetition after an element, if there is one. */
  function ParseCounts(s: string): (r: Parse<Option<(U16, U16)>>)
    ensures r.Ok? ==> |r.rest| <= |s|
  {
    match Peek(s)
    case '*' => Ok(Some((0, UNBOUNDED)), s[1..])
    case '+' => Ok(Some((1, UNBOUNDED)), s[1..])
    case '?' => Ok(Some((0, 1)), s[1..])
    case '{' =>
      if !IsDigit(Peek(s[1..])) then Fail(NumberExpected)
      else
        var (lo, s') :- ParseNumber(s[1..]);
        if Peek(s') == '}' then Ok(Some((ToU16(lo), ToU16(lo))), s'[1..])
        else if Peek(s') != ',' then Fail(CommaOrBraceExpected)
        else
          var (hi, s'') :- (if IsDigit(Peek(s'[1..])) then ParseNumber(s'[1..]) else Ok(UNBOUNDED, s'[1..]));
          var (_, s3) :- Expect(s'', '}');
          Ok(Some((ToU16(lo), ToU16(hi))), s3)
    case _ => Ok(None, s)
  }

  /** The first switch of `trex_element`: an element before its repetition. */
  function ParseBase(s: string, n: nat): (r: Parse<Elem>)
    ensures r.Ok? ==> |r.rest| < |s| && Proper(r.value)
    decreases |s|, 0
  {
    match Peek(s)
    case '(' =>
      var plain := Peek(s[1..]) == '?';
      var (_, s') :- (if plain then Expect(s[2..], ':') else Ok((), s[1..]));
      var (body, s'') :- ParseList(s', n + 1);
      var (_, s3) :- Expect(s'', ')');
      Ok(Group(!plain, body), s3)
    case '[' =>
      var (e, s') :- ParseClass(s[1..], n);
      var (_, s'') :- Expect(s', ']');
      Ok(e, s'')
    case '$' => Ok(Eol, s[1..])
    case '.' => Ok(Dot, s[1..])
    case _ => CharNode(s, false)
  }

  /** `trex_element` stops before these; it would otherwise read on. */
  predicate EndsChain(c: char) {
    c == '|' || c == ')' || c == '*' || c == '+' || c == '\0'
  }

  /** One element with its repetition. */
  function ParseRepeated(s: string, n: nat): (r: Parse<Elem>)
    ensures r.Ok? ==> |r.rest| < |s| && Proper(r.value)
    decreases |s|, 1
  {
    var (base, s') :- ParseBase(s, n);
    var (counts, s'') :- ParseCounts(s');
    Ok(if counts.Some? then Greedy(counts.value.0, counts.value.1, base) else base, s'')
  }

  /** `trex_element`: one element, its repetition, and the elements chained after it. */
  function ParseChain(s: string, n: nat): (r: Parse<seq<Elem>>)
    ensures r.Ok? ==> |r.rest| < |s| && r.value != [] && ProperSeq(r.value)
    decreases |s|, 2
  {
    var (e, s') :- ParseRepeated(s, n);
    if EndsChain(Peek(s')) then Ok([e], s')
    else
      var (later, s'') :- ParseChain(s', n + Width(e));
      Ok([e] + later, s'')
  }

  /** A chain, perhaps anchored at the beginning of the text. */
  function ParseAnchored(s: string, n: nat): (r: Parse<seq<Elem>>)
    ensures r.Ok? ==> |r.rest| < |s| && r.value != [] && ProperSeq(r.value)
    decreases |s|, 3
  {
    if Peek(s) == '^' then
      var (es, s') :- ParseChain(s[1..], n + 1);
      assert ([Bol] + es)[1..] == es;
      Ok([Bol] + es, s')
    else ParseChain(s, n)
  }

  /** `trex_list` */
  function ParseList(s: string, n: nat): (r: Parse<seq<Elem>>)
    ensures r.Ok? ==> |r.rest| < |s| && r.value != [] && ProperSeq(r.value)
    decreases |s|, 4
  {
    var (chain, s') :- ParseAnchored(s, n);
    if Peek(s') == '|' then
      var (right, s'') :- ParseList(s'[1..], n + WidthSeq(chain) + 1);
      assert Proper(Or(chain, right)) && [Or(chain, right)][1..] == [];
      Ok([Or(chain, right)], s'')
    else Ok(chain, s')
  }

  /** `trex_compile`: the whole pattern must be read. */
  function ParsePattern(pattern: string): (r: Parse<seq<Elem>>)
    ensures r.Ok? ==> r.value != [] && ProperSeq(r.value)
  {
    var (body, rest) :- ParseList(pattern, 1);
    if Peek(rest) != '\0' then Fail(UnexpectedCharacter) else Ok(body, rest)
  }
}
