/** Printing pattern trees, and reading them back.

    What the compiler makes of a range depends on where its nodes stand in the array: it compares the
    index of the lower character's node, not the character, with the upper end.  `Fits` is that
    test, and a printed tree is read back if and only if all its ranges pass it. */
module PatternPrinting {
  import opened CType
  import opened Regex
  import opened Nodes
  import opened PatternSyntax
  import opened Wrappers

  // ----- trees that patterns can denote -----

  predicate PrintableItem(item: Item) {
    match item
    case One(c) => c != '\0'
    case Span(lo, hi) => lo != '\0' && hi != '\0'
    case Named(cls) => IsClassLetter(cls)
  }

  /** Elements that can stand in the middle of a chain. */
  predicate Printable(e: Elem)
    decreases e, 0
  {
    match e
    case Chr(c) => c != '\0'
    case Dot => true
    case Eol => true
    case WordBoundary(letter) => letter == 'b' || letter == 'B'
    case CharClass(cls) => IsClassLetter(cls)
    case Class(_, items) => items != [] && forall i :: 0 <= i < |items| ==> PrintableItem(items[i])
    case Group(_, body) => PrintableBody(body)
    case Greedy(_, _, x) => !x.Greedy? && Printable(x)
    case _ => false
  }

  predicate PrintableChain(es: seq<Elem>)
    decreases es, 0
  {
    es != [] && Printable(es[0]) && (es[1..] == [] || PrintableChain(es[1..]))
  }

  /** `^` can only stand first. */
  predicate PrintableAnchored(es: seq<Elem>)
    decreases es, 1
  {
    es != [] && if es[0].Bol? then PrintableChain(es[1..]) else PrintableChain(es)
  }

  /** `|` splits a whole body. */
  predicate PrintableBody(es: seq<Elem>)
    decreases es, 2
  {
    es != [] &&
      if es[0].Or? then es[1..] == [] && PrintableAnchored(es[0].left) && PrintableBody(es[0].right)
      else PrintableAnchored(es)
  }

  // ----- printing -----

  /** Characters that stand for themselves. */
  predicate Plain(c: char) {
    IsPrint(c) && c !in "()[]{}.*+?|^$\\"
  }

  function PrintChar(c: char): string {
    if Plain(c) then [c]
    else if c == '\n' then "\\n"
    else if c == '\t' then "\\t"
    else if c == '\r' then "\\r"
    else if c == 12 as char then "\\f"
    else if c == 11 as char then "\\v"
    else ['\\', c]
  }

  /** In a bracket class a dash must be escaped, too. */
  function PrintInClass(c: char): string {
    if c == '-' then "\\-" else PrintChar(c)
  }

  function PrintItem(item: Item): string {
    match item
    case One(c) => PrintInClass(c)
    case Span(lo, hi) => PrintInClass(lo) + ("-" + PrintInClass(hi))
    case Named(cls) => ['\\', cls]
  }

  function PrintItems(items: seq<Item>): string {
    if items == [] then "" else PrintItem(items[0]) + PrintItems(items[1..])
  }

  function Digits(n: nat): string {
    if n < 10 then [('0' as int + n) as char] else Digits(n / 10) + [('0' as int + n % 10) as char]
  }

  function PrintCounts(p0: U16, p1: U16): string {
    if p0 == 0 && p1 == UNBOUNDED then "*"
    else if p0 == 1 && p1 == UNBOUNDED then "+"
    else if p0 == 0 && p1 == 1 then "?"
    else if p0 == p1 then "{" + Digits(p0) + "}"
    else if p1 == UNBOUNDED then "{" + Digits(p0) + ",}"
    else "{" + Digits(p0) + "," + Digits(p1) + "}"
  }

  function Print(e: Elem): string
    requires Printable(e)
    decreases e, 0
  {
    match e
    case Chr(c) => PrintChar(c)
    case Dot => "."
    case Eol => "$"
    case WordBoundary(letter) => ['\\', letter]
    case CharClass(cls) => ['\\', cls]
    case Class(negated, items) => (if negated then "[^" else "[") + (PrintItems(items) + "]")
    case Group(capturing, body) => (if capturing then "(" else "(?:") + PrintBody(body) + ")"
    case Greedy(p0, p1, x) => Print(x) + PrintCounts(p0, p1)
  }

  function PrintChain(es: seq<Elem>): string
    requires PrintableChain(es)
    decreases es, 0
  {
    Print(es[0]) + if es[1..] == [] then "" else PrintChain(es[1..])
  }

  function PrintAnchored(es: seq<Elem>): string
    requires PrintableAnchored(es)
    decreases es, 1
  {
    if es[0].Bol? then "^" + PrintChain(es[1..]) else PrintChain(es)
  }

  function PrintBody(es: seq<Elem>): string
    requires PrintableBody(es)
    decreases es, 2
  {
    if es[0].Or? then PrintAnchored(es[0].left) + "|" + PrintBody(es[0].right) else PrintAnchored(es)
  }

  // ----- the test that ranges have to pass -----

  /** The first node of `items` is number `n`. */
  predicate ItemsFit(items: seq<Item>, n: nat) {
    items == [] || (
      && (items[0].Span? ==> n <= Peek(PrintInClass(items[0].hi)) as int)
      && ItemsFit(items[1..], n + WidthItem(items[0])))
  }

  /** The first node of `e` is number `n`. */
  predicate Fits(e: Elem, n: nat)
    decreases e, 0
  {
    match e
    case Class(_, items) => ItemsFit(items, n + 1)
    case Group(_, body) => FitsSeq(body, n + 1)
    case Or(left, right) => FitsSeq(left, n) && FitsSeq(right, n + WidthSeq(left) + 1)
    case Greedy(_, _, x) => Fits(x, n)
    case _ => true
  }

  predicate FitsSeq(es: seq<Elem>, n: nat)
    decreases es, 0
  {
    es == [] || (Fits(es[0], n) && FitsSeq(es[1..], n + Width(es[0])))
  }

  /** What is read: the tree, if its ranges fit. */
  function Read<T>(fits: bool, value: T, rest: string): Parse<T> {
    if fits then Ok(value, rest) else Fail(InvalidRange)
  }

  // ----- reading numbers back -----

  /** The value of `positions` after reading the digits of `n`. */
  function Positions(n: nat): nat {
    if n < 10 then 10 else Positions(n / 10) * 10
  }

  lemma {:induction false} PositionsGrow(n: nat)
    ensures n > 0 ==> Positions(n) <= 10 * n
  {
    if n >= 10 {
      PositionsGrow(n / 10);
    }
  }

  lemma DigitRead(last: char, rest: string, ret: nat, positions: nat)
    requires IsDigit(last) && positions != 1_000_000_000
    ensures NumberFrom([last] + rest, ret, positions)
         == NumberFrom(rest, ret * 10 + (last as int - '0' as int), positions * 10)
  {
    assert ([last] + rest)[1..] == rest;
  }

  lemma MoreDigits(n: nat) returns (last: char)
    requires n >= 10
    ensures IsDigit(last) && n == n / 10 * 10 + (last as int - '0' as int)
    ensures Digits(n) == Digits(n / 10) + [last] && Positions(n) == Positions(n / 10) * 10
  {
    last := ('0' as int + n % 10) as char;
  }

  lemma {:induction false} NumberRead(n: nat, rest: string)
    requires n < 1_000_000_000
    ensures Digits(n) != [] && IsDigit(Digits(n)[0])
    ensures ParseNumber(Digits(n) + rest) == NumberFrom(rest, n, Positions(n))
    decreases n
  {
    if n < 10 {
      assert (Digits(n) + rest)[1..] == rest;
    } else {
      var last := MoreDigits(n);
      hide NumberFrom, ParseNumber, Digits, Positions;
      NumberRead(n / 10, [last] + rest);
      assert Digits(n) + rest == Digits(n / 10) + ([last] + rest);
      PositionsGrow(n / 10);
      DigitRead(last, rest, n / 10, Positions(n / 10));
    }
  }

  lemma NumberReadBack(n: nat, rest: string)
    requires n < 1_000_000_000 && (rest == "" || !IsDigit(rest[0]))
    ensures Digits(n) != [] && IsDigit(Digits(n)[0])
    ensures ParseNumber(Digits(n) + rest) == Ok(n, rest)
  {
    NumberRead(n, rest);
  }

  lemma ExactReadBack(p: U16, rest: string)
    ensures ParseCounts("{" + Digits(p) + "}" + rest) == Ok(Some((p, p)), rest)
  {
    hide Digits, ParseNumber;
    var s := "{" + Digits(p) + "}" + rest;
    assert s[1..] == Digits(p) + ("}" + rest);
    NumberReadBack(p, "}" + rest);
    assert ("}" + rest)[1..] == rest;
    assert s[1..][0] == Digits(p)[0];
  }

  lemma AtLeastReadBack(p0: U16, rest: string)
    ensures ParseCounts("{" + Digits(p0) + ",}" + rest) == Ok(Some((p0, UNBOUNDED)), rest)
  {
    hide Digits, ParseNumber;
    var s, tail := "{" + Digits(p0) + ",}" + rest, ",}" + rest;
    assert s[1..] == Digits(p0) + tail;
    NumberReadBack(p0, tail);
    assert s[1..][0] == Digits(p0)[0];
    assert tail[1..] == "}" + rest && ("}" + rest)[1..] == rest;
  }

  lemma BetweenReadBack(p0: U16, p1: U16, rest: string)
    ensures ParseCounts("{" + (Digits(p0) + ("," + (Digits(p1) + ("}" + rest))))) == Ok(Some((p0, p1)), rest)
  {
    hide Digits, ParseNumber;
    var close := "}" + rest;
    var second := Digits(p1) + close;
    NumberReadBack(p0, "," + second);
    NumberReadBack(p1, close);
    BracesRead(Digits(p0) + ("," + second), second, p0, p1, rest);
  }

  lemma BracesRead(first: string, second: string, p0: U16, p1: U16, rest: string)
    requires first != "" && IsDigit(first[0]) && ParseNumber(first) == Ok(p0, "," + second)
    requires second != "" && IsDigit(second[0]) && ParseNumber(second) == Ok(p1, "}" + rest)
    ensures ParseCounts("{" + first) == Ok(Some((p0, p1)), rest)
  {
    hide ParseNumber;
    assert ("{" + first)[1..] == first && ("," + second)[1..] == second && ("}" + rest)[1..] == rest;
  }

  lemma BracesNested(a: string, b: string, rest: string)
    ensures "{" + a + "," + b + "}" + rest == "{" + (a + ("," + (b + ("}" + rest))))
  {
  }

  lemma CountsReadBack(p0: U16, p1: U16, rest: string)
    ensures ParseCounts(PrintCounts(p0, p1) + rest) == Ok(Some((p0, p1)), rest)
  {
    hide Digits, ParseNumber, ParseCounts;
    if p0 == 0 && p1 == UNBOUNDED {
      SymbolRead('*', rest);
    } else if p0 == 1 && p1 == UNBOUNDED {
      SymbolRead('+', rest);
    } else if p0 == 0 && p1 == 1 {
      SymbolRead('?', rest);
    } else if p0 == p1 {
      ExactReadBack(p0, rest);
    } else if p1 == UNBOUNDED {
      AtLeastReadBack(p0, rest);
    } else {
      BetweenReadBack(p0, p1, rest);
      BracesNested(Digits(p0), Digits(p1), rest);
    }
  }

  lemma SymbolRead(c: char, rest: string)
    requires c in "*+?"
    ensures ParseCounts([c] + rest)
      == Ok(Some(if c == '*' then (0, UNBOUNDED) else if c == '+' then (1, UNBOUNDED) else (0, 1)), rest)
  {
    assert ([c] + rest)[1..] == rest;
  }

  // ----- reading trees back -----

  /** What can follow a printed chain without being read as part of it. */
  predicate ChainStops(rest: string) {
    rest == "" || rest[0] == '|' || rest[0] == ')'
  }

  /** What can follow a printed body. */
  predicate BodyStops(rest: string) {
    rest == "" || rest[0] == ')'
  }

  /** Cannot be mistaken for a repetition of what precedes it. */
  predicate NoCounts(rest: string) {
    rest == "" || rest[0] !in "*+?{"
  }

  predicate StartsElement(s: string) {
    s != "" && s[0] !in "^*+?{|)\0"
  }

  lemma {:induction false} PrintStarts(e: Elem)
    requires Printable(e)
    ensures StartsElement(Print(e))
  {
    if e.Greedy? {
      PrintStarts(e.elem);
    }
  }

  lemma {:induction false} ChainStarts(es: seq<Elem>)
    requires PrintableChain(es)
    ensures StartsElement(PrintChain(es))
  {
    PrintStarts(es[0]);
  }

  lemma {:induction false} BodyStarts(es: seq<Elem>)
    requires PrintableBody(es)
    ensures PrintBody(es) != "" && PrintBody(es)[0] != '?'
  {
    var first := if es[0].Or? then es[0].left else es;
    if !first[0].Bol? {
      ChainStarts(first);
    }
  }

  /** What a backslash and a letter are read as. */
  lemma EscapeRead(x: char, rest: string, inClass: bool)
    ensures CharNode(['\\', x] + rest, inClass) ==
      Ok(if Control(x).Some? then Chr(Control(x).value)
         else if IsClassLetter(x) then CharClass(x)
         else if (x == 'b' || x == 'B') && !inClass then WordBoundary(x)
         else Chr(x), rest)
  {
    assert (['\\', x] + rest)[2..] == rest;
  }

  lemma CharReadBack(c: char, rest: string, inClass: bool)
    requires c != '\0'
    ensures CharNode(PrintChar(c) + rest, inClass) == Ok(Chr(c), rest)
    ensures PrintChar(c) != "" && PrintChar(c)[0] !in "([$.]^"
  {
    if Plain(c) {
      hide CharNode;
      PlainRead(c, rest, inClass);
    } else {
      var x := EscapeOf(c);
      hide *;
      EscapeRead(x, rest, inClass);
    }
  }

  /** The letter that a character is escaped with. */
  lemma EscapeOf(c: char) returns (x: char)
    requires c != '\0' && !Plain(c)
    ensures PrintChar(c) == ['\\', x]
    ensures if Control(x).Some? then Control(x).value == c
            else x == c && !IsClassLetter(x) && x != 'b' && x != 'B'
  {
    LettersArePlain(c);
    hide Plain, IsClassLetter;
    x := PrintChar(c)[1];
  }

  lemma LettersArePlain(c: char)
    requires !Plain(c)
    ensures !IsClassLetter(c) && c !in "bBntrfv"
  {
    AlphabeticIsPlain(c);
    hide Plain;
  }

  lemma AlphabeticIsPlain(c: char)
    ensures IsAlpha(c) ==> Plain(c)
  {
  }

  lemma PlainRead(c: char, rest: string, inClass: bool)
    requires Plain(c)
    ensures CharNode([c] + rest, inClass) == Ok(Chr(c), rest)
  {
    assert ([c] + rest)[1..] == rest;
  }

  // ----- bracket classes -----

  lemma InClassReadBack(c: char, rest: string)
    requires c != '\0'
    ensures CharNode(PrintInClass(c) + rest, true) == Ok(Chr(c), rest)
    ensures PrintInClass(c) != "" && PrintInClass(c)[0] !in "-]^"
  {
    hide CharNode;
    if c == '-' {
      EscapeRead('-', rest, true);
    } else {
      CharReadBack(c, rest, true);
    }
  }

  /** The upper end of a range is read like a character, but may be one that cannot be printed. */
  lemma UpperReadBack(c: char, rest: string)
    requires c != '\0'
    ensures EscapeChar(PrintInClass(c) + rest) == Ok(c, rest)
  {
    if c == '-' {
      assert ("\\-" + rest)[2..] == rest;
    } else if Plain(c) {
      assert ([c] + rest)[1..] == rest;
    } else {
      var x := EscapeOf(c);
      assert (['\\', x] + rest)[2..] == rest;
    }
  }

  /** One character or named class. */
  lemma ItemReadBack(item: Item, rest: string) returns (e: Elem)
    requires PrintableItem(item) && !item.Span?
    ensures CharNode(PrintItem(item) + rest, true) == Ok(e, rest) && (e.Chr? || e.CharClass?) && ItemOf(e) == item
    ensures PrintItem(item) != "" && PrintItem(item)[0] !in "-]^"
  {
    hide CharNode, PrintInClass;
    if item.One? {
      InClassReadBack(item.c, rest);
      e := Chr(item.c);
    } else {
      EscapeRead(item.cls, rest, true);
      e := CharClass(item.cls);
    }
  }

  lemma ItemStarts(item: Item)
    requires PrintableItem(item)
    ensures PrintItem(item) != "" && PrintItem(item)[0] !in "-]^"
  {
    if item.Span? {
      InClassReadBack(item.lo, "");
    } else {
      var _ := ItemReadBack(item, "");
    }
  }

  /** `s` begins with a character or a named class. */
  lemma NextItem(s: string, n: nat, first: Option<Pending>, e: Elem, later: string)
    requires Peek(s) != ']' && Peek(s) != '-' && CharNode(s, true) == Ok(e, later)
    ensures ClassItems(s, n, first)
         == match ClassItems(later, n + 1, Some(Pending(ItemOf(e), n)))
            case Ok(items, rest) => Ok(Flush(first) + items, rest)
            case Fail(error) => Fail(error)
  {
    hide CharNode;
  }

  /** A character has been read, and a dash and its upper end follow. */
  lemma NextRange(lo: char, hi: char, later: string, n: nat)
    requires hi != '\0'
    ensures ClassItems("-" + (PrintInClass(hi) + later), n + 1, Some(Pending(One(lo), n)))
         == if n > Peek(PrintInClass(hi)) as int then Fail(InvalidRange)
            else match ClassItems(later, n + 2, None)
                 case Ok(items, rest) => Ok([Span(lo, hi)] + items, rest)
                 case Fail(error) => Fail(error)
  {
    hide EscapeChar, PrintInClass;
    var s := "-" + (PrintInClass(hi) + later);
    assert s[1..] == PrintInClass(hi) + later;
    InClassReadBack(hi, later);
    UpperReadBack(hi, later);
  }

  lemma {:induction false} ItemsReadBack(items: seq<Item>, rest: string, n: nat, first: Option<Pending>)
    requires (forall i :: 0 <= i < |items| ==> PrintableItem(items[i])) && Peek(rest) == ']'
    ensures ClassItems(PrintItems(items) + rest, n, first) == Read(ItemsFit(items, n), Flush(first) + items, rest)
    decreases |items|
  {
    hide ClassItems, CharNode, PrintItem, PrintInClass, ItemsFit;
    if items == [] {
      ItemsEnd(rest, n, first);
    } else {
      var item, later := items[0], PrintItems(items[1..]) + rest;
      ItemStarts(item);
      assert PrintItems(items) + rest == PrintItem(item) + later;
      assert items == [item] + items[1..];
      if item.Span? {
        ItemsReadBack(items[1..], rest, n + 2, None);
        assert Flush(None) + items[1..] == items[1..];
        SpanFirst(item.lo, item.hi, items[1..], later, rest, n, first);
      } else {
        ItemsReadBack(items[1..], rest, n + 1, Some(Pending(item, n)));
        ItemFirst(item, items[1..], later, rest, n, first);
      }
    }
  }

  lemma SpanFirst(lo: char, hi: char, items: seq<Item>, later: string, rest: string, n: nat, first: Option<Pending>)
    requires lo != '\0' && hi != '\0'
    requires ClassItems(later, n + 2, None) == Read(ItemsFit(items, n + 2), items, rest)
    ensures var all := [Span(lo, hi)] + items;
      ClassItems(PrintItem(Span(lo, hi)) + later, n, first) == Read(ItemsFit(all, n), Flush(first) + all, rest)
  {
    hide ClassItems, PrintItem, PrintInClass, ItemsFit, Flush, Peek;
    RangeReadBack(lo, hi, later, n, first);
    ItemsFitCons(Span(lo, hi), items, n);
  }

  lemma ItemsFitCons(item: Item, items: seq<Item>, n: nat)
    ensures ItemsFit([item] + items, n)
       <==> (item.Span? ==> n <= Peek(PrintInClass(item.hi)) as int) && ItemsFit(items, n + WidthItem(item))
  {
    hide PrintInClass;
    assert ([item] + items)[1..] == items;
  }

  lemma ItemFirst(item: Item, items: seq<Item>, later: string, rest: string, n: nat, first: Option<Pending>)
    requires PrintableItem(item) && !item.Span?
    requires ClassItems(later, n + 1, Some(Pending(item, n))) == Read(ItemsFit(items, n + 1), [item] + items, rest)
    ensures var all := [item] + items;
      ClassItems(PrintItem(item) + later, n, first) == Read(ItemsFit(all, n), Flush(first) + all, rest)
  {
    var e := ItemReadBack(item, later);
    hide ClassItems, PrintItem, PrintInClass, CharNode;
    NextItem(PrintItem(item) + later, n, first, e, later);
    ItemsFitCons(item, items, n);
  }

  lemma ItemsEnd(rest: string, n: nat, first: Option<Pending>)
    requires Peek(rest) == ']'
    ensures ClassItems(PrintItems([]) + rest, n, first) == Read(ItemsFit([], n), Flush(first) + [], rest)
  {
    assert PrintItems([]) + rest == rest && Flush(first) + [] == Flush(first);
  }

  lemma RangeReadBack(lo: char, hi: char, later: string, n: nat, first: Option<Pending>)
    requires lo != '\0' && hi != '\0'
    ensures ClassItems(PrintItem(Span(lo, hi)) + later, n, first)
         == if n > Peek(PrintInClass(hi)) as int then Fail(InvalidRange)
            else match ClassItems(later, n + 2, None)
                 case Ok(items, rest) => Ok(Flush(first) + ([Span(lo, hi)] + items), rest)
                 case Fail(error) => Fail(error)
  {
    hide ClassItems, CharNode, PrintInClass;
    var range := "-" + (PrintInClass(hi) + later);
    assert PrintItem(Span(lo, hi)) + later == PrintInClass(lo) + range;
    InClassReadBack(lo, range);
    NextItem(PrintInClass(lo) + range, n, first, Chr(lo), range);
    NextRange(lo, hi, later, n);
  }

  lemma ClassReadBack(negated: bool, items: seq<Item>, rest: string, n: nat)
    requires Printable(Class(negated, items))
    ensures ParseBase(Print(Class(negated, items)) + rest, n)
         == Read(ItemsFit(items, n + 1), Class(negated, items), rest)
  {
    hide ClassItems, PrintItem, ItemsFit;
    var inner := PrintItems(items) + ("]" + rest);
    var s := Print(Class(negated, items)) + rest;
    ItemStarts(items[0]);
    ItemsReadBack(items, "]" + rest, n + 1, None);
    assert Flush(None) + items == items;
    assert ("]" + rest)[1..] == rest;
    assert Peek(inner) == PrintItem(items[0])[0];
    if negated {
      assert s[1..] == "^" + inner && s[1..][1..] == inner;
    } else {
      assert s[1..] == inner;
    }
    assert ParseClass(s[1..], n) == Read(ItemsFit(items, n + 1), Class(negated, items), "]" + rest);
  }

  // ----- whole patterns -----

  /** An element that is a letter or a symbol. */
  lemma LeafReadBack(e: Elem, rest: string, n: nat)
    requires Printable(e) && !e.Greedy? && !e.Class? && !e.Group?
    ensures ParseBase(Print(e) + rest, n) == Ok(e, rest)
  {
    hide PrintChar, CharNode;
    var s := Print(e) + rest;
    match e
    case Chr(c) =>
      CharReadBack(c, rest, false);
    case WordBoundary(letter) =>
      EscapeRead(letter, rest, false);
    case CharClass(cls) =>
      EscapeRead(cls, rest, false);
    case Dot =>
      assert s[1..] == rest;
    case Eol =>
      assert s[1..] == rest;
    case _ =>
  }

  /** An element without repetition. */
  lemma {:induction false} BaseReadBack(e: Elem, rest: string, n: nat)
    requires Printable(e) && !e.Greedy?
    ensures ParseBase(Print(e) + rest, n) == Read(Fits(e, n), e, rest)
    decreases e, 0
  {
    hide ParseBase, ParseList, PrintBody, FitsSeq, ItemsFit, PrintItems;
    match e
    case Class(negated, items) =>
      ClassReadBack(negated, items, rest, n);
    case Group(capturing, body) =>
      BodyReadBack(body, ")" + rest, n + 1);
      GroupReadBack(capturing, body, rest, n);
    case _ =>
      LeafReadBack(e, rest, n);
  }

  lemma GroupReadBack(capturing: bool, body: seq<Elem>, rest: string, n: nat)
    requires PrintableBody(body)
    requires ParseList(PrintBody(body) + (")" + rest), n + 1) == Read(FitsSeq(body, n + 1), body, ")" + rest)
    ensures ParseBase((if capturing then "(" else "(?:") + PrintBody(body) + ")" + rest, n)
      == Read(FitsSeq(body, n + 1), Group(capturing, body), rest)
  {
    hide ParseList, FitsSeq;
    var inner := PrintBody(body) + (")" + rest);
    var s := (if capturing then "(" else "(?:") + PrintBody(body) + ")" + rest;
    BodyStarts(body);
    assert (")" + rest)[1..] == rest;
    if capturing {
      assert s[1..] == inner;
    } else {
      assert s[1..] == "?:" + inner && s[2..] == ":" + inner && (":" + inner)[1..] == inner;
    }
  }

  lemma NoCountsRead(text: string, x: Elem, fits: bool, rest: string, n: nat)
    requires NoCounts(rest) && ParseBase(text, n) == Read(fits, x, rest)
    ensures ParseRepeated(text, n) == Read(fits, x, rest)
  {
    hide ParseBase;
  }

  lemma CountsRead(text: string, p0: U16, p1: U16, x: Elem, fits: bool, rest: string, n: nat)
    requires ParseBase(text, n) == Read(fits, x, PrintCounts(p0, p1) + rest)
    ensures ParseRepeated(text, n) == Read(fits, Greedy(p0, p1, x), rest)
  {
    hide ParseBase, ParseCounts, PrintCounts;
    CountsReadBack(p0, p1, rest);
  }

  /** An element with its repetition. */
  lemma {:induction false} RepeatedReadBack(e: Elem, rest: string, n: nat)
    requires Printable(e) && (e.Greedy? || NoCounts(rest))
    ensures ParseRepeated(Print(e) + rest, n) == Read(Fits(e, n), e, rest)
    decreases e, 1
  {
    hide ParseBase, ParseRepeated, PrintCounts, NoCounts;
    if e.Greedy? {
      var counts := PrintCounts(e.p0, e.p1);
      assert Print(e) + rest == Print(e.elem) + (counts + rest);
      BaseReadBack(e.elem, counts + rest, n);
      CountsRead(Print(e.elem) + (counts + rest), e.p0, e.p1, e.elem, Fits(e.elem, n), rest, n);
    } else {
      BaseReadBack(e, rest, n);
      NoCountsRead(Print(e) + rest, e, Fits(e, n), rest, n);
    }
  }

  lemma {:induction false} ChainReadBack(es: seq<Elem>, rest: string, n: nat)
    requires PrintableChain(es) && ChainStops(rest)
    ensures ParseChain(PrintChain(es) + rest, n) == Read(FitsSeq(es, n), es, rest)
    decreases es, 0
  {
    hide Print, ParseRepeated, Printable, Fits;
    if es[1..] == [] {
      RepeatedReadBack(es[0], rest, n);
      assert es == [es[0]];
      assert PrintChain(es) + rest == Print(es[0]) + rest;
    } else {
      var later := PrintChain(es[1..]) + rest;
      ChainStarts(es[1..]);
      RepeatedReadBack(es[0], later, n);
      ChainReadBack(es[1..], rest, n + Width(es[0]));
      assert PrintChain(es) + rest == Print(es[0]) + later;
      assert es == [es[0]] + es[1..];
    }
  }

  lemma {:induction false} AnchoredReadBack(es: seq<Elem>, rest: string, n: nat)
    requires PrintableAnchored(es) && ChainStops(rest)
    ensures ParseAnchored(PrintAnchored(es) + rest, n) == Read(FitsSeq(es, n), es, rest)
    decreases es, 1
  {
    hide ParseChain, PrintChain;
    if es[0].Bol? {
      ChainReadBack(es[1..], rest, n + 1);
      assert (PrintAnchored(es) + rest)[1..] == PrintChain(es[1..]) + rest;
      assert es == [Bol] + es[1..];
      assert Fits(es[0], n) && Width(es[0]) == 1;
    } else {
      ChainReadBack(es, rest, n);
      ChainStarts(es);
    }
  }

  lemma {:induction false} BodyReadBack(es: seq<Elem>, rest: string, n: nat)
    requires PrintableBody(es) && BodyStops(rest)
    ensures ParseList(PrintBody(es) + rest, n) == Read(FitsSeq(es, n), es, rest)
    decreases es, 2
  {
    hide ParseAnchored, PrintAnchored;
    if es[0].Or? {
      var right := PrintBody(es[0].right) + rest;
      AnchoredReadBack(es[0].left, "|" + right, n);
      BodyReadBack(es[0].right, rest, n + WidthSeq(es[0].left) + 1);
      assert PrintBody(es) + rest == PrintAnchored(es[0].left) + ("|" + right);
      assert ("|" + right)[1..] == right;
      assert es == [es[0]];
      SingleFits(es[0], n);
    } else {
      AnchoredReadBack(es, rest, n);
    }
  }

  lemma SingleFits(e: Elem, n: nat)
    ensures FitsSeq([e], n) <==> Fits(e, n)
  {
    assert [e][1..] == [];
  }

  /** A printed tree is compiled to that tree, if its ranges fit where they stand; otherwise it is
      refused. */
  lemma PatternReadBack(body: seq<Elem>)
    requires PrintableBody(body)
    ensures ParsePattern(PrintBody(body)) == Read(FitsSeq(body, 1), body, "")
  {
    BodyReadBack(body, "", 1);
    assert PrintBody(body) + "" == PrintBody(body);
  }

  /** No brackets, no groups. */
  predicate Simple(e: Elem) {
    && !e.Class? && !e.Group? && !e.Or?
    && (e.Greedy? ==> !e.elem.Class? && !e.elem.Group? && !e.elem.Or? && !e.elem.Greedy?)
  }

  lemma {:induction false} SimpleFits(es: seq<Elem>, n: nat)
    requires forall i :: 0 <= i < |es| ==> Simple(es[i])
    ensures FitsSeq(es, n)
    decreases |es|
  {
    if es != [] {
      SimpleFits(es[1..], n + Width(es[0]));
    }
  }

  /** Without ranges there is nothing to fail. */
  lemma SimpleReadBack(body: seq<Elem>)
    requires PrintableBody(body) && forall i :: 0 <= i < |body| ==> Simple(body[i])
    ensures ParsePattern(PrintBody(body)) == Ok(body, "")
  {
    PatternReadBack(body);
    SimpleFits(body, 1);
  }

  // ----- a range that stands too late -----

  function Row(m: nat): seq<Elem> {
    if m == 0 then [] else [Chr('a')] + Row(m - 1)
  }

  function RowText(m: nat): string {
    if m == 0 then "" else "a" + RowText(m - 1)
  }

  const DIGIT_RANGE := Class(false, [Span('0', '9')])

  lemma DigitRangeRead(n: nat)
    ensures Printable(DIGIT_RANGE) && Print(DIGIT_RANGE) == "[0-9]"
    ensures Fits(DIGIT_RANGE, n) <==> n <= 56
  {
    assert PrintInClass('0') == "0" && PrintInClass('9') == "9";
    assert PrintItem(Span('0', '9')) == "0-9";
    assert [Span('0', '9')][1..] == [];
    assert PrintItems([Span('0', '9')]) == "0-9" + "";
    assert "[" + (("0-9" + "") + "]") == "[0-9]";
    ItemsFitCons(Span('0', '9'), [], n + 1);
    assert [Span('0', '9')] + [] == [Span('0', '9')] && ItemsFit([], n + 3);
  }

  lemma ChainPrinted(e: Elem, es: seq<Elem>)
    requires Printable(e) && PrintableChain(es)
    ensures PrintableChain([e] + es) && PrintChain([e] + es) == Print(e) + PrintChain(es)
  {
    assert ([e] + es)[1..] == es;
  }

  lemma LastPrinted(e: Elem)
    requires Printable(e)
    ensures PrintableChain([e]) && PrintChain([e]) == Print(e)
  {
    assert [e][1..] == [];
  }

  lemma FitsCons(e: Elem, es: seq<Elem>, n: nat)
    ensures FitsSeq([e] + es, n) <==> Fits(e, n) && FitsSeq(es, n + Width(e))
  {
    hide Fits;
    assert ([e] + es)[1..] == es;
  }

  lemma LetterRead(n: nat)
    ensures Printable(Chr('a')) && Print(Chr('a')) == "a" && Fits(Chr('a'), n) && Width(Chr('a')) == 1
  {
  }

  lemma {:induction false} RowRead(m: nat, n: nat)
    ensures var es := Row(m) + [DIGIT_RANGE];
      && PrintableChain(es) && PrintChain(es) == RowText(m) + "[0-9]"
      && (FitsSeq(es, n) <==> n + m <= 56)
    decreases m
  {
    hide Printable, PrintableChain, Print, PrintChain, Fits, FitsSeq, Width;
    if m == 0 {
      DigitRangeRead(n);
      LastPrinted(DIGIT_RANGE);
      SingleFits(DIGIT_RANGE, n);
      assert Row(m) + [DIGIT_RANGE] == [DIGIT_RANGE] && RowText(m) + "[0-9]" == "[0-9]";
    } else {
      var es := Row(m - 1) + [DIGIT_RANGE];
      RowRead(m - 1, n + 1);
      LetterRead(n);
      ChainPrinted(Chr('a'), es);
      FitsCons(Chr('a'), es, n);
      assert Row(m) + [DIGIT_RANGE] == [Chr('a')] + es;
      assert RowText(m) + "[0-9]" == "a" + (RowText(m - 1) + "[0-9]");
    }
  }

  /** `[0-9]` is refused once 56 letters stand in front of it. */
  lemma RangeAfterLetters(m: nat)
    ensures ParsePattern(RowText(m) + "[0-9]") == Read(m <= 55, Row(m) + [DIGIT_RANGE], "")
  {
    var es := Row(m) + [DIGIT_RANGE];
    RowRead(m, 1);
    assert es[0] == if m == 0 then DIGIT_RANGE else Chr('a');
    hide PrintableChain, PrintChain, FitsSeq;
    assert PrintableAnchored(es) && PrintAnchored(es) == PrintChain(es);
    assert PrintableBody(es) && PrintBody(es) == PrintAnchored(es);
    PatternReadBack(es);
  }
}
