/** Which trees patterns denote: those that can be printed, and no others. */
module PatternTrees {
  import opened CType
  import opened Regex
  import opened Nodes
  import opened PatternSyntax
  import opened PatternPrinting
  import opened Wrappers

  /** A C string holds no terminator. */
  predicate IsText(s: string) {
    '\0' !in s
  }

  lemma CharText(s: string, inClass: bool)
    requires IsText(s) && CharNode(s, inClass).Ok?
    ensures var r := CharNode(s, inClass);
      && Printable(r.value) && IsText(r.rest) && !r.value.Greedy? && (r.value.Chr? ==> r.value.c != '\0')
  {
    var r := CharNode(s, inClass);
    if Peek(s) == '\\' {
      assert s[1] in s && r.rest == s[2..];
    } else {
      assert s[0] in s && r.rest == s[1..];
    }
  }

  lemma EscapeText(s: string)
    requires IsText(s) && EscapeChar(s).Ok?
    ensures EscapeChar(s).value != '\0' && IsText(EscapeChar(s).rest)
  {
    var r := EscapeChar(s);
    if Peek(s) == '\\' {
      assert s[1] in s && r.rest == s[2..];
    } else {
      assert s[0] in s && r.rest == s[1..];
    }
  }

  predicate PrintableItems(items: seq<Item>) {
    forall i :: 0 <= i < |items| ==> PrintableItem(items[i])
  }

  lemma {:induction false} ItemsText(s: string, n: nat, first: Option<Pending>)
    requires IsText(s) && ClassItems(s, n, first).Ok? && PrintableItems(Flush(first))
    ensures var r := ClassItems(s, n, first); PrintableItems(r.value) && IsText(r.rest)
    decreases |s|
  {
    hide EscapeChar, CharNode, Printable;
    if Peek(s) == ']' {
    } else if Peek(s) == '-' && first.Some? {
      EscapeText(s[1..]);
      var t := EscapeChar(s[1..]);
      assert Flush(first)[0] == first.value.item;
      ItemsText(t.rest, n + 1, None);
    } else {
      CharText(s, true);
      var t := CharNode(s, true);
      ItemPrintable(t.value);
      ItemsText(t.rest, n + 1, Some(Pending(ItemOf(t.value), n)));
    }
  }

  lemma ItemPrintable(e: Elem)
    requires Printable(e) && (e.Chr? || e.CharClass?)
    ensures PrintableItem(ItemOf(e))
  {
  }

  lemma ClassText(s: string, n: nat)
    requires IsText(s) && ParseClass(s, n).Ok?
    ensures Printable(ParseClass(s, n).value) && IsText(ParseClass(s, n).rest)
  {
    hide ClassItems;
    var s' := if Peek(s) == '^' then s[1..] else s;
    ItemsText(s', n + 1, None);
  }

  lemma {:induction false} NumberText(s: string, ret: nat, positions: nat)
    requires IsText(s) && NumberFrom(s, ret, positions).Ok?
    ensures IsText(NumberFrom(s, ret, positions).rest)
    decreases |s|
  {
    if s != "" && IsDigit(s[0]) {
      NumberText(s[1..], ret * 10 + (s[0] as int - '0' as int), positions * 10);
    }
  }

  lemma CountsText(s: string)
    requires IsText(s) && ParseCounts(s).Ok?
    ensures IsText(ParseCounts(s).rest)
  {
    hide NumberFrom;
    if Peek(s) == '{' {
      var lo := s[1..];
      NumberText(lo[1..], lo[0] as int - '0' as int, 10);
      var more := ParseNumber(lo).rest;
      if Peek(more) == ',' && IsDigit(Peek(more[1..])) {
        NumberText(more[2..], more[1] as int - '0' as int, 10);
        assert more[1..][1..] == more[2..];
      }
    }
  }

  lemma {:induction false} BaseText(s: string, n: nat)
    requires IsText(s) && ParseBase(s, n).Ok?
    ensures var r := ParseBase(s, n); Printable(r.value) && !r.value.Greedy? && IsText(r.rest)
    decreases |s|, 0
  {
    hide CharNode, ParseClass, ParseList;
    match Peek(s)
    case '(' =>
      var plain := Peek(s[1..]) == '?';
      var front := if plain then Expect(s[2..], ':') else Ok((), s[1..]);
      ListText(front.rest, n + 1);
    case '[' => ClassText(s[1..], n);
    case '$' =>
    case '.' =>
    case _ => CharText(s, false);
  }

  lemma {:induction false} RepeatedText(s: string, n: nat)
    requires IsText(s) && ParseRepeated(s, n).Ok?
    ensures var r := ParseRepeated(s, n); Printable(r.value) && IsText(r.rest)
    decreases |s|, 1
  {
    hide ParseBase, ParseCounts;
    BaseText(s, n);
    CountsText(ParseBase(s, n).rest);
  }

  lemma {:induction false} ChainText(s: string, n: nat)
    requires IsText(s) && ParseChain(s, n).Ok?
    ensures var r := ParseChain(s, n); PrintableChain(r.value) && IsText(r.rest)
    decreases |s|, 2
  {
    hide ParseRepeated, Printable;
    RepeatedText(s, n);
    var e := ParseRepeated(s, n);
    if EndsChain(Peek(e.rest)) {
      assert [e.value][1..] == [];
    } else {
      ChainText(e.rest, n + Width(e.value));
      var later := ParseChain(e.rest, n + Width(e.value)).value;
      assert ([e.value] + later)[1..] == later;
    }
  }

  lemma {:induction false} AnchoredText(s: string, n: nat)
    requires IsText(s) && ParseAnchored(s, n).Ok?
    ensures var r := ParseAnchored(s, n); PrintableAnchored(r.value) && IsText(r.rest) && !r.value[0].Or?
    decreases |s|, 3
  {
    hide ParseChain;
    if Peek(s) == '^' {
      ChainText(s[1..], n + 1);
      var es := ParseChain(s[1..], n + 1).value;
      assert ([Bol] + es)[1..] == es;
    } else {
      ChainText(s, n);
      assert Printable(ParseChain(s, n).value[0]);
    }
  }

  lemma {:induction false} ListText(s: string, n: nat)
    requires IsText(s) && ParseList(s, n).Ok?
    ensures var r := ParseList(s, n); PrintableBody(r.value) && IsText(r.rest)
    decreases |s|, 4
  {
    hide ParseAnchored, PrintableAnchored;
    AnchoredText(s, n);
    var chain := ParseAnchored(s, n);
    if Peek(chain.rest) == '|' {
      var later := n + WidthSeq(chain.value) + 1;
      ListText(chain.rest[1..], later);
      assert [Or(chain.value, ParseList(chain.rest[1..], later).value)][1..] == [];
    }
  }

  /** Whatever a pattern denotes can be printed; reading that again yields the same tree, if its
      ranges fit where they now stand. */
  lemma PatternPrints(pattern: string)
    requires IsText(pattern) && ParsePattern(pattern).Ok?
    ensures var body := ParsePattern(pattern).value;
      PrintableBody(body) && ParsePattern(PrintBody(body)) == Read(FitsSeq(body, 1), body, "")
  {
    ListText(pattern, 1);
    PatternReadBack(ParsePattern(pattern).value);
  }
}
