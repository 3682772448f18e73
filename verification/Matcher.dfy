/** `trex_matchnode` on the compiled array, with its capture bookkeeping: it computes exactly what
    `Matching.MatchElem` says of the tree the array represents. */
module Matcher {
  import opened CType
  import opened Regex
  import opened Nodes
  import opened Matching
  import opened Determinism
  import opened PatternSyntax
  import opened Compiler

  /** `TRexMatch`; a `begin` of -1 is a null pointer. */
  datatype Capture = Capture(begin: int, len: int)

  /** A chain of nodes ends where its chain of elements does. */
  lemma ChainEnds(nodes: seq<Node>, k: int, es: seq<Elem>, ncap: nat)
    requires RepresentsSeq(nodes, k, es, ncap) && k != -1
    ensures es != [] && Live(nodes, k) && (nodes[k].next == -1 <==> es[1..] == [])
  {
    if es[1..] != [] {
      assert Represents(nodes, nodes[k].next, es[1], ncap);
    }
  }

  class Matcher {
    const nodes: seq<Node>
    const t: Text
    var matches: seq<Capture>
    var currsubexp: nat

    constructor (nodes: seq<Node>, nsubexpr: nat, t: Text)
      ensures this.nodes == nodes && this.t == t && |matches| == nsubexpr
    {
      this.nodes, this.t := nodes, t;
      matches, currsubexp := seq(nsubexpr, i => Capture(-1, 0)), 0;
    }

    /** `trex_matchclass`: the items from node `k` on. */
    method MatchClass(k: int, c: char, ghost items: seq<Item>) returns (b: bool)
      requires items != [] && RepresentsItems(nodes, k, items)
      ensures b == InItems(t.icase, items, c)
    {
      var n := k;
      ghost var done: nat := 0;
      while true
        invariant done < |items| && RepresentsItems(nodes, n, items[done..])
        invariant forall i :: 0 <= i < done ==> !InItem(t.icase, items[i], c)
        decreases |items| - done
      {
        var node := nodes[n];
        assert items[done..][0] == items[done];
        if node.kind == RANGE {
          if t.icase {
            if ToUpper(node.left as char) <= c <= ToUpper(node.right as char) {
              return true;
            }
            if ToLower(node.left as char) <= c <= ToLower(node.right as char) {
              return true;
            }
          } else if node.left <= c as int <= node.right {
            return true;
          }
        } else if node.kind == CCLASS {
          if InNamed(node.left as char, c) {
            return true;
          }
        } else if SameChar(t.icase, node.kind.c, c) {
          return true;
        }
        if node.next == -1 {
          return false;
        }
        n := node.next;
        assert items[done..][1..] == items[done + 1..];
        done := done + 1;
      }
    }

    /** Nodes `k` and `next` stand for the arguments of `MatchElem`. */
    ghost predicate Stands(k: int, next: int, e: Elem, sibs: seq<Elem>, nexts: seq<Elem>)
      reads this
    {
      && Represents(nodes, k, e, |matches|) && RepresentsSeq(nodes, nodes[k].next, sibs, |matches|)
      && RepresentsSeq(nodes, next, nexts, |matches|) && Linked(sibs, nexts)
    }

    /** `trex_matchnode` */
    method MatchNode(k: int, str: nat, next: int, ghost e: Elem, ghost sibs: seq<Elem>, ghost nexts: seq<Elem>)
      returns (r: int)
      requires Stands(k, next, e, sibs, nexts)
      modifies this
      ensures |matches| == old(|matches|)
      ensures r == MatchElem(t, e, sibs, nexts, str)
      decreases Size(e) + SizeSeq(Following(sibs, nexts)), 1, 0
    {
      var node := nodes[k];
      match node.kind {
        case GREEDY => r := MatchGreedy(k, str, next, e, sibs, nexts);
        case OR =>
          r := MatchChain(node.left, str, e.left);
          if r < 0 {
            r := MatchChain(node.right, str, e.right);
          }
        case EXPR => r := MatchGroup(k, str, next, e, nexts);
        case NOCAPEXPR => r := MatchGroup(k, str, next, e, nexts);
        case WB => return if t.AtBoundary(str) == (node.left == 'b' as int) then str else -1;
        case BOL => return if str == 0 then str else -1;
        case EOL => return if str == |t.s| then str else -1;
        case DOT => return str + 1;
        case NCLASS =>
          var b := MatchClass(node.left, t.At(str), e.items);
          return if !b then str + 1 else -1;
        case CLASS =>
          var b := MatchClass(node.left, t.At(str), e.items);
          return if b then str + 1 else -1;
        case CCLASS => return if InNamed(node.left as char, t.At(str)) then str + 1 else -1;
        case Literal(c) => return if SameChar(t.icase, c, t.At(str)) then str + 1 else -1;
        case RANGE => assert false;
      }
    }

    /** The case OP_EXPR or OP_NOCAPEXPR, with the bookkeeping of captures. */
    method MatchGroup(k: int, str: nat, next: int, ghost e: Elem, ghost nexts: seq<Elem>) returns (r: int)
      requires e.Group? && Represents(nodes, k, e, |matches|) && RepresentsSeq(nodes, next, nexts, |matches|)
      modifies this
      ensures |matches| == old(|matches|)
      ensures r == MatchBody(t, e.body, nexts, str)
      decreases Size(e) + SizeSeq(nexts), 0, 0
    {
      var n, capture := nodes[k].left, -1;
      var cur: nat := str;
      if nodes[k].kind != NOCAPEXPR && nodes[k].right == currsubexp {
        capture := currsubexp;
        matches := matches[capture := matches[capture].(begin := cur)];
        currsubexp := currsubexp + 1;
      }
      ghost var rest := e.body;
      while true
        invariant |matches| == old(|matches|)
        invariant rest != [] && SizeSeq(rest) <= SizeSeq(e.body) && RepresentsSeq(nodes, n, rest, |matches|)
        invariant capture != -1 ==> 0 <= capture < |matches|
        invariant MatchBody(t, rest, nexts, cur) == MatchBody(t, e.body, nexts, str)
        decreases |rest|
      {
        var subnext := if nodes[n].next != -1 then nodes[n].next else next;
        var end := MatchNode(n, cur, subnext, rest[0], rest[1..], Following(rest[1..], nexts));
        if end < 0 {
          if capture != -1 {
            matches := matches[capture := Capture(-1, 0)];
          }
          return -1;
        }
        cur := end;
        if nodes[n].next == -1 {
          ChainEnds(nodes, n, rest, |matches|);
          break;
        }
        n := nodes[n].next;
        rest := rest[1..];
      }
      if capture != -1 {
        matches := matches[capture := matches[capture].(len := cur - matches[capture].begin)];
      }
      return cur;
    }

    /** One of the two loops of the case OP_OR. */
    method MatchChain(k: int, str: nat, ghost chain: seq<Elem>) returns (r: int)
      requires chain != [] && RepresentsSeq(nodes, k, chain, |matches|)
      modifies this
      ensures |matches| == old(|matches|)
      ensures r == MatchAlternative(t, chain, str)
      decreases SizeSeq(chain), 2, 0
    {
      var temp := k;
      var asd: nat := str;
      ghost var rest := chain;
      while true
        invariant |matches| == old(|matches|)
        invariant rest != [] && SizeSeq(rest) <= SizeSeq(chain) && RepresentsSeq(nodes, temp, rest, |matches|)
        invariant MatchAlternative(t, rest, asd) == MatchAlternative(t, chain, str)
        decreases |rest|
      {
        var end := MatchNode(temp, asd, -1, rest[0], rest[1..], []);
        if end < 0 {
          return -1;
        }
        asd := end;
        if nodes[temp].next == -1 {
          ChainEnds(nodes, temp, rest, |matches|);
          return asd;
        }
        temp := nodes[temp].next;
        rest := rest[1..];
      }
    }

    /** Inside the loop of OP_GREEDY: would what follows the repetition match at `s`?  The element
        after that one is its own sibling: what `next` links to is never needed. */
    method StopMatches(greedystop: int, next: int, s: nat, ghost sibs: seq<Elem>, ghost nexts: seq<Elem>)
      returns (b: bool)
      requires RepresentsSeq(nodes, greedystop, Following(sibs, nexts), |matches|)
      requires RepresentsSeq(nodes, next, nexts, |matches|) && Linked(sibs, nexts)
      modifies this
      ensures |matches| == old(|matches|)
      ensures b == WouldStop(t, Following(sibs, nexts), s)
      decreases 1 + SizeSeq(Following(sibs, nexts)), 0, 0
    {
      ghost var stop := Following(sibs, nexts);
      if greedystop == -1 {
        assert stop == [];
        return false;
      }
      ChainEnds(nodes, greedystop, stop, |matches|);
      if nodes[greedystop].kind == GREEDY && HighCount(nodes[greedystop].right) == 0 {
        CountsRecovered(stop[0].p0, stop[0].p1);
        return false;
      }
      if stop[0].Greedy? {
        CountsRecovered(stop[0].p0, stop[0].p1);
      }
      if next != -1 {
        ChainEnds(nodes, next, nexts, |matches|);
      }
      var gnext := -1;
      if nodes[greedystop].next != -1 {
        gnext := nodes[greedystop].next;
      } else if next != -1 && nodes[next].next != -1 {
        assert false;
      }
      var ahead := MatchNode(greedystop, s, gnext, stop[0], stop[1..], stop[1..]);
      return ahead >= 0;
    }

    /** The case OP_GREEDY: repeat, until the element that follows would match. */
    method MatchGreedy(k: int, str: nat, next: int, ghost e: Elem, ghost sibs: seq<Elem>, ghost nexts: seq<Elem>)
      returns (r: int)
      requires e.Greedy? && Stands(k, next, e, sibs, nexts)
      modifies this
      ensures |matches| == old(|matches|)
      ensures r == Repeat(t, e.p0, e.p1, e.elem, Following(sibs, nexts), str, 0)
      decreases Size(e) + SizeSeq(Following(sibs, nexts)), 0, 1
    {
      hide MatchElem, WouldStop;
      var node := nodes[k];
      CountsRecovered(e.p0, e.p1);
      var p0, p1 := HighCount(node.right), LowCount(node.right);
      var greedystop := if node.next != -1 then node.next else next;
      ghost var stop := Following(sibs, nexts);
      ghost var goal := Repeat(t, p0, p1, e.elem, stop, str, 0);
      assert RepresentsSeq(nodes, greedystop, stop, |matches|);
      var nmaches: nat, good: nat := 0, str;
      while nmaches == 0xFFFF || nmaches < p1
        invariant |matches| == old(|matches|) && nmaches <= 0x1_0000
        invariant Repeat(t, p0, p1, e.elem, stop, good, nmaches) == goal
        decreases 0x1_0000 - nmaches
      {
        var s := MatchNode(node.left, good, greedystop, e.elem, [], stop);
        if s < 0 {
          break;
        }
        nmaches := nmaches + 1;
        good := s;
        var stopped := StopMatches(greedystop, next, s, sibs, nexts);
        if stopped && Satisfied(p0, p1, nmaches) {
          break;
        }
        if s >= |t.s| {
          break;
        }
      }
      return if Satisfied(p0, p1, nmaches) then good else -1;
    }

    /** `trex_match` */
    method Match(ghost root: Elem) returns (b: bool)
      requires Represents(nodes, 0, root, |matches|) && nodes[0].next == -1
      modifies this
      ensures b == Accepts(t, root)
    {
      currsubexp := 0;
      var res := MatchNode(0, 0, -1, root, [], []);
      return res == |t.s|;
    }
  }

  /** The next character always decides what the pattern does, up to the end of the text. */
  ghost predicate Decided(icase: bool, root: Elem) {
    Determined(icase, root, [], []) && EndsWell(icase, root)
  }

  /** Compile a pattern and match a text against it.  When both succeed, the whole text is in the
      language of the pattern's tree; and the answer is that of the tree matcher, so what the
      capture bookkeeping did on the way has no influence on it.  For a determined pattern the
      answer is whether the text is described within the limits of its loops. */
  method CompileAndMatch(pattern: string, t: Text) returns (r: Jump<bool>)
    requires pattern != ""
    ensures ParsePattern(pattern).Fail? ==> r == Thrown(ParsePattern(pattern).error)
    ensures ParsePattern(pattern).Ok? ==> var root := Group(true, ParsePattern(pattern).value);
      && r == Done(Accepts(t, root))
      && (r == Done(true) ==> InLimits(t, root, 0, |t.s|) && Matches(t, root))
      && (Decided(t.icase, root) ==> r == Done(InLimits(t, root, 0, |t.s|)))
  {
    var exp :- Compile(pattern);
    ghost var root := Group(true, ParsePattern(pattern).value);
    assert Holds(exp.nodes, 0, Emit(root, 0, 0, -1)) by {
      assert exp.nodes[0..0 + |exp.nodes|] == exp.nodes;
    }
    EmitRepresents(exp.nodes, root, 0, 0, -1, exp.nsubexpr);
    var m := new Matcher(exp.nodes, exp.nsubexpr, t);
    var b := m.Match(root);
    if b {
      AcceptsSound(t, root);
    }
    if Decided(t.icase, root) {
      DeterminedAcceptsIff(t, root);
    }
    return Done(b);
  }
}
