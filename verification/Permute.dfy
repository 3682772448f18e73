/** `gcd` and `permute_args`: exchanging two adjacent blocks of `argv` in place. */
module Permute {
  import opened Cycles

  /** Euclid's loop.  Both callers' block lengths are positive, so `b` is never zero. */
  method Gcd(m: int, n: int) returns (g: int)
    requires m >= 0 && n > 0
    ensures IsGcd(g, m, n)
  {
    var a, b := m, n;
    var c := a % b;
    CommonDivisorsKept(a, b);
    while c != 0
      invariant a >= 0 && b > 0 && c == a % b
      invariant forall d :: d > 0 ==> (Divides(d, m) && Divides(d, n) <==> Divides(d, b) && Divides(d, c))
      decreases b
    {
      a := b;
      b := c;
      c := a % b;
      CommonDivisorsKept(a, b);
    }
    assert Divides(b, b) by { ModOfMultiple(b, 1); }
    return b;
  }

  lemma CommonDivisorsKept(a: int, b: int)
    requires b > 0
    ensures forall d :: d > 0 ==> (Divides(d, a) && Divides(d, b) <==> Divides(d, b) && Divides(d, a % b))
  {
    forall d | d > 0 ensures Divides(d, a) && Divides(d, b) <==> Divides(d, b) && Divides(d, a % b) {
      EuclidStep(a, b, d);
    }
  }

  /** `s` with its adjacent blocks `[lo, mid)` and `[mid, hi)` exchanged. */
  function Exchanged<T>(s: seq<T>, lo: nat, mid: nat, hi: nat): (r: seq<T>)
    requires lo <= mid <= hi <= |s|
    ensures |r| == |s|
  {
    s[..lo] + s[mid..hi] + s[lo..mid] + s[hi..]
  }

  /** Slot by slot: what was at offset `p` of the block is now at `Target(p)`. */
  lemma ExchangedAt<T>(s: seq<T>, lo: nat, mid: nat, hi: nat, p: int)
    requires lo < mid < hi <= |s| && 0 <= p < hi - lo
    ensures 0 <= Target(mid - lo, hi - mid, p) < hi - lo
    ensures Exchanged(s, lo, mid, hi)[lo + Target(mid - lo, hi - mid, p)] == s[lo + p]
  {
  }

  // ----- one cycle, as the sequence of slots it visits -----

  /** Where the content of slot `p` belongs once the blocks have been exchanged. */
  function Destination(lo: int, mid: int, hi: int, p: int): int {
    lo + Target(mid - lo, hi - mid, p - lo)
  }

  /** `c` lists the slots of one cycle of `Destination` in visiting order. */
  ghost predicate IsCycle(lo: int, mid: int, hi: int, c: seq<int>) {
    && |c| > 0
    && (forall j :: 0 <= j < |c| ==> lo <= c[j] < hi)
    && (forall j, k :: 0 <= j < k < |c| ==> c[j] != c[k])
    && (forall j :: 0 <= j < |c| - 1 ==> c[j + 1] == Destination(lo, mid, hi, c[j]))
    && Destination(lo, mid, hi, c[|c| - 1]) == c[0]
  }

  /** The slots in `done` hold their final content, all others are as they were. */
  ghost predicate Between<T>(now: seq<T>, was: seq<T>, goal: seq<T>, done: set<int>)
    requires |now| == |was| == |goal|
  {
    forall q :: 0 <= q < |now| ==> now[q] == if q in done then goal[q] else was[q]
  }

  /** Within cycle `c`: the slots its first `j` steps reached are final too, and its start slot
      carries the value to be put down next. */
  ghost predicate InCycle<T>(now: seq<T>, was: seq<T>, goal: seq<T>, done: set<int>, c: seq<int>, j: int)
    requires |now| == |was| == |goal| && 0 <= j < |c|
    requires forall k :: 0 <= k < |c| ==> 0 <= c[k] < |now|
  {
    && now[c[0]] == was[c[j]]
    && forall q :: 0 <= q < |now| && q != c[0] ==>
         now[q] == if q in done || q in c[1..j + 1] then goal[q] else was[q]
  }

  /** One swap of the inner loop that does not close the cycle. */
  lemma AdvanceCycle<T>(now: seq<T>, was: seq<T>, lo: nat, mid: nat, hi: nat, done: set<int>, c: seq<int>, j: int)
    requires lo < mid < hi <= |was| == |now| && IsCycle(lo, mid, hi, c) && 0 <= j < |c| - 1
    requires forall k :: 0 <= k < |c| ==> c[k] !in done
    requires InCycle(now, was, Exchanged(was, lo, mid, hi), done, c, j)
    ensures InCycle(now[c[j + 1] := now[c[0]]][c[0] := now[c[j + 1]]], was, Exchanged(was, lo, mid, hi), done, c, j + 1)
  {
    ExchangedAt(was, lo, mid, hi, c[j] - lo);
    var goal := Exchanged(was, lo, mid, hi);
    assert goal[c[j + 1]] == was[c[j]];
    hide *;
    PutDown(now, was, goal, done, c, j);
  }

  /** The start slot's value is put down in slot `c[j + 1]`, whose own value it takes up. */
  lemma PutDown<T>(now: seq<T>, was: seq<T>, goal: seq<T>, done: set<int>, c: seq<int>, j: int)
    requires |now| == |was| == |goal| && 0 <= j < |c| - 1
    requires forall k :: 0 <= k < |c| ==> 0 <= c[k] < |now| && c[k] !in done
    requires forall k, m :: 0 <= k < m < |c| ==> c[k] != c[m]
    requires goal[c[j + 1]] == was[c[j]] && InCycle(now, was, goal, done, c, j)
    ensures InCycle(now[c[j + 1] := now[c[0]]][c[0] := now[c[j + 1]]], was, goal, done, c, j + 1)
  {
    var pos := c[j + 1];
    assert c[1..j + 2] == c[1..j + 1] + [pos];
    assert pos !in c[1..j + 1];
  }

  /** The last swap of the inner loop exchanges the start slot with itself. */
  lemma LeaveCycle<T>(now: seq<T>, was: seq<T>, lo: nat, mid: nat, hi: nat, done: set<int>, c: seq<int>)
    requires lo < mid < hi <= |was| == |now| && IsCycle(lo, mid, hi, c)
    requires InCycle(now, was, Exchanged(was, lo, mid, hi), done, c, |c| - 1)
    ensures Between(now, was, Exchanged(was, lo, mid, hi), done + set q | q in c)
  {
    ExchangedAt(was, lo, mid, hi, c[|c| - 1] - lo);
    assert c == [c[0]] + c[1..|c|];
  }

  /** One swap of the inner loop: the start slot's value is exchanged with that of slot `pos`. */
  lemma SwapStep<T>(now: seq<T>, was: seq<T>, lo: nat, mid: nat, hi: nat, done: set<int>, c: seq<int>, j: int, pos: int)
    requires lo < mid < hi <= |was| == |now| && IsCycle(lo, mid, hi, c) && 0 <= j < |c|
    requires forall k :: 0 <= k < |c| ==> c[k] !in done
    requires InCycle(now, was, Exchanged(was, lo, mid, hi), done, c, j) && pos == Destination(lo, mid, hi, c[j])
    ensures lo <= c[0] < hi && lo <= pos < hi && pos == if j + 1 < |c| then c[j + 1] else c[0]
    ensures var now', goal := now[pos := now[c[0]]][c[0] := now[pos]], Exchanged(was, lo, mid, hi);
      if j + 1 < |c| then InCycle(now', was, goal, done, c, j + 1)
      else Between(now', was, goal, done + set q | q in c)
  {
    hide Destination, InCycle, Between, Exchanged;
    if j + 1 < |c| {
      AdvanceCycle(now, was, lo, mid, hi, done, c, j);
    } else {
      assert now[pos := now[c[0]]][c[0] := now[pos]] == now;
      LeaveCycle(now, was, lo, mid, hi, done, c);
    }
  }

  // ----- all cycles -----

  /** The number of the cycle that slot `q` of a block starting at `lo` is on. */
  ghost function CycleNumber(lo: int, g: int, q: int): int
    requires g > 0
  {
    (q - lo) % g
  }

  /** The slots of the first `i` cycles. */
  ghost function SlotsOfCycles(lo: int, hi: int, g: int, i: int): set<int>
    requires g > 0
  {
    set q | lo <= q < hi && CycleNumber(lo, g, q) < i
  }

  /** Stepping along the `i`-th cycle. */
  lemma CycleSlotStep(lo: int, mid: int, hi: int, i: int, j: int)
    requires lo < mid < hi
    ensures lo <= lo + CycleSlot(mid - lo, hi - mid, i, j) < hi
    ensures lo + CycleSlot(mid - lo, hi - mid, i, j + 1)
         == Destination(lo, mid, hi, lo + CycleSlot(mid - lo, hi - mid, i, j))
  {
    hide Orbit;
    OrbitStep(mid - lo, hi - mid, mid - lo + i, j);
  }

  lemma CycleSlotsDistinct(a: int, b: int, g: int, len: int, i: int, j: int, k: int)
    requires a > 0 && b > 0 && IsGcd(g, a, b) && len == (a + b) / g && 0 <= j < k < len
    ensures CycleSlot(a, b, i, j) != CycleSlot(a, b, i, k)
  {
    hide Orbit, IsGcd;
    if CycleSlot(a, b, i, j) == CycleSlot(a, b, i, k) {
      OrbitInjective(a, b, g, a + i, j, k);
    }
  }

  /** The slots of cycle `i`, in visiting order. */
  ghost function CycleSlots(lo: int, mid: int, hi: int, len: nat, i: int): seq<int>
    requires lo < mid < hi
  {
    seq(len, j => lo + CycleSlot(mid - lo, hi - mid, i, j))
  }

  /** The `i`-th cycle the outer loop follows is a cycle of `Destination` and starts at
      `panonopt_end + i`. */
  lemma CycleSlotsAreCycle(lo: int, mid: int, hi: int, g: int, len: int, i: int)
    requires lo < mid < hi && IsGcd(g, mid - lo, hi - mid) && 0 <= i < g && len == (hi - lo) / g
    ensures len > 0
    ensures var c := CycleSlots(lo, mid, hi, len, i); IsCycle(lo, mid, hi, c) && c[0] == mid + i
  {
    var a, b := mid - lo, hi - mid;
    DividesAtMost(g, b);
    OrbitReturns(a, b, g, a + i);
    OrbitStep(a, b, a + i, 0);
    assert a + b == hi - lo;
    assert CycleSlot(a, b, i, 0) == CycleSlot(a, b, i, len) == a + i;
    hide *;
    forall j, k | 0 <= j < k < len ensures CycleSlot(a, b, i, j) != CycleSlot(a, b, i, k) {
      CycleSlotsDistinct(a, b, g, len, i, j, k);
    }
    LoopIsCycle(lo, mid, hi, a, b, len, i);
  }

  /** Going back to the start for the first time after `len` steps makes a cycle. */
  lemma LoopIsCycle(lo: int, mid: int, hi: int, a: int, b: int, len: int, i: int)
    requires lo < mid < hi && a == mid - lo && b == hi - mid && len > 0
    requires CycleSlot(a, b, i, 0) == CycleSlot(a, b, i, len) == a + i
    requires forall j, k :: 0 <= j < k < len ==> CycleSlot(a, b, i, j) != CycleSlot(a, b, i, k)
    ensures var c := CycleSlots(lo, mid, hi, len, i); IsCycle(lo, mid, hi, c) && c[0] == mid + i
  {
    hide CycleSlot, Destination;
    forall j | 0 <= j < len
      ensures lo <= CycleSlots(lo, mid, hi, len, i)[j] < hi
    {
      CycleSlotStep(lo, mid, hi, i, j);
    }
    CycleSlotsTurn(lo, mid, hi, a, b, len, i);
  }

  /** Each slot is the destination of the one before it, the first that of the last. */
  lemma CycleSlotsTurn(lo: int, mid: int, hi: int, a: int, b: int, len: int, i: int)
    requires lo < mid < hi && a == mid - lo && b == hi - mid && len > 0
    requires CycleSlot(a, b, i, 0) == CycleSlot(a, b, i, len)
    ensures var c := CycleSlots(lo, mid, hi, len, i);
      && (forall j :: 0 <= j < len - 1 ==> c[j + 1] == Destination(lo, mid, hi, c[j]))
      && Destination(lo, mid, hi, c[len - 1]) == c[0]
  {
    hide CycleSlot, Destination;
    CycleSlotStep(lo, mid, hi, i, len - 1);
    var c := CycleSlots(lo, mid, hi, len, i);
    forall j | 0 <= j < len - 1 ensures c[j + 1] == Destination(lo, mid, hi, c[j]) {
      CycleSlotStep(lo, mid, hi, i, j);
    }
  }

  /** It visits exactly the slots numbered `i`. */
  lemma CycleSlotsCover(lo: int, mid: int, hi: int, g: int, len: int, i: int, q: int)
    requires lo < mid < hi && IsGcd(g, mid - lo, hi - mid) && 0 <= i < g && 0 < len == (hi - lo) / g
    requires lo <= q < hi
    ensures q in CycleSlots(lo, mid, hi, len, i) <==> CycleNumber(lo, g, q) == i
  {
    var a, b, c := mid - lo, hi - mid, CycleSlots(lo, mid, hi, len, i);
    OnCycleIff(a, b, g, i, q - lo);
    if OnCycle(a, b, len, i, q - lo) {
      var j :| 0 <= j < len && CycleSlot(a, b, i, j) == q - lo;
      assert c[j] == q;
    }
    if q in c {
      var j :| 0 <= j < len && c[j] == q;
      assert CycleSlot(a, b, i, j) == q - lo;
    }
  }

  /** The cycle followed in round `i`, and the slots it adds to those already done. */
  lemma NextCycle(lo: int, mid: int, hi: int, g: int, len: int, i: int) returns (c: seq<int>)
    requires lo < mid < hi && IsGcd(g, mid - lo, hi - mid) && 0 <= i < g && len == (hi - lo) / g
    ensures IsCycle(lo, mid, hi, c) && |c| == len > 0 && c[0] == mid + i
    ensures forall j :: 0 <= j < |c| ==> lo <= c[j] < hi
    ensures forall j :: 0 <= j < |c| ==> c[j] !in SlotsOfCycles(lo, hi, g, i)
    ensures SlotsOfCycles(lo, hi, g, i + 1) == SlotsOfCycles(lo, hi, g, i) + set q | q in c
  {
    CycleSlotsAreCycle(lo, mid, hi, g, len, i);
    c := CycleSlots(lo, mid, hi, len, i);
    forall q | lo <= q < hi
      ensures q in c <==> CycleNumber(lo, g, q) == i
    {
      CycleSlotsCover(lo, mid, hi, g, len, i, q);
    }
  }

  /** Exchange the block `[panonopt_start, panonopt_end)` with `[panonopt_end, opt_end)`. */
  method PermuteArgs<T>(panonopt_start: nat, panonopt_end: nat, opt_end: nat, nargv: array<T>)
    requires panonopt_start < panonopt_end < opt_end <= nargv.Length
    modifies nargv
    ensures nargv[..] == Exchanged(old(nargv[..]), panonopt_start, panonopt_end, opt_end)
  {
    var nnonopts := panonopt_end - panonopt_start;
    var nopts := opt_end - panonopt_end;
    var ncycle := Gcd(nnonopts, nopts);
    var cyclelen := (opt_end - panonopt_start) / ncycle;

    assert ncycle > 0;
    hide Exchanged, Between, InCycle, IsCycle, SlotsOfCycles, CycleSlots, IsGcd, Divides;
    ghost var was := nargv[..];
    ghost var lo, mid, hi := panonopt_start, panonopt_end, opt_end;
    ghost var goal := Exchanged(was, lo, mid, hi);
    ghost var done := SlotsOfCycles(lo, hi, ncycle, 0);
    for i := 0 to ncycle
      invariant done == SlotsOfCycles(lo, hi, ncycle, i)
      invariant Between(nargv[..], was, goal, done)
    {
      var cstart := panonopt_end + i;
      var pos := cstart;
      ghost var c := NextCycle(lo, mid, hi, ncycle, cyclelen, i);
      for j := 0 to cyclelen
        invariant pos == if j < cyclelen then c[j] else cstart
        invariant if j < cyclelen then InCycle(nargv[..], was, goal, done, c, j)
                  else Between(nargv[..], was, goal, done + set q | q in c)
      {
        ghost var now := nargv[..];
        if pos >= panonopt_end {
          pos := pos - nnonopts;
        } else {
          pos := pos + nopts;
        }
        SwapStep(now, was, lo, mid, hi, done, c, j, pos);
        var swap := nargv[pos];
        nargv[pos] := nargv[cstart];
        nargv[cstart] := swap;
        assert nargv[..] == now[pos := now[cstart]][cstart := now[pos]];
      }
      done := done + set q | q in c;
    }
  }
}
