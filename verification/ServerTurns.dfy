/** Round robin: whose turn it is, over whole runs. */
module ServerTurns {
  import opened Server
  import opened ServerRegistry
  import opened ServerOrder
  import opened ServerRuns
  import opened Wrappers

  /** The phone that gets the buffer in this event. */
  ghost function Turn<L, C>(s: State<L, C>, e: Event<L, C>): (turn: Option<L>)
    ensures turn.Some? ==> turn.value in s.responders
  {
    if e.Deliver? && e.tag == Manager && s.policy == NP_ROUND_ROBIN && s.buffer != [] && s.responders != []
    then Some(s.responders[NextIndex(s.responders, s.lastResponder)])
    else None
  }

  /** The phones that got a batch during a run, in order. */
  ghost function Turns<L, C>(s: State<L, C>, events: seq<Event<L, C>>): seq<L>
    requires Possible(s, events)
    decreases |events|
  {
    if events == [] then []
    else
      var turn := Turn(s, events[0]);
      (if turn.Some? then [turn.value] else []) + Turns(Step(s, events[0]), events[1..])
  }

  /** The phone whose turn it is gets the whole buffer, and nobody else gets anything; apart from
      that, events leave the cursor alone, and a phone can join the list only at its end. */
  lemma TurnTaken<L, C>(s: State<L, C>, e: Event<L, C>)
    requires Inv(s) && Enabled(s, e) && s.policy == NP_ROUND_ROBIN
    ensures var s', turn := Step(s, e), Turn(s, e);
      && s'.policy == NP_ROUND_ROBIN
      && (turn.Some? ==>
            && s'.responders == s.responders && s'.lastResponder == turn && s'.buffer == []
            && s'.log == s.log + LogTo(s.buffer, ToPhone(turn.value)))
      && (turn.None? ==>
            && s'.lastResponder == s.lastResponder
            && (s'.responders == s.responders
                || (exists id :: s'.responders == s.responders + [id])
                || (exists id :: id in s.responders && s'.responders == Without(s.responders, id))))
  {
    match e
    case HangUp(_) =>
    case Deliver(tag, _, _, _) =>
      match tag
      case Manager => ManagerTurn(s, e);
      case Unary(id) => CallTurn(s, e);
      case Listen(id) => ListenerTurn(s, e);
  }

  lemma ManagerTurn<L, C>(s: State<L, C>, e: Event<L, C>)
    requires Inv(s) && Enabled(s, e) && s.policy == NP_ROUND_ROBIN && e.Deliver? && e.tag == Manager
    ensures var s', turn := Step(s, e), Turn(s, e);
      && s'.policy == s.policy && s'.responders == s.responders
      && s'.lastResponder == (if turn.Some? then turn else s.lastResponder)
      && (turn.Some? ==> s'.buffer == [] && s'.log == s.log + LogTo(s.buffer, ToPhone(turn.value)))
  {
    hide NextIndex, ProceedListener, ProceedCall, LogTo;
    var s1 := s.(tags := s.tags - multiset{Manager});
    assert Step(s, e) == ProceedManager(s1);
  }

  lemma CallTurn<L, C>(s: State<L, C>, e: Event<L, C>)
    requires Inv(s) && Enabled(s, e) && e.Deliver? && e.tag.Unary?
    ensures var s' := Step(s, e);
      s'.policy == s.policy && s'.responders == s.responders && s'.lastResponder == s.lastResponder
  {
    hide ProceedManager, ProceedListener, Serve, TagsAccounted, OneAcceptor;
    ServeElsewhere(s.(tags := s.tags - multiset{e.tag}), s.calls[e.tag.call].rpc, e.request);
  }

  lemma ListenerTurn<L, C>(s: State<L, C>, e: Event<L, C>)
    requires Inv(s) && Enabled(s, e) && e.Deliver? && e.tag.Listen?
    ensures var s' := Step(s, e);
      && s'.policy == s.policy && s'.lastResponder == s.lastResponder
      && (s'.responders == s.responders || s'.responders == s.responders + [e.tag.listener]
          || (e.tag.listener in s.responders && s'.responders == Without(s.responders, e.tag.listener)))
  {
    hide ProceedManager, ProceedCall;
    assert Sound(s.listeners[e.tag.listener]);
    assert Connected(s.listeners[e.tag.listener]) ==> e.tag.listener in s.responders;
  }

  // ----- nobody joins or leaves -----

  ghost predicate SameResponders<L, C>(s: State<L, C>, events: seq<Event<L, C>>)
    requires Possible(s, events)
    decreases |events|
  {
    events != [] ==> Step(s, events[0]).responders == s.responders && SameResponders(Step(s, events[0]), events[1..])
  }

  /** The position after `i` on a ring of `n`. */
  function Succ(i: nat, n: nat): nat {
    if i + 1 == n then 0 else i + 1
  }

  /** `turns` goes round `ring`, from position `first` on, leaving nobody out. */
  ghost predicate Rounds<T>(ring: seq<T>, first: nat, turns: seq<T>)
    decreases |turns|
  {
    turns != [] ==> first < |ring| && turns[0] == ring[first] && Rounds(ring, Succ(first, |ring|), turns[1..])
  }

  lemma NextAfter<L>(responders: seq<L>, i: nat)
    requires Distinct(responders) && i < |responders|
    ensures NextIndex(responders, Some(responders[i])) == Succ(i, |responders|)
  {
    assert Find(responders, responders[i]) == i;
  }

  /** While the list of phones stays as it is, the turns go round it, from the cursor on. */
  lemma {:induction false} GoesRound<L, C>(s: State<L, C>, events: seq<Event<L, C>>)
    requires Inv(s) && Possible(s, events) && s.policy == NP_ROUND_ROBIN && SameResponders(s, events)
    ensures Turns(s, events) == [] || s.responders != []
    ensures s.responders != [] ==> Rounds(s.responders, NextIndex(s.responders, s.lastResponder), Turns(s, events))
    decreases |events|
  {
    hide Step, Inv, NextIndex;
    if events != [] {
      var s1 := Step(s, events[0]);
      StepInv(s, events[0]);
      TurnTaken(s, events[0]);
      GoesRound(s1, events[1..]);
      if Turn(s, events[0]).Some? {
        ListDistinct(s);
        NextAfter(s.responders, NextIndex(s.responders, s.lastResponder));
        assert Turns(s, events)[1..] == Turns(s1, events[1..]);
      } else {
        assert Turns(s, events) == Turns(s1, events[1..]);
      }
    }
  }

  // ----- counting turns -----

  ghost function Count<T>(s: seq<T>, x: T): nat {
    multiset(s)[x]
  }

  lemma {:induction false} RoundsTake<T>(ring: seq<T>, first: nat, turns: seq<T>, k: nat)
    requires Rounds(ring, first, turns) && k <= |turns|
    ensures Rounds(ring, first, turns[..k])
    decreases k
  {
    if k > 0 {
      RoundsTake(ring, Succ(first, |ring|), turns[1..], k - 1);
      assert turns[..k][1..] == turns[1..][..k - 1];
    }
  }

  lemma {:induction false} RoundsDrop<T>(ring: seq<T>, first: nat, turns: seq<T>, k: nat) returns (next: nat)
    requires Rounds(ring, first, turns) && k <= |turns| && first < |ring|
    ensures Rounds(ring, next, turns[k..]) && next < |ring|
    decreases k
  {
    if k == 0 {
      assert turns[0..] == turns;
      return first;
    }
    next := RoundsDrop(ring, Succ(first, |ring|), turns[1..], k - 1);
    assert turns[1..][k - 1..] == turns[k..];
  }

  lemma {:induction false} StraightOn<T>(ring: seq<T>, first: nat, turns: seq<T>, k: nat) returns (next: nat)
    requires Rounds(ring, first, turns) && k <= |turns| && first < |ring| && first + k <= |ring|
    ensures Rounds(ring, next, turns[k..]) && next == if first + k == |ring| then 0 else first + k
    ensures turns[..k] == ring[first..first + k]
    decreases k
  {
    if k == 0 {
      assert turns[0..] == turns;
      return first;
    }
    if first + 1 == |ring| {
      return 0;
    }
    next := StraightOn(ring, first + 1, turns[1..], k - 1);
    assert turns[1..][k - 1..] == turns[k..];
    assert turns[..k] == [turns[0]] + turns[1..][..k - 1];
  }

  lemma Rotated<T>(ring: seq<T>, first: nat)
    requires first <= |ring|
    ensures multiset(ring[first..] + ring[..first]) == multiset(ring)
  {
    assert ring == ring[..first] + ring[first..];
  }

  /** One full round reaches everyone exactly once, and ends where it began. */
  lemma FullRound<T>(ring: seq<T>, first: nat, turns: seq<T>)
    requires Rounds(ring, first, turns) && first < |ring| && |ring| <= |turns|
    ensures multiset(turns[..|ring|]) == multiset(ring)
    ensures Rounds(ring, first, turns[|ring|..])
  {
    hide Rounds;
    var a := |ring| - first;
    var next := StraightOn(ring, first, turns, a);
    next := StraightOn(ring, 0, turns[a..], first);
    assert turns[a..][first..] == turns[|ring|..];
    assert turns[..|ring|] == turns[..a] + turns[a..][..first] == ring[first..] + ring[..first];
    Rotated(ring, first);
  }

  lemma CountDistinct<T>(s: seq<T>, x: T)
    requires Distinct(s)
    ensures Count(s, x) == if x in s then 1 else 0
    decreases |s|
  {
    if s != [] {
      assert s == s[..|s| - 1] + [s[|s| - 1]];
      CountDistinct(s[..|s| - 1], x);
    }
  }

  /** Less than a round reaches nobody twice. */
  lemma ShortWindow<T>(ring: seq<T>, first: nat, turns: seq<T>, x: T)
    requires Distinct(ring) && Rounds(ring, first, turns) && first < |ring| && |turns| <= |ring|
    ensures Count(turns, x) <= 1
  {
    hide Rounds, Count;
    var a := |ring| - first;
    if |turns| <= a {
      var _ := StraightOn(ring, first, turns, |turns|);
      assert turns[..|turns|] == turns;
      SliceDistinct(ring, first, first + |turns|);
      CountDistinct(turns, x);
    } else {
      var b := |turns| - a;
      var next := StraightOn(ring, first, turns, a);
      next := StraightOn(ring, 0, turns[a..], b);
      assert turns[a..][..b] == turns[a..];
      Split(ring, turns, b, first, x);
    }
  }

  lemma SliceDistinct<T>(s: seq<T>, i: nat, j: nat)
    requires Distinct(s) && i <= j <= |s|
    ensures Distinct(s[i..j])
  {
  }

  lemma Split<T>(ring: seq<T>, turns: seq<T>, b: nat, first: nat, x: T)
    requires b <= first <= |ring| && |turns| == |ring| - first + b
    requires turns[..|ring| - first] == ring[first..] && turns[|ring| - first..] == ring[..b]
    requires Distinct(ring)
    ensures Count(turns, x) <= 1
  {
    var u, v, w := ring[..b], ring[b..first], ring[first..];
    assert turns == turns[..|w|] + turns[|w|..] == w + u;
    assert ring == u + v + w;
    CountDistinct(ring, x);
  }

  /** In any window of turns, two phones' counts differ by at most one. */
  lemma {:induction false} FairWindow<T>(ring: seq<T>, first: nat, turns: seq<T>, a: T, b: T)
    requires Distinct(ring) && Rounds(ring, first, turns) && first < |ring| && a in ring && b in ring
    ensures Count(turns, a) <= Count(turns, b) + 1
    decreases |turns|
  {
    if |turns| < |ring| {
      ShortWindow(ring, first, turns, a);
    } else {
      FullRound(ring, first, turns);
      CountDistinct(ring, a);
      CountDistinct(ring, b);
      FairWindow(ring, first, turns[|ring|..], a, b);
      assert turns == turns[..|ring|] + turns[|ring|..];
    }
  }

  /** Nobody joins or leaves: `n` turns over `n` phones reach each exactly once, and in any window
      the counts of two phones differ by at most one. */
  lemma RoundRobinFair<L, C>(s: State<L, C>, events: seq<Event<L, C>>, i: nat, j: nat)
    requires Inv(s) && Possible(s, events) && s.policy == NP_ROUND_ROBIN && SameResponders(s, events)
    requires i <= j <= |Turns(s, events)|
    ensures j - i == |s.responders| ==> multiset(Turns(s, events)[i..j]) == multiset(s.responders)
    ensures forall a, b :: a in s.responders && b in s.responders ==>
      Count(Turns(s, events)[i..j], a) <= Count(Turns(s, events)[i..j], b) + 1
  {
    GoesRound(s, events);
    ListDistinct(s);
    hide *;
    if s.responders == [] {
      NoTurns(s.responders, Turns(s, events)[i..j]);
    } else {
      RoundsFair(s.responders, NextIndex(s.responders, s.lastResponder), Turns(s, events), i, j);
    }
  }

  lemma NoTurns<T>(ring: seq<T>, window: seq<T>)
    requires ring == window == []
    ensures multiset(window) == multiset(ring)
  {
  }

  lemma RoundsFair<T>(ring: seq<T>, first: nat, turns: seq<T>, i: nat, j: nat)
    requires Distinct(ring) && Rounds(ring, first, turns) && first < |ring| && i <= j <= |turns|
    ensures j - i == |ring| ==> multiset(turns[i..j]) == multiset(ring)
    ensures forall a, b :: a in ring && b in ring ==> Count(turns[i..j], a) <= Count(turns[i..j], b) + 1
  {
    hide *;
    var next := RoundsDrop(ring, first, turns, i);
    RoundsTake(ring, next, turns[i..], j - i);
    var window := turns[i..j];
    assert turns[i..][..j - i] == window;
    if j - i == |ring| {
      FullRound(ring, next, window);
      assert window[..|ring|] == window;
    }
    forall a, b | a in ring && b in ring ensures Count(window, a) <= Count(window, b) + 1 {
      FairWindow(ring, next, window, a, b);
    }
  }

  // ----- phones only join -----

  ghost predicate OnlyJoins<L, C>(s: State<L, C>, events: seq<Event<L, C>>)
    requires Possible(s, events)
    decreases |events|
  {
    events != [] ==>
      |s.responders| <= |Step(s, events[0]).responders| && OnlyJoins(Step(s, events[0]), events[1..])
  }

  /** How many turns others have before the phone at position `i` has its own. */
  ghost function Wait<L>(responders: seq<L>, last: Option<L>, i: nat): nat
    requires i < |responders|
  {
    var first := NextIndex(responders, last);
    if first <= i then i - first else |responders| - first + i
  }

  lemma WaitTurn<L>(responders: seq<L>, last: Option<L>, i: nat)
    requires Distinct(responders) && i < |responders|
    ensures var first := NextIndex(responders, last);
      first == i || Wait(responders, Some(responders[first]), i) + 1 == Wait(responders, last, i)
  {
    NextAfter(responders, NextIndex(responders, last));
  }

  lemma WaitJoin<L>(responders: seq<L>, last: Option<L>, i: nat, id: L)
    requires i < |responders|
    ensures Wait(responders + [id], last, i) <= Wait(responders, last, i) + 1
  {
    if last.Some? {
      FindJoin(responders, last.value, id);
    }
  }

  lemma {:induction false} FindJoin<L>(responders: seq<L>, x: L, id: L)
    ensures x in responders ==> Find(responders + [id], x) == Find(responders, x)
    ensures x !in responders ==> Find(responders + [id], x) >= |responders|
    decreases |responders|
  {
    if responders != [] {
      assert (responders + [id])[1..] == responders[1..] + [id];
      FindJoin(responders[1..], x, id);
    }
  }

  /** A phone that has not had its turn has moved up by one with every turn of another, except for
      one place for each phone that joined. */
  lemma {:induction false} MovesUp<L, C>(s: State<L, C>, events: seq<Event<L, C>>, i: nat)
    requires Inv(s) && Possible(s, events) && s.policy == NP_ROUND_ROBIN && OnlyJoins(s, events)
    requires i < |s.responders| && s.responders[i] !in Turns(s, events)
    ensures var s' := After(s, events);
      && s.responders <= s'.responders
      && Wait(s'.responders, s'.lastResponder, i) + |Turns(s, events)|
         <= Wait(s.responders, s.lastResponder, i) + (|s'.responders| - |s.responders|)
    decreases |events|
  {
    hide Step, Inv, NextIndex, Wait;
    if events != [] {
      var s1 := Step(s, events[0]);
      StepInv(s, events[0]);
      TurnTaken(s, events[0]);
      ListDistinct(s);
      if Turn(s, events[0]).Some? {
        assert Turns(s, events) == [Turn(s, events[0]).value] + Turns(s1, events[1..]);
        WaitTurn(s.responders, s.lastResponder, i);
      } else {
        assert Turns(s, events) == [] + Turns(s1, events[1..]);
        if s1.responders != s.responders {
          if id :| id in s.responders && s1.responders == Without(s.responders, id) {
            WithoutLength(s.responders, id);
            assert false;
          }
          var id :| s1.responders == s.responders + [id];
          WaitJoin(s.responders, s.lastResponder, i, id);
        }
      }
      assert s.responders <= s1.responders;
      MovesUp(s1, events[1..], i);
    }
  }

  lemma ListDistinct<L, C>(s: State<L, C>)
    requires Inv(s)
    ensures Distinct(s.responders)
  {
  }

  /** Phones only join: every phone that was there at the start has its turn within as many turns
      as there are phones at the end. */
  lemma EveryoneServed<L, C>(s: State<L, C>, events: seq<Event<L, C>>, id: L)
    requires Inv(s) && Possible(s, events) && s.policy == NP_ROUND_ROBIN && OnlyJoins(s, events)
    requires id in s.responders && |Turns(s, events)| >= |After(s, events).responders|
    ensures id in Turns(s, events)
  {
    if id !in Turns(s, events) {
      var i :| 0 <= i < |s.responders| && s.responders[i] == id;
      MovesUp(s, events, i);
      hide *;
      WaitBounded(s.responders, s.lastResponder, i);
    }
  }

  lemma WaitBounded<L>(responders: seq<L>, last: Option<L>, i: nat)
    requires i < |responders|
    ensures Wait(responders, last, i) < |responders|
  {
  }

  // ----- phones join and leave -----

  /** The phone is in the list all the time. */
  ghost predicate Stays<L, C>(s: State<L, C>, events: seq<Event<L, C>>, id: L)
    requires Possible(s, events)
    decreases |events|
  {
    id in s.responders && (events != [] ==> Stays(Step(s, events[0]), events[1..], id))
  }

  ghost function Joins<L, C>(s: State<L, C>, events: seq<Event<L, C>>): nat
    requires Possible(s, events)
    decreases |events|
  {
    if events == [] then 0
    else (if |Step(s, events[0]).responders| > |s.responders| then 1 else 0) + Joins(Step(s, events[0]), events[1..])
  }

  /** 0 + 1 + ... + (n - 1) */
  function Triangle(n: nat): nat {
    if n == 0 then 0 else n - 1 + Triangle(n - 1)
  }

  /** How many turns others can have before this phone has its own, if nobody joins.  When the phone
      under the cursor leaves, the round starts again; if that phone stood before this one, this one
      has moved up for it. */
  ghost function Patience<L>(responders: seq<L>, last: Option<L>, id: L): nat
    requires id in responders
  {
    var i := Find(responders, id);
    Wait(responders, last, i) + Triangle(i)
  }

  lemma PatienceTurn<L>(responders: seq<L>, last: Option<L>, id: L)
    requires Distinct(responders) && id in responders && responders[NextIndex(responders, last)] != id
    ensures Patience(responders, Some(responders[NextIndex(responders, last)]), id) + 1
      == Patience(responders, last, id)
  {
    WaitTurn(responders, last, Find(responders, id));
  }

  lemma PatienceJoin<L>(responders: seq<L>, last: Option<L>, id: L, other: L)
    requires id in responders
    ensures Patience(responders + [other], last, id) <= Patience(responders, last, id) + 1
  {
    hide Wait;
    FindJoin(responders, id, other);
    WaitJoin(responders, last, Find(responders, id), other);
  }

  lemma FindAt<L>(s: seq<L>, k: nat)
    requires Distinct(s) && k < |s|
    ensures Find(s, s[k]) == k
  {
    assert s[k] in s;
  }

  lemma FindWithout<L>(responders: seq<L>, x: L, y: L)
    requires Distinct(responders) && x in responders && y in responders && x != y
    ensures var i, j := Find(responders, x), Find(responders, y);
      Find(Without(responders, x), y) == if i < j then j - 1 else j
  {
    var i, j, w := Find(responders, x), Find(responders, y), Without(responders, x);
    assert w == responders[..i] + responders[i + 1..];
    hide *;
    assert i != j;
    RemovedAt(responders, i, j);
    assert Distinct(w) by {
      WithoutIs(responders, x);
    }
    FindAt(w, if i < j then j - 1 else j);
  }

  lemma RemovedAt<L>(s: seq<L>, i: nat, j: nat)
    requires i < |s| && j < |s| && i != j
    ensures var w, k := s[..i] + s[i + 1..], if i < j then j - 1 else j; k < |w| && w[k] == s[j]
  {
  }

  /** The position under the cursor; -1 if there is none. */
  ghost function Cursor<L>(responders: seq<L>, last: Option<L>): int {
    if last.None? || last.value !in responders then -1 else Find(responders, last.value)
  }

  /** `Wait` and `Patience`, by position. */
  function WaitAt(n: nat, cursor: int, i: nat): int {
    var first := if cursor < 0 || cursor + 1 == n then 0 else cursor + 1;
    if first <= i then i - first else n - first + i
  }

  lemma WaitIsAt<L>(responders: seq<L>, last: Option<L>, i: nat)
    requires i < |responders|
    ensures Wait(responders, last, i) == WaitAt(|responders|, Cursor(responders, last), i)
  {
  }

  /** Position `r` becomes vacant. */
  lemma LeaveAt(n: nat, cursor: int, i: nat, r: nat)
    requires i < n && r < n && i != r && -1 <= cursor < n
    ensures var i' := if r < i then i - 1 else i;
      var c' := if cursor == r then -1 else if r < cursor then cursor - 1 else cursor;
      WaitAt(n - 1, c', i') + Triangle(i') <= WaitAt(n, cursor, i) + Triangle(i)
  {
    if r < i {
      assert Triangle(i) == i - 1 + Triangle(i - 1);
    }
  }

  lemma CursorLeaves<L>(responders: seq<L>, last: Option<L>, other: L)
    requires Distinct(responders) && other in responders
    ensures var c, r := Cursor(responders, last), Find(responders, other);
      Cursor(Without(responders, other), last) == if c == r then -1 else if r < c then c - 1 else c
  {
    WithoutIs(responders, other);
    hide Without, Distinct;
    if last.Some? && last.value in responders && last.value != other {
      FindWithout(responders, other, last.value);
    }
  }

  lemma PatienceLeave<L>(responders: seq<L>, last: Option<L>, id: L, other: L)
    requires Distinct(responders) && id in responders && other in responders && other != id
    ensures id in Without(responders, other)
    ensures Patience(Without(responders, other), last, id) <= Patience(responders, last, id)
  {
    hide *;
    assert id in Without(responders, other) by {
      WithoutIs(responders, other);
    }
    WithoutLength(responders, other);
    FindWithout(responders, other, id);
    CursorLeaves(responders, last, other);
    PatienceIs(responders, last, id);
    PatienceIs(Without(responders, other), last, id);
    CursorWithin(responders, last);
    LeaveAt(|responders|, Cursor(responders, last), Find(responders, id), Find(responders, other));
  }

  lemma PatienceIs<L>(responders: seq<L>, last: Option<L>, id: L)
    requires id in responders
    ensures var i := Find(responders, id);
      Patience(responders, last, id) == WaitAt(|responders|, Cursor(responders, last), i) + Triangle(i)
  {
    hide Cursor, Wait, WaitAt, Triangle;
    WaitIsAt(responders, last, Find(responders, id));
  }

  lemma CursorWithin<L>(responders: seq<L>, last: Option<L>)
    ensures -1 <= Cursor(responders, last) < |responders|
  {
  }

  lemma WithoutLength<L>(s: seq<L>, x: L)
    requires x in s
    ensures |Without(s, x)| == |s| - 1
  {
  }

  /** The turns others have had, against a phone that stays and has not had its own. */
  lemma {:induction false} OthersServed<L, C>(s: State<L, C>, events: seq<Event<L, C>>, id: L)
    requires Inv(s) && Possible(s, events) && s.policy == NP_ROUND_ROBIN && Stays(s, events, id)
    requires id !in Turns(s, events)
    ensures var s' := After(s, events);
      && id in s'.responders
      && Patience(s'.responders, s'.lastResponder, id) + |Turns(s, events)|
         <= Patience(s.responders, s.lastResponder, id) + Joins(s, events)
    decreases |events|
  {
    hide Step, Inv, NextIndex, Patience, Without;
    if events != [] {
      var s1 := Step(s, events[0]);
      StepInv(s, events[0]);
      TurnTaken(s, events[0]);
      ListDistinct(s);
      ListDistinct(s1);
      var turn := Turn(s, events[0]);
      if turn.Some? {
        assert Turns(s, events) == [turn.value] + Turns(s1, events[1..]);
        PatienceTurn(s.responders, s.lastResponder, id);
      } else {
        assert Turns(s, events) == [] + Turns(s1, events[1..]);
        ListChanged(s.responders, s1.responders, s.lastResponder, id);
      }
      OthersServed(s1, events[1..], id);
    }
  }

  lemma ListChanged<L>(responders: seq<L>, responders': seq<L>, last: Option<L>, id: L)
    requires Distinct(responders) && id in responders && id in responders' && Distinct(responders')
    requires responders' == responders
      || (exists other :: responders' == responders + [other])
      || (exists other :: other in responders && responders' == Without(responders, other))
    ensures Patience(responders', last, id)
      <= Patience(responders, last, id) + if |responders'| > |responders| then 1 else 0
  {
    hide Patience;
    if responders' != responders {
      if other :| responders' == responders + [other] {
        PatienceJoin(responders, last, id, other);
      } else {
        var other :| other in responders && responders' == Without(responders, other);
        WithoutIs(responders, other);
        PatienceLeave(responders, last, id, other);
      }
    }
  }

  lemma PatienceBounded<L>(responders: seq<L>, last: Option<L>, id: L)
    requires id in responders
    ensures Patience(responders, last, id) < |responders| + Triangle(Find(responders, id))
  {
  }

  /** A phone that stays has its turn after a number of turns that depends on its place in the list
      and on how many phones join, whoever else leaves. */
  lemma StayerServed<L, C>(s: State<L, C>, events: seq<Event<L, C>>, id: L)
    requires Inv(s) && Possible(s, events) && s.policy == NP_ROUND_ROBIN && Stays(s, events, id)
    ensures Patience(s.responders, s.lastResponder, id) < |s.responders| + Triangle(Find(s.responders, id))
    ensures |Turns(s, events)| > Patience(s.responders, s.lastResponder, id) + Joins(s, events) ==>
      id in Turns(s, events)
  {
    PatienceBounded(s.responders, s.lastResponder, id);
    if id !in Turns(s, events) {
      OthersServed(s, events, id);
    }
  }
}
