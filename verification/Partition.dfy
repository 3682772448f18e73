/** What the scanner's partition of a command line is, said token by token: which tokens are
    options, which are their arguments, and what `--` does. */
module Partition {
  import opened Options

  // ----- the role of a token -----

  datatype Role = OptionToken | Argument | Terminator | Plain | Beyond

  /** An option token selects options, and is not `--`. */
  predicate IsOption(cfg: Config, tok: string) {
    !IsNonOption(cfg, tok) && tok != "--"
  }

  const NOTHING := Memory(0, 0)

  /** How many of the tokens after `toks[0]` are arguments of the options read from `place` on. */
  function Takes(cfg: Config, place: string, toks: seq<string>): (n: nat)
    requires place != "" && toks != []
    ensures n < |toks|
    decreases |place|
  {
    var st := OptionStep(cfg, place, toks, NOTHING);
    if st.used == 0 then Takes(cfg, st.place, toks) else st.used - 1
  }

  /** The same for token `p` of a command line, of which the first has been read up to `place`. */
  function TakesAt(cfg: Config, place: string, toks: seq<string>, p: nat): (n: nat)
    requires p < |toks| && toks[p] != ""
    ensures p + n < |toks|
  {
    Takes(cfg, if p == 0 && place != "" then place else FirstPlace(toks[p]), toks[p..])
  }

  /** Token `i` is an argument of option token `p`. */
  ghost predicate ArgumentOf(cfg: Config, place: string, toks: seq<string>, roles: seq<Role>, p: nat, i: nat)
    requires |roles| == |toks|
  {
    p < i < |toks| && roles[p] == OptionToken && toks[p] != "" && i <= p + TakesAt(cfg, place, toks, p)
  }

  /** A token that is neither an argument nor beyond `--` has the role its own text gives it; and
      the first token is an option while it is being read. */
  predicate Fits(cfg: Config, place: string, toks: seq<string>, roles: seq<Role>, i: nat)
    requires |roles| == |toks| && i < |toks|
  {
    if i == 0 && place != "" then roles[i] == OptionToken && toks[i] != ""
    else
      match roles[i]
      case OptionToken => IsOption(cfg, toks[i])
      case Terminator => toks[i] == "--"
      case Plain => IsNonOption(cfg, toks[i])
      case Argument => true
      case Beyond => true
  }

  /** Everything after `--` is beyond it, and nothing else; everything that an option takes is its
      argument, and nothing else. */
  ghost predicate Assigned(cfg: Config, place: string, toks: seq<string>, roles: seq<Role>) {
    && |roles| == |toks|
    && (forall i :: 0 <= i < |toks| ==> Fits(cfg, place, toks, roles, i))
    && (forall i :: 0 <= i < |toks| ==> (roles[i] == Beyond <==> Terminator in roles[..i]))
    && (forall i :: 0 <= i < |toks| ==>
         (roles[i] == Argument <==> exists p: nat :: ArgumentOf(cfg, place, toks, roles, p, i)))
  }

  /** A command line has only one such assignment. */
  lemma RolesUnique(cfg: Config, place: string, toks: seq<string>, roles: seq<Role>, roles': seq<Role>)
    requires Assigned(cfg, place, toks, roles) && Assigned(cfg, place, toks, roles')
    ensures roles == roles'
  {
    SameRoles(cfg, place, toks, roles, roles', |toks|);
    assert roles[..|toks|] == roles && roles'[..|toks|] == roles';
  }

  lemma {:induction false} SameRoles(cfg: Config, place: string, toks: seq<string>, roles: seq<Role>,
                                     roles': seq<Role>, n: nat)
    requires Assigned(cfg, place, toks, roles) && Assigned(cfg, place, toks, roles')
    requires n <= |toks| == |roles| == |roles'|
    ensures roles[..n] == roles'[..n]
    decreases n
  {
    hide *;
    if n > 0 {
      var i := n - 1;
      SameRoles(cfg, place, toks, roles, roles', i);
      SameArguments(cfg, place, toks, roles, roles', i);
      SameArguments(cfg, place, toks, roles', roles, i);
      AssignedAt(cfg, place, toks, roles, i);
      AssignedAt(cfg, place, toks, roles', i);
      FitsOne(cfg, place, toks, roles, roles', i);
      assert roles[..n] == roles[..i] + [roles[i]] && roles'[..n] == roles'[..i] + [roles'[i]];
    }
  }

  lemma AssignedAt(cfg: Config, place: string, toks: seq<string>, roles: seq<Role>, i: nat)
    requires Assigned(cfg, place, toks, roles) && i < |toks|
    ensures Fits(cfg, place, toks, roles, i) && (roles[i] == Beyond <==> Terminator in roles[..i])
    ensures roles[i] == Argument <==> exists p: nat :: ArgumentOf(cfg, place, toks, roles, p, i)
  {
  }

  /** At most one role besides Argument and Beyond fits a token. */
  lemma FitsOne(cfg: Config, place: string, toks: seq<string>, roles: seq<Role>, roles': seq<Role>, i: nat)
    requires |roles| == |roles'| == |toks| && i < |toks|
    requires Fits(cfg, place, toks, roles, i) && Fits(cfg, place, toks, roles', i)
    requires (roles[i] == Beyond <==> roles'[i] == Beyond) && (roles[i] == Argument <==> roles'[i] == Argument)
    ensures roles[i] == roles'[i]
  {
  }

  lemma SameArguments(cfg: Config, place: string, toks: seq<string>, roles: seq<Role>, roles': seq<Role>, i: nat)
    requires |roles| == |roles'| == |toks| && i < |toks| && roles[..i] == roles'[..i]
    ensures (exists p: nat :: ArgumentOf(cfg, place, toks, roles, p, i)) ==>
      exists p: nat :: ArgumentOf(cfg, place, toks, roles', p, i)
  {
    if p: nat :| ArgumentOf(cfg, place, toks, roles, p, i) {
      assert roles[p] == roles[..i][p] == roles'[..i][p] == roles'[p];
      assert ArgumentOf(cfg, place, toks, roles', p, i);
    }
  }

  // ----- the partition -----

  /** The tokens with one of the given roles, in order. */
  function Select(toks: seq<string>, roles: seq<Role>, wanted: set<Role>): seq<string>
    requires |toks| == |roles|
  {
    if toks == [] then []
    else (if roles[0] in wanted then [toks[0]] else []) + Select(toks[1..], roles[1..], wanted)
  }

  const OPTION_PART := {OptionToken, Argument, Terminator}

  /** The outcome keeps the tokens of each part in their order, and ends at `--` if there is one
      that is not an argument. */
  ghost predicate SplitsBy(cfg: Config, place: string, toks: seq<string>, o: Outcome, roles: seq<Role>) {
    && Assigned(cfg, place, toks, roles)
    && o.opts == Select(toks, roles, OPTION_PART)
    && o.nonopts == Select(toks, roles, {Plain})
    && o.rest == Select(toks, roles, {Beyond})
    && (o.ending == DashDash <==> Terminator in roles)
  }

  lemma {:induction false} SelectUniform(toks: seq<string>, roles: seq<Role>, wanted: set<Role>, r: Role)
    requires |toks| == |roles| && forall i :: 0 <= i < |roles| ==> roles[i] == r
    ensures Select(toks, roles, wanted) == if r in wanted then toks else []
  {
    if toks != [] {
      SelectUniform(toks[1..], roles[1..], wanted, r);
      assert [toks[0]] + toks[1..] == toks;
    }
  }

  lemma {:induction false} SelectAppend(a: seq<string>, ra: seq<Role>, b: seq<string>, rb: seq<Role>, wanted: set<Role>)
    requires |a| == |ra| && |b| == |rb|
    ensures Select(a + b, ra + rb, wanted) == Select(a, ra, wanted) + Select(b, rb, wanted)
  {
    if a == [] {
      assert a + b == b && ra + rb == rb;
    } else {
      assert (a + b)[1..] == a[1..] + b && (ra + rb)[1..] == ra[1..] + rb;
      SelectAppend(a[1..], ra[1..], b, rb, wanted);
    }
  }

  // ----- a group of tokens in front -----

  /** Nothing but its first token takes arguments, and there is no `--`. */
  predicate Group(front: seq<Role>) {
    front != [] && Terminator !in front && forall p :: 0 < p < |front| ==> front[p] != OptionToken
  }

  lemma ArgumentBehind(cfg: Config, place: string, toks: seq<string>, front: seq<Role>, rest: seq<Role>, p: nat, i: nat)
    requires |front| + |rest| == |toks| && front != [] && |front| <= p && |front| <= i
    ensures ArgumentOf(cfg, place, toks, front + rest, p, i)
      <==> ArgumentOf(cfg, "", toks[|front|..], rest, p - |front|, i - |front|)
  {
    var n := |front|;
    if p < |toks| {
      assert (front + rest)[p] == rest[p - n] && toks[p] == toks[n..][p - n] && toks[p..] == toks[n..][p - n..];
    }
  }

  /** The roles behind the group are those of the tokens behind it. */
  lemma GroupInFront(cfg: Config, place: string, toks: seq<string>, front: seq<Role>, rest: seq<Role>)
    requires |front| + |rest| == |toks| && Group(front) && Assigned(cfg, "", toks[|front|..], rest)
    requires forall i :: 0 <= i < |front| ==> Fits(cfg, place, toks, front + rest, i) && front[i] != Beyond
    requires front[0] != Argument && forall i :: 0 < i < |front| ==> front[i] == Argument
    requires front[0] == OptionToken ==> toks[0] != "" && TakesAt(cfg, place, toks, 0) == |front| - 1
    requires front[0] != OptionToken ==> |front| == 1
    ensures Assigned(cfg, place, toks, front + rest)
  {
    var roles, n := front + rest, |front|;
    forall i | 0 <= i < |toks| ensures Fits(cfg, place, toks, roles, i) {
      if i >= n {
        assert roles[i] == rest[i - n] && toks[i] == toks[n..][i - n];
        assert Fits(cfg, "", toks[n..], rest, i - n);
      }
    }
    forall i | 0 <= i < |toks| ensures roles[i] == Beyond <==> Terminator in roles[..i] {
      if i < n {
        assert roles[..i] == front[..i];
      } else {
        assert roles[..i] == front + rest[..i - n];
        assert rest[i - n] == Beyond <==> Terminator in rest[..i - n];
      }
    }
    forall i | 0 <= i < |toks|
      ensures roles[i] == Argument <==> exists p: nat :: ArgumentOf(cfg, place, toks, roles, p, i)
    {
      if i < n {
        GroupArguments(cfg, place, toks, front, rest, i);
      } else {
        LaterArguments(cfg, place, toks, front, rest, i, i - n);
      }
    }
  }

  lemma GroupArguments(cfg: Config, place: string, toks: seq<string>, front: seq<Role>, rest: seq<Role>, i: nat)
    requires |front| + |rest| == |toks| && Group(front) && i < |front|
    requires front[0] != Argument && forall k :: 0 < k < |front| ==> front[k] == Argument
    requires front[0] == OptionToken ==> toks[0] != "" && TakesAt(cfg, place, toks, 0) == |front| - 1
    requires front[0] != OptionToken ==> |front| == 1
    ensures (front + rest)[i] == Argument <==> exists p: nat :: ArgumentOf(cfg, place, toks, front + rest, p, i)
  {
    var roles := front + rest;
    assert forall p: nat :: p < i ==> roles[p] == front[p];
    if i > 0 {
      assert ArgumentOf(cfg, place, toks, roles, 0, i);
    }
  }

  lemma LaterArguments(cfg: Config, place: string, toks: seq<string>, front: seq<Role>, rest: seq<Role>, i: nat, k: nat)
    requires |front| + |rest| == |toks| && Group(front) && i == |front| + k < |toks|
    requires front[0] == OptionToken ==> toks[0] != "" && TakesAt(cfg, place, toks, 0) == |front| - 1
    requires rest[k] == Argument <==> exists p: nat :: ArgumentOf(cfg, "", toks[|front|..], rest, p, k)
    ensures (front + rest)[i] == Argument <==> exists p: nat :: ArgumentOf(cfg, place, toks, front + rest, p, i)
  {
    hide Takes, TakesAt;
    var roles, n, later := front + rest, |front|, toks[|front|..];
    assert roles[i] == rest[k] && forall p: nat :: p < n ==> roles[p] == front[p];
    if p: nat :| ArgumentOf(cfg, "", later, rest, p, k) {
      ArgumentBehind(cfg, place, toks, front, rest, n + p, i);
    }
    if p: nat :| ArgumentOf(cfg, place, toks, roles, p, i) {
      assert p >= n;
      ArgumentBehind(cfg, place, toks, front, rest, p, i);
      hide ArgumentOf;
      assert ArgumentOf(cfg, "", later, rest, p - n, k);
    }
  }

  // ----- every outcome is such a partition -----

  /** What a step remembers does not decide how much it reads. */
  lemma UsesRegardless(cfg: Config, place: string, toks: seq<string>, mem: Memory, mem': Memory)
    requires place != "" && toks != []
    ensures var st, st' := OptionStep(cfg, place, toks, mem), OptionStep(cfg, place, toks, mem');
      st.used == st'.used && st.place == st'.place
  {
    if place != toks[0] && place[0] == '-' {
      LongUsesRegardless(cfg, place[1..], toks, mem, mem');
    } else {
      ShortUsesRegardless(cfg, place, toks, mem, mem');
    }
    hide LongStep, ShortStep;
  }

  lemma LongUsesRegardless(cfg: Config, name: string, toks: seq<string>, mem: Memory, mem': Memory)
    requires toks != []
    ensures LongStep(cfg, name, toks, mem).used == LongStep(cfg, name, toks, mem').used
  {
    hide LongMatch, StrChr;
  }

  lemma ShortUsesRegardless(cfg: Config, place: string, toks: seq<string>, mem: Memory, mem': Memory)
    requires place != "" && toks != []
    ensures var st, st' := ShortStep(cfg, place, toks, mem), ShortStep(cfg, place, toks, mem');
      st.used == st'.used && st.place == st'.place
  {
    hide LongStep, StrChr;
    if |place| > 1 {
      LongUsesRegardless(cfg, place[1..], toks, mem, mem');
    } else if |toks| > 1 {
      LongUsesRegardless(cfg, toks[1], toks[1..], mem, mem');
    }
  }

  /** Reading on inside a token changes no role. */
  lemma SameToken(cfg: Config, place: string, place': string, toks: seq<string>, roles: seq<Role>)
    requires toks != [] && Assigned(cfg, place', toks, roles) && place' != ""
    requires place == "" ==> IsOption(cfg, toks[0])
    requires Takes(cfg, place', toks) == Takes(cfg, if place == "" then FirstPlace(toks[0]) else place, toks)
    ensures Assigned(cfg, place, toks, roles)
  {
    assert Fits(cfg, place', toks, roles, 0);
    assert toks[0..] == toks;
    forall p: nat, i: nat
      ensures ArgumentOf(cfg, place, toks, roles, p, i) <==> ArgumentOf(cfg, place', toks, roles, p, i)
    {
    }
    forall i | 0 <= i < |toks| ensures Fits(cfg, place, toks, roles, i) {
      assert Fits(cfg, place', toks, roles, i);
    }
  }

  lemma PlainInFront(cfg: Config, toks: seq<string>, o: Outcome, rest: seq<Role>)
    requires toks != [] && IsNonOption(cfg, toks[0]) && SplitsBy(cfg, "", toks[1..], o, rest)
    ensures SplitsBy(cfg, "", toks, o.(nonopts := [toks[0]] + o.nonopts), [Plain] + rest)
  {
    GroupInFront(cfg, "", toks, [Plain], rest);
    assert ([Plain] + rest)[1..] == rest;
  }

  lemma TerminatorInFront(cfg: Config, toks: seq<string>) returns (roles: seq<Role>)
    requires toks != [] && toks[0] == "--"
    ensures SplitsBy(cfg, "", toks, Outcome([], [toks[0]], [], toks[1..], DashDash), roles)
  {
    var beyond := seq(|toks| - 1, i => Beyond);
    roles := [Terminator] + beyond;
    assert roles[1..] == beyond;
    SelectUniform(toks[1..], beyond, OPTION_PART, Beyond);
    SelectUniform(toks[1..], beyond, {Plain}, Beyond);
    SelectUniform(toks[1..], beyond, {Beyond}, Beyond);
    hide Select, Takes, TakesAt;
    BeyondAssigned(cfg, toks, roles);
    SelectFirst(toks, roles, OPTION_PART);
    SelectFirst(toks, roles, {Plain});
    SelectFirst(toks, roles, {Beyond});
  }

  lemma SelectFirst(toks: seq<string>, roles: seq<Role>, wanted: set<Role>)
    requires |toks| == |roles| > 0
    ensures Select(toks, roles, wanted)
      == (if roles[0] in wanted then [toks[0]] else []) + Select(toks[1..], roles[1..], wanted)
  {
  }

  lemma BeyondAssigned(cfg: Config, toks: seq<string>, roles: seq<Role>)
    requires toks != [] && toks[0] == "--" && roles == [Terminator] + seq(|toks| - 1, i => Beyond)
    ensures Assigned(cfg, "", toks, roles)
  {
    hide Takes, TakesAt, IsNonOption;
    forall i | 0 < i < |toks| ensures roles[i] == Beyond && Terminator in roles[..i] {
      assert roles[..i][0] == Terminator;
    }
    assert forall p: nat :: p < |toks| ==> roles[p] != OptionToken;
  }

  lemma OptionInFront(cfg: Config, place: string, toks: seq<string>, n: nat, o: Outcome, rest: seq<Role>)
    returns (roles: seq<Role>)
    requires 0 < n <= |toks| && toks[0] != "" && (place == "" ==> IsOption(cfg, toks[0]))
    requires TakesAt(cfg, place, toks, 0) == n - 1 && SplitsBy(cfg, "", toks[n..], o, rest)
    ensures SplitsBy(cfg, place, toks, o.(opts := toks[..n] + o.opts), roles)
  {
    hide Takes, TakesAt, Select, IsNonOption;
    var front := [OptionToken] + seq(n - 1, i => Argument);
    roles := front + rest;
    forall i | 0 <= i < |front| ensures Fits(cfg, place, toks, roles, i) && front[i] != Beyond {
      assert roles[i] == front[i];
    }
    GroupInFront(cfg, place, toks, front, rest);
    SelectGroup(toks[..n], front);
    GroupSelected(toks, n, front, rest);
    hide Assigned;
    assert Terminator in roles <==> Terminator in rest;
  }

  lemma GroupSelected(toks: seq<string>, n: nat, front: seq<Role>, rest: seq<Role>)
    requires n == |front| <= |toks| == n + |rest|
    ensures forall w :: Select(toks, front + rest, w) == Select(toks[..n], front, w) + Select(toks[n..], rest, w)
  {
    assert toks == toks[..n] + toks[n..];
    forall w ensures Select(toks, front + rest, w) == Select(toks[..n], front, w) + Select(toks[n..], rest, w) {
      SelectAppend(toks[..n], front, toks[n..], rest, w);
    }
  }

  lemma SelectGroup(toks: seq<string>, front: seq<Role>)
    requires toks != [] && front == [OptionToken] + seq(|toks| - 1, i => Argument)
    ensures Select(toks, front, OPTION_PART) == toks
    ensures Select(toks, front, {Plain}) == [] == Select(toks, front, {Beyond})
  {
    assert front[1..] == seq(|toks| - 1, i => Argument);
    forall w ensures Select(toks[1..], front[1..], w) == if Argument in w then toks[1..] else [] {
      SelectUniform(toks[1..], front[1..], w, Argument);
    }
    assert [toks[0]] + toks[1..] == toks;
  }

  /** Every token gets the one role the assignment gives it, and every part of the outcome is the
      subsequence of the tokens in its roles. */
  lemma {:induction false} RunIsStablePartition(cfg: Config, place: string, toks: seq<string>, mem: Memory)
    returns (roles: seq<Role>)
    requires place != "" ==> toks != [] && toks[0] != ""
    ensures SplitsBy(cfg, place, toks, Run(cfg, place, toks, mem), roles)
    decreases |toks|, if place != "" then |place| else if toks == [] then 0 else |toks[0]| + 1
  {
    hide OptionStep, SplitsBy;
    if place == "" && toks == [] {
      roles := NothingSplit(cfg, mem);
    } else if place == "" && IsNonOption(cfg, toks[0]) {
      var rest := RunIsStablePartition(cfg, "", toks[1..], mem);
      PlainInFront(cfg, toks, Run(cfg, "", toks[1..], mem), rest);
      roles := [Plain] + rest;
    } else if place == "" && toks[0] == "--" {
      roles := TerminatorInFront(cfg, toks);
    } else {
      var at := if place == "" then FirstPlace(toks[0]) else place;
      var st := OptionStep(cfg, at, toks, mem);
      roles := RunIsStablePartition(cfg, st.place, toks[st.used..], st.event.mem);
      UsesRegardless(cfg, at, toks, mem, NOTHING);
      roles := StepInFront(cfg, place, toks, mem, roles);
    }
  }

  lemma NothingSplit(cfg: Config, mem: Memory) returns (roles: seq<Role>)
    ensures SplitsBy(cfg, "", [], Run(cfg, "", [], mem), roles)
  {
    roles := [];
  }

  lemma StepInFront(cfg: Config, place: string, toks: seq<string>, mem: Memory, rest: seq<Role>)
    returns (roles: seq<Role>)
    requires toks != [] && toks[0] != "" && (place == "" ==> IsOption(cfg, toks[0]))
    requires var st := OptionStep(cfg, if place == "" then FirstPlace(toks[0]) else place, toks, mem);
      SplitsBy(cfg, st.place, toks[st.used..], Run(cfg, st.place, toks[st.used..], st.event.mem), rest)
    ensures SplitsBy(cfg, place, toks, Run(cfg, place, toks, mem), roles)
  {
    hide OptionStep;
    var at := if place == "" then FirstPlace(toks[0]) else place;
    var st := OptionStep(cfg, at, toks, mem);
    UsesRegardless(cfg, at, toks, mem, NOTHING);
    var o := Run(cfg, st.place, toks[st.used..], st.event.mem);
    assert toks[0..] == toks;
    if st.used == 0 {
      SameToken(cfg, place, st.place, toks, rest);
      roles := rest;
    } else {
      roles := OptionInFront(cfg, place, toks, st.used, o, rest);
    }
  }
}
