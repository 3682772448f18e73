/** The tokens that are arguments, and the arguments that are reported. */
module OptionArguments {
  import opened Options
  import opened Partition
  import opened WrittenOptions

  /** The event's argument is a token of its own: it is the last one read. */
  predicate TakesToken(e: Event) {
    e.optarg.Str? && e.optarg == e.last
  }

  /** The arguments that are tokens of their own, in the order of the events. */
  function Separate(es: seq<Event>): seq<string> {
    if es == [] then []
    else (if TakesToken(es[0]) then [es[0].optarg.s] else []) + Separate(es[1..])
  }

  // ----- one step -----

  /** Two tokens are read exactly for an argument that is the second of them. */
  ghost predicate TakesSecond(st: Step, toks: seq<string>)
    requires toks != []
  {
    && st.used <= 2 && (st.used == 2 ==> |toks| > 1 && st.event.optarg == Str(toks[1]) == st.event.last)
    && (TakesToken(st.event) <==> st.used == 2)
  }

  lemma LongTakesSecond(cfg: Config, name: string, toks: seq<string>, mem: Memory)
    requires toks != [] && |name| < |toks[0]|
    ensures TakesSecond(LongStep(cfg, name, toks, mem), toks)
  {
    hide LongMatch, Key;
  }

  lemma ShortTakesSecond(cfg: Config, place: string, toks: seq<string>, mem: Memory)
    requires place != "" && toks != [] && |place| <= |toks[0]| && !NameFollows(cfg, place[0])
    ensures TakesSecond(ShortStep(cfg, place, toks, mem), toks)
  {
    hide LongStep;
  }

  lemma StepTakesSecond(cfg: Config, place: string, toks: seq<string>, mem: Memory)
    requires place != "" && toks != [] && |place| <= |toks[0]| && !NameFollows(cfg, 'W')
    ensures TakesSecond(OptionStep(cfg, place, toks, mem), toks)
  {
    hide LongStep, ShortStep, TakesSecond;
    if place != toks[0] && place[0] == '-' {
      LongTakesSecond(cfg, place[1..], toks, mem);
    } else {
      OnlyW(cfg, place[0]);
      ShortTakesSecond(cfg, place, toks, mem);
    }
  }

  lemma OnlyW(cfg: Config, c: char)
    requires !NameFollows(cfg, 'W')
    ensures !NameFollows(cfg, c)
  {
  }

  // ----- the whole line -----

  ghost predicate Reported(cfg: Config, place: string, toks: seq<string>, roles: seq<Role>, es: seq<Event>) {
    Assigned(cfg, place, toks, roles) && Select(toks, roles, {Argument}) == Separate(es)
  }

  lemma NoneReported(cfg: Config)
    ensures Reported(cfg, "", [], [], [])
  {
  }

  lemma PlainReported(cfg: Config, toks: seq<string>, rest: seq<Role>, es: seq<Event>)
    requires toks != [] && IsNonOption(cfg, toks[0]) && Reported(cfg, "", toks[1..], rest, es)
    ensures Reported(cfg, "", toks, [Plain] + rest, es)
  {
    GroupInFront(cfg, "", toks, [Plain], rest);
    assert ([Plain] + rest)[1..] == rest;
  }

  lemma DashesReported(cfg: Config, toks: seq<string>) returns (roles: seq<Role>)
    requires toks != [] && toks[0] == "--"
    ensures Reported(cfg, "", toks, roles, [])
  {
    var beyond := seq(|toks| - 1, i => Beyond);
    roles := [Terminator] + beyond;
    assert roles[1..] == beyond;
    SelectUniform(toks[1..], beyond, {Argument}, Beyond);
    hide Takes, TakesAt;
    BeyondAssigned(cfg, toks, roles);
  }

  lemma OptionReported(cfg: Config, place: string, toks: seq<string>, st: Step, rest: seq<Role>, es: seq<Event>)
    returns (roles: seq<Role>)
    requires toks != [] && toks[0] != "" && (place == "" ==> IsOption(cfg, toks[0]))
    requires TakesSecond(st, toks) && 0 < st.used <= |toks| && TakesAt(cfg, place, toks, 0) == st.used - 1
    requires Reported(cfg, "", toks[st.used..], rest, es)
    ensures Reported(cfg, place, toks, roles, [st.event] + es)
  {
    hide Takes, TakesAt, Select, IsNonOption, Separate;
    var n := st.used;
    var front := [OptionToken] + seq(n - 1, i => Argument);
    roles := front + rest;
    forall i | 0 <= i < |front| ensures Fits(cfg, place, toks, roles, i) && front[i] != Beyond {
      assert roles[i] == front[i];
    }
    GroupInFront(cfg, place, toks, front, rest);
    hide Assigned;
    GroupSelected(toks, n, front, rest);
    FrontSelected(toks[..n], front);
    SeparateFirst(st.event, es);
  }

  lemma FrontSelected(toks: seq<string>, front: seq<Role>)
    requires 0 < |toks| <= 2 && front == [OptionToken] + seq(|toks| - 1, i => Argument)
    ensures Select(toks, front, {Argument}) == if |toks| == 2 then [toks[1]] else []
  {
    assert front[1..] == seq(|toks| - 1, i => Argument);
    SelectUniform(toks[1..], front[1..], {Argument}, Argument);
  }

  lemma SeparateFirst(e: Event, es: seq<Event>)
    ensures Separate([e] + es) == (if TakesToken(e) then [e.optarg.s] else []) + Separate(es)
  {
    assert ([e] + es)[1..] == es;
  }

  lemma {:induction false} RunReports(cfg: Config, place: string, toks: seq<string>, mem: Memory)
    returns (roles: seq<Role>)
    requires (place != "" ==> toks != [] && |place| <= |toks[0]|) && !NameFollows(cfg, 'W')
    ensures Reported(cfg, place, toks, roles, Run(cfg, place, toks, mem).events)
    decreases |toks|, if place != "" then |place| else if toks == [] then 0 else |toks[0]| + 1
  {
    hide OptionStep, Reported, TakesSecond;
    if place == "" && toks == [] {
      NoneReported(cfg);
      roles := [];
    } else if place == "" && IsNonOption(cfg, toks[0]) {
      var rest := RunReports(cfg, "", toks[1..], mem);
      PlainReported(cfg, toks, rest, Run(cfg, "", toks[1..], mem).events);
      roles := [Plain] + rest;
    } else if place == "" && toks[0] == "--" {
      roles := DashesReported(cfg, toks);
    } else {
      var at := if place == "" then FirstPlace(toks[0]) else place;
      var st := OptionStep(cfg, at, toks, mem);
      StepTakesSecond(cfg, at, toks, mem);
      var rest := RunReports(cfg, st.place, toks[st.used..], st.event.mem);
      roles := StepReported(cfg, place, toks, mem, rest);
    }
  }

  lemma StepReported(cfg: Config, place: string, toks: seq<string>, mem: Memory, rest: seq<Role>)
    returns (roles: seq<Role>)
    requires toks != [] && toks[0] != "" && (place == "" ==> IsOption(cfg, toks[0]))
    requires var st := OptionStep(cfg, if place == "" then FirstPlace(toks[0]) else place, toks, mem);
      && TakesSecond(st, toks)
      && Reported(cfg, st.place, toks[st.used..], rest, Run(cfg, st.place, toks[st.used..], st.event.mem).events)
    ensures Reported(cfg, place, toks, roles, Run(cfg, place, toks, mem).events)
  {
    hide OptionStep;
    var at := if place == "" then FirstPlace(toks[0]) else place;
    var st := OptionStep(cfg, at, toks, mem);
    UsesRegardless(cfg, at, toks, mem, NOTHING);
    assert toks[0..] == toks;
    var es := Run(cfg, st.place, toks[st.used..], st.event.mem).events;
    if st.used == 0 {
      SameToken(cfg, place, st.place, toks, rest);
      roles := rest;
      SeparateFirst(st.event, es);
      assert [] + Separate(es) == Separate(es);
    } else {
      roles := OptionReported(cfg, place, toks, st, rest, es);
    }
  }

  /** Every token with the role of an argument is the argument of an event, in order, and no other
      token is, for every command line: if and only if the option string does not let names follow
      the letter `W` (a name behind `-W` is a token of its own, too). */
  lemma ArgumentsReportedIff(cfg: Config)
    ensures !NameFollows(cfg, 'W') <==>
      forall toks: seq<string>, mem: Memory, roles: seq<Role> :: Assigned(cfg, "", toks, roles) ==>
        Select(toks, roles, {Argument}) == Separate(Run(cfg, "", toks, mem).events)
  {
    if !NameFollows(cfg, 'W') {
      forall toks: seq<string>, mem: Memory, roles: seq<Role> | Assigned(cfg, "", toks, roles)
        ensures Select(toks, roles, {Argument}) == Separate(Run(cfg, "", toks, mem).events)
      {
        hide *;
        ArgumentsReported(cfg, toks, mem, roles);
      }
    } else {
      hide *;
      NameIsNoArgument(cfg);
    }
  }

  lemma ArgumentsReported(cfg: Config, toks: seq<string>, mem: Memory, roles: seq<Role>)
    requires Assigned(cfg, "", toks, roles) && !NameFollows(cfg, 'W')
    ensures Select(toks, roles, {Argument}) == Separate(Run(cfg, "", toks, mem).events)
  {
    hide NameFollows, Select, Separate, Run;
    var roles' := RunReports(cfg, "", toks, mem);
    hide Assigned;
    RolesUnique(cfg, "", toks, roles, roles');
  }

  /** In `-W x`, the token `x` is taken, but it is a name. */
  lemma NameIsNoArgument(cfg: Config)
    requires NameFollows(cfg, 'W')
    ensures exists toks: seq<string>, roles: seq<Role> ::
      Assigned(cfg, "", toks, roles) && Select(toks, roles, {Argument}) != Separate(Run(cfg, "", toks, NOTHING).events)
  {
    var toks := ["-W", "x"];
    assert toks[0][1..] == "W" && toks[1..] == ["x"] && toks[2..] == [];
    var st := OptionStep(cfg, "W", toks, NOTHING);
    var deep := LongStep(cfg, "x", ["x"], NOTHING);
    NameTakesNothing(cfg, deep);
    assert st == deep.(used := 2) by {
      hide LongStep;
    }
    var o := Run(cfg, "", toks, NOTHING);
    assert o.events == [st.event] by {
      hide OptionStep;
      assert Run(cfg, "", [], st.event.mem).events == [];
    }
    assert Separate(o.events) == [] by {
      assert o.events[1..] == [];
    }
    hide Run, OptionStep, LongStep, Separate, NameFollows;
    var roles := WRoles(cfg, toks);
    assert Assigned(cfg, "", toks, roles) && Select(toks, roles, {Argument}) != Separate(o.events);
  }

  lemma NameTakesNothing(cfg: Config, deep: Step)
    requires deep == LongStep(cfg, "x", ["x"], NOTHING)
    ensures deep.used == 1 && deep.event.optarg == Null
  {
    hide LongMatch;
    assert StrChr("x", '=') < 0;
  }

  lemma WRoles(cfg: Config, toks: seq<string>) returns (roles: seq<Role>)
    requires toks == ["-W", "x"] && OptionStep(cfg, "W", toks, NOTHING).used == 2
    ensures Assigned(cfg, "", toks, roles) && Select(toks, roles, {Argument}) == ["x"]
  {
    hide OptionStep;
    roles := [OptionToken, Argument];
    assert toks[0..] == toks && toks[0][1..] == "W" && FirstPlace(toks[0]) == "W";
    assert TakesAt(cfg, "", toks, 0) == 1;
    var front := [OptionToken, Argument];
    assert front + [] == roles && toks[2..] == [];
    assert Assigned(cfg, "", toks[2..], []);
    GroupInFront(cfg, "", toks, front, []);
    assert roles[1..] == [Argument] && toks[1..] == ["x"] && roles[1..][1..] == [] && toks[1..][1..] == [];
    assert Select(toks[1..][1..], roles[1..][1..], {Argument}) == [];
    assert Select(toks[1..], roles[1..], {Argument}) == ["x"];
  }
}
