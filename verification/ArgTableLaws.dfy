/** What the table functions guarantee: every scanner event belongs to the table, the result does
    not depend on how options and non-options are interleaved, and every leftover token is
    accounted for exactly once. */
module ArgTableLaws {
  import opened Options
  import opened CommandLines
  import opened ArgTables
  import opened Wrappers

  // ----- the scanner only reports what the table defines -----

  lemma LettersComeFromEntry(e: Entry, s: string, c: char)
    requires c in Letters(e, s) && c != ':'
    ensures c in s
  {
  }

  /** A letter of the option string, other than `:`, belongs to some entry. */
  lemma {:induction false} LetterHasEntry(entries: seq<Entry>, c: char)
    requires c in ShortLetters(entries) && c != ':'
    ensures var i := FindShort(entries, c as int);
      i >= 0 && entries[i].shortopts.Some? && c in entries[i].shortopts.value
  {
    var first := if entries[0].shortopts.Some? then Letters(entries[0], entries[0].shortopts.value) else "";
    if c in first {
      LettersComeFromEntry(entries[0], entries[0].shortopts.value, c);
    } else {
      LetterHasEntry(entries[1..], c);
      if FindShort(entries, c as int) == 0 {
        var k :| 0 <= k < |entries[0].shortopts.value| && entries[0].shortopts.value[k] as int == c as int;
      }
    }
  }

  lemma {:induction false} LongOptionsHaveEntry(entries: seq<Entry>, from: nat)
    requires from <= |entries|
    ensures forall o :: o in LongOptions(entries, from) ==> from <= o.val < |entries|
    decreases |entries| - from
  {
    if from < |entries| {
      LongOptionsHaveEntry(entries, from + 1);
      var e := entries[from];
      if e.longopts.Some? {
        NamedValues(Names(e.longopts.value), HasArgOf(e), from);
      }
    }
  }

  lemma NamedValues(names: seq<string>, hasArg: HasArg, val: int)
    ensures forall o :: o in Named(names, hasArg, val) ==> o.val == val
  {
  }

  ghost predicate NamesEntry(longs: seq<LongOption>, val: int) {
    exists o :: o in longs && o.val == val
  }

  /** What a step can report. */
  ghost predicate PossibleCode(cfg: Config, c: char, e: Event) {
    || (e.code == BADCH && (e.mem.optopt == 0 ==> e.last != Null))
    || (e.code == BADARG_COLON && e.last != Null)
    || (e.code == 0 && NamesEntry(cfg.longs, e.mem.getoptval) && e.last != Null)
    || (e.code == c as int && c in cfg.options && c != ':')
  }

  lemma LongStepCode(cfg: Config, name: string, toks: seq<string>, mem: Memory, c: char)
    requires toks != []
    ensures PossibleCode(cfg, c, LongStep(cfg, name, toks, mem).event)
  {
    var m := LongMatch(cfg.longs, Key(name));
    if m.Found? {
      assert cfg.longs[m.index] in cfg.longs;
    }
  }

  lemma ShortStepCode(cfg: Config, place: string, toks: seq<string>, mem: Memory)
    requires place != "" && toks != [] && place[0] != '\0'
    ensures PossibleCode(cfg, place[0], ShortStep(cfg, place, toks, mem).event)
  {
    var c, after := place[0], place[1..];
    var oli := StrChr(cfg.options, c);
    if c == 'W' && oli >= 0 && CharAt(cfg.options, oli + 1, ';') {
      if after != "" {
        LongStepCode(cfg, after, toks, mem, c);
      } else if |toks| > 1 {
        LongStepCode(cfg, toks[1], toks[1..], mem, c);
      }
    }
  }

  lemma StepCode(cfg: Config, place: string, toks: seq<string>, mem: Memory)
    requires place != "" && toks != [] && place[0] != '\0'
    ensures PossibleCode(cfg, place[0], OptionStep(cfg, place, toks, mem).event)
  {
    if place != toks[0] && place[0] == '-' {
      LongStepCode(cfg, place[1..], toks, mem, place[0]);
    } else {
      ShortStepCode(cfg, place, toks, mem);
    }
  }

  lemma StepUnderstood(entries: seq<Entry>, place: string, toks: seq<string>, mem: Memory)
    requires place != "" && toks != [] && CString(place)
    ensures var e := OptionStep(ConfigOf(entries), place, toks, mem).event;
      Understood(entries, e) || MistakenForUnknown(entries, e)
  {
    LongOptionsHaveEntry(entries, 0);
    StepCode(ConfigOf(entries), place, toks, mem);
    var c := place[0];
    if c in ShortOptions(entries) && c != ':' {
      LetterHasEntry(entries, c);
    }
  }

  /** The letter `?` of some entry, in front of other letters: its code is that of an unknown
      option, and there is nothing to quote. */
  predicate MistakenForUnknown(entries: seq<Entry>, e: Event) {
    Declares(entries, '?') && e.code == BADCH && e.mem.optopt == 0 && e.last == Null
  }

  /** The unexpected case of the tagged pass, a letter that no entry lists, cannot happen; and every
      event makes sense, unless `?` is declared for an option. */
  lemma {:induction false} EventsUnderstood(entries: seq<Entry>, place: string, toks: seq<string>, mem: Memory)
    requires place != "" ==> toks != []
    requires CString(place) && CStrings(toks)
    ensures forall e :: e in Run(ConfigOf(entries), place, toks, mem).events ==>
      Understood(entries, e) || MistakenForUnknown(entries, e)
    decreases |toks|, if place != "" then |place| else if toks == [] then 0 else |toks[0]| + 1
  {
    var cfg := ConfigOf(entries);
    if place == "" && toks != [] && IsNonOption(cfg, toks[0]) {
      EventsUnderstood(entries, "", toks[1..], mem);
    } else if place != "" || (toks != [] && toks[0] != "--") {
      var at := if place == "" then FirstPlace(toks[0]) else place;
      var st := OptionStep(cfg, at, toks, mem);
      assert toks[0] in toks && CString(at);
      StepUnderstood(entries, at, toks, mem);
      EventsUnderstood(entries, st.place, toks[st.used..], st.event.mem);
    }
  }

  // ----- interleaving -----

  /** The table depends only on the options, with their arguments, in order, and on the other
      tokens in order: not on how the two are interleaved on the command line. */
  lemma InterleavingIrrelevant<S>(T: Table<S>, parents: seq<S>, argv: seq<string>, argv': seq<string>, optopt: int)
    requires T.Valid() && |parents| == |T.entries| && argv != [] && argv' != [] && CStrings(argv) && CStrings(argv')
    requires var o, o' := Scanned(T, argv, optopt), Scanned(T, argv', optopt);
      o.opts == o'.opts && o.nonopts + o.rest == o'.nonopts + o'.rest
    ensures forall e :: e in Scanned(T, argv, optopt).events ==> Understood(T.entries, e)
    ensures forall e :: e in Scanned(T, argv', optopt).events ==> Understood(T.entries, e)
    ensures Parsed(T, parents, argv, optopt) == Parsed(T, parents, argv', optopt)
  {
    EventsUnderstood(T.entries, "", argv[1..], Memory(optopt, 0));
    EventsUnderstood(T.entries, "", argv'[1..], Memory(optopt, 0));
    SameOptionsSameEvents(ConfigOf(T.entries), argv[1..], argv'[1..], Memory(optopt, 0));
  }

  /** Moving a non-option across a group of complete options keeps both subsequences. */
  lemma MovedScan(cfg: Config, before: seq<string>, group: seq<string>, x: string, after: seq<string>, mem: Memory)
    requires Run(cfg, "", before, mem).ending == Exhausted && IsNonOption(cfg, x)
    requires Run(cfg, "", before + group, mem).ending == Exhausted
    requires Run(cfg, "", before + group, mem).nonopts == Run(cfg, "", before, mem).nonopts
    ensures Run(cfg, "", before + [x] + (group + after), mem) == Run(cfg, "", (before + group) + [x] + after, mem)
  {
    hide Run;
    assert before + (group + after) == (before + group) + after;
    InsertNonOption(cfg, before, x, group + after, mem);
    InsertNonOption(cfg, before + group, x, after, mem);
  }

  /** In particular a non-option may be moved past any complete options next to it. */
  lemma MovedNonOption<S>(T: Table<S>, parents: seq<S>, prog: string, before: seq<string>, group: seq<string>,
                          x: string,
                          after: seq<string>, optopt: int)
    requires T.Valid() && |parents| == |T.entries| && CStrings([prog] + (before + [x] + (group + after)))
    requires var cfg, mem := ConfigOf(T.entries), Memory(optopt, 0);
      && Run(cfg, "", before, mem).ending == Exhausted
      && Run(cfg, "", before + group, mem).ending == Exhausted
      && Run(cfg, "", before + group, mem).nonopts == Run(cfg, "", before, mem).nonopts
      && IsNonOption(cfg, x)
    ensures var a, b := [prog] + (before + [x] + (group + after)), [prog] + ((before + group) + [x] + after);
      && (forall e :: e in Scanned(T, a, optopt).events ==> Understood(T.entries, e))
      && Scanned(T, a, optopt) == Scanned(T, b, optopt)
      && Parsed(T, parents, a, optopt) == Parsed(T, parents, b, optopt)
  {
    hide Run, Understood;
    var a, b := before + [x] + (group + after), (before + group) + [x] + after;
    MovedScan(ConfigOf(T.entries), before, group, x, after, Memory(optopt, 0));
    assert ([prog] + a)[1..] == a && ([prog] + b)[1..] == b;
    assert forall s :: s in a ==> s in [prog] + a;
    EventsUnderstood(T.entries, "", a, Memory(optopt, 0));
  }

  // ----- untagged arguments -----

  /** Feed `args` to entry `i`, one after another. */
  function Fed<S>(T: Table<S>, i: nat, s: S, args: seq<string>): S {
    if args == [] then s else Fed(T, i, T.scan(i, s, Str(args[0])).0, args[1..])
  }

  /** Entry `i` accepts every one of `args` in turn. */
  predicate Accepts<S>(T: Table<S>, i: nat, s: S, args: seq<string>) {
    args == [] || (T.scan(i, s, Str(args[0])).1 == 0 && Accepts(T, i, T.scan(i, s, Str(args[0])).0, args[1..]))
  }

  /** `cuts[i - tab] .. cuts[i - tab + 1]` are the arguments accepted by entry `i`. */
  ghost predicate Runs(cuts: seq<nat>, n: nat, total: nat) {
    && |cuts| == n + 1 && cuts[0] == 0 && cuts[n] <= total
    && forall i, j :: 0 <= i <= j <= n ==> cuts[i] <= cuts[j]
  }

  /** Entry `i` went from state `s` to `s'` by accepting exactly `run`, and by refusing the argument
      `next` after it, if there is one: whatever refusing it does to the entry's state. */
  ghost predicate Took<S>(T: Table<S>, i: nat, s: S, s': S, run: seq<string>, next: Option<string>)
    requires i < |T.entries|
  {
    var t := Fed(T, i, s, run);
    && Accepts(T, i, s, run)
    && if !T.entries[i].Untagged() then run == [] && s' == s
       else if next.None? then s' == t
       else T.scan(i, t, Str(next.value)).1 != 0 && s' == T.scan(i, t, Str(next.value)).0
  }

  function Next(args: seq<string>, used: nat): Option<string> {
    if used < |args| then Some(args[used]) else None
  }

  /** Entry `i` took its run. */
  ghost predicate TookAt<S>(T: Table<S>, st: State<S>, tab: nat, args: seq<string>, r: State<S>, cuts: seq<nat>, i: nat)
    requires |st.parents| == |T.entries| == |r.parents| && tab <= i < |T.entries|
    requires Runs(cuts, |T.entries| - tab, |args|)
  {
    Took(T, i, st.parents[i], r.parents[i], args[cuts[i - tab]..cuts[i - tab + 1]], Next(args, cuts[i - tab + 1]))
  }

  /** Accepted arguments land in table order, in consecutive runs, each as long as it can be. */
  ghost predicate RunsAccepted<S>(T: Table<S>, st: State<S>, tab: nat, args: seq<string>, r: State<S>, cuts: seq<nat>)
    requires |st.parents| == |T.entries| == |r.parents| && tab <= |T.entries|
    requires Runs(cuts, |T.entries| - tab, |args|)
  {
    && r.parents[..tab] == st.parents[..tab]
    && forall i :: tab <= i < |T.entries| ==> TookAt(T, st, tab, args, r, cuts, i)
  }

  /** The arguments from `used` on are each registered exactly once, in order. */
  ghost predicate RestRegistered(log: seq<Record>, args: seq<string>, used: nat, log': seq<Record>)
    requires used <= |args|
  {
    && |log'| == |log| + (|args| - used)
    && log'[..|log|] == log
    && (forall k :: used <= k < |args| ==> log'[|log| + k - used].argval == Str(args[k]))
    && (forall k :: used < k < |args| ==> log'[|log| + k - used] == Record(ARG_ENOMATCH, End, Str(args[k])))
  }

  ghost predicate Accounted<S>(T: Table<S>, st: State<S>, tab: nat, args: seq<string>, r: State<S>, cuts: seq<nat>)
    requires |st.parents| == |T.entries| == |r.parents| && tab <= |T.entries|
  {
    && Runs(cuts, |T.entries| - tab, |args|)
    && RunsAccepted(T, st, tab, args, r, cuts)
    && RestRegistered(st.log, args, cuts[|T.entries| - tab], r.log)
  }

  // ----- the refusal that is registered -----

  function LastUntagged(entries: seq<Entry>, tab: nat): (l: Option<nat>)
    requires tab <= |entries|
    ensures l.Some? ==> tab <= l.value < |entries| && entries[l.value].Untagged()
    ensures forall i :: tab <= i < |entries| && entries[i].Untagged() ==> l.Some? && i <= l.value
    decreases |entries| - tab
  {
    if tab == |entries| then None
    else
      var l := LastUntagged(entries, tab + 1);
      if l.Some? then l else if entries[tab].Untagged() then Some(tab) else None
  }

  /** Entry `i`'s state after the run it accepted. */
  ghost function AfterRun<S>(T: Table<S>, st: State<S>, tab: nat, args: seq<string>, cuts: seq<nat>, i: nat): S
    requires |st.parents| == |T.entries| && tab <= i < |T.entries| && Runs(cuts, |T.entries| - tab, |args|)
  {
    Fed(T, i, st.parents[i], args[cuts[i - tab]..cuts[i - tab + 1]])
  }

  /** What is registered for the first argument that nobody takes: the refusal of the last untagged
      entry, if there is one. */
  ghost function Verdict<S>(T: Table<S>, st: State<S>, tab: nat, args: seq<string>, cuts: seq<nat>,
                            tentative: Option<Record>): Record
    requires |st.parents| == |T.entries| && tab <= |T.entries| && Runs(cuts, |T.entries| - tab, |args|)
    requires cuts[|T.entries| - tab] < |args|
  {
    var l, arg := LastUntagged(T.entries, tab), Str(args[cuts[|T.entries| - tab]]);
    if l.Some? then Record(T.scan(l.value, AfterRun(T, st, tab, args, cuts, l.value), arg).1, Parent(l.value), arg)
    else if tentative.Some? then tentative.value
    else Record(ARG_ENOMATCH, End, arg)
  }

  ghost predicate Refused<S>(T: Table<S>, st: State<S>, tab: nat, args: seq<string>, tentative: Option<Record>,
                             r: State<S>, cuts: seq<nat>)
    requires |st.parents| == |T.entries| && tab <= |T.entries| && Runs(cuts, |T.entries| - tab, |args|)
  {
    cuts[|T.entries| - tab] < |args| ==>
      |st.log| < |r.log| && r.log[|st.log|] == Verdict(T, st, tab, args, cuts, tentative)
  }

  // ----- one entry after another -----

  lemma EmptyRunFirst(cuts: seq<nat>, n: nat, total: nat)
    requires Runs(cuts, n, total)
    ensures Runs([0] + cuts, n + 1, total)
  {
    var cuts' := [0] + cuts;
    forall i, j | 0 <= i <= j <= n + 1 ensures cuts'[i] <= cuts'[j] {
      if i > 0 {
        assert cuts'[i] == cuts[i - 1] && cuts'[j] == cuts[j - 1];
      }
    }
  }

  /** With the entry itself taking nothing, the runs of the later entries are the runs. */
  lemma NoneTaken<S>(T: Table<S>, st: State<S>, st': State<S>, tab: nat, args: seq<string>, r: State<S>, cuts: seq<nat>)
    requires |st.parents| == |st'.parents| == |T.entries| == |r.parents| && tab < |T.entries|
    requires st' == st.(parents := st.parents[tab := st'.parents[tab]])
    requires Accounted(T, st', tab + 1, args, r, cuts)
    requires Took(T, tab, st.parents[tab], st'.parents[tab], [], Next(args, 0))
    ensures Accounted(T, st, tab, args, r, [0] + cuts)
  {
    EmptyRunFirst(cuts, |T.entries| - (tab + 1), |args|);
    assert ([0] + cuts)[|T.entries| - tab] == cuts[|T.entries| - (tab + 1)];
    hide Took, RestRegistered, Runs, Next;
    assert r.parents[..tab] == r.parents[..tab + 1][..tab] == st'.parents[..tab + 1][..tab] == st.parents[..tab];
    forall i | tab <= i < |T.entries| ensures TookAt(T, st, tab, args, r, [0] + cuts, i) {
      NoneTakenBy(T, st, st', tab, args, r, cuts, i);
    }
  }

  lemma NoneTakenBy<S>(T: Table<S>, st: State<S>, st': State<S>, tab: nat, args: seq<string>, r: State<S>,
                       cuts: seq<nat>, i: nat)
    requires |st.parents| == |st'.parents| == |T.entries| == |r.parents| && tab <= i < |T.entries|
    requires st' == st.(parents := st.parents[tab := st'.parents[tab]])
    requires Accounted(T, st', tab + 1, args, r, cuts) && Runs([0] + cuts, |T.entries| - tab, |args|)
    requires Took(T, tab, st.parents[tab], st'.parents[tab], [], Next(args, 0))
    ensures TookAt(T, st, tab, args, r, [0] + cuts, i)
  {
    hide Took, RestRegistered, Next;
    var cuts' := [0] + cuts;
    if i > tab {
      assert TookAt(T, st', tab + 1, args, r, cuts, i);
      assert cuts'[i - tab] == cuts[i - (tab + 1)] && cuts'[i - tab + 1] == cuts[i - (tab + 1) + 1];
    } else {
      assert r.parents[tab] == r.parents[..tab + 1][tab] == st'.parents[..tab + 1][tab] == st'.parents[tab];
      assert args[0..0] == [] && cuts'[0] == cuts'[1] == 0;
    }
  }

  function LaterCuts(cuts: seq<nat>): (r: seq<nat>)
    requires cuts != []
    ensures |r| == |cuts| && r[0] == 0 && forall i :: 0 < i < |cuts| ==> r[i] == cuts[i] + 1
  {
    [0] + seq(|cuts| - 1, i requires 0 <= i < |cuts| - 1 => cuts[i + 1] + 1)
  }

  lemma LaterRuns(cuts: seq<nat>, n: nat, total: nat)
    requires Runs(cuts, n, total) && n > 0
    ensures Runs(LaterCuts(cuts), n, total + 1)
  {
  }

  lemma TookOneMore<S>(T: Table<S>, i: nat, s: S, s': S, x: string, run: seq<string>, next: Option<string>)
    requires i < |T.entries| && T.entries[i].Untagged() && T.scan(i, s, Str(x)).1 == 0
    requires Took(T, i, T.scan(i, s, Str(x)).0, s', run, next)
    ensures Took(T, i, s, s', [x] + run, next)
  {
    assert ([x] + run)[1..] == run;
  }

  lemma RunShifted(args: seq<string>, cuts: seq<nat>, n: nat, j: nat)
    requires args != [] && Runs(cuts, n, |args| - 1) && j < n
    requires Runs(LaterCuts(cuts), n, |args|)
    ensures var c, run := LaterCuts(cuts), args[1..][cuts[j]..cuts[j + 1]];
      && args[c[j]..c[j + 1]] == (if j == 0 then [args[0]] + run else run)
      && Next(args, c[j + 1]) == Next(args[1..], cuts[j + 1])
  {
    hide LaterCuts;
    var c, rest := LaterCuts(cuts), args[1..];
    var from, to := cuts[j], cuts[j + 1];
    assert 0 <= from <= to <= |rest| && c[j + 1] == to + 1 && c[j] == if j == 0 then 0 else from + 1;
    assert args == [args[0]] + rest;
    if j == 0 {
      assert from == 0;
      FirstSlice(args, to);
    } else {
      LaterSlice(args, from, to);
    }
  }

  lemma FirstSlice(args: seq<string>, to: nat)
    requires args != [] && to < |args|
    ensures args[0..to + 1] == [args[0]] + args[1..][0..to]
  {
  }

  lemma LaterSlice(args: seq<string>, from: nat, to: nat)
    requires args != [] && from <= to < |args|
    ensures args[from + 1..to + 1] == args[1..][from..to]
  {
    var a, b := args[from + 1..to + 1], args[1..][from..to];
    assert |a| == |b|;
    forall i | 0 <= i < |a| ensures a[i] == b[i] {
    }
  }

  /** One more argument at the front of the first run. */
  lemma OneTaken<S>(T: Table<S>, st: State<S>, st': State<S>, tab: nat, args: seq<string>, r: State<S>, cuts: seq<nat>)
    requires |st.parents| == |T.entries| == |r.parents| && tab < |T.entries| && args != []
    requires T.entries[tab].Untagged() && T.scan(tab, st.parents[tab], Str(args[0])).1 == 0
    requires st' == st.(parents := st.parents[tab := T.scan(tab, st.parents[tab], Str(args[0])).0])
    requires Accounted(T, st', tab, args[1..], r, cuts)
    ensures Accounted(T, st, tab, args, r, LaterCuts(cuts))
  {
    LaterRuns(cuts, |T.entries| - tab, |args| - 1);
    OneMoreInFront(st.log, args, cuts[|T.entries| - tab], r.log);
    OneTakenRuns(T, st, st', tab, args, r, cuts);
    hide *;
    assert Accounted(T, st, tab, args, r, LaterCuts(cuts)) by { AccountedParts(T, st, tab, args, r, LaterCuts(cuts)); }
  }

  lemma AccountedParts<S>(T: Table<S>, st: State<S>, tab: nat, args: seq<string>, r: State<S>, cuts: seq<nat>)
    requires |st.parents| == |T.entries| == |r.parents| && tab <= |T.entries| && Runs(cuts, |T.entries| - tab, |args|)
    requires RunsAccepted(T, st, tab, args, r, cuts) && RestRegistered(st.log, args, cuts[|T.entries| - tab], r.log)
    ensures Accounted(T, st, tab, args, r, cuts)
  {
  }

  lemma OneTakenRuns<S>(T: Table<S>, st: State<S>, st': State<S>, tab: nat, args: seq<string>, r: State<S>,
                        cuts: seq<nat>)
    requires |st.parents| == |T.entries| == |r.parents| && tab < |T.entries| && args != []
    requires T.entries[tab].Untagged() && T.scan(tab, st.parents[tab], Str(args[0])).1 == 0
    requires st' == st.(parents := st.parents[tab := T.scan(tab, st.parents[tab], Str(args[0])).0])
    requires Accounted(T, st', tab, args[1..], r, cuts) && Runs(LaterCuts(cuts), |T.entries| - tab, |args|)
    ensures RunsAccepted(T, st, tab, args, r, LaterCuts(cuts))
  {
    hide RestRegistered, Took, TookAt, LaterCuts, Next;
    assert r.parents[..tab] == st'.parents[..tab] == st.parents[..tab];
    forall i | tab <= i < |T.entries| ensures TookAt(T, st, tab, args, r, LaterCuts(cuts), i) {
      OneTakenBy(T, st, st', tab, args, r, cuts, i);
    }
  }

  lemma OneTakenBy<S>(T: Table<S>, st: State<S>, st': State<S>, tab: nat, args: seq<string>, r: State<S>,
                      cuts: seq<nat>, i: nat)
    requires |st.parents| == |T.entries| == |r.parents| && tab < |T.entries| && args != [] && tab <= i < |T.entries|
    requires T.entries[tab].Untagged() && T.scan(tab, st.parents[tab], Str(args[0])).1 == 0
    requires st' == st.(parents := st.parents[tab := T.scan(tab, st.parents[tab], Str(args[0])).0])
    requires Accounted(T, st', tab, args[1..], r, cuts) && Runs(LaterCuts(cuts), |T.entries| - tab, |args|)
    ensures TookAt(T, st, tab, args, r, LaterCuts(cuts), i)
  {
    hide Took, RestRegistered, LaterCuts, Next;
    assert TookAt(T, st', tab, args[1..], r, cuts, i);
    var run, next := args[1..][cuts[i - tab]..cuts[i - tab + 1]], Next(args[1..], cuts[i - tab + 1]);
    assert Took(T, i, st'.parents[i], r.parents[i], run, next);
    RunShifted(args, cuts, |T.entries| - tab, i - tab);
    if i == tab {
      TookOneMore(T, i, st.parents[i], r.parents[i], args[0], run, next);
    }
  }

  lemma OneMoreInFront(log: seq<Record>, args: seq<string>, used: nat, log': seq<Record>)
    requires args != [] && used < |args| && RestRegistered(log, args[1..], used, log')
    ensures RestRegistered(log, args, used + 1, log')
  {
    forall k | used + 1 <= k < |args|
      ensures log'[|log| + k - (used + 1)].argval == Str(args[k])
      ensures k > used + 1 ==> log'[|log| + k - (used + 1)] == Record(ARG_ENOMATCH, End, Str(args[k]))
    {
      var k' := k - 1;
      assert log'[|log| + k' - used].argval == Str(args[1..][k']);
      assert k' > used ==> log'[|log| + k' - used] == Record(ARG_ENOMATCH, End, Str(args[1..][k']));
    }
  }

  /** Every leftover argument is accounted for exactly once: accepted by one untagged entry, in
      table order and in consecutive runs, each as long as it can be; or registered as one error,
      which for the first of them is the refusal of the last untagged entry. */
  lemma {:induction false} UntaggedAccounted<S>(T: Table<S>, st: State<S>, tab: nat, args: seq<string>,
                                                tentative: Option<Record>) returns (cuts: seq<nat>)
    requires |st.parents| == |T.entries| && tab <= |T.entries|
    requires tentative.Some? ==> args != [] && tentative.value.argval == Str(args[0])
    ensures var r := AssignUntagged(T, st, tab, args, tentative);
      Accounted(T, st, tab, args, r, cuts) && Refused(T, st, tab, args, tentative, r, cuts)
    decreases |args| + |T.entries| - tab
  {
    hide Accounted, Refused, LastUntagged;
    if tab == |T.entries| {
      cuts := EndAccounted(T, st, args, tentative);
    } else if args == [] {
      cuts := NothingAccounted(T, st, tab);
    } else if !T.entries[tab].Untagged() {
      var later := UntaggedAccounted(T, st, tab + 1, args, tentative);
      cuts := TaggedAccounted(T, st, tab, args, tentative, later);
    } else {
      var (s, error) := T.scan(tab, st.parents[tab], Str(args[0]));
      var st' := st.(parents := st.parents[tab := s]);
      if error == 0 {
        var later := UntaggedAccounted(T, st', tab, args[1..], None);
        cuts := TakerAccounted(T, st, tab, args, tentative, later);
      } else {
        var later := UntaggedAccounted(T, st', tab + 1, args, Some(Record(error, Parent(tab), Str(args[0]))));
        cuts := RefuserAccounted(T, st, tab, args, tentative, later);
      }
    }
  }

  lemma EndAccounted<S>(T: Table<S>, st: State<S>, args: seq<string>, tentative: Option<Record>)
      returns (cuts: seq<nat>)
    requires |st.parents| == |T.entries|
    requires tentative.Some? ==> args != [] && tentative.value.argval == Str(args[0])
    ensures var r, tab := AssignUntagged(T, st, |T.entries|, args, tentative), |T.entries|;
      Accounted(T, st, tab, args, r, cuts) && Refused(T, st, tab, args, tentative, r, cuts)
  {
    cuts := [0];
  }

  lemma NothingAccounted<S>(T: Table<S>, st: State<S>, tab: nat) returns (cuts: seq<nat>)
    requires |st.parents| == |T.entries| && tab < |T.entries|
    ensures var r := AssignUntagged(T, st, tab, [], None);
      Accounted(T, st, tab, [], r, cuts) && Refused(T, st, tab, [], None, r, cuts)
  {
    cuts := seq(|T.entries| - tab + 1, i => 0);
    var none: seq<string> := [];
    assert none[0..0] == [];
  }

  lemma TaggedAccounted<S>(T: Table<S>, st: State<S>, tab: nat, args: seq<string>, tentative: Option<Record>,
                           later: seq<nat>)
      returns (cuts: seq<nat>)
    requires |st.parents| == |T.entries| && tab < |T.entries| && args != [] && !T.entries[tab].Untagged()
    requires var r := AssignUntagged(T, st, tab + 1, args, tentative);
      Accounted(T, st, tab + 1, args, r, later) && Refused(T, st, tab + 1, args, tentative, r, later)
    ensures var r := AssignUntagged(T, st, tab, args, tentative);
      Accounted(T, st, tab, args, r, cuts) && Refused(T, st, tab, args, tentative, r, cuts)
  {
    var r := AssignUntagged(T, st, tab, args, tentative);
    assert r == AssignUntagged(T, st, tab + 1, args, tentative);
    assert st == st.(parents := st.parents[tab := st.parents[tab]]);
    NoneTaken(T, st, st, tab, args, r, later);
    cuts := [0] + later;
    hide AssignUntagged, RunsAccepted, RestRegistered;
    assert LastUntagged(T.entries, tab) == LastUntagged(T.entries, tab + 1);
    if later[|T.entries| - (tab + 1)] < |args| {
      LaterVerdict(T, st, st, tab, args, later, tentative, tentative);
    }
  }

  /** The refusal of an entry after the first one. */
  lemma LaterVerdict<S>(T: Table<S>, st: State<S>, st': State<S>, tab: nat, args: seq<string>, later: seq<nat>,
                        tentative: Option<Record>, tentative': Option<Record>)
    requires |st.parents| == |st'.parents| == |T.entries| && tab < |T.entries|
    requires st' == st.(parents := st.parents[tab := st'.parents[tab]])
    requires Runs(later, |T.entries| - (tab + 1), |args|) && Runs([0] + later, |T.entries| - tab, |args|)
    requires LastUntagged(T.entries, tab) == LastUntagged(T.entries, tab + 1)
    requires later[|T.entries| - (tab + 1)] < |args|
    requires LastUntagged(T.entries, tab) == None ==> tentative == tentative'
    ensures Verdict(T, st, tab, args, [0] + later, tentative) == Verdict(T, st', tab + 1, args, later, tentative')
  {
    hide LastUntagged, Fed;
    var l := LastUntagged(T.entries, tab);
    if l.Some? {
      assert ([0] + later)[l.value - tab] == later[l.value - (tab + 1)];
      assert ([0] + later)[l.value - tab + 1] == later[l.value - (tab + 1) + 1];
    }
  }

  lemma TakerAccounted<S>(T: Table<S>, st: State<S>, tab: nat, args: seq<string>, tentative: Option<Record>,
                          later: seq<nat>)
      returns (cuts: seq<nat>)
    requires |st.parents| == |T.entries| && tab < |T.entries| && args != [] && T.entries[tab].Untagged()
    requires T.scan(tab, st.parents[tab], Str(args[0])).1 == 0
    requires var st' := st.(parents := st.parents[tab := T.scan(tab, st.parents[tab], Str(args[0])).0]);
      var r := AssignUntagged(T, st', tab, args[1..], None);
      Accounted(T, st', tab, args[1..], r, later) && Refused(T, st', tab, args[1..], None, r, later)
    ensures var r := AssignUntagged(T, st, tab, args, tentative);
      Accounted(T, st, tab, args, r, cuts) && Refused(T, st, tab, args, tentative, r, cuts)
  {
    var st' := st.(parents := st.parents[tab := T.scan(tab, st.parents[tab], Str(args[0])).0]);
    var r := AssignUntagged(T, st, tab, args, tentative);
    assert r == AssignUntagged(T, st', tab, args[1..], None);
    OneTaken(T, st, st', tab, args, r, later);
    cuts := LaterCuts(later);
    hide AssignUntagged, RunsAccepted, RestRegistered, LaterCuts;
    if later[|T.entries| - tab] < |args| - 1 {
      TakerVerdict(T, st, st', tab, args, later, tentative);
    }
  }

  lemma TakerVerdict<S>(T: Table<S>, st: State<S>, st': State<S>, tab: nat, args: seq<string>, later: seq<nat>,
                        tentative: Option<Record>)
    requires |st.parents| == |T.entries| && tab < |T.entries| && args != [] && T.entries[tab].Untagged()
    requires st' == st.(parents := st.parents[tab := T.scan(tab, st.parents[tab], Str(args[0])).0])
    requires Runs(later, |T.entries| - tab, |args| - 1) && Runs(LaterCuts(later), |T.entries| - tab, |args|)
    requires later[|T.entries| - tab] < |args| - 1
    ensures Verdict(T, st, tab, args, LaterCuts(later), tentative) == Verdict(T, st', tab, args[1..], later, None)
  {
    hide LastUntagged, LaterCuts;
    var l := LastUntagged(T.entries, tab).value;
    RunShifted(args, later, |T.entries| - tab, l - tab);
    assert args[LaterCuts(later)[|T.entries| - tab]] == args[1..][later[|T.entries| - tab]];
    if l == tab {
      var run := args[1..][later[0]..later[1]];
      assert ([args[0]] + run)[1..] == run;
    }
  }

  lemma RefuserAccounted<S>(T: Table<S>, st: State<S>, tab: nat, args: seq<string>, tentative: Option<Record>,
                            later: seq<nat>)
      returns (cuts: seq<nat>)
    requires |st.parents| == |T.entries| && tab < |T.entries| && args != [] && T.entries[tab].Untagged()
    requires T.scan(tab, st.parents[tab], Str(args[0])).1 != 0
    requires var (s, error) := T.scan(tab, st.parents[tab], Str(args[0]));
      var st', mine := st.(parents := st.parents[tab := s]), Record(error, Parent(tab), Str(args[0]));
      var r := AssignUntagged(T, st', tab + 1, args, Some(mine));
      Accounted(T, st', tab + 1, args, r, later) && Refused(T, st', tab + 1, args, Some(mine), r, later)
    ensures var r := AssignUntagged(T, st, tab, args, tentative);
      Accounted(T, st, tab, args, r, cuts) && Refused(T, st, tab, args, tentative, r, cuts)
  {
    var (s, error) := T.scan(tab, st.parents[tab], Str(args[0]));
    var st', mine := st.(parents := st.parents[tab := s]), Record(error, Parent(tab), Str(args[0]));
    var r := AssignUntagged(T, st, tab, args, tentative);
    assert r == AssignUntagged(T, st', tab + 1, args, Some(mine));
    NoneTaken(T, st, st', tab, args, r, later);
    cuts := [0] + later;
    var used := later[|T.entries| - (tab + 1)];
    if used < |args| {
      assert r.log[|st.log| + used - used].argval == Str(args[used]);
      hide AssignUntagged, RunsAccepted, RestRegistered;
      if LastUntagged(T.entries, tab + 1).Some? {
        LaterVerdict(T, st, st', tab, args, later, tentative, Some(mine));
      } else {
        assert args[cuts[0]..cuts[1]] == [];
      }
    }
  }
}
