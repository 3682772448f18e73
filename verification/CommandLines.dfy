/** Laws of `Run`: why permuting a command line does not change what it means. */
module CommandLines {
  import opened Options

  // ----- a step looks no further than the tokens it finishes -----

  /** A step whose argument is not missing reads only the tokens it finishes (and the current
      one), so what follows them can be replaced. */
  lemma StepIsLocal(cfg: Config, place: string, toks: seq<string>, toks': seq<string>, mem: Memory)
    requires place != "" && toks != []
    requires var st := OptionStep(cfg, place, toks, mem);
      if st.missing then toks' == toks else toks' != [] && toks'[0] == toks[0] && toks[..st.used] <= toks'
    ensures OptionStep(cfg, place, toks', mem) == OptionStep(cfg, place, toks, mem)
  {
    if place != toks[0] && place[0] == '-' {
      LongIsLocal(cfg, place[1..], toks, toks', mem);
    } else {
      ShortIsLocal(cfg, place, toks, toks', mem);
    }
  }

  lemma LongIsLocal(cfg: Config, name: string, toks: seq<string>, toks': seq<string>, mem: Memory)
    requires toks != []
    requires var st := LongStep(cfg, name, toks, mem);
      if st.missing then toks' == toks else toks' != [] && toks'[0] == toks[0] && toks[..st.used] <= toks'
    ensures LongStep(cfg, name, toks', mem) == LongStep(cfg, name, toks, mem)
  {
    hide LongMatch, StrChr, Key;
    var st := LongStep(cfg, name, toks, mem);
    if !st.missing {
      assert st.used >= 2 ==> toks[..st.used][1] == toks'[1];
    }
  }

  lemma ShortIsLocal(cfg: Config, place: string, toks: seq<string>, toks': seq<string>, mem: Memory)
    requires place != "" && toks != []
    requires var st := ShortStep(cfg, place, toks, mem);
      if st.missing then toks' == toks else toks' != [] && toks'[0] == toks[0] && toks[..st.used] <= toks'
    ensures ShortStep(cfg, place, toks', mem) == ShortStep(cfg, place, toks, mem)
  {
    hide LongStep, StrChr;
    var st := ShortStep(cfg, place, toks, mem);
    if !st.missing {
      assert st.used >= 2 ==> toks[..st.used][1] == toks'[1];
    }
    if place[0] == 'W' {
      if place[1..] != "" {
        if st == LongStep(cfg, place[1..], toks, mem) {
          LongIsLocal(cfg, place[1..], toks, toks', mem);
        }
      } else if |toks| > 1 && !st.missing && st.used >= 2 {
        var deep := LongStep(cfg, toks[1], toks[1..], mem);
        if st == deep.(used := deep.used + 1) {
          assert toks[1..][..deep.used] == toks[..st.used][1..];
          assert toks'[1..][..deep.used] == toks'[..st.used][1..];
          LongIsLocal(cfg, toks[1], toks[1..], toks'[1..], mem);
        }
      }
    }
  }

  lemma FrontAndBack(front: seq<string>, mid: seq<string>, back: seq<string>)
    ensures var all := front + mid + back;
      && all[..|front|] == front && all[|front|..] == mid + back
      && (front == [] ==> front + mid == mid && all == mid + back)
  {
    var all := front + mid + back;
    assert all == front + (mid + back);
  }

  /** Reading starts with an option: inside a token, or before one that is an option. */
  predicate OptionFirst(cfg: Config, place: string, toks: seq<string>) {
    toks != [] && (place != "" || (!IsNonOption(cfg, toks[0]) && toks[0] != "--"))
  }

  function FirstStep(cfg: Config, place: string, toks: seq<string>, mem: Memory): Step
    requires OptionFirst(cfg, place, toks)
  {
    OptionStep(cfg, if place == "" then FirstPlace(toks[0]) else place, toks, mem)
  }

  /** Two command lines that start with the same step differ only by what follows it. */
  lemma SameFirstStep(cfg: Config, place: string, toks: seq<string>, toks': seq<string>, mem: Memory)
    requires OptionFirst(cfg, place, toks)
    requires var st := FirstStep(cfg, place, toks, mem);
      if st.missing then toks' == toks else toks' != [] && toks'[0] == toks[0] && toks[..st.used] <= toks'
    ensures var st := FirstStep(cfg, place, toks, mem);
      var o := Run(cfg, st.place, toks'[st.used..], st.event.mem);
      && st.used <= |toks'| && toks'[..st.used] == toks[..st.used]
      && (st.place != "" ==> toks'[st.used..] == toks')
      && Run(cfg, place, toks', mem) == o.(events := [st.event] + o.events, opts := toks[..st.used] + o.opts,
                                           ending := if st.missing then MissingArgument else o.ending)
  {
    hide OptionStep;
    StepIsLocal(cfg, if place == "" then FirstPlace(toks[0]) else place, toks, toks', mem);
  }

  /** What the next call will remember after the events `es`. */
  function Remembered(es: seq<Event>, mem: Memory): Memory {
    if es == [] then mem else es[|es| - 1].mem
  }

  // ----- permuting a command line does not change what it says -----

  /** The options of a command line, followed by plain tokens, report the same events as the
      command line itself.  (After `--` anything may follow; after a missing argument, nothing.) */
  lemma {:induction false} RunOnOptions(cfg: Config, place: string, toks: seq<string>, mem: Memory, tail: seq<string>)
    requires place != "" ==> toks != []
    requires var o := Run(cfg, place, toks, mem);
      match o.ending
      case Exhausted => forall i :: 0 <= i < |tail| ==> IsNonOption(cfg, tail[i])
      case DashDash => true
      case MissingArgument => tail == []
    ensures var o := Run(cfg, place, toks, mem);
      && (place != "" ==> o.opts != [] && o.opts[0] == toks[0])
      && Run(cfg, place, o.opts + tail, mem)
         == o.(nonopts := if o.ending == DashDash then [] else tail, rest := if o.ending == DashDash then tail else [])
    decreases |toks|, if place != "" then |place| else if toks == [] then 0 else |toks[0]| + 1
  {
    hide OptionStep;
    var o := Run(cfg, place, toks, mem);
    if place == "" && toks == [] {
      RunOnPlain(cfg, tail, mem);
      assert o.opts + tail == tail;
    } else if place == "" && IsNonOption(cfg, toks[0]) {
      RunOnOptions(cfg, "", toks[1..], mem, tail);
    } else if place == "" && toks[0] == "--" {
      assert (o.opts + tail)[1..] == tail;
    } else {
      var st := FirstStep(cfg, place, toks, mem);
      assert Run(cfg, place, toks, mem).ending
          == if st.missing then MissingArgument else Run(cfg, st.place, toks[st.used..], st.event.mem).ending;
      RunNothing(cfg, st.event.mem);
      RunOnOptions(cfg, st.place, toks[st.used..], st.event.mem, tail);
      OnOptionsStep(cfg, place, toks, mem, tail);
    }
  }

  lemma RunNothing(cfg: Config, mem: Memory)
    ensures Run(cfg, "", [], mem) == Outcome([], [], [], [], Exhausted)
  {
  }

  /** The case of `RunOnOptions` in which an option comes first. */
  lemma OnOptionsStep(cfg: Config, place: string, toks: seq<string>, mem: Memory, tail: seq<string>)
    requires OptionFirst(cfg, place, toks)
    requires var st := FirstStep(cfg, place, toks, mem);
      var later := Run(cfg, st.place, toks[st.used..], st.event.mem);
      && (st.missing ==> tail == [])
      && (st.place != "" ==> later.opts != [] && later.opts[0] == toks[st.used..][0])
      && Run(cfg, st.place, later.opts + tail, st.event.mem)
         == later.(nonopts := if later.ending == DashDash then [] else tail,
                   rest := if later.ending == DashDash then tail else [])
    ensures var o := Run(cfg, place, toks, mem);
      && (place != "" ==> o.opts != [] && o.opts[0] == toks[0])
      && Run(cfg, place, o.opts + tail, mem)
         == o.(nonopts := if o.ending == DashDash then [] else tail, rest := if o.ending == DashDash then tail else [])
  {
    hide OptionStep, Run, IsNonOption;
    var st := FirstStep(cfg, place, toks, mem);
    var later := Run(cfg, st.place, toks[st.used..], st.event.mem);
    SameFirstStep(cfg, place, toks, toks, mem);
    var o := Run(cfg, place, toks, mem);
    FrontAndBack(toks[..st.used], later.opts, tail);
    if st.missing {
      RunNothing(cfg, st.event.mem);
      assert o.opts + tail == toks;
    } else {
      SameFirstStep(cfg, place, toks, o.opts + tail, mem);
    }
  }

  lemma {:induction false} RunOnPlain(cfg: Config, toks: seq<string>, mem: Memory)
    requires forall i :: 0 <= i < |toks| ==> IsNonOption(cfg, toks[i])
    ensures Run(cfg, "", toks, mem) == Outcome([], [], toks, [], Exhausted)
  {
    if toks != [] {
      RunOnPlain(cfg, toks[1..], mem);
      assert [toks[0]] + toks[1..] == toks;
    }
  }

  /** The events of a command line are those of its options alone. */
  lemma EventsOfOptions(cfg: Config, toks: seq<string>, mem: Memory)
    ensures var o := Run(cfg, "", toks, mem); Run(cfg, "", o.opts, mem) == o.(nonopts := [], rest := [])
  {
    var o := Run(cfg, "", toks, mem);
    RunOnOptions(cfg, "", toks, mem, []);
    assert o.opts + [] == o.opts;
  }

  /** So two command lines with the same options report the same events, however the
      non-options are interleaved with them. */
  lemma SameOptionsSameEvents(cfg: Config, toks: seq<string>, toks': seq<string>, mem: Memory)
    requires Run(cfg, "", toks, mem).opts == Run(cfg, "", toks', mem).opts
    ensures Run(cfg, "", toks, mem).events == Run(cfg, "", toks', mem).events
  {
    EventsOfOptions(cfg, toks, mem);
    EventsOfOptions(cfg, toks', mem);
  }

  lemma {:induction false} PlainTokensFrom(cfg: Config, place: string, toks: seq<string>, mem: Memory)
    requires place != "" ==> toks != []
    ensures var o := Run(cfg, place, toks, mem);
      && (forall i :: 0 <= i < |o.nonopts| ==> IsNonOption(cfg, o.nonopts[i]))
      && (o.ending != DashDash ==> o.rest == [])
      && |o.opts| + |o.nonopts| + |o.rest| == |toks|
    decreases |toks|, if place != "" then |place| else if toks == [] then 0 else |toks[0]| + 1
  {
    if place == "" && toks != [] && IsNonOption(cfg, toks[0]) {
      PlainTokensFrom(cfg, "", toks[1..], mem);
    } else if place != "" || (toks != [] && toks[0] != "--") {
      var st := OptionStep(cfg, if place == "" then FirstPlace(toks[0]) else place, toks, mem);
      PlainTokensFrom(cfg, st.place, toks[st.used..], st.event.mem);
    }
  }

  /** Scanning the permuted command line once more finds the same options exactly when no
      option was left without its argument while non-options were skipped: otherwise the first
      of them would become that argument. */
  lemma RescanPermuted(cfg: Config, toks: seq<string>, mem: Memory)
    ensures var o := Run(cfg, "", toks, mem);
      var again := Run(cfg, "", o.Layout(), mem);
      && (again.opts == o.opts <==> (o.ending == MissingArgument ==> o.nonopts == []))
      && (again.opts == o.opts ==> again.events == o.events && again.Layout() == o.Layout())
  {
    hide Run, IsNonOption;
    var o := Run(cfg, "", toks, mem);
    PlainTokensFrom(cfg, "", toks, mem);
    if o.ending == MissingArgument && o.nonopts != [] {
      assert o.Layout() == o.opts + o.nonopts;
      MissingTakesNext(cfg, "", toks, mem, o.nonopts);
    } else {
      assert o.Layout() == o.opts + (o.nonopts + o.rest);
      RunOnOptions(cfg, "", toks, mem, o.nonopts + o.rest);
    }
  }

  lemma LongMissingTakesNext(cfg: Config, name: string, toks: seq<string>, all: seq<string>, mem: Memory)
    requires toks != [] && toks < all && LongStep(cfg, name, toks, mem).missing
    ensures LongStep(cfg, name, all, mem).used > |toks|
  {
  }

  lemma ShortMissingTakesNext(cfg: Config, place: string, toks: seq<string>, all: seq<string>, mem: Memory)
    requires place != "" && toks != [] && toks < all && ShortStep(cfg, place, toks, mem).missing
    ensures ShortStep(cfg, place, all, mem).used > |toks|
  {
    hide LongStep;
    var oli := StrChr(cfg.options, place[0]);
    if place[0] == 'W' && CharAt(cfg.options, oli + 1, ';') {
      if place[1..] != "" {
        LongMissingTakesNext(cfg, place[1..], toks, all, mem);
      } else if |toks| > 1 {
        LongMissingTakesNext(cfg, toks[1], toks[1..], all[1..], mem);
      }
    }
  }

  lemma MissingStepTakesNext(cfg: Config, place: string, toks: seq<string>, tail: seq<string>, mem: Memory)
    requires OptionFirst(cfg, place, toks) && FirstStep(cfg, place, toks, mem).missing && tail != []
    ensures |Run(cfg, place, toks + tail, mem).opts| > |toks|
  {
    hide Run, LongStep, ShortStep;
    var all := toks + tail;
    var at := if place == "" then FirstPlace(toks[0]) else place;
    assert all[0] == toks[0];
    if at != toks[0] && at[0] == '-' {
      LongMissingTakesNext(cfg, at[1..], toks, all, mem);
    } else {
      ShortMissingTakesNext(cfg, at, toks, all, mem);
    }
    SameFirstStep(cfg, place, all, all, mem);
  }

  /** With anything after it, the option that lacked its argument takes it. */
  lemma {:induction false} MissingTakesNext(cfg: Config, place: string, toks: seq<string>, mem: Memory,
                                            tail: seq<string>)
    requires place != "" ==> toks != []
    requires Run(cfg, place, toks, mem).ending == MissingArgument && tail != []
    ensures var o := Run(cfg, place, toks, mem);
      && (place != "" ==> o.opts != [] && o.opts[0] == toks[0])
      && |Run(cfg, place, o.opts + tail, mem).opts| > |o.opts|
    decreases |toks|, if place != "" then |place| else if toks == [] then 0 else |toks[0]| + 1
  {
    hide OptionStep;
    var o := Run(cfg, place, toks, mem);
    if place == "" && IsNonOption(cfg, toks[0]) {
      MissingTakesNext(cfg, "", toks[1..], mem, tail);
    } else {
      var st := FirstStep(cfg, place, toks, mem);
      SameFirstStep(cfg, place, toks, toks, mem);
      var later := Run(cfg, st.place, toks[st.used..], st.event.mem);
      var all := o.opts + tail;
      if st.missing {
        assert o.opts == toks;
        assert all[0] == toks[0];
        MissingStepTakesNext(cfg, place, toks, tail, mem);
      } else {
        MissingTakesNext(cfg, st.place, toks[st.used..], st.event.mem, tail);
        FrontAndBack(toks[..st.used], later.opts, tail);
        SameFirstStep(cfg, place, toks, all, mem);
      }
    }
  }

  // ----- scanning is compositional -----

  /** One outcome after another. */
  function Joined(o: Outcome, o': Outcome): Outcome {
    Outcome(o.events + o'.events, o.opts + o'.opts, o.nonopts + o'.nonopts, o'.rest, o'.ending)
  }

  /** A step in front of an outcome. */
  function StepBefore(e: Event, group: seq<string>, o: Outcome): Outcome {
    o.(events := [e] + o.events, opts := group + o.opts)
  }

  lemma JoinedStep(e: Event, group: seq<string>, o: Outcome, o': Outcome)
    ensures Joined(StepBefore(e, group, o), o') == StepBefore(e, group, Joined(o, o'))
  {
    assert [e] + o.events + o'.events == [e] + (o.events + o'.events);
    assert group + o.opts + o'.opts == group + (o.opts + o'.opts);
  }

  /** A command line that ends neither at `--` nor on a missing argument can be cut there:
      the rest is scanned as if it stood alone. */
  lemma {:induction false} RunConcat(cfg: Config, place: string, toks: seq<string>, more: seq<string>, mem: Memory)
    requires place != "" ==> toks != []
    requires Run(cfg, place, toks, mem).ending == Exhausted
    ensures var o := Run(cfg, place, toks, mem);
      Run(cfg, place, toks + more, mem) == Joined(o, Run(cfg, "", more, Remembered(o.events, mem)))
    decreases |toks|, if place != "" then |place| else if toks == [] then 0 else |toks[0]| + 1
  {
    hide OptionStep;
    if place == "" && toks == [] {
      assert toks + more == more;
    } else if place == "" && IsNonOption(cfg, toks[0]) {
      hide Run, IsNonOption;
      PlainConcat(cfg, toks, more, mem);
      RunConcat(cfg, "", toks[1..], more, mem);
      var later := Run(cfg, "", toks[1..], mem);
      JoinedPlain(toks[0], later, Run(cfg, "", more, Remembered(later.events, mem)));
    } else {
      OptionGoesFirst(cfg, place, toks, mem);
      hide Run, IsNonOption;
      ConcatStep(cfg, place, toks, more, mem);
      var st := FirstStep(cfg, place, toks, mem);
      RunConcat(cfg, st.place, toks[st.used..], more, st.event.mem);
      var later := Run(cfg, st.place, toks[st.used..], st.event.mem);
      JoinedStep(st.event, toks[..st.used], later, Run(cfg, "", more, Remembered(later.events, st.event.mem)));
    }
  }

  lemma PlainConcat(cfg: Config, toks: seq<string>, more: seq<string>, mem: Memory)
    requires toks != [] && IsNonOption(cfg, toks[0])
    ensures var o := Run(cfg, "", toks[1..], mem); Run(cfg, "", toks, mem) == o.(nonopts := [toks[0]] + o.nonopts)
    ensures var o := Run(cfg, "", toks[1..] + more, mem);
      Run(cfg, "", toks + more, mem) == o.(nonopts := [toks[0]] + o.nonopts)
  {
    hide Run, IsNonOption;
    assert toks == [toks[0]] + toks[1..] && toks + more == [toks[0]] + (toks[1..] + more);
    PlainFirst(cfg, toks[0], toks[1..], mem);
    PlainFirst(cfg, toks[0], toks[1..] + more, mem);
  }

  lemma JoinedPlain(x: string, o: Outcome, o': Outcome)
    ensures var w := Joined(o, o'); Joined(o.(nonopts := [x] + o.nonopts), o') == w.(nonopts := [x] + w.nonopts)
  {
    assert [x] + (o.nonopts + o'.nonopts) == [x] + o.nonopts + o'.nonopts;
  }

  lemma OptionGoesFirst(cfg: Config, place: string, toks: seq<string>, mem: Memory)
    requires toks != [] && (place != "" || !IsNonOption(cfg, toks[0])) && Run(cfg, place, toks, mem).ending == Exhausted
    ensures OptionFirst(cfg, place, toks)
    ensures var st := FirstStep(cfg, place, toks, mem);
      !st.missing && (st.place != "" ==> toks[st.used..] != [])
        && Run(cfg, st.place, toks[st.used..], st.event.mem).ending == Exhausted
  {
    hide OptionStep;
  }

  lemma ConcatStep(cfg: Config, place: string, toks: seq<string>, more: seq<string>, mem: Memory)
    requires OptionFirst(cfg, place, toks) && !FirstStep(cfg, place, toks, mem).missing
    ensures var st := FirstStep(cfg, place, toks, mem);
      var later := Run(cfg, st.place, toks[st.used..], st.event.mem);
      && (st.place != "" ==> st.used == 0)
      && Run(cfg, place, toks, mem) == StepBefore(st.event, toks[..st.used], later)
      && Run(cfg, place, toks + more, mem)
         == StepBefore(st.event, toks[..st.used], Run(cfg, st.place, toks[st.used..] + more, st.event.mem))
      && Remembered(Run(cfg, place, toks, mem).events, mem) == Remembered(later.events, st.event.mem)
  {
    hide OptionStep, Run;
    var st := FirstStep(cfg, place, toks, mem);
    assert toks == toks[..st.used] + toks[st.used..];
    FrontAndBack(toks[..st.used], toks[st.used..], more);
    SameFirstStep(cfg, place, toks, toks, mem);
    SameFirstStep(cfg, place, toks, toks + more, mem);
  }

  /** A non-option may stand anywhere between complete options: it changes neither the options
      nor the events, and joins the non-options at the place where it stands. */
  lemma InsertNonOption(cfg: Config, before: seq<string>, x: string, after: seq<string>, mem: Memory)
    requires Run(cfg, "", before, mem).ending == Exhausted && IsNonOption(cfg, x)
    ensures var n := |Run(cfg, "", before, mem).nonopts|;
      var without := Run(cfg, "", before + after, mem);
      && n <= |without.nonopts|
      && Run(cfg, "", before + [x] + after, mem)
         == without.(nonopts := without.nonopts[..n] + [x] + without.nonopts[n..])
  {
    hide Run;
    var o := Run(cfg, "", before, mem);
    RunConcat(cfg, "", before, after, mem);
    RunConcat(cfg, "", before, [x] + after, mem);
    assert before + [x] + after == before + ([x] + after);
    var o' := Run(cfg, "", after, Remembered(o.events, mem));
    PlainFirst(cfg, x, after, Remembered(o.events, mem));
    var n, m := |o.nonopts|, o.nonopts + o'.nonopts;
    assert m[..n] == o.nonopts && m[n..] == o'.nonopts;
    assert o.nonopts + ([x] + o'.nonopts) == m[..n] + [x] + m[n..];
  }

  lemma PlainFirst(cfg: Config, x: string, after: seq<string>, mem: Memory)
    requires IsNonOption(cfg, x)
    ensures var o := Run(cfg, "", after, mem); Run(cfg, "", [x] + after, mem) == o.(nonopts := [x] + o.nonopts)
  {
    assert ([x] + after)[1..] == after;
  }
}
