/** `getopt_long`: the incremental scanner that permutes `argv` as it goes. */
module Scanner {
  import opened Options
  import opened Permute

  /** The scanner's indices into `argv`: everything before `optind` has been read, and the
      skipped non-options `[nonoptStart, nonoptEnd)` are still waiting between options. */
  datatype Cursor = Cursor(argv: seq<string>, optind: int, nonoptStart: int, nonoptEnd: int) {
    ghost predicate InOrder() {
      && 1 <= optind <= |argv|
      && if nonoptStart == -1 then nonoptEnd == -1
         else if nonoptEnd == -1 then 1 <= nonoptStart < optind
         else 1 <= nonoptStart < nonoptEnd <= optind
    }

    /** Options read so far, in the order of the command line. */
    ghost function Done(): seq<string>
      requires InOrder()
    {
      if nonoptStart == -1 then argv[1..optind]
      else if nonoptEnd == -1 then argv[1..nonoptStart]
      else argv[1..nonoptStart] + argv[nonoptEnd..optind]
    }

    /** Non-options read so far, in the order of the command line. */
    ghost function Skipped(): seq<string>
      requires InOrder()
    {
      if nonoptStart == -1 then []
      else if nonoptEnd == -1 then argv[nonoptStart..optind]
      else argv[nonoptStart..nonoptEnd]
    }

    /** What has been read, together with the outcome of reading on from `place`. */
    ghost function Whole(cfg: Config, place: string, mem: Memory): Outcome
      requires InOrder() && (place != "" ==> optind < |argv|)
    {
      Behind(Done(), Skipped(), Run(cfg, place, argv[optind..], mem))
    }

    /** Pending options moved in front of the pending non-options, which are then the last
        thing read. */
    ghost function Permuted(): (c: Cursor)
      requires InOrder()
      ensures |c.argv| == |argv| && c.optind == optind
    {
      if nonoptEnd == -1 then this
      else Cursor(Exchanged(argv, nonoptStart, nonoptEnd, optind), optind, optind - (nonoptEnd - nonoptStart), -1)
    }
  }

  /** An outcome, after options and non-options that have been read already. */
  ghost function Behind(done: seq<string>, skipped: seq<string>, o: Outcome): Outcome {
    o.(opts := done + o.opts, nonopts := skipped + o.nonopts)
  }

  lemma PermutedKeeps(c: Cursor)
    requires c.InOrder()
    ensures var p := c.Permuted();
      && p.InOrder() && p.Done() == c.Done() && p.Skipped() == c.Skipped()
      && p.argv[0] == c.argv[0] && p.argv[c.optind..] == c.argv[c.optind..]
      && p.argv[1..c.optind] == c.Done() + c.Skipped()
  {
    if c.nonoptEnd != -1 {
      var p := c.Permuted();
      var cut := c.optind - (c.nonoptEnd - c.nonoptStart);
      assert p.argv[1..cut] == c.argv[1..c.nonoptStart] + c.argv[c.nonoptEnd..c.optind];
      assert p.argv[cut..c.optind] == c.argv[c.nonoptStart..c.nonoptEnd];
      assert p.argv[1..c.optind] == p.argv[1..cut] + p.argv[cut..c.optind];
    } else if c.nonoptStart != -1 {
      assert c.argv[1..c.optind] == c.argv[1..c.nonoptStart] + c.argv[c.nonoptStart..c.optind];
    }
  }

  /** Skipping a non-option: pending options are moved first, then the token joins the skipped. */
  lemma SkipKeeps(c: Cursor, next: Cursor, cfg: Config, mem: Memory)
    requires c.InOrder() && c.optind < |c.argv| && IsNonOption(cfg, c.argv[c.optind])
    requires next == (if c.nonoptStart == -1 then c.(nonoptStart := c.optind)
                      else c.Permuted()).(optind := c.optind + 1)
    ensures next.InOrder() && next.argv[0] == c.argv[0]
    ensures next.Whole(cfg, "", mem) == c.Whole(cfg, "", mem)
  {
    SkipParts(c, next);
    RunPastPlain(cfg, c.argv[c.optind..], mem);
    hide Run, IsNonOption, Behind;
    PlainBehind(c.Done(), c.Skipped(), c.argv[c.optind], Run(cfg, "", next.argv[next.optind..], mem));
  }

  lemma PlainBehind(done: seq<string>, skipped: seq<string>, x: string, o: Outcome)
    ensures Behind(done, skipped + [x], o) == Behind(done, skipped, o.(nonopts := [x] + o.nonopts))
  {
    assert (skipped + [x]) + o.nonopts == skipped + ([x] + o.nonopts);
  }

  lemma RunPastPlain(cfg: Config, toks: seq<string>, mem: Memory)
    requires toks != [] && IsNonOption(cfg, toks[0])
    ensures var o := Run(cfg, "", toks[1..], mem); Run(cfg, "", toks, mem) == o.(nonopts := [toks[0]] + o.nonopts)
  {
  }

  lemma SkipParts(c: Cursor, next: Cursor)
    requires c.InOrder() && c.optind < |c.argv|
    requires next == (if c.nonoptStart == -1 then c.(nonoptStart := c.optind)
                      else c.Permuted()).(optind := c.optind + 1)
    ensures next.InOrder() && next.argv[0] == c.argv[0]
    ensures next.Done() == c.Done() && next.Skipped() == c.Skipped() + [c.argv[c.optind]]
    ensures next.argv[next.optind..] == c.argv[c.optind..][1..]
  {
    if c.nonoptStart == -1 {
      assert next.argv[c.optind..next.optind] == [c.argv[c.optind]];
    } else {
      PermutedKeeps(c);
      var p := c.Permuted();
      assert p.argv[c.optind] == p.argv[c.optind..][0] == c.argv[c.optind];
      assert p.argv[c.optind..][1..] == next.argv[next.optind..];
      assert next.argv[next.nonoptStart..next.optind] == p.argv[p.nonoptStart..c.optind] + [c.argv[c.optind]];
    }
  }

  /** The end of the scan: what was read is laid out as options, then non-options. */
  lemma FinishLayout(c: Cursor)
    requires c.InOrder()
    ensures var p := c.Permuted();
      && p.argv[0] == c.argv[0]
      && p.argv[1..] == c.Done() + c.Skipped() + c.argv[c.optind..]
      && (if c.nonoptStart == -1 then c.optind else p.nonoptStart) == 1 + |c.Done()|
  {
    PermutedKeeps(c);
    var p := c.Permuted();
    assert p.argv[1..] == p.argv[1..c.optind] + p.argv[c.optind..];
  }

  /** `--` ends the options; it is itself moved in front of the non-options. */
  lemma DashDashOutcome(c: Cursor, next: Cursor, cfg: Config, mem: Memory)
    requires c.InOrder() && c.optind < |c.argv| && c.argv[c.optind] == "--"
    requires next == c.(optind := c.optind + 1,
                        nonoptEnd := if c.nonoptStart != -1 && c.nonoptEnd == -1 then c.optind else c.nonoptEnd)
    ensures next.InOrder() && c.Whole(cfg, "", mem)
      == Outcome([], next.Done(), next.Skipped(), next.argv[next.optind..], DashDash)
  {
    assert c.argv[c.optind..][1..] == c.argv[c.optind + 1..];
    assert c.Skipped() + [] == next.Skipped();
    assert next.Done() == c.Done() + ["--"];
  }

  /** Found an option: non-options skipped just before it become pending. */
  lemma OptionFound(c: Cursor, next: Cursor, cfg: Config, mem: Memory)
    requires c.InOrder() && c.optind < |c.argv| && !IsNonOption(cfg, c.argv[c.optind]) && c.argv[c.optind] != "--"
    requires next == c.(nonoptEnd := if c.nonoptStart != -1 && c.nonoptEnd == -1 then c.optind else c.nonoptEnd)
    ensures next.InOrder()
    ensures next.Whole(cfg, FirstPlace(c.argv[c.optind]), mem) == c.Whole(cfg, "", mem)
  {
    if c.nonoptStart != -1 && c.nonoptEnd == -1 {
      assert next.Done() == c.Done();
    }
  }

  /** Reading one option takes its event off the outcome and adds its tokens to those done. */
  lemma ReadKeeps(c: Cursor, next: Cursor, cfg: Config, place: string, mem: Memory)
    requires c.InOrder() && c.optind < |c.argv| && (c.nonoptStart != -1 ==> c.nonoptEnd != -1)
    requires place != ""
    requires next == c.(optind := c.optind + OptionStep(cfg, place, c.argv[c.optind..], mem).used)
    ensures var st := OptionStep(cfg, place, c.argv[c.optind..], mem);
      && next.InOrder() && (st.place != "" ==> next.optind < |next.argv|)
      && (var w, w' := c.Whole(cfg, place, mem), next.Whole(cfg, st.place, st.event.mem);
          w == w'.(events := [st.event] + w'.events, ending := w.ending))
  {
    var toks := c.argv[c.optind..];
    RunStep(cfg, place, toks, mem);
    hide OptionStep, Run, Behind;
    var st := OptionStep(cfg, place, toks, mem);
    ReadParts(c, next, st.used);
    OptionBehind(c.Done(), c.Skipped(), toks[..st.used], Run(cfg, st.place, toks[st.used..], st.event.mem),
                 Run(cfg, place, toks, mem), st.event);
  }

  lemma RunStep(cfg: Config, place: string, toks: seq<string>, mem: Memory)
    requires place != "" && toks != []
    ensures var st := OptionStep(cfg, place, toks, mem);
      && (st.place != "" ==> toks[st.used..] != [])
      && (var o, o' := Run(cfg, place, toks, mem), Run(cfg, st.place, toks[st.used..], st.event.mem);
          o == o'.(events := [st.event] + o'.events, opts := toks[..st.used] + o'.opts, ending := o.ending))
  {
    hide OptionStep;
  }

  lemma OptionBehind(done: seq<string>, skipped: seq<string>, group: seq<string>, o': Outcome, o: Outcome, event: Event)
    requires o == o'.(events := [event] + o'.events, opts := group + o'.opts, ending := o.ending)
    ensures var w, w' := Behind(done, skipped, o), Behind(done + group, skipped, o');
      w == w'.(events := [event] + w'.events, ending := w.ending)
  {
    assert (done + group) + o'.opts == done + (group + o'.opts);
  }

  lemma ReadParts(c: Cursor, next: Cursor, used: nat)
    requires c.InOrder() && (c.nonoptStart != -1 ==> c.nonoptEnd != -1)
    requires c.optind + used <= |c.argv| && next == c.(optind := c.optind + used)
    ensures next.InOrder() && next.Skipped() == c.Skipped()
    ensures next.Done() == c.Done() + c.argv[c.optind..][..used]
    ensures next.argv[next.optind..] == c.argv[c.optind..][used..]
  {
    var from := if c.nonoptStart == -1 then 1 else c.nonoptEnd;
    assert c.argv[from..next.optind] == c.argv[from..c.optind] + c.argv[c.optind..][..used];
  }

  lemma AtEnd(c: Cursor, cfg: Config, mem: Memory)
    requires c.InOrder() && c.optind == |c.argv|
    ensures c.Whole(cfg, "", mem) == Outcome([], c.Done(), c.Skipped(), [], Exhausted)
  {
  }

  class Scanner {
    const cfg: Config
    const nargv: array<string>     // slot nargc, just past the end, is NULL

    var optind: int
    var optreset: bool
    var optopt: int
    var optarg: Arg
    var getoptval: int
    var place: string              // what is left of the current token
    var nonoptStart: int           // first skipped non-option, or -1
    var nonoptEnd: int             // first option after the skipped non-options, or -1

    /** The scanner as `arg_parse_tagged` leaves it before its first call: `optind` is 0. */
    constructor (cfg: Config, nargv: array<string>, optopt: int)
      requires cfg.Permuting() && nargv.Length >= 1
      ensures Valid() && Fresh()
      ensures this.cfg == cfg && this.nargv == nargv && this.optind == 0
      ensures Whole() == Run(cfg, "", nargv[1..], Memory(optopt, 0))
    {
      this.cfg, this.nargv, this.optopt := cfg, nargv, optopt;
      optind, optreset, optarg, getoptval, place, nonoptStart, nonoptEnd := 0, false, Null, 0, "", -1, -1;
    }

    ghost function Mem(): Memory
      reads this
    {
      Memory(optopt, getoptval)
    }

    /** The next call starts from scratch. */
    ghost predicate Fresh()
      reads this
    {
      optind == 0 || optreset
    }

    ghost function At(): Cursor
      reads this, nargv
    {
      Cursor(nargv[..], optind, nonoptStart, nonoptEnd)
    }

    /** Holds between calls. */
    ghost predicate Valid()
      reads this, nargv
    {
      && cfg.Permuting() && nargv.Length >= 1
      && 0 <= optind <= nargv.Length
      && (!Fresh() ==>
        && At().InOrder()
        && (nonoptStart != -1 ==> nonoptEnd != -1 && (nonoptEnd < optind || place != ""))
        // a non-empty place points into the current token, past its start
        && (place != "" ==> optind < nargv.Length && |place| < |nargv[optind]| && !IsNonOption(cfg, nargv[optind])))
    }

    /** What has been read, together with the outcome of reading on. */
    ghost function Whole(): Outcome
      requires Valid()
      reads this, nargv
    {
      if Fresh() then
        At().(optind := if optind == 0 then 1 else optind, nonoptStart := -1, nonoptEnd := -1).Whole(cfg, "", Mem())
      else At().Whole(cfg, place, Mem())
    }

    /** Move the pending options in front of the pending non-options. */
    method MovePending()
      requires At().InOrder() && nonoptEnd != -1 && nonoptEnd < optind
      modifies nargv
      ensures nargv[..] == old(At().Permuted().argv)
    {
      PermuteArgs(nonoptStart, nonoptEnd, optind, nargv);
    }

    /** Found a non-option: permute what is pending, then pass over it. */
    method SkipNonOption()
      requires At().InOrder() && (nonoptEnd != -1 ==> nonoptEnd < optind)
      requires optind < nargv.Length && IsNonOption(cfg, nargv[optind])
      modifies this`optind, this`nonoptStart, this`nonoptEnd, nargv
      ensures At().InOrder() && nonoptEnd == -1 && optind == old(optind) + 1 && nargv[0] == old(nargv[0])
      ensures At().Whole(cfg, "", Mem()) == old(At().Whole(cfg, "", Mem()))
    {
      ghost var c := At();
      if nonoptStart == -1 {
        nonoptStart := optind;
      } else if nonoptEnd != -1 {
        MovePending();
        nonoptStart := optind - (nonoptEnd - nonoptStart);
        nonoptEnd := -1;
      }
      optind := optind + 1;
      SkipKeeps(c, At(), cfg, Mem());
    }

    /** Finish the scan: permute if non-options were skipped, and point `optind` at the first. */
    method Finish()
      requires At().InOrder() && (nonoptEnd != -1 ==> nonoptEnd < optind)
      modifies this`optind, this`nonoptStart, this`nonoptEnd, nargv
      ensures At().InOrder() && nonoptStart == nonoptEnd == -1 && nargv[0] == old(nargv[0])
      ensures nargv[1..] == old(At().Done() + At().Skipped() + nargv[optind..])
      ensures optind == 1 + |old(At().Done())|
    {
      FinishLayout(At());
      ghost var p := At().Permuted();
      if nonoptEnd != -1 {
        MovePending();
        optind := optind - (nonoptEnd - nonoptStart);
      } else if nonoptStart != -1 {
        optind := nonoptStart;
      }
      assert nargv[..] == p.argv;
      nonoptStart, nonoptEnd := -1, -1;
    }

    /** At a token that is an option: move `place` past its dash, and stop at `--`. */
    method StartOption() returns (found: bool)
      requires At().InOrder() && (nonoptEnd != -1 ==> nonoptEnd < optind)
      requires optind < nargv.Length && place == nargv[optind] && !IsNonOption(cfg, place)
      modifies this`optind, this`place, this`nonoptStart, this`nonoptEnd, nargv
      ensures nargv[0] == old(nargv[0])
      ensures found ==> OptionAt() && At().Whole(cfg, place, Mem()) == old(At().Whole(cfg, "", Mem()))
      ensures !found ==> Finished(old(At().Whole(cfg, "", Mem())))
    {
      ghost var c := At();
      if nonoptStart != -1 && nonoptEnd == -1 {
        nonoptEnd := optind;
      }
      if |place| > 1 {
        place := place[1..];
        if place == "-" {
          optind := optind + 1;
          place := "";
          assert c.argv[c.optind] == "--";
          DashDashOutcome(c, At(), cfg, Mem());
          Finish();
          return false;
        }
      }
      OptionFound(c, At(), cfg, Mem());
      return true;
    }

    /** `place` is at the first character to interpret of the option token at `optind`. */
    ghost predicate OptionAt()
      reads this, nargv
    {
      && At().InOrder() && (nonoptStart != -1 ==> nonoptEnd != -1)
      && optind < nargv.Length && !IsNonOption(cfg, nargv[optind]) && place == FirstPlace(nargv[optind])
    }

    /** The scan has ended with outcome `w`: `argv` is laid out as `w` says, and `optind` is at
        the first token that is not an option. */
    ghost predicate Finished(w: Outcome)
      reads this, nargv
    {
      && At().InOrder() && place == "" && nonoptStart == nonoptEnd == -1
      && w.events == []
      && nargv[1..] == w.Layout()
      && optind == 1 + |w.opts|
    }

    /** From the label `start`: find the next option, skipping non-options; or finish. */
    method FindOption() returns (found: bool)
      requires At().InOrder() && (nonoptEnd != -1 ==> nonoptEnd < optind) && place == ""
      modifies this`optind, this`place, this`nonoptStart, this`nonoptEnd, nargv
      ensures nargv[0] == old(nargv[0])
      ensures found ==> OptionAt() && At().Whole(cfg, place, Mem()) == old(At().Whole(cfg, "", Mem()))
      ensures !found ==> Finished(old(At().Whole(cfg, "", Mem())))
    {
      hide Run, Behind, FirstPlace, StrChr;
      ghost var mem := Mem();
      ghost var c := At();
      ghost var w := c.Whole(cfg, "", mem);
      while true
        invariant At() == c && Mem() == mem && c.InOrder() && place == ""
        invariant c.nonoptEnd != -1 ==> c.nonoptEnd < c.optind
        invariant c.Whole(cfg, "", mem) == w && nargv[0] == old(nargv[0])
        decreases nargv.Length - c.optind
      {
        if optind >= nargv.Length {
          AtEnd(c, cfg, mem);
          place := "";
          Finish();
          return false;
        }
        place := nargv[optind];
        assert At() == c;
        if place == "" || place[0] != '-' || (|place| == 1 && StrChr(cfg.options, '-') == -1) {
          place := "";
          SkipNonOption();
          c := At();
          continue;
        }
        found := StartOption();
        return;
      }
    }

    /** The event this call has to report, read off the scanner's variables. */
    ghost predicate Reports(code: int, e: Event)
      reads this
    {
      code == e.code && optarg == e.optarg && Mem() == e.mem
    }

    /** The table loop of `parse_long_options`: the first exact name, or the only abbreviation. */
    method FindLong(key: string) returns (m: Match)
      ensures m == LongMatch(cfg.longs, key)
    {
      hide Abbreviated, FirstExact;
      var found: int := -1;
      var i := 0;
      NoneAbbreviated(cfg.longs, key);
      while i < |cfg.longs|
        invariant 0 <= i <= FirstExact(cfg.longs, key)
        invariant found == -1 ==> Abbreviated(cfg.longs, key, i) == []
        invariant found != -1 ==> 0 <= found && Abbreviated(cfg.longs, key, i) == [found]
      {
        AbbreviatedStep(cfg.longs, key, i);
        if key <= cfg.longs[i].name {
          if |cfg.longs[i].name| == |key| {
            return Found(i);
          }
          if found == -1 {
            found := i;
          } else {
            AbbreviatedGrows(cfg.longs, key, i + 1, FirstExact(cfg.longs, key));
            return Ambiguous;
          }
        }
        i := i + 1;
      }
      return if found == -1 then NotFound else Found(found);
    }

    /** Look `place` up in the long option table and take the option's argument, if any. */
    method ParseLongOptions() returns (code: int)
      requires 0 <= optind < nargv.Length && optarg == Null
      modifies this`optind, this`optarg, this`optopt, this`getoptval
      ensures var st := LongStep(cfg, place, nargv[old(optind)..], old(Mem()));
        Reports(code, st.event) && optind == old(optind) + st.used && st.event.last == Str(nargv[optind - 1])
    {
      hide LongTaken, LongMatch;
      var eq := StrChr(place, '=');
      var key := if eq >= 0 then place[..eq] else place;
      assert Key(place) == key;
      var found := FindLong(key);
      optind := optind + 1;
      if !found.Found? {
        optopt := 0;
        return BADCH;
      }
      code := TakeArgument(cfg.longs[found.index], eq);
    }

    /** The second half of `parse_long_options`, once `option` has been selected. */
    method TakeArgument(option: LongOption, eq: int) returns (code: int)
      requires 1 <= optind <= nargv.Length && optarg == Null && eq == StrChr(place, '=')
      modifies this`optind, this`optarg, this`optopt, this`getoptval
      ensures var st := LongTaken(cfg, option, place, nargv[old(optind) - 1..], old(Mem()));
        Reports(code, st.event) && optind == old(optind) - 1 + st.used && st.event.last == Str(nargv[optind - 1])
    {
      hide StrChr, LongTaken;
      ghost var toks := nargv[optind - 1..];
      LongTakenCases(cfg, option, place, toks, Mem());
      assert toks[0] == nargv[optind - 1] && (|toks| > 1 ==> toks[1] == nargv[optind]);
      if option.hasArg.NoArgument? && eq >= 0 {
        optopt := 0;
        return cfg.BadArg();
      }
      if option.hasArg.RequiredArgument? || option.hasArg.OptionalArgument? {
        if eq >= 0 {
          optarg := Str(place[eq + 1..]);
        } else if option.hasArg.RequiredArgument? {
          optarg := if optind < nargv.Length then Str(nargv[optind]) else Null;
          optind := optind + 1;
        }
      }
      if option.hasArg.RequiredArgument? && optarg == Null {
        optopt := 0;
        optind := optind - 1;
        return cfg.BadArg();
      }
      getoptval := option.val;
      return 0;
    }

    /** The scanner stands where step `st`, started at token `start`, leaves it. */
    ghost predicate After(code: int, st: Step, start: int)
      reads this, nargv
    {
      && Reports(code, st.event) && place == st.place
      && 0 <= optind == start + st.used <= nargv.Length
      && (st.used > 0 && optind > 0 ==> st.event.last == Str(nargv[optind - 1]))
    }

    /** `-W name`: a long option spelled after the letter W. */
    method ReadW() returns (code: int)
      requires place != "" && place[0] == 'W' && 0 <= optind < nargv.Length && optarg == Null
      requires CharAt(cfg.options, StrChr(cfg.options, 'W') + 1, ';') && StrChr(cfg.options, 'W') >= 0
      modifies this`optind, this`place, this`optarg, this`optopt, this`getoptval
      ensures After(code, ShortStep(cfg, old(place), nargv[old(optind)..], old(Mem())), old(optind))
    {
      ghost var toks := nargv[optind..];
      place := place[1..];
      if place == "" {
        optind := optind + 1;
        if optind >= nargv.Length {
          optopt := 'W' as int;
          return cfg.BadArg();
        }
        place := nargv[optind];
        assert nargv[optind..] == toks[1..];
      }
      code := ParseLongOptions();
      place := "";
    }

    /** A letter that is in the option string. */
    method ReadLetter(oli: int) returns (code: int)
      requires place != "" && 0 <= optind < nargv.Length && optarg == Null
      requires oli == StrChr(cfg.options, place[0]) >= 0
      requires place[0] != ':' && (place[0] == '-' ==> |place| == 1)
      requires !(place[0] == 'W' && CharAt(cfg.options, oli + 1, ';'))
      modifies this`optind, this`place, this`optarg, this`optopt
      ensures After(code, ShortStep(cfg, old(place), nargv[old(optind)..], old(Mem())), old(optind))
    {
      var optchar := place[0];
      place := place[1..];
      if !CharAt(cfg.options, oli + 1, ':') {
        if place == "" {
          optind := optind + 1;
        }
      } else {
        if place != "" {
          optarg := Str(place);
        } else if !CharAt(cfg.options, oli + 2, ':') {
          optind := optind + 1;
          if optind >= nargv.Length {
            optopt := optchar as int;
            return cfg.BadArg();
          }
          optarg := Str(nargv[optind]);
        }
        place := "";
        optind := optind + 1;
      }
      return optchar as int;
    }

    /** Interpret the option at `place`: everything in `getopt_internal` after the scanning
        pointer has been updated. */
    method ReadOption() returns (code: int)
      requires place != "" && 0 <= optind < nargv.Length && optarg == Null
      requires |place| <= |nargv[optind]| && !IsNonOption(cfg, nargv[optind])
      modifies this`optind, this`place, this`optarg, this`optopt, this`getoptval
      ensures After(code, OptionStep(cfg, old(place), nargv[old(optind)..], old(Mem())), old(optind))
    {
      if place != nargv[optind] && place[0] == '-' {
        place := place[1..];
        code := ParseLongOptions();
        place := "";
        return;
      }
      var optchar := place[0];
      var oli := StrChr(cfg.options, optchar);
      if optchar == ':' || (optchar == '-' && |place| > 1) || oli < 0 {
        // a lone '-' that is not an option letter was skipped as a non-option long ago
        assert !(optchar == '-' && |place| == 1);
        place := place[1..];
        if place == "" {
          optind := optind + 1;
        }
        optopt := optchar as int;
        return BADCH;
      }
      if optchar == 'W' && CharAt(cfg.options, oli + 1, ';') {
        code := ReadW();
      } else {
        code := ReadLetter(oli);
      }
    }

    /** The head of `getopt_internal`: apply a pending reset and find the next option. */
    method Prepare() returns (found: bool)
      requires Valid()
      modifies this, nargv
      ensures !Fresh() && Mem() == old(Mem()) && optarg == Null && nargv[0] == old(nargv[0])
      ensures found ==>
        && At().InOrder() && (nonoptStart != -1 ==> nonoptEnd != -1)
        && place != "" && optind < nargv.Length && |place| <= |nargv[optind]| && !IsNonOption(cfg, nargv[optind])
        && At().Whole(cfg, place, Mem()) == old(Whole())
      ensures !found ==> Finished(old(Whole()))
    {
      hide Run, Behind, StrChr;
      if optind == 0 {
        optind := 1;
        optreset := true;
      }
      optarg := Null;
      if optreset {
        nonoptStart, nonoptEnd := -1, -1;
      }
      if optreset || place == "" {
        optreset, place := false, "";
        found := FindOption();
      } else {
        found := true;
      }
    }

    /** Report the option at `place`. */
    method ReportOption() returns (code: int)
      requires cfg.Permuting() && nargv.Length >= 1 && !Fresh() && optarg == Null
      requires At().InOrder() && (nonoptStart != -1 ==> nonoptEnd != -1)
      requires place != "" && optind < nargv.Length && |place| <= |nargv[optind]| && !IsNonOption(cfg, nargv[optind])
      modifies this`optind, this`place, this`optarg, this`optopt, this`getoptval
      ensures Valid() && !Fresh() && code != -1
      ensures var w := old(At().Whole(cfg, place, Mem()));
        && w.events != [] && Reports(code, w.events[0])
        && At().Whole(cfg, place, Mem()) == w.(events := w.events[1..], ending := At().Whole(cfg, place, Mem()).ending)
        && (w.events[0].last != Null ==> optind > 1 && w.events[0].last == Str(nargv[optind - 1]))
    {
      hide Run, OptionStep, Behind;
      ghost var c, mem, at := At(), Mem(), place;
      ghost var st := OptionStep(cfg, at, c.argv[c.optind..], mem);
      assert c.argv[c.optind..] == nargv[optind..];
      code := ReadOption();
      assert After(code, st, c.optind);
      assert At() == c.(optind := c.optind + st.used);
      ReadKeeps(c, At(), cfg, at, mem);
    }

    /** `getopt_long`: report the next option, or -1 with `argv` partitioned. */
    method GetoptLong() returns (code: int)
      requires Valid()
      modifies this, nargv
      ensures Valid() && !Fresh() && nargv[0] == old(nargv[0])
      ensures code == -1 <==> old(Whole()).events == []
      ensures code == -1 ==> Finished(old(Whole()))
      ensures code != -1 ==> var e := old(Whole()).events[0];
        && Reports(code, e)
        && Whole() == old(Whole()).(events := old(Whole()).events[1..], ending := Whole().ending)
        && (e.last != Null ==> optind > 1 && e.last == Str(nargv[optind - 1]))
    {
      hide Run, OptionStep, Behind;
      var found := Prepare();
      if !found {
        return -1;
      }
      code := ReportOption();
    }
  }

  /** The argument of a long option, case by case. */
  lemma LongTakenCases(cfg: Config, option: LongOption, name: string, toks: seq<string>, mem: Memory)
    requires toks != []
    ensures var eq, st := StrChr(name, '='), LongTaken(cfg, option, name, toks, mem);
      && (option.hasArg.NoArgument? && eq >= 0 ==> st == Refusal(cfg.BadArg(), toks, mem, false))
      && (!option.hasArg.NoArgument? && eq >= 0 ==>
            st == Step(Event(0, Str(name[eq + 1..]), mem.(getoptval := option.val), Str(toks[0])), "", 1, false))
      && (option.hasArg.RequiredArgument? && eq < 0 ==>
            st == if |toks| == 1 then Refusal(cfg.BadArg(), toks, mem, true)
                  else Step(Event(0, Str(toks[1]), mem.(getoptval := option.val), Str(toks[1])), "", 2, false))
      && (!option.hasArg.RequiredArgument? && eq < 0 ==>
            st == Step(Event(0, Null, mem.(getoptval := option.val), Str(toks[0])), "", 1, false))
  {
    hide StrChr;
  }

  lemma NoneAbbreviated(longs: seq<LongOption>, key: string)
    ensures Abbreviated(longs, key, 0) == []
  {
  }

  lemma AbbreviatedStep(longs: seq<LongOption>, key: string, i: nat)
    requires i < |longs|
    ensures Abbreviated(longs, key, i + 1) == Abbreviated(longs, key, i) + if key < longs[i].name then [i] else []
  {
  }

  lemma AbbreviatedGrows(longs: seq<LongOption>, key: string, m: nat, n: nat)
    requires m <= n <= |longs|
    ensures Abbreviated(longs, key, m) <= Abbreviated(longs, key, n)
    decreases n - m
  {
    if m < n {
      AbbreviatedGrows(longs, key, m, n - 1);
    }
  }
}
