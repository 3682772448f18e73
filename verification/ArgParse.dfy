/** `arg_parse`: the tagged pass over scanner events, the untagged pass over what is left, and the
    final checks, updating the table's parent structures and its error list in place. */
module ArgParse {
  import opened Options
  import opened CommandLines
  import opened Scanner
  import opened ArgTables
  import opened ArgTableLaws
  import opened Wrappers

  lemma AppliedFirst<S>(T: Table<S>, st: State<S>, es: seq<Event>)
    requires es != [] && |st.parents| == |T.entries| && forall e :: e in es ==> Understood(T.entries, e)
    ensures ApplyEvents(T, st, es) == ApplyEvents(T, ApplyEvent(T, st, es[0]), es[1..])
  {
    hide ApplyEvent, Understood;
  }

  /** What follows the options of a command line that is laid out. */
  lemma LayoutTail(argv: seq<string>, o: Outcome)
    requires argv != [] && argv[1..] == o.Layout()
    ensures argv[1 + |o.opts|..] == o.nonopts + o.rest
  {
    assert argv[1..][|o.opts|..] == o.nonopts + o.rest;
  }

  lemma NoneApplied<S>(T: Table<S>, st: State<S>)
    requires |st.parents| == |T.entries|
    ensures ApplyEvents(T, st, []) == st
  {
  }

  class ArgTable<S> {
    const T: Table<S>
    var parents: seq<S>
    var errors: seq<Record>        // the error list of `arg_end`; its `count` is the length
    ghost var log: seq<Record>     // every error registered since the last reset

    constructor (T: Table<S>, parents: seq<S>)
      requires T.Valid() && |parents| == |T.entries|
      ensures Valid() && this.T == T && this.parents == parents && log == []
    {
      this.T, this.parents, errors, log := T, parents, [], [];
    }

    /** The error list is the log, cut off at its maximum. */
    ghost predicate Valid()
      reads this
    {
      T.Valid() && |parents| == |T.entries| && errors == Capped(log, T.maxErrors)
    }

    ghost function Now(): State<S>
      reads this
    {
      State(parents, log)
    }

    method RegisterError(error: int, owner: Owner, argval: Arg)
      requires Valid()
      modifies this`errors, this`log
      ensures Valid() && Now() == old(Log(Now(), error, owner, argval))
    {
      RegisterCapped(log, T.maxErrors, Record(error, owner, argval));
      if |errors| < T.maxErrors {
        errors := errors + [Record(error, owner, argval)];
      } else {
        errors := errors[T.maxErrors - 1 := Record(ARG_ELIMIT, End, Null)];
      }
      log := log + [Record(error, owner, argval)];
    }

    method Scan(i: nat, a: Arg)
      requires Valid() && i < |T.entries|
      modifies this`parents, this`errors, this`log
      ensures Valid() && Now() == ScanInto(T, old(Now()), i, a)
    {
      if T.entries[i].hasScan {
        var (s, error) := T.scan(i, parents[i], a);
        parents := parents[i := s];
        if error != 0 {
          RegisterError(error, Parent(i), a);
        }
      }
    }

    /** One round of the tagged pass: what the scanner just reported, and `argv[optind - 1]`. */
    method Apply(copt: int, optarg: Arg, optopt: int, getoptval: int, previous: string, ghost e: Event)
      requires Valid() && Understood(T.entries, e)
      requires e == Event(copt, optarg, Memory(optopt, getoptval), e.last)
      requires e.last != Null ==> e.last == Str(previous)
      modifies this`parents, this`errors, this`log
      ensures Valid() && Now() == ApplyEvent(T, old(Now()), e)
    {
      if copt == 0 {
        if optarg == Str("") && T.entries[getoptval].hasValue {
          RegisterError(ARG_EMISSARG, End, Str(previous));
        }
        Scan(getoptval, optarg);
      } else if copt == BADCH {
        if optopt == 0 {
          RegisterError(ARG_ELONGOPT, End, Str(previous));
        } else {
          RegisterError(optopt, End, Null);
        }
      } else if copt == BADARG_COLON {
        RegisterError(ARG_EMISSARG, End, Str(previous));
      } else {
        var tabindex := FindShort(T.entries, copt);
        Scan(tabindex, optarg);
      }
    }

    /** One round of `arg_parse_tagged`: the next event, if there is one. */
    method TaggedRound(sc: Scanner) returns (more: bool)
      requires Valid() && sc.Valid()
      requires sc.Whole().events != [] ==> Understood(T.entries, sc.Whole().events[0])
      modifies this`parents, this`errors, this`log, sc, sc.nargv
      ensures Valid() && sc.Valid() && sc.nargv[0] == old(sc.nargv[0])
      ensures more <==> old(sc.Whole()).events != []
      ensures !more ==> Now() == old(Now()) && sc.Finished(old(sc.Whole())) && !sc.Fresh()
      ensures more ==>
        && Now() == ApplyEvent(T, old(Now()), old(sc.Whole()).events[0])
        && sc.Whole() == old(sc.Whole()).(events := old(sc.Whole()).events[1..], ending := sc.Whole().ending)
    {
      hide Run, ApplyEvent, Behind, Understood;
      ghost var w := sc.Whole();
      var copt := sc.GetoptLong();
      if copt == -1 {
        return false;
      }
      Apply(copt, sc.optarg, sc.optopt, sc.getoptval,
            if sc.optind > 0 then sc.nargv[sc.optind - 1] else "", w.events[0]);
      return true;
    }

    /** `arg_parse_tagged`: feed every scanner event to the table. */
    method ParseTagged(sc: Scanner)
      requires Valid() && sc.Valid() && sc.Fresh()
      requires forall e :: e in sc.Whole().events ==> Understood(T.entries, e)
      modifies this`parents, this`errors, this`log, sc, sc.nargv
      ensures Valid() && Now() == ApplyEvents(T, old(Now()), old(sc.Whole()).events)
      ensures sc.At().InOrder() && sc.nargv[0] == old(sc.nargv[0])
      ensures sc.nargv[1..] == old(sc.Whole()).Layout() && sc.optind == 1 + |old(sc.Whole()).opts|
    {
      hide Run, ApplyEvent, ApplyEvents, Behind, Understood;
      ghost var w, st := sc.Whole(), Now();
      ghost var left := w;
      assert forall e :: e in left.events ==> e in w.events;
      var more := true;
      while more
        invariant Valid() && sc.Valid() && sc.nargv[0] == old(sc.nargv[0])
        invariant left == w.(events := left.events, ending := left.ending)
        invariant forall e :: e in left.events ==> e in w.events
        invariant ApplyEvents(T, Now(), left.events) == ApplyEvents(T, st, w.events)
        invariant if more then sc.Whole() == left else left.events == [] && sc.Finished(left) && !sc.Fresh()
        decreases |left.events| + if more then 1 else 0
      {
        ghost var es := left.events;
        if es != [] {
          assert es[0] in w.events;
          AppliedFirst(T, Now(), es);
        }
        more := TaggedRound(sc);
        if more {
          left := sc.Whole();
        }
      }
      NoneApplied(T, Now());
    }

    /** `arg_parse_untagged`: offer what is left, from `optind` on, to the untagged entries. */
    method ParseUntagged(sc: Scanner)
      requires Valid() && 0 <= sc.optind <= sc.nargv.Length
      modifies this`parents, this`errors, this`log, sc`optind
      ensures Valid() && sc.optind == sc.nargv.Length
      ensures Now() == AssignUntagged(T, old(Now()), 0, sc.nargv[old(sc.optind)..], None)
    {
      var tabindex := 0;
      var tentative: Option<Record> := None;
      ghost var goal := AssignUntagged(T, Now(), 0, sc.nargv[sc.optind..], None);
      while tabindex < |T.entries|
        invariant Valid() && 0 <= tabindex <= |T.entries| && 0 <= sc.optind <= sc.nargv.Length
        invariant tentative.Some? ==> sc.optind < sc.nargv.Length
        invariant AssignUntagged(T, Now(), tabindex, sc.nargv[sc.optind..], tentative) == goal
        decreases sc.nargv.Length - sc.optind, |T.entries| - tabindex
      {
        if sc.optind >= sc.nargv.Length {
          return;
        }
        if T.entries[tabindex].longopts.Some? || T.entries[tabindex].shortopts.Some? {
          tabindex := tabindex + 1;
          continue;
        }
        if !T.entries[tabindex].hasScan {
          tabindex := tabindex + 1;
          continue;
        }
        ghost var args := sc.nargv[sc.optind..];
        assert args[0] == sc.nargv[sc.optind] && args[1..] == sc.nargv[sc.optind + 1..];
        var (s, error) := T.scan(tabindex, parents[tabindex], Str(sc.nargv[sc.optind]));
        parents := parents[tabindex := s];
        if error == 0 {
          sc.optind := sc.optind + 1;
          tentative := None;
        } else {
          tentative := Some(Record(error, Parent(tabindex), Str(sc.nargv[sc.optind])));
          tabindex := tabindex + 1;
        }
      }
      RejectRest(sc, tentative);
    }

    /** The table is exhausted: register the tentative error, and everything still unread. */
    method RejectRest(sc: Scanner, tentative: Option<Record>)
      requires Valid() && 0 <= sc.optind <= sc.nargv.Length && (tentative.Some? ==> sc.optind < sc.nargv.Length)
      modifies this`errors, this`log, sc`optind
      ensures Valid() && sc.optind == sc.nargv.Length
      ensures Now() == AssignUntagged(T, old(Now()), |T.entries|, sc.nargv[old(sc.optind)..], tentative)
    {
      ghost var args := sc.nargv[sc.optind..];
      if tentative.Some? {
        RegisterError(tentative.value.error, tentative.value.owner, tentative.value.argval);
        sc.optind := sc.optind + 1;
        assert sc.nargv[sc.optind..] == args[1..];
      }
      RejectUnread(sc);
    }

    method RejectUnread(sc: Scanner)
      requires Valid() && 0 <= sc.optind <= sc.nargv.Length
      modifies this`errors, this`log, sc`optind
      ensures Valid() && sc.optind == sc.nargv.Length && log == old(log + Unmatched(sc.nargv[sc.optind..]))
    {
      hide Unmatched;
      ghost var args, before, n := sc.nargv[sc.optind..], log, 0;
      ghost var records := Unmatched(args);
      while sc.optind < sc.nargv.Length
        invariant Valid() && n <= |args| && sc.optind == old(sc.optind) + n && log == before + records[..n]
      {
        assert args[n] == sc.nargv[sc.optind] && records[..n + 1] == records[..n] + [records[n]];
        RegisterError(ARG_ENOMATCH, End, Str(sc.nargv[sc.optind]));
        sc.optind := sc.optind + 1;
        n := n + 1;
      }
      assert records[..n] == records;
    }

    /** `arg_parse_check`. */
    method Check()
      requires Valid()
      modifies this`errors, this`log
      ensures Valid() && Now() == old(Checked(T, Now()))
    {
      var tabindex := 0;
      while tabindex < |T.entries|
        invariant Valid() && 0 <= tabindex <= |T.entries| && parents == old(parents)
        invariant log + CheckErrors(T, parents, tabindex) == old(log + CheckErrors(T, parents, 0))
      {
        var error := T.check(tabindex, parents[tabindex]);
        if error != 0 {
          RegisterError(error, Parent(tabindex), Null);
        }
        tabindex := tabindex + 1;
      }
    }

    /** `arg_reset`: every parent is reset, and the error list emptied. */
    method ResetTable()
      requires Valid()
      modifies this
      ensures Valid() && Now() == State(Reset(T, old(parents), 0), [])
    {
      hide Reset;
      var tabindex := 0;
      while tabindex < |T.entries|
        invariant 0 <= tabindex <= |T.entries| == |parents|
        invariant forall i :: tabindex <= i < |parents| ==> parents[i] == old(parents)[i]
        invariant forall i :: 0 <= i < tabindex ==> parents[i] == T.reset(i, old(parents)[i])
      {
        parents := parents[tabindex := T.reset(tabindex, parents[tabindex])];
        tabindex := tabindex + 1;
      }
      assert parents == Reset(T, old(parents), 0);
      errors, log := [], [];
    }

    static method Copy(argv: array<string>) returns (copy: array<string>)
      ensures fresh(copy) && copy[..] == argv[..]
    {
      copy := new string[argv.Length];
      for i := 0 to argv.Length
        invariant copy[..i] == argv[..i]
      {
        copy[i] := argv[i];
      }
    }

    /** `arg_parse`: the number of errors listed.  `argv` is copied, because the scanner permutes
        it; `optopt` is the scanner's global, left over from any earlier scan. */
    method Parse(argv: array<string>, optopt: int) returns (count: nat)
      requires Valid() && CStrings(argv[..])
      modifies this
      ensures Valid() && count == |errors|
      ensures forall e :: argv.Length > 0 && e in Scanned(T, argv[..], optopt).events ==> Understood(T.entries, e)
      ensures Now() == Parsed(T, old(parents), argv[..], optopt)
      ensures |log| <= T.maxErrors ==> errors == log
      ensures |log| > T.maxErrors ==>
        |errors| == T.maxErrors && errors[..T.maxErrors - 1] == log[..T.maxErrors - 1]
          && errors[T.maxErrors - 1] == Record(1, End, Null)
    {
      ResetTable();
      if argv.Length == 0 {
        Check();
        return |errors|;
      }
      ParseTokens(argv, optopt);
      if |errors| == 0 {
        Check();
      }
      return |errors|;
    }

    /** The two passes of `arg_parse` over a command line that is not empty. */
    method ParseTokens(argv: array<string>, optopt: int)
      requires Valid() && CStrings(argv[..]) && argv.Length > 0
      modifies this`parents, this`errors, this`log
      ensures Valid()
      ensures var o := Scanned(T, argv[..], optopt);
        && (forall e :: e in o.events ==> Understood(T.entries, e))
        && Now() == AssignUntagged(T, ApplyEvents(T, old(Now()), o.events), 0, o.nonopts + o.rest, None)
    {
      hide Run, ConfigOf, ApplyEvents, AssignUntagged, Understood, Behind;
      var argvcopy := Copy(argv);
      var sc := new Scanner(ConfigOf(T.entries), argvcopy, optopt);
      EventsUnderstood(T.entries, "", argv[1..], Memory(optopt, 0));
      ghost var o := Scanned(T, argv[..], optopt);
      assert argv[..][1..] == argvcopy[..][1..] == argvcopy[1..];
      ParseTagged(sc);
      LayoutTail(sc.nargv[..], o);
      assert sc.nargv[..][1..] == sc.nargv[1..] && sc.nargv[..][sc.optind..] == sc.nargv[sc.optind..];
      ParseUntagged(sc);
    }
  }
}
