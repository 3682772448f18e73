/** What `arg_parse` computes, as functions of the command line: the effect of each scanner event
    on the table, and the assignment of leftover tokens to untagged entries. */
module ArgTables {
  import opened Options
  import opened CommandLines
  import opened Wrappers

  /** An argtable entry: which options select it, and whether they carry a value. */
  datatype Entry = Entry(shortopts: Option<string>, longopts: Option<string>,
                         hasValue: bool, hasOptValue: bool, hasScan: bool) {
    predicate Untagged() {
      shortopts.None? && longopts.None? && hasScan
    }
  }

  /** What a C string can hold. */
  predicate CString(s: string) {
    '\0' !in s
  }

  predicate CStrings(ss: seq<string>) {
    forall s :: s in ss ==> CString(s)
  }

  predicate LettersText(entries: seq<Entry>) {
    forall i :: 0 <= i < |entries| && entries[i].shortopts.Some? ==> CString(entries[i].shortopts.value)
  }

  /** Some entry lists the letter. */
  predicate Declares(entries: seq<Entry>, c: char) {
    exists i :: 0 <= i < |entries| && entries[i].shortopts.Some? && c in entries[i].shortopts.value
  }

  /** The letter `?` cannot be told from the scanner's own code. */
  predicate LettersUsable(entries: seq<Entry>) {
    LettersText(entries) && !Declares(entries, '?')
  }

  /** A table: its entries up to the terminator, and the callbacks of their parent structures.
      `scan(i, s, a)` is what `scanfn` of entry `i` makes of parent state `s` and argument `a`:
      the new state, and an error code or 0. */
  datatype Table<!S> = Table(
    entries: seq<Entry>,
    scan: (nat, S, Arg) -> (S, int),
    check: (nat, S) -> int,
    reset: (nat, S) -> S,
    maxErrors: nat)
  {
    /** `arg_end` needs room for one error. */
    predicate Valid() {
      maxErrors >= 1 && LettersUsable(entries)
    }
  }

  /** Who an error belongs to: an entry's parent, or the end of the table. */
  datatype Owner = End | Parent(index: nat)

  datatype Record = Record(error: int, owner: Owner, argval: Arg)

  const ARG_ELIMIT := 1
  const ARG_ENOMATCH := 3
  const ARG_ELONGOPT := 4
  const ARG_EMISSARG := 5

  // ----- the error list -----

  /** `arg_register_error`: append, or mark the last slot as overflowing. */
  function Register(errors: seq<Record>, max: nat, r: Record): (e: seq<Record>)
    requires max >= 1 && |errors| <= max
  {
    if |errors| < max then errors + [r]
    else errors[max - 1 := Record(ARG_ELIMIT, End, Null)]
  }

  /** The error list that results from registering all of `log`. */
  function Capped(log: seq<Record>, max: nat): (e: seq<Record>)
    requires max >= 1
    ensures |e| == if |log| <= max then |log| else max
  {
    if |log| <= max then log else log[..max - 1] + [Record(ARG_ELIMIT, End, Null)]
  }

  /** The list never grows past its maximum; what it keeps is the beginning of the log. */
  lemma RegisterCapped(log: seq<Record>, max: nat, r: Record)
    requires max >= 1
    ensures Register(Capped(log, max), max, r) == Capped(log + [r], max)
  {
    if |log| == max {
      assert (log + [r])[..max - 1] == log[..max - 1];
      assert log == log[..max - 1] + [log[max - 1]];
    } else if |log| > max {
      assert (log + [r])[..max - 1] == log[..max - 1];
    }
  }

  // ----- option strings -----

  /** `alloc_shortoptions`: a leading `:`, then every short option with its colons. */
  function ShortOptions(entries: seq<Entry>): string {
    ":" + ShortLetters(entries)
  }

  function ShortLetters(entries: seq<Entry>): string {
    if entries == [] then ""
    else
      (if entries[0].shortopts.Some? then Letters(entries[0], entries[0].shortopts.value) else "")
      + ShortLetters(entries[1..])
  }

  function Letters(e: Entry, s: string): string {
    if s == "" then ""
    else [s[0]] + (if e.hasValue then ":" else "") + (if e.hasOptValue then ":" else "") + Letters(e, s[1..])
  }

  /** `alloc_longoptions`: one option per comma-separated name, numbered by its entry. */
  function LongOptions(entries: seq<Entry>, from: nat): seq<LongOption>
    requires from <= |entries|
    decreases |entries| - from
  {
    if from == |entries| then []
    else
      var e := entries[from];
      (if e.longopts.Some? then Named(Names(e.longopts.value), HasArgOf(e), from) else [])
        + LongOptions(entries, from + 1)
  }

  function HasArgOf(e: Entry): HasArg {
    if e.hasOptValue then OptionalArgument else if e.hasValue then RequiredArgument else NoArgument
  }

  function Named(names: seq<string>, hasArg: HasArg, val: int): (r: seq<LongOption>)
    ensures |r| == |names|
  {
    if names == [] then [] else [LongOption(names[0], hasArg, val)] + Named(names[1..], hasArg, val)
  }

  /** The names the filling pass copies out of a comma-separated list. */
  function Names(s: string): seq<string> {
    if s == "" then []
    else
      var comma := StrChr(s, ',');
      if comma < 0 then [s] else [s[..comma]] + Names(s[comma + 1..])
  }

  function ConfigOf(entries: seq<Entry>): (cfg: Config)
    ensures cfg.Permuting()
  {
    Config(ShortOptions(entries), LongOptions(entries, 0))
  }

  // ----- tagged arguments -----

  /** The parents' states, and every error registered so far (before the limit is applied). */
  datatype State<S> = State(parents: seq<S>, log: seq<Record>)

  function Log<S>(st: State<S>, error: int, owner: Owner, argval: Arg): State<S> {
    st.(log := st.log + [Record(error, owner, argval)])
  }

  /** Hand an argument to entry `i`, registering an error if it is refused. */
  function ScanInto<S>(T: Table<S>, st: State<S>, i: nat, a: Arg): (r: State<S>)
    requires |st.parents| == |T.entries| && i < |T.entries|
    ensures |r.parents| == |st.parents|
  {
    if !T.entries[i].hasScan then st
    else
      var (s, error) := T.scan(i, st.parents[i], a);
      var st' := st.(parents := st.parents[i := s]);
      if error != 0 then Log(st', error, Parent(i), a) else st'
  }

  /** `find_shortoption`: the first entry listing the letter; -1 if there is none. */
  function FindShort(entries: seq<Entry>, c: int): (i: int)
    ensures -1 <= i < |entries|
  {
    if entries == [] then -1
    else if entries[0].shortopts.Some?
      && exists k :: 0 <= k < |entries[0].shortopts.value| && entries[0].shortopts.value[k] as int == c then 0
    else
      var i := FindShort(entries[1..], c);
      if i < 0 then -1 else i + 1
  }

  /** The event makes sense for a table with these entries: a long option names an entry, a
      letter belongs to one, and an error that quotes a token has one to quote. */
  predicate Understood(entries: seq<Entry>, e: Event) {
    && (e.code == 0 ==> 0 <= e.mem.getoptval < |entries|)
    && (e.code != 0 && e.code != BADCH && e.code != BADARG_COLON ==> FindShort(entries, e.code) >= 0)
    && (e.code == 0 || e.code == BADARG_COLON || (e.code == BADCH && e.mem.optopt == 0) ==> e.last != Null)
  }

  /** One round of the loop in `arg_parse_tagged`. */
  function ApplyEvent<S>(T: Table<S>, st: State<S>, e: Event): (r: State<S>)
    requires |st.parents| == |T.entries| && Understood(T.entries, e)
    ensures |r.parents| == |st.parents|
  {
    if e.code == 0 then
      var i := e.mem.getoptval;
      var st' := if e.optarg == Str("") && T.entries[i].hasValue then Log(st, ARG_EMISSARG, End, e.last) else st;
      ScanInto(T, st', i, e.optarg)
    else if e.code == BADCH then
      if e.mem.optopt == 0 then Log(st, ARG_ELONGOPT, End, e.last) else Log(st, e.mem.optopt, End, Null)
    else if e.code == BADARG_COLON then
      Log(st, ARG_EMISSARG, End, e.last)
    else
      ScanInto(T, st, FindShort(T.entries, e.code), e.optarg)
  }

  function ApplyEvents<S>(T: Table<S>, st: State<S>, events: seq<Event>): (r: State<S>)
    requires |st.parents| == |T.entries| && forall e :: e in events ==> Understood(T.entries, e)
    ensures |r.parents| == |st.parents|
    decreases |events|
  {
    if events == [] then st else ApplyEvents(T, ApplyEvent(T, st, events[0]), events[1..])
  }

  // ----- untagged arguments -----

  /** Register every token of `args` as unmatched. */
  function Unmatched(args: seq<string>): (r: seq<Record>)
    ensures |r| == |args|
    ensures forall k :: 0 <= k < |args| ==> r[k] == Record(ARG_ENOMATCH, End, Str(args[k]))
  {
    if args == [] then [] else [Record(ARG_ENOMATCH, End, Str(args[0]))] + Unmatched(args[1..])
  }

  /** `arg_parse_untagged` from entry `tab` on, with `args` left and perhaps a tentative error
      for the first of them. */
  function AssignUntagged<S>(T: Table<S>, st: State<S>, tab: nat, args: seq<string>,
                             tentative: Option<Record>): (r: State<S>)
    requires |st.parents| == |T.entries| && tab <= |T.entries| && (tentative.Some? ==> args != [])
    ensures |r.parents| == |st.parents|
    decreases |args| + |T.entries| - tab
  {
    if tab == |T.entries| then
      if tentative.Some? then st.(log := st.log + [tentative.value] + Unmatched(args[1..]))
      else st.(log := st.log + Unmatched(args))
    else if args == [] then st
    else if !T.entries[tab].Untagged() then AssignUntagged(T, st, tab + 1, args, tentative)
    else
      var (s, error) := T.scan(tab, st.parents[tab], Str(args[0]));
      var st' := st.(parents := st.parents[tab := s]);
      if error == 0 then AssignUntagged(T, st', tab, args[1..], None)
      else AssignUntagged(T, st', tab + 1, args, Some(Record(error, Parent(tab), Str(args[0]))))
  }

  // ----- the whole of arg_parse -----

  function Reset<S>(T: Table<S>, parents: seq<S>, from: nat): (r: seq<S>)
    requires |parents| == |T.entries| && from <= |parents|
    ensures |r| == |parents| - from
    ensures forall i :: from <= i < |parents| ==> r[i - from] == T.reset(i, parents[i])
    decreases |parents| - from
  {
    if from == |parents| then [] else [T.reset(from, parents[from])] + Reset(T, parents, from + 1)
  }

  /** `arg_parse_check`: errors for entries whose final state is not acceptable. */
  function CheckErrors<S>(T: Table<S>, parents: seq<S>, from: nat): seq<Record>
    requires |parents| == |T.entries| && from <= |parents|
    decreases |parents| - from
  {
    if from == |parents| then []
    else
      var error := T.check(from, parents[from]);
      (if error != 0 then [Record(error, Parent(from), Null)] else []) + CheckErrors(T, parents, from + 1)
  }

  function Checked<S>(T: Table<S>, st: State<S>): State<S>
    requires |st.parents| == |T.entries|
  {
    st.(log := st.log + CheckErrors(T, st.parents, 0))
  }

  /** The outcome of scanning the command line `argv` (program name first). */
  function Scanned<S>(T: Table<S>, argv: seq<string>, optopt: int): Outcome
    requires argv != []
  {
    Run(ConfigOf(T.entries), "", argv[1..], Memory(optopt, 0))
  }

  /** What `arg_parse` leaves in the table. */
  function Parsed<S>(T: Table<S>, parents: seq<S>, argv: seq<string>, optopt: int): State<S>
    requires |parents| == |T.entries|
    requires argv != [] ==> forall e :: e in Scanned(T, argv, optopt).events ==> Understood(T.entries, e)
  {
    var st := State(Reset(T, parents, 0), []);
    if argv == [] then Checked(T, st)
    else
      var o := Scanned(T, argv, optopt);
      var tagged := ApplyEvents(T, st, o.events);
      var all := AssignUntagged(T, tagged, 0, o.nonopts + o.rest, None);
      if all.log == [] then Checked(T, all) else all
  }
}
