/** What a command line means to `getopt_long`, said without its scanner state.

    `Run` reads the tokens of a command line from left to right and says which events the
    scanner reports, and how the tokens divide into options (with their arguments), skipped
    non-options, and whatever follows `--`.  It never moves a token.
 */
module Options {

  /** A `char *` that may be NULL. */
  datatype Arg = Null | Str(s: string)

  datatype HasArg = NoArgument | RequiredArgument | OptionalArgument

  /** An entry of the long option table.  Its `flag` is never NULL in this program (it is the
      address of `getoptval`), so it is not part of the entry. */
  datatype LongOption = LongOption(name: string, hasArg: HasArg, val: int)

  datatype Config = Config(options: string, longs: seq<LongOption>) {
    /** The option string selects neither the `+` nor the `-` scanning mode. */
    predicate Permuting() {
      options != "" ==> options[0] != '+' && options[0] != '-'
    }

    /** The code for a missing argument depends on a leading `:`. */
    function BadArg(): int {
      if options != "" && options[0] == ':' then BADARG_COLON else BADCH
    }
  }

  const BADCH: int := '?' as int
  const BADARG_COLON: int := ':' as int

  /** What survives from one call to the next besides the position. */
  datatype Memory = Memory(optopt: int, getoptval: int)

  /** What one call reports: its return code, `optarg`, the remembered values after it, and the
      last token it finished reading (NULL if it stopped inside one). */
  datatype Event = Event(code: int, optarg: Arg, mem: Memory, last: Arg)

  /** One step: the event, what is left of the current token, how many tokens are finished, and
      whether the command line ended before a required argument. */
  datatype Step = Step(event: Event, place: string, used: nat, missing: bool)

  // ----- strings -----

  /** `strchr`, as an index; -1 for NULL. */
  function StrChr(s: string, c: char): (i: int)
    ensures -1 <= i < |s|
    ensures i >= 0 ==> s[i] == c && c !in s[..i]
    ensures i < 0 ==> c !in s
  {
    if s == "" then -1
    else if s[0] == c then 0
    else
      var i := StrChr(s[1..], c);
      if i < 0 then -1 else i + 1
  }

  // ----- matching a long option name -----

  datatype Match = NotFound | Ambiguous | Found(index: nat)

  /** The first entry with exactly this name; `|longs|` if there is none. */
  function FirstExact(longs: seq<LongOption>, key: string): (e: nat)
    ensures e <= |longs|
    ensures e < |longs| ==> longs[e].name == key
    ensures forall i :: 0 <= i < e ==> longs[i].name != key
  {
    if longs == [] then 0
    else if longs[0].name == key then 0
    else 1 + FirstExact(longs[1..], key)
  }

  /** The entries before `n` whose names properly extend `key`. */
  function Abbreviated(longs: seq<LongOption>, key: string, n: nat): (r: seq<nat>)
    requires n <= |longs|
    ensures forall i :: i in r ==> i < n && key < longs[i].name
    ensures forall i :: 0 <= i < n && key < longs[i].name ==> i in r
  {
    if n == 0 then []
    else
      var r := Abbreviated(longs, key, n - 1);
      if key < longs[n - 1].name then r + [n - 1] else r
  }

  /** Table order matters: an exact name wins unless two longer names precede it. */
  function LongMatch(longs: seq<LongOption>, key: string): (m: Match)
    ensures m.Found? ==> m.index < |longs| && key <= longs[m.index].name
  {
    var e := FirstExact(longs, key);
    var shorter := Abbreviated(longs, key, e);
    if |shorter| >= 2 then Ambiguous
    else if e < |longs| then Found(e)
    else if |shorter| == 1 then Found(shorter[0])
    else NotFound
  }

  // ----- one step -----

  /** The part of `name` before any `=`. */
  function Key(name: string): string {
    var eq := StrChr(name, '=');
    if eq < 0 then name else name[..eq]
  }

  /** Nothing is taken: the event of a long option that is refused with `code`. */
  function Refusal(code: int, toks: seq<string>, mem: Memory, missing: bool): Step
    requires toks != []
  {
    Step(Event(code, Null, mem.(optopt := 0), Str(toks[0])), "", 1, missing)
  }

  /** Entry `option` was selected by `name`, which is inside token `toks[0]`: take its argument
      after the `=`, or from the next token. */
  function LongTaken(cfg: Config, option: LongOption, name: string, toks: seq<string>, mem: Memory): (st: Step)
    requires toks != []
    ensures 1 <= st.used <= |toks| && st.place == "" && st.event.code >= 0
    ensures st.event.last == Str(toks[st.used - 1])
    ensures st.missing ==> st.used == |toks|
  {
    var eq := StrChr(name, '=');
    var mem' := mem.(getoptval := option.val);
    if option.hasArg.NoArgument? && eq >= 0 then Refusal(cfg.BadArg(), toks, mem, false)
    else if option.hasArg.RequiredArgument? && eq < 0 then
      if |toks| == 1 then Refusal(cfg.BadArg(), toks, mem, true)
      else Step(Event(0, Str(toks[1]), mem', Str(toks[1])), "", 2, false)
    else
      Step(Event(0, if eq >= 0 then Str(name[eq + 1..]) else Null, mem', Str(toks[0])), "", 1, false)
  }

  /** A long option whose name and value (if any) are in `name`, inside token `toks[0]`. */
  function LongStep(cfg: Config, name: string, toks: seq<string>, mem: Memory): (st: Step)
    requires toks != []
    ensures 1 <= st.used <= |toks| && st.place == "" && st.event.code >= 0
    ensures st.event.last == Str(toks[st.used - 1])
    ensures st.missing ==> st.used == |toks|
  {
    match LongMatch(cfg.longs, Key(name))
    case Ambiguous => Refusal(BADCH, toks, mem, false)
    case NotFound => Refusal(BADCH, toks, mem, false)
    case Found(i) => LongTaken(cfg, cfg.longs[i], name, toks, mem)
  }

  /** A short option: the first letter of `place`, which is a suffix of `toks[0]`. */
  function ShortStep(cfg: Config, place: string, toks: seq<string>, mem: Memory): (st: Step)
    requires place != "" && toks != []
    ensures st.used <= |toks| && st.event.code >= 0
    ensures if st.used == 0 then st.place == place[1..] != "" && st.event.last == Null
            else st.place == "" && st.event.last == Str(toks[st.used - 1])
    ensures st.missing ==> st.used == |toks|
  {
    var c, after := place[0], place[1..];
    var oli := StrChr(cfg.options, c);
    var finished := if after == "" then 1 else 0;
    var last := if after == "" then Str(toks[0]) else Null;
    if c == ':' || (c == '-' && after != "") || oli < 0 then
      Step(Event(BADCH, Null, mem.(optopt := c as int), last), after, finished, false)
    else if c == 'W' && CharAt(cfg.options, oli + 1, ';') then
      if after != "" then LongStep(cfg, after, toks, mem)
      else if |toks| == 1 then Step(Event(cfg.BadArg(), Null, mem.(optopt := c as int), Str(toks[0])), "", 1, true)
      else
        var st := LongStep(cfg, toks[1], toks[1..], mem);
        st.(used := st.used + 1)
    else if !CharAt(cfg.options, oli + 1, ':') then
      Step(Event(c as int, Null, mem, last), after, finished, false)
    else if after != "" then
      Step(Event(c as int, Str(after), mem, Str(toks[0])), "", 1, false)
    else if CharAt(cfg.options, oli + 2, ':') then
      Step(Event(c as int, Null, mem, Str(toks[0])), "", 1, false)
    else if |toks| == 1 then
      Step(Event(cfg.BadArg(), Null, mem.(optopt := c as int), Str(toks[0])), "", 1, true)
    else
      Step(Event(c as int, Str(toks[1]), mem, Str(toks[1])), "", 2, false)
  }

  predicate CharAt(s: string, i: int, c: char) {
    0 <= i < |s| && s[i] == c
  }

  /** Long options start with a second dash, anywhere in the token but at its very start. */
  function OptionStep(cfg: Config, place: string, toks: seq<string>, mem: Memory): (st: Step)
    requires place != "" && toks != []
    ensures st.used <= |toks| && st.event.code >= 0
    ensures if st.used == 0 then st.place == place[1..] != "" && st.event.last == Null
            else st.place == "" && st.event.last == Str(toks[st.used - 1])
    ensures st.missing ==> st.used == |toks|
  {
    if place != toks[0] && place[0] == '-' then LongStep(cfg, place[1..], toks, mem)
    else ShortStep(cfg, place, toks, mem)
  }

  // ----- the whole command line -----

  predicate IsNonOption(cfg: Config, tok: string) {
    tok == "" || tok[0] != '-' || (tok == "-" && StrChr(cfg.options, '-') < 0)
  }

  /** Where scanning of an option token starts: after its dash, if anything follows it. */
  function FirstPlace(tok: string): string
    requires tok != ""
  {
    if |tok| == 1 then tok else tok[1..]
  }

  /** How a scan ends: out of tokens, at `--`, or on an option whose argument is missing. */
  datatype Ending = Exhausted | DashDash | MissingArgument

  datatype Outcome = Outcome(events: seq<Event>, opts: seq<string>, nonopts: seq<string>, rest: seq<string>,
                             ending: Ending) {
    /** The command line a completed scan leaves behind. */
    function Layout(): seq<string> {
      opts + nonopts + rest
    }
  }

  /** Read `toks` to the end, starting at `place` inside `toks[0]` (or before it, if empty). */
  function Run(cfg: Config, place: string, toks: seq<string>, mem: Memory): Outcome
    requires place != "" ==> toks != []
    decreases |toks|, if place != "" then |place| else if toks == [] then 0 else |toks[0]| + 1
  {
    if place == "" && toks == [] then
      Outcome([], [], [], [], Exhausted)
    else if place == "" && IsNonOption(cfg, toks[0]) then
      var o := Run(cfg, "", toks[1..], mem);
      o.(nonopts := [toks[0]] + o.nonopts)
    else if place == "" && toks[0] == "--" then
      Outcome([], [toks[0]], [], toks[1..], DashDash)
    else
      var st := OptionStep(cfg, if place == "" then FirstPlace(toks[0]) else place, toks, mem);
      var o := Run(cfg, st.place, toks[st.used..], st.event.mem);
      Outcome([st.event] + o.events, toks[..st.used] + o.opts, o.nonopts, o.rest,
              if st.missing then MissingArgument else o.ending)
  }
}
