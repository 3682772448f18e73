/** Command lines as they are written, and what each part of them means: a letter with its value in
    the same token or the next one, a name with a value after `=` or in the next token, and every
    way to get one wrong. */
module WrittenOptions {
  import opened Options
  import opened CommandLines

  // ----- what the option string says about a letter -----

  /** How many colons stand behind position `oli`, up to two. */
  function ArgumentAt(options: string, oli: int): HasArg {
    if !CharAt(options, oli + 1, ':') then NoArgument
    else if CharAt(options, oli + 2, ':') then OptionalArgument
    else RequiredArgument
  }

  function LetterTakes(cfg: Config, c: char): HasArg {
    ArgumentAt(cfg.options, StrChr(cfg.options, c))
  }

  /** `W` followed by `;` does not stand for an option of its own: a name follows it. */
  predicate NameFollows(cfg: Config, c: char) {
    c == 'W' && CharAt(cfg.options, StrChr(cfg.options, 'W') + 1, ';') && 'W' in cfg.options
  }

  predicate IsLetter(cfg: Config, c: char) {
    c in cfg.options && c != ':' && c != '-' && !NameFollows(cfg, c)
  }

  predicate IsUnknown(cfg: Config, c: char) {
    (c !in cfg.options || c == ':') && c != '-'
  }

  // ----- the parts of a command line -----

  /** A letter or a name may have letters before it: the second dash of a name can stand anywhere in
      its token, so `-ab-name` is `-ab` and `--name`. */
  datatype Written =
    | Flags(letters: string)                                              // -abc
    | Letter(before: string, c: char, value: string, apart: bool)         // -abcVALUE or -abc VALUE
    | Name(before: string, name: string)                                  // --name
    | NameValue(before: string, name: string, value: string, apart: bool) // --name=VALUE or --name VALUE
    | WrongName(before: string, name: string)                             // --name, of no option or of several
    | WrongNameValue(before: string, name: string, value: string)         // --name=VALUE, of none or of several
    | UnwantedValue(before: string, name: string, value: string)          // --name=VALUE, of one that takes none
    | LetterLacks(before: string, c: char)                                // -abc, and nothing behind it
    | NameLacks(before: string, name: string)                             // --name, and nothing behind it
    | Operand(token: string)
  {
    predicate Lacks() {
      LetterLacks? || NameLacks?
    }
  }

  function Tokens(w: Written): (toks: seq<string>)
    ensures toks != []
  {
    match w
    case Flags(letters) => ["-" + letters]
    case Letter(before, c, value, apart) =>
      if apart then ["-" + (before + [c]), value] else ["-" + (before + ([c] + value))]
    case Name(before, name) => ["-" + (before + ("-" + name))]
    case NameValue(before, name, value, apart) =>
      if apart then ["-" + (before + ("-" + name)), value] else ["-" + (before + ("-" + (name + ("=" + value))))]
    case WrongName(before, name) => ["-" + (before + ("-" + name))]
    case WrongNameValue(before, name, value) => ["-" + (before + ("-" + (name + ("=" + value))))]
    case UnwantedValue(before, name, value) => ["-" + (before + ("-" + (name + ("=" + value))))]
    case LetterLacks(before, c) => ["-" + (before + [c])]
    case NameLacks(before, name) => ["-" + (before + ("-" + name))]
    case Operand(token) => [token]
  }

  function AllTokens(ws: seq<Written>): seq<string> {
    if ws == [] then [] else Tokens(ws[0]) + AllTokens(ws[1..])
  }

  /** A letter that stands for itself in the middle of a token: it takes nothing, or is unknown. */
  predicate Bare(cfg: Config, c: char) {
    IsUnknown(cfg, c) || (IsLetter(cfg, c) && LetterTakes(cfg, c).NoArgument?)
  }

  predicate AllBare(cfg: Config, letters: string) {
    forall i :: 0 <= i < |letters| ==> Bare(cfg, letters[i])
  }

  predicate LastBare(cfg: Config, c: char) {
    Bare(cfg, c) || (IsLetter(cfg, c) && LetterTakes(cfg, c).OptionalArgument?)
  }

  /** The name selects an entry with this kind of argument. */
  predicate NamesKind(cfg: Config, name: string, kinds: set<HasArg>) {
    && '=' !in name && LongMatch(cfg.longs, name).Found?
    && cfg.longs[LongMatch(cfg.longs, name).index].hasArg in kinds
  }

  predicate NamesNone(cfg: Config, name: string) {
    '=' !in name && !LongMatch(cfg.longs, name).Found?
  }

  /** The token is not `--`. */
  predicate NotDashes(cfg: Config, before: string, name: string) {
    AllBare(cfg, before) && (before != "" || name != "")
  }

  predicate Proper(cfg: Config, w: Written) {
    match w
    case Flags(letters) =>
      letters != "" && AllBare(cfg, letters[..|letters| - 1]) && LastBare(cfg, letters[|letters| - 1])
    case Letter(before, c, value, apart) =>
      && AllBare(cfg, before) && IsLetter(cfg, c)
      && if apart then LetterTakes(cfg, c).RequiredArgument? else !LetterTakes(cfg, c).NoArgument? && value != ""
    case Name(before, name) => NotDashes(cfg, before, name) && NamesKind(cfg, name, {NoArgument, OptionalArgument})
    case NameValue(before, name, value, apart) =>
      if apart then NotDashes(cfg, before, name) && NamesKind(cfg, name, {RequiredArgument})
      else AllBare(cfg, before) && NamesKind(cfg, name, {RequiredArgument, OptionalArgument})
    case WrongName(before, name) => NotDashes(cfg, before, name) && NamesNone(cfg, name)
    case WrongNameValue(before, name, value) => AllBare(cfg, before) && NamesNone(cfg, name)
    case UnwantedValue(before, name, value) => AllBare(cfg, before) && NamesKind(cfg, name, {NoArgument})
    case LetterLacks(before, c) => AllBare(cfg, before) && IsLetter(cfg, c) && LetterTakes(cfg, c).RequiredArgument?
    case NameLacks(before, name) => NotDashes(cfg, before, name) && NamesKind(cfg, name, {RequiredArgument})
    case Operand(token) => IsNonOption(cfg, token)
  }

  /** Only the last part may lack its value. */
  predicate ProperLine(cfg: Config, ws: seq<Written>) {
    && (forall i :: 0 <= i < |ws| ==> Proper(cfg, ws[i]))
    && (forall i :: 0 <= i < |ws| - 1 ==> !ws[i].Lacks())
  }

  // ----- what they mean -----

  /** A bare letter is reported, with no argument; an unknown one as `?`, and remembered.  The token
      is finished with its last letter. */
  function BareEvent(cfg: Config, c: char, mem: Memory, last: Arg): Event {
    if IsUnknown(cfg, c) then Event('?' as int, Null, Memory(c as int, mem.getoptval), last)
    else Event(c as int, Null, mem, last)
  }

  function BareEvents(cfg: Config, letters: string, mem: Memory): (es: seq<Event>)
    ensures |es| == |letters|
  {
    if letters == "" then []
    else
      var e := BareEvent(cfg, letters[0], mem, Null);
      [e] + BareEvents(cfg, letters[1..], e.mem)
  }

  /** What is remembered behind bare letters. */
  function BareMemory(cfg: Config, letters: string, mem: Memory): Memory {
    Remembered(BareEvents(cfg, letters, mem), mem)
  }

  /** The code for a missing or unwanted argument. */
  function MissingCode(cfg: Config): int {
    if CharAt(cfg.options, 0, ':') then ':' as int else '?' as int
  }

  /** The memory after a name: its number in the table is stored. */
  function Selected(cfg: Config, name: string, mem: Memory): Memory
    requires LongMatch(cfg.longs, name).Found?
  {
    Memory(mem.optopt, cfg.longs[LongMatch(cfg.longs, name).index].val)
  }

  /** A name that is refused: no letter is remembered. */
  function NameRefused(code: int, mem: Memory, last: Arg): Event {
    Event(code, Null, Memory(0, mem.getoptval), last)
  }

  function Meaning(cfg: Config, w: Written, mem: Memory): seq<Event>
    requires Proper(cfg, w)
  {
    var toks := Tokens(w);
    var tok := Str(toks[0]);
    match w
    case Flags(letters) =>
      var before, m := letters[..|letters| - 1], BareMemory(cfg, letters[..|letters| - 1], mem);
      BareEvents(cfg, before, mem) + [BareEvent(cfg, letters[|letters| - 1], m, tok)]
    case Letter(before, c, value, apart) =>
      BareEvents(cfg, before, mem)
      + [Event(c as int, Str(value), BareMemory(cfg, before, mem), if apart then Str(value) else tok)]
    case Name(before, name) =>
      BareEvents(cfg, before, mem) + [Event(0, Null, Selected(cfg, name, BareMemory(cfg, before, mem)), tok)]
    case NameValue(before, name, value, apart) =>
      BareEvents(cfg, before, mem)
      + [Event(0, Str(value), Selected(cfg, name, BareMemory(cfg, before, mem)), if apart then Str(value) else tok)]
    case WrongName(before, name) =>
      BareEvents(cfg, before, mem) + [NameRefused('?' as int, BareMemory(cfg, before, mem), tok)]
    case WrongNameValue(before, name, value) =>
      BareEvents(cfg, before, mem) + [NameRefused('?' as int, BareMemory(cfg, before, mem), tok)]
    case UnwantedValue(before, name, value) =>
      BareEvents(cfg, before, mem) + [NameRefused(MissingCode(cfg), BareMemory(cfg, before, mem), tok)]
    case LetterLacks(before, c) =>
      BareEvents(cfg, before, mem)
      + [Event(MissingCode(cfg), Null, Memory(c as int, BareMemory(cfg, before, mem).getoptval), tok)]
    case NameLacks(before, name) =>
      BareEvents(cfg, before, mem) + [NameRefused(MissingCode(cfg), BareMemory(cfg, before, mem), tok)]
    case Operand(_) => []
  }

  function AllMeaning(cfg: Config, ws: seq<Written>, mem: Memory): seq<Event>
    requires forall i :: 0 <= i < |ws| ==> Proper(cfg, ws[i])
  {
    if ws == [] then []
    else
      var es := Meaning(cfg, ws[0], mem);
      es + AllMeaning(cfg, ws[1..], Remembered(es, mem))
  }

  function Parts(ws: seq<Written>, operands: bool): seq<string> {
    if ws == [] then []
    else (if ws[0].Operand? == operands then Tokens(ws[0]) else []) + Parts(ws[1..], operands)
  }

  function EndingOf(ws: seq<Written>): Ending {
    if ws != [] && ws[|ws| - 1].Lacks() then MissingArgument else Exhausted
  }

  /** The outcome of a line. */
  function LineOutcome(cfg: Config, ws: seq<Written>, mem: Memory): Outcome
    requires ProperLine(cfg, ws)
  {
    Outcome(AllMeaning(cfg, ws, mem), Parts(ws, false), Parts(ws, true), [], EndingOf(ws))
  }

  // ----- strings -----

  lemma {:induction false} StrChrAppend(a: string, b: string, c: char)
    ensures StrChr(a + b, c) == if c in a then StrChr(a, c) else if c in b then |a| + StrChr(b, c) else -1
    decreases |a|
  {
    if a == "" {
      assert a + b == b;
    } else {
      assert (a + b)[1..] == a[1..] + b;
      StrChrAppend(a[1..], b, c);
    }
  }

  lemma KeyOf(name: string, value: string)
    requires '=' !in name
    ensures Key(name) == name && StrChr(name, '=') < 0
    ensures var s := name + ("=" + value);
      Key(s) == name && StrChr(s, '=') == |name| && s[|name| + 1..] == value
  {
    StrChrAppend(name, "=" + value, '=');
    StrChrAppend(name, "", '=');
    assert name + "" == name;
    assert StrChr("=" + value, '=') == 0;
    assert (name + ("=" + value))[..|name|] == name;
  }

  // ----- one step -----

  lemma BareStep(cfg: Config, place: string, toks: seq<string>, mem: Memory)
    requires place != "" && toks != []
    requires if |place| == 1 then LastBare(cfg, place[0]) else Bare(cfg, place[0])
    ensures var last := |place| == 1;
      OptionStep(cfg, place, toks, mem)
        == Step(BareEvent(cfg, place[0], mem, if last then Str(toks[0]) else Null), place[1..],
                if last then 1 else 0, false)
  {
    hide LongStep;
  }

  lemma ValueStep(cfg: Config, place: string, toks: seq<string>, mem: Memory)
    requires place != "" && toks != [] && IsLetter(cfg, place[0])
    ensures |place| > 1 && !LetterTakes(cfg, place[0]).NoArgument? ==>
      OptionStep(cfg, place, toks, mem)
        == Step(Event(place[0] as int, Str(place[1..]), mem, Str(toks[0])), "", 1, false)
    ensures |place| == 1 && LetterTakes(cfg, place[0]).RequiredArgument? ==>
      OptionStep(cfg, place, toks, mem)
        == if |toks| > 1 then Step(Event(place[0] as int, Str(toks[1]), mem, Str(toks[1])), "", 2, false)
           else Step(Event(MissingCode(cfg), Null, Memory(place[0] as int, mem.getoptval), Str(toks[0])), "", 1, true)
  {
    hide LongStep;
  }

  lemma NameStep(cfg: Config, name: string, toks: seq<string>, mem: Memory)
    requires toks != [] && toks[0] != "-" + name && '=' !in name
    ensures OptionStep(cfg, "-" + name, toks, mem) == LongStep(cfg, name, toks, mem)
    ensures NamesNone(cfg, name) ==>
      LongStep(cfg, name, toks, mem) == Step(NameRefused('?' as int, mem, Str(toks[0])), "", 1, false)
    ensures NamesKind(cfg, name, {NoArgument, OptionalArgument}) ==>
      LongStep(cfg, name, toks, mem) == Step(Event(0, Null, Selected(cfg, name, mem), Str(toks[0])), "", 1, false)
    ensures NamesKind(cfg, name, {RequiredArgument}) ==>
      LongStep(cfg, name, toks, mem)
        == if |toks| > 1 then Step(Event(0, Str(toks[1]), Selected(cfg, name, mem), Str(toks[1])), "", 2, false)
           else Step(NameRefused(MissingCode(cfg), mem, Str(toks[0])), "", 1, true)
  {
    hide LongMatch;
    assert ("-" + name)[1..] == name;
    KeyOf(name, "");
    hide StrChr, Key;
  }

  lemma NameValueStep(cfg: Config, name: string, value: string, toks: seq<string>, mem: Memory)
    requires toks != [] && toks[0] != "-" + (name + ("=" + value)) && '=' !in name
    ensures OptionStep(cfg, "-" + (name + ("=" + value)), toks, mem) == LongStep(cfg, name + ("=" + value), toks, mem)
    ensures NamesNone(cfg, name) ==>
      LongStep(cfg, name + ("=" + value), toks, mem)
        == Step(NameRefused('?' as int, mem, Str(toks[0])), "", 1, false)
    ensures NamesKind(cfg, name, {NoArgument}) ==>
      LongStep(cfg, name + ("=" + value), toks, mem)
        == Step(NameRefused(MissingCode(cfg), mem, Str(toks[0])), "", 1, false)
    ensures NamesKind(cfg, name, {RequiredArgument, OptionalArgument}) ==>
      LongStep(cfg, name + ("=" + value), toks, mem)
        == Step(Event(0, Str(value), Selected(cfg, name, mem), Str(toks[0])), "", 1, false)
  {
    hide LongMatch;
    var body := name + ("=" + value);
    assert ("-" + body)[1..] == body;
    KeyOf(name, value);
    hide StrChr, Key;
  }

  // ----- one part of a line -----

  /** Reading on with a step that finishes its token. */
  lemma Finished(cfg: Config, place: string, toks: seq<string>, mem: Memory, st: Step)
    requires place != "" && toks != [] && OptionStep(cfg, place, toks, mem) == st && 0 < st.used <= |toks|
    ensures var o := Run(cfg, "", toks[st.used..], st.event.mem);
      Run(cfg, place, toks, mem) == Outcome([st.event] + o.events, toks[..st.used] + o.opts, o.nonopts, o.rest,
                                             if st.missing then MissingArgument else o.ending)
  {
    hide OptionStep;
  }

  lemma EnterToken(cfg: Config, place: string, toks: seq<string>, mem: Memory)
    requires place != "" && place != "-" && toks != [] && toks[0] == "-" + place
    ensures Run(cfg, "", toks, mem) == Run(cfg, place, toks, mem)
  {
    assert toks[0][1..] == place;
    hide OptionStep;
  }

  /** Bare letters are reported one after another. */
  lemma {:induction false} BareRun(cfg: Config, before: string, after: string, toks: seq<string>, mem: Memory)
    requires AllBare(cfg, before) && after != "" && toks != []
    ensures var o := Run(cfg, after, toks, BareMemory(cfg, before, mem));
      Run(cfg, before + after, toks, mem) == o.(events := BareEvents(cfg, before, mem) + o.events)
    decreases |before|
  {
    hide *;
    if before == "" {
      NoBare(cfg, mem, Run(cfg, after, toks, mem));
      assert before + after == after;
    } else {
      var e := BareEvent(cfg, before[0], mem, Null);
      BareNext(cfg, before, mem);
      BareRun(cfg, before[1..], after, toks, e.mem);
      BareFirst(cfg, before, after, toks, mem);
      EventsFront([e], BareEvents(cfg, before[1..], e.mem), Run(cfg, after, toks, BareMemory(cfg, before, mem)).events);
    }
  }

  lemma NoBare(cfg: Config, mem: Memory, o: Outcome)
    ensures BareMemory(cfg, "", mem) == mem && o.(events := BareEvents(cfg, "", mem) + o.events) == o
  {
  }

  lemma BareFirst(cfg: Config, before: string, after: string, toks: seq<string>, mem: Memory)
    requires AllBare(cfg, before) && before != "" && after != "" && toks != []
    ensures var e := BareEvent(cfg, before[0], mem, Null);
      var o := Run(cfg, before[1..] + after, toks, e.mem);
      Run(cfg, before + after, toks, mem) == o.(events := [e] + o.events)
  {
    var place := before + after;
    assert place[0] == before[0] && place[1..] == before[1..] + after && toks[0..] == toks;
    BareStep(cfg, place, toks, mem);
    hide OptionStep, BareEvent, Run;
    RunStep(cfg, place, toks, mem);
  }

  lemma BareNext(cfg: Config, letters: string, mem: Memory)
    requires letters != "" && AllBare(cfg, letters)
    ensures var e := BareEvent(cfg, letters[0], mem, Null);
      && AllBare(cfg, letters[1..])
      && BareEvents(cfg, letters, mem) == [e] + BareEvents(cfg, letters[1..], e.mem)
      && BareMemory(cfg, letters, mem) == BareMemory(cfg, letters[1..], e.mem)
  {
    hide BareEvent, Bare;
  }

  lemma RunStep(cfg: Config, place: string, toks: seq<string>, mem: Memory)
    requires place != "" && toks != []
    ensures var st := OptionStep(cfg, place, toks, mem);
      var o := Run(cfg, st.place, toks[st.used..], st.event.mem);
      Run(cfg, place, toks, mem) == Outcome([st.event] + o.events, toks[..st.used] + o.opts, o.nonopts, o.rest,
                                             if st.missing then MissingArgument else o.ending)
  {
    hide OptionStep;
  }

  /** A part of a line in front of an outcome. */
  function InFront(cfg: Config, w: Written, mem: Memory, o: Outcome): Outcome
    requires Proper(cfg, w)
  {
    Outcome(Meaning(cfg, w, mem) + o.events, (if w.Operand? then [] else Tokens(w)) + o.opts,
            (if w.Operand? then Tokens(w) else []) + o.nonopts, o.rest, if w.Lacks() then MissingArgument else o.ending)
  }

  /** What one part of a command line means, whatever follows it. */
  lemma OneWritten(cfg: Config, w: Written, more: seq<string>, mem: Memory)
    requires Proper(cfg, w) && (w.Lacks() ==> more == [])
    ensures Run(cfg, "", Tokens(w) + more, mem)
      == InFront(cfg, w, mem, Run(cfg, "", more, Remembered(Meaning(cfg, w, mem), mem)))
  {
    if w.Flags? {
      FlagsRun(cfg, w, more, mem);
    } else if w.Letter? || w.LetterLacks? {
      LetterRun(cfg, w, more, mem);
    } else if w.Operand? {
      PlainFirst(cfg, w.token, more, mem);
      hide Run;
    } else {
      NameRun(cfg, w, more, mem);
    }
  }

  lemma Front(a: seq<string>, b: seq<string>)
    ensures (a + b)[..|a|] == a && (a + b)[|a|..] == b
  {
  }

  lemma EventsFront(a: seq<Event>, b: seq<Event>, c: seq<Event>)
    ensures a + b + c == a + (b + c)
  {
  }

  /** Bare letters, and a step that finishes the part. */
  lemma TokenRun(cfg: Config, w: Written, before: string, after: string, st: Step, more: seq<string>, mem: Memory)
    requires Proper(cfg, w) && !w.Operand? && AllBare(cfg, before) && after != "" && before + after != "-"
    requires Tokens(w)[0] == "-" + (before + after)
    requires OptionStep(cfg, after, Tokens(w) + more, BareMemory(cfg, before, mem)) == st
    requires st.used == |Tokens(w)| && (st.missing <==> w.Lacks())
    requires Meaning(cfg, w, mem) == BareEvents(cfg, before, mem) + [st.event]
    ensures Run(cfg, "", Tokens(w) + more, mem)
      == InFront(cfg, w, mem, Run(cfg, "", more, Remembered(Meaning(cfg, w, mem), mem)))
  {
    hide Run, OptionStep, BareMemory, BareEvents, Meaning, Tokens, Proper, AllBare;
    var toks, m := Tokens(w) + more, BareMemory(cfg, before, mem);
    EnterToken(cfg, before + after, toks, mem);
    BareRun(cfg, before, after, toks, mem);
    Finished(cfg, after, toks, m, st);
    Front(Tokens(w), more);
    EventsFront(BareEvents(cfg, before, mem), [st.event], Run(cfg, "", more, st.event.mem).events);
  }

  lemma FlagsRun(cfg: Config, w: Written, more: seq<string>, mem: Memory)
    requires Proper(cfg, w) && w.Flags?
    ensures Run(cfg, "", Tokens(w) + more, mem)
      == InFront(cfg, w, mem, Run(cfg, "", more, Remembered(Meaning(cfg, w, mem), mem)))
  {
    var n := |w.letters| - 1;
    var before, after, toks := w.letters[..n], [w.letters[n]], Tokens(w) + more;
    var m := BareMemory(cfg, before, mem);
    assert w.letters == before + after;
    BareStep(cfg, after, toks, m);
    hide Run, OptionStep, BareEvent, BareMemory, BareEvents, LetterTakes;
    assert toks[0] == Tokens(w)[0];
    TokenRun(cfg, w, before, after, OptionStep(cfg, after, toks, m), more, mem);
  }

  lemma LetterRun(cfg: Config, w: Written, more: seq<string>, mem: Memory)
    requires Proper(cfg, w) && (w.Letter? || w.LetterLacks?) && (w.Lacks() ==> more == [])
    ensures Run(cfg, "", Tokens(w) + more, mem)
      == InFront(cfg, w, mem, Run(cfg, "", more, Remembered(Meaning(cfg, w, mem), mem)))
  {
    hide Run, OptionStep, BareEvent, BareMemory, BareEvents, LetterTakes, AllBare, StrChr;
    var after := if w.Letter? && !w.apart then [w.c] + w.value else [w.c];
    var toks, m := Tokens(w) + more, BareMemory(cfg, w.before, mem);
    assert after[0] == w.c != '-' && (w.Letter? && !w.apart ==> after[1..] == w.value);
    assert w.before + after != "-" by {
      assert w.before == "" ==> w.before + after == after;
    }
    ValueStep(cfg, after, toks, m);
    TokenRun(cfg, w, w.before, after, OptionStep(cfg, after, toks, m), more, mem);
  }

  predicate Valued(w: Written) {
    (w.NameValue? && !w.apart) || w.WrongNameValue? || w.UnwantedValue?
  }

  /** What stands behind the second dash. */
  function Body(w: Written): string
    requires !w.Flags? && !w.Letter? && !w.LetterLacks? && !w.Operand?
  {
    if Valued(w) then w.name + ("=" + w.value) else w.name
  }

  lemma NameRun(cfg: Config, w: Written, more: seq<string>, mem: Memory)
    requires Proper(cfg, w) && !w.Flags? && !w.Letter? && !w.LetterLacks? && !w.Operand? && (w.Lacks() ==> more == [])
    ensures Run(cfg, "", Tokens(w) + more, mem)
      == InFront(cfg, w, mem, Run(cfg, "", more, Remembered(Meaning(cfg, w, mem), mem)))
  {
    hide *;
    var after := "-" + Body(w);
    var st := OptionStep(cfg, after, Tokens(w) + more, BareMemory(cfg, w.before, mem));
    NamedToken(cfg, w);
    NamedStep(cfg, w, more, mem);
    TokenRun(cfg, w, w.before, after, st, more, mem);
  }

  lemma NamedToken(cfg: Config, w: Written)
    requires Proper(cfg, w) && !w.Flags? && !w.Letter? && !w.LetterLacks? && !w.Operand?
    ensures var after := "-" + Body(w);
      AllBare(cfg, w.before) && w.before + after != "-" && Tokens(w)[0] == "-" + (w.before + after) && '=' !in w.name
  {
    hide Bare, LongMatch;
    assert |w.before + ("-" + Body(w))| == |w.before| + 1 + |Body(w)|;
  }

  lemma NamedStep(cfg: Config, w: Written, more: seq<string>, mem: Memory)
    requires Proper(cfg, w) && !w.Flags? && !w.Letter? && !w.LetterLacks? && !w.Operand? && (w.Lacks() ==> more == [])
    ensures var st := OptionStep(cfg, "-" + Body(w), Tokens(w) + more, BareMemory(cfg, w.before, mem));
      && st.used == |Tokens(w)| && (st.missing <==> w.Lacks())
      && Meaning(cfg, w, mem) == BareEvents(cfg, w.before, mem) + [st.event]
  {
    var toks, m := Tokens(w) + more, BareMemory(cfg, w.before, mem);
    NamedToken(cfg, w);
    assert toks[0] == Tokens(w)[0];
    assert |toks[0]| != |"-" + Body(w)|;
    hide OptionStep, LongStep, AllBare, BareMemory, BareEvents, LongMatch, Selected, NamesNone, MissingCode;
    if Valued(w) {
      NameValueStep(cfg, w.name, w.value, toks, m);
    } else {
      NameStep(cfg, w.name, toks, m);
    }
  }

  // ----- the whole line -----

  /** A command line means what its parts mean, one after another: the events of each, the options
      and the operands in their order; and it can be ended with `--` and anything behind it. */
  lemma {:induction false} RunOfWritten(cfg: Config, ws: seq<Written>, mem: Memory)
    requires ProperLine(cfg, ws)
    ensures Run(cfg, "", AllTokens(ws), mem) == LineOutcome(cfg, ws, mem)
    decreases |ws|
  {
    if ws != [] {
      var w, later := ws[0], ws[1..];
      LaterLine(cfg, ws);
      var m := Remembered(Meaning(cfg, w, mem), mem);
      LineFirst(cfg, ws, mem);
      hide *;
      OneWritten(cfg, w, AllTokens(later), mem);
      RunOfWritten(cfg, later, m);
    }
  }

  lemma LaterLine(cfg: Config, ws: seq<Written>)
    requires ProperLine(cfg, ws) && ws != []
    ensures ProperLine(cfg, ws[1..]) && (ws[0].Lacks() ==> ws[1..] == [])
  {
    hide Proper;
    forall i | 0 <= i < |ws[1..]| ensures Proper(cfg, ws[1..][i]) && (i < |ws[1..]| - 1 ==> !ws[1..][i].Lacks()) {
      assert ws[1..][i] == ws[i + 1];
    }
  }

  lemma LineFirst(cfg: Config, ws: seq<Written>, mem: Memory)
    requires ws != [] && ProperLine(cfg, ws) && ProperLine(cfg, ws[1..]) && (ws[0].Lacks() ==> ws[1..] == [])
    ensures AllTokens(ws) == Tokens(ws[0]) + AllTokens(ws[1..]) && (ws[0].Lacks() ==> AllTokens(ws[1..]) == [])
    ensures LineOutcome(cfg, ws, mem)
      == InFront(cfg, ws[0], mem, LineOutcome(cfg, ws[1..], Remembered(Meaning(cfg, ws[0], mem), mem)))
  {
    hide Proper, Meaning, Tokens, Remembered;
  }

  /** With `--` behind it. */
  lemma RunBeforeDashes(cfg: Config, ws: seq<Written>, beyond: seq<string>, mem: Memory)
    requires ProperLine(cfg, ws) && EndingOf(ws) == Exhausted
    ensures Run(cfg, "", AllTokens(ws) + (["--"] + beyond), mem)
      == Outcome(AllMeaning(cfg, ws, mem), Parts(ws, false) + ["--"], Parts(ws, true), beyond, DashDash)
  {
    RunOfWritten(cfg, ws, mem);
    var o := Run(cfg, "", AllTokens(ws), mem);
    RunConcat(cfg, "", AllTokens(ws), ["--"] + beyond, mem);
    DashesEnd(cfg, beyond, Remembered(o.events, mem));
    assert o.events + [] == o.events && o.nonopts + [] == o.nonopts;
  }

  lemma DashesEnd(cfg: Config, beyond: seq<string>, mem: Memory)
    ensures Run(cfg, "", ["--"] + beyond, mem) == Outcome([], ["--"], [], beyond, DashDash)
  {
    assert (["--"] + beyond)[1..] == beyond;
  }

  // ----- every line is made of such parts -----

  lemma CutName(cfg: Config, before: string, body: string, more: seq<string>) returns (w: Written)
    requires AllBare(cfg, before) && (before != "" || body != "")
    ensures Proper(cfg, w) && !w.Operand? && (w.Lacks() ==> more == [])
    ensures Tokens(w)[0] == "-" + (before + ("-" + body))
    ensures |Tokens(w)| == 2 ==> more != [] && Tokens(w)[1] == more[0]
    ensures |Tokens(w)| <= 2
  {
    hide AllBare, LongMatch;
    var eq := StrChr(body, '=');
    if eq < 0 {
      var m := LongMatch(cfg.longs, body);
      w := if !m.Found? then WrongName(before, body)
           else if !cfg.longs[m.index].hasArg.RequiredArgument? then Name(before, body)
           else if more == [] then NameLacks(before, body)
           else NameValue(before, body, more[0], true);
    } else {
      var name, value := body[..eq], body[eq + 1..];
      assert body == name + ("=" + value);
      var m := LongMatch(cfg.longs, name);
      w := if !m.Found? then WrongNameValue(before, name, value)
           else if cfg.longs[m.index].hasArg.NoArgument? then UnwantedValue(before, name, value)
           else NameValue(before, name, value, false);
    }
  }

  /** The part of a line that starts with a token, of which `before` has been read. */
  lemma {:induction false} CutToken(cfg: Config, before: string, after: string, more: seq<string>) returns (w: Written)
    requires !NameFollows(cfg, 'W') && '-' !in cfg.options
    requires AllBare(cfg, before) && after != "" && before + after != "-"
    ensures Proper(cfg, w) && !w.Operand? && (w.Lacks() ==> more == [])
    ensures Tokens(w)[0] == "-" + (before + after) && (|Tokens(w)| == 2 ==> more != [] && Tokens(w)[1] == more[0])
    ensures |Tokens(w)| <= 2
    decreases |after|
  {
    var c, later := after[0], after[1..];
    assert after == [c] + later;
    hide LetterTakes, StrChr;
    if c == '-' {
      assert after == "-" + later;
      w := CutName(cfg, before, later, more);
    } else if later == "" && LastBare(cfg, c) {
      w := Flags(before + after);
      assert w.letters[..|w.letters| - 1] == before;
    } else if Bare(cfg, c) {
      assert before + after == (before + [c]) + later;
      w := CutToken(cfg, before + [c], later, more);
    } else {
      w := if later != "" then Letter(before, c, later, false)
           else if more == [] then LetterLacks(before, c)
           else Letter(before, c, more[0], true);
    }
  }

  /** Every command line is such a line, perhaps with `--` and anything behind it. */
  lemma {:induction false} EveryLine(cfg: Config, toks: seq<string>) returns (ws: seq<Written>, tail: seq<string>)
    requires !NameFollows(cfg, 'W') && '-' !in cfg.options
    ensures ProperLine(cfg, ws) && toks == AllTokens(ws) + tail
    ensures tail != [] ==> tail[0] == "--" && EndingOf(ws) == Exhausted
    decreases |toks|
  {
    hide Proper, AllBare, NameFollows;
    if toks == [] || toks[0] == "--" {
      ws, tail := [], toks;
    } else {
      var w;
      if IsNonOption(cfg, toks[0]) {
        w := Operand(toks[0]);
        OperandProper(cfg, toks[0]);
      } else {
        OptionBehindDash(cfg, toks[0]);
        w := CutToken(cfg, "", toks[0][1..], toks[1..]);
        assert "-" + ("" + toks[0][1..]) == toks[0];
      }
      var n := |Tokens(w)|;
      assert Tokens(w) == toks[..n];
      ws, tail := EveryLine(cfg, toks[n..]);
      Prepended(cfg, w, ws, tail, toks);
      ws := [w] + ws;
    }
  }

  lemma OperandProper(cfg: Config, token: string)
    requires IsNonOption(cfg, token)
    ensures Proper(cfg, Operand(token))
  {
  }

  lemma OptionBehindDash(cfg: Config, token: string)
    requires !IsNonOption(cfg, token) && token != "--" && '-' !in cfg.options
    ensures |token| > 1 && token[0] == '-' && "" + token[1..] != "-" && AllBare(cfg, "")
  {
    assert |token| == 2 ==> token == [token[0], token[1]];
  }

  lemma Prepended(cfg: Config, w: Written, ws: seq<Written>, tail: seq<string>, toks: seq<string>)
    requires Proper(cfg, w) && ProperLine(cfg, ws) && |Tokens(w)| <= |toks| && Tokens(w) == toks[..|Tokens(w)|]
    requires (w.Lacks() ==> toks == Tokens(w)) && toks[|Tokens(w)|..] == AllTokens(ws) + tail
    requires tail != [] ==> tail[0] == "--" && EndingOf(ws) == Exhausted
    ensures ProperLine(cfg, [w] + ws) && toks == AllTokens([w] + ws) + tail
    ensures tail != [] ==> EndingOf([w] + ws) == Exhausted
  {
    hide Proper, Tokens;
    assert ws != [] ==> AllTokens(ws) != [];
    assert ([w] + ws)[1..] == ws && toks == Tokens(w) + toks[|Tokens(w)|..];
  }

  // ----- a dash as a letter, and names behind `-W` -----

  /** A single dash is an operand, unless the option string lists it: then it is a letter like others. */
  lemma SingleDash(cfg: Config, more: seq<string>, mem: Memory)
    ensures '-' !in cfg.options ==> IsNonOption(cfg, "-")
    ensures '-' in cfg.options ==>
      var o := Run(cfg, "", ["-"] + more, mem);
      var takes := LetterTakes(cfg, '-');
      o.events != [] && o.events[0]
        == if !takes.RequiredArgument? then Event('-' as int, Null, mem, Str("-"))
           else if more != [] then Event('-' as int, Str(more[0]), mem, Str(more[0]))
           else Event(MissingCode(cfg), Null, Memory('-' as int, mem.getoptval), Str("-"))
  {
    var toks := ["-"] + more;
    assert more != [] ==> toks[1] == more[0];
    if '-' in cfg.options {
      DashStep(cfg, toks, mem);
      hide OptionStep;
    }
  }

  lemma DashStep(cfg: Config, toks: seq<string>, mem: Memory)
    requires toks != [] && toks[0] == "-" && '-' in cfg.options
    ensures OptionStep(cfg, "-", toks, mem).event
      == if !LetterTakes(cfg, '-').RequiredArgument? then Event('-' as int, Null, mem, Str("-"))
         else if |toks| > 1 then Event('-' as int, Str(toks[1]), mem, Str(toks[1]))
         else Event(MissingCode(cfg), Null, Memory('-' as int, mem.getoptval), Str("-"))
  {
    hide LongStep;
  }

  /** The same event, but for the token it was read from. */
  predicate SameButLast(e: Event, e': Event) {
    e.code == e'.code && e.optarg == e'.optarg && e.mem == e'.mem
  }

  /** `-Wname` and `-W name` mean `--name`, where names follow the letter `W`. */
  lemma NameBehindW(cfg: Config, body: string, more: seq<string>, mem: Memory)
    requires NameFollows(cfg, 'W') && body != ""
    ensures var st := OptionStep(cfg, "-" + body, ["--" + body] + more, mem);
      var attached := OptionStep(cfg, "W" + body, ["-W" + body] + more, mem);
      var apart := OptionStep(cfg, "W", ["-W", body] + more, mem);
      && SameButLast(attached.event, st.event) && attached.used == st.used && attached.missing == st.missing
      && SameButLast(apart.event, st.event) && apart.used == st.used + 1 && apart.missing == st.missing
  {
    var a, b, c := ["--" + body] + more, ["-W" + body] + more, ["-W", body] + more;
    assert |"-" + body| != |a[0]| && ("-" + body)[1..] == body && ("W" + body)[1..] == body;
    assert c[1..] == [body] + more && c[1] == body;
    WStep(cfg, body, b, mem);
    WStepApart(cfg, c, mem);
    LongBut(cfg, body, a, b, mem);
    LongBut(cfg, body, a, c[1..], mem);
    hide LongStep, ShortStep;
  }

  lemma WStep(cfg: Config, body: string, toks: seq<string>, mem: Memory)
    requires NameFollows(cfg, 'W') && body != "" && toks != []
    ensures OptionStep(cfg, "W" + body, toks, mem) == LongStep(cfg, body, toks, mem)
  {
    hide LongStep, StrChr;
    assert ("W" + body)[1..] == body;
  }

  lemma WStepApart(cfg: Config, toks: seq<string>, mem: Memory)
    requires NameFollows(cfg, 'W') && |toks| > 1
    ensures var st := LongStep(cfg, toks[1], toks[1..], mem);
      OptionStep(cfg, "W", toks, mem) == st.(used := st.used + 1)
  {
    hide LongStep, StrChr;
  }

  /** A name means the same inside another token. */
  lemma LongBut(cfg: Config, body: string, toks: seq<string>, toks': seq<string>, mem: Memory)
    requires toks != [] && toks' != [] && toks[1..] == toks'[1..]
    ensures var st, st' := LongStep(cfg, body, toks, mem), LongStep(cfg, body, toks', mem);
      SameButLast(st'.event, st.event) && st'.used == st.used && st'.missing == st.missing
  {
    hide LongMatch, Key, StrChr;
    assert |toks| > 1 ==> toks[1] == toks[1..][0] == toks'[1];
    assert |toks| == |toks[1..]| + 1 && |toks'| == |toks'[1..]| + 1;
  }
}
