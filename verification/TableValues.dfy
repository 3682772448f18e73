/** From the command line to the table: what each part of a line hands to which entry, and what it
    registers. */
module TableValues {
  import opened Options
  import opened CommandLines
  import opened WrittenOptions
  import opened ArgTables
  import opened ArgTableLaws
  import opened OptionLetters
  import opened Wrappers

  // ----- what a line does to a table -----

  datatype Effect = Give(entry: nat, arg: Arg) | Complain(record: Record)

  /** Entry `i` makes what it can of an argument; an error is registered for it, with the argument. */
  function Given<S>(T: Table<S>, st: State<S>, i: nat, a: Arg): (r: State<S>)
    requires |st.parents| == |T.entries| && i < |T.entries|
    ensures |r.parents| == |st.parents|
  {
    var (s, error) := T.scan(i, st.parents[i], a);
    if !T.entries[i].hasScan then st
    else State(st.parents[i := s], st.log + if error == 0 then [] else [Record(error, Parent(i), a)])
  }

  function Perform<S>(T: Table<S>, st: State<S>, e: Effect): (r: State<S>)
    requires |st.parents| == |T.entries| && (e.Give? ==> e.entry < |T.entries|)
    ensures |r.parents| == |st.parents|
  {
    match e
    case Give(i, a) => Given(T, st, i, a)
    case Complain(r) => State(st.parents, st.log + [r])
  }

  function Performed<S>(T: Table<S>, st: State<S>, effects: seq<Effect>): (r: State<S>)
    requires |st.parents| == |T.entries| && forall e :: e in effects && e.Give? ==> e.entry < |T.entries|
    ensures |r.parents| == |st.parents|
    decreases |effects|
  {
    if effects == [] then st
    else Performed(T, Perform(T, st, effects[0]), effects[1..])
  }

  /** The entry that lists the letter first. */
  function LetterEntry(entries: seq<Entry>, c: char): (i: nat)
    requires IsLetter(ConfigOf(entries), c)
    ensures i < |entries|
  {
    LetterHasEntry(entries, c);
    FindShort(entries, c as int)
  }

  /** The entry whose name is selected. */
  function NameEntry(entries: seq<Entry>, name: string): (i: nat)
    requires LongMatch(LongOptions(entries, 0), name).Found?
    ensures i < |entries|
  {
    LongOptionsHaveEntry(entries, 0);
    LongOptions(entries, 0)[LongMatch(LongOptions(entries, 0), name).index].val
  }

  /** A bare letter is given to the entry that lists it first, without an argument; an unknown one is
      registered under its own code. */
  function BareEffect(entries: seq<Entry>, c: char): (x: Effect)
    requires IsUnknown(ConfigOf(entries), c) || IsLetter(ConfigOf(entries), c)
    ensures x.Give? ==> x.entry < |entries|
  {
    if IsUnknown(ConfigOf(entries), c) then Complain(Record(c as int, End, Null))
    else Give(LetterEntry(entries, c), Null)
  }

  predicate AllReported(cfg: Config, letters: string) {
    forall i :: 0 <= i < |letters| ==> IsUnknown(cfg, letters[i]) || IsLetter(cfg, letters[i])
  }

  function BareEffects(entries: seq<Entry>, letters: string): (r: seq<Effect>)
    requires AllReported(ConfigOf(entries), letters)
    ensures EntriesExist(entries, r)
  {
    if letters == "" then [] else [BareEffect(entries, letters[0])] + BareEffects(entries, letters[1..])
  }

  predicate EntriesExist(entries: seq<Entry>, effects: seq<Effect>) {
    forall e :: e in effects && e.Give? ==> e.entry < |entries|
  }

  /** The value for a name; an empty one is registered, too, with the token it was read from. */
  function NameGiven(entries: seq<Entry>, i: nat, value: string, last: string): (r: seq<Effect>)
    requires i < |entries|
    ensures EntriesExist(entries, r)
  {
    (if value == "" && entries[i].hasValue then [Complain(Record(ARG_EMISSARG, End, Str(last)))] else [])
    + [Give(i, Str(value))]
  }

  /** The part is wrong: how it is registered, with its token. */
  function PartError(w: Written): Record {
    Record(if w.WrongName? || w.WrongNameValue? then ARG_ELONGOPT else ARG_EMISSARG, End, Str(Tokens(w)[0]))
  }

  function Effects(entries: seq<Entry>, w: Written): (r: seq<Effect>)
    requires Proper(ConfigOf(entries), w)
    ensures EntriesExist(entries, r)
  {
    match w
    case Operand(_) => []
    case Flags(letters) =>
      FlagsReported(ConfigOf(entries), letters);
      BareEffects(entries, letters)
    case Letter(before, c, value, _) => BareEffects(entries, before) + [Give(LetterEntry(entries, c), Str(value))]
    case Name(before, name) => BareEffects(entries, before) + [Give(NameEntry(entries, name), Null)]
    case NameValue(before, name, value, apart) =>
      var last := if apart then value else Tokens(w)[0];
      BareEffects(entries, before) + NameGiven(entries, NameEntry(entries, name), value, last)
    case _ => BareEffects(entries, w.before) + [Complain(PartError(w))]
  }

  lemma FlagsReported(cfg: Config, letters: string)
    requires Proper(cfg, Flags(letters))
    ensures AllReported(cfg, letters)
  {
    hide IsLetter, IsUnknown, LetterTakes;
    assert forall i :: 0 <= i < |letters| - 1 ==> letters[i] == letters[..|letters| - 1][i];
  }

  function AllEffects(entries: seq<Entry>, ws: seq<Written>): (r: seq<Effect>)
    requires forall i :: 0 <= i < |ws| ==> Proper(ConfigOf(entries), ws[i])
    ensures EntriesExist(entries, r)
  {
    if ws == [] then [] else Effects(entries, ws[0]) + AllEffects(entries, ws[1..])
  }

  // ----- events and effects -----

  lemma {:induction false} AppliedAppend<S>(T: Table<S>, st: State<S>, a: seq<Event>, b: seq<Event>)
    requires |st.parents| == |T.entries| && forall e :: e in a + b ==> Understood(T.entries, e)
    ensures (forall e :: e in a ==> Understood(T.entries, e)) && (forall e :: e in b ==> Understood(T.entries, e))
    ensures ApplyEvents(T, st, a + b) == ApplyEvents(T, ApplyEvents(T, st, a), b)
    decreases |a|
  {
    hide Understood, ApplyEvent;
    forall e | e in a || e in b ensures Understood(T.entries, e) {
      assert e in a + b;
    }
    if a == [] {
      assert a + b == b;
    } else {
      assert (a + b)[1..] == a[1..] + b;
      AppliedAppend(T, ApplyEvent(T, st, a[0]), a[1..], b);
    }
  }

  lemma {:induction false} PerformedAppend<S>(T: Table<S>, st: State<S>, a: seq<Effect>, b: seq<Effect>)
    requires |st.parents| == |T.entries| && EntriesExist(T.entries, a) && EntriesExist(T.entries, b)
    ensures Performed(T, st, a + b) == Performed(T, Performed(T, st, a), b)
    decreases |a|
  {
    hide Perform;
    if a == [] {
      assert a + b == b;
    } else {
      assert (a + b)[1..] == a[1..] + b;
      PerformedAppend(T, Perform(T, st, a[0]), a[1..], b);
    }
  }

  /** What is reported in state `st` is performed. */
  ghost predicate Applied<S>(T: Table<S>, st: State<S>, es: seq<Event>, effects: seq<Effect>)
    requires |st.parents| == |T.entries| && EntriesExist(T.entries, effects)
  {
    && (forall e :: e in es ==> Understood(T.entries, e))
    && ApplyEvents(T, st, es) == Performed(T, st, effects)
  }

  lemma AppliedJoin<S>(T: Table<S>, st: State<S>, a: seq<Event>, x: seq<Effect>, b: seq<Event>, y: seq<Effect>)
    requires |st.parents| == |T.entries| && EntriesExist(T.entries, x) && EntriesExist(T.entries, y)
    requires Applied(T, st, a, x) && Applied(T, Performed(T, st, x), b, y)
    ensures EntriesExist(T.entries, x + y) && Applied(T, st, a + b, x + y)
  {
    hide Understood, ApplyEvents, Performed;
    AppliedAppend(T, st, a, b);
    PerformedAppend(T, st, x, y);
  }

  lemma NoneApplied<S>(T: Table<S>, st: State<S>)
    requires |st.parents| == |T.entries|
    ensures Applied(T, st, [], [])
  {
  }

  /** One event, one effect. */
  lemma OneApplied<S>(T: Table<S>, st: State<S>, e: Event, x: Effect)
    requires |st.parents| == |T.entries| && Understood(T.entries, e) && (x.Give? ==> x.entry < |T.entries|)
    requires ApplyEvent(T, st, e) == Perform(T, st, x)
    ensures EntriesExist(T.entries, [x]) && Applied(T, st, [e], [x])
  {
    hide ApplyEvent, Perform, Understood;
    assert [e][1..] == [] && [x][1..] == [];
    assert ApplyEvents(T, st, [e]) == ApplyEvents(T, ApplyEvent(T, st, e), []);
    assert Performed(T, st, [x]) == Performed(T, Perform(T, st, x), []);
  }

  // ----- letters -----

  /** The code of a letter is not one of the scanner's own. */
  lemma LetterCode(entries: seq<Entry>, c: char)
    requires LettersUsable(entries) && IsLetter(ConfigOf(entries), c) && c != '\0'
    ensures IsLetterCode(c as int) && FindShort(entries, c as int) == LetterEntry(entries, c)
  {
    LetterHasEntry(entries, c);
  }

  lemma BareApplied<S>(T: Table<S>, st: State<S>, c: char, mem: Memory, last: Arg)
    requires T.Valid() && |st.parents| == |T.entries| && c != '\0'
    requires IsUnknown(ConfigOf(T.entries), c) || IsLetter(ConfigOf(T.entries), c)
    ensures var x := BareEffect(T.entries, c);
      EntriesExist(T.entries, [x]) && Applied(T, st, [BareEvent(ConfigOf(T.entries), c, mem, last)], [x])
  {
    var cfg := ConfigOf(T.entries);
    if !IsUnknown(cfg, c) {
      LetterCode(T.entries, c);
    }
    hide FindShort, IsUnknown, IsLetter, ConfigOf, LettersUsable, Applied, EntriesExist;
    OneApplied(T, st, BareEvent(cfg, c, mem, last), BareEffect(T.entries, c));
  }

  lemma {:induction false} AllBareApplied<S>(T: Table<S>, st: State<S>, letters: string, mem: Memory)
    requires T.Valid() && |st.parents| == |T.entries| && CString(letters) && AllReported(ConfigOf(T.entries), letters)
    ensures Applied(T, st, BareEvents(ConfigOf(T.entries), letters, mem), BareEffects(T.entries, letters))
    decreases |letters|
  {
    if letters == "" {
      NoneApplied(T, st);
    } else {
      var cfg := ConfigOf(T.entries);
      var c, later, e := letters[0], letters[1..], BareEvent(cfg, letters[0], mem, Null);
      var x := BareEffect(T.entries, c);
      assert BareEffects(T.entries, letters) == [x] + BareEffects(T.entries, later);
      assert BareEvents(cfg, letters, mem) == [e] + BareEvents(cfg, later, e.mem);
      hide BareEvent, BareEffect, BareEvents, BareEffects, IsUnknown, IsLetter, ConfigOf, Applied;
      BareApplied(T, st, c, mem, Null);
      AllBareApplied(T, Performed(T, st, [x]), later, e.mem);
      AppliedJoin(T, st, [e], [x], BareEvents(cfg, later, e.mem), BareEffects(T.entries, later));
    }
  }

  lemma {:induction false} BareEffectsSnoc(entries: seq<Entry>, letters: string, c: char)
    requires AllReported(ConfigOf(entries), letters + [c])
    ensures AllReported(ConfigOf(entries), letters)
    ensures IsUnknown(ConfigOf(entries), c) || IsLetter(ConfigOf(entries), c)
    ensures BareEffects(entries, letters + [c]) == BareEffects(entries, letters) + [BareEffect(entries, c)]
    decreases |letters|
  {
    hide IsUnknown, IsLetter, ConfigOf;
    assert (letters + [c])[|letters|] == c;
    forall i | 0 <= i < |letters|
      ensures IsUnknown(ConfigOf(entries), letters[i]) || IsLetter(ConfigOf(entries), letters[i])
    {
      assert (letters + [c])[i] == letters[i];
    }
    if letters == "" {
      assert letters + [c] == [c] && [c][1..] == "";
      assert BareEffects(entries, "") == [];
    } else {
      assert (letters + [c])[1..] == letters[1..] + [c];
      BareEffectsSnoc(entries, letters[1..], c);
    }
  }

  // ----- parts of a line -----

  lemma BehindBare<S>(T: Table<S>, st: State<S>, before: string, mem: Memory, e: Event, effects: seq<Effect>)
    requires T.Valid() && |st.parents| == |T.entries| && CString(before) && AllBare(ConfigOf(T.entries), before)
    requires EntriesExist(T.entries, effects)
    requires Applied(T, Performed(T, st, BareEffects(T.entries, before)), [e], effects)
    ensures EntriesExist(T.entries, BareEffects(T.entries, before) + effects)
    ensures Applied(T, st, BareEvents(ConfigOf(T.entries), before, mem) + [e], BareEffects(T.entries, before) + effects)
  {
    AllBareApplied(T, st, before, mem);
    hide BareEvents, BareEffects, Applied, EntriesExist, ConfigOf;
    AppliedJoin(T, st, BareEvents(ConfigOf(T.entries), before, mem), BareEffects(T.entries, before), [e], effects);
  }

  lemma FlagsApplied<S>(T: Table<S>, st: State<S>, w: Written, mem: Memory)
    requires T.Valid() && |st.parents| == |T.entries|
    requires w.Flags? && Proper(ConfigOf(T.entries), w) && CString(w.letters)
    ensures Applied(T, st, Meaning(ConfigOf(T.entries), w, mem), Effects(T.entries, w))
  {
    var cfg, n := ConfigOf(T.entries), |w.letters| - 1;
    var before, c := w.letters[..n], w.letters[n];
    assert w.letters == before + [c] && CString(before);
    BareEffectsSnoc(T.entries, before, c);
    hide LetterTakes, IsLetter, IsUnknown, ConfigOf, BareEvents, BareEffects, BareEvent, BareEffect, Applied,
      EntriesExist;
    var m := BareMemory(cfg, before, mem);
    var e := BareEvent(cfg, c, m, Str(Tokens(w)[0]));
    var st' := Performed(T, st, BareEffects(T.entries, before));
    BareApplied(T, st', c, m, Str(Tokens(w)[0]));
    BehindBare(T, st, before, mem, e, [BareEffect(T.entries, c)]);
  }

  lemma LetterApplied<S>(T: Table<S>, st: State<S>, w: Written, mem: Memory)
    requires T.Valid() && |st.parents| == |T.entries| && w.Letter? && Proper(ConfigOf(T.entries), w)
    requires CString(w.before) && w.c != '\0'
    ensures Applied(T, st, Meaning(ConfigOf(T.entries), w, mem), Effects(T.entries, w))
  {
    var cfg := ConfigOf(T.entries);
    LetterCode(T.entries, w.c);
    hide LetterTakes, IsLetter, IsUnknown, ConfigOf, BareEvents, BareEffects, FindShort, Applied, EntriesExist;
    var last := if w.apart then Str(w.value) else Str(Tokens(w)[0]);
    var e := Event(w.c as int, Str(w.value), BareMemory(cfg, w.before, mem), last);
    var x := Give(LetterEntry(T.entries, w.c), Str(w.value));
    OneApplied(T, Performed(T, st, BareEffects(T.entries, w.before)), e, x);
    BehindBare(T, st, w.before, mem, e, [x]);
  }

  /** A value for a name. */
  lemma ValueApplied<S>(T: Table<S>, st: State<S>, i: nat, value: string, mem: Memory, last: string)
    requires |st.parents| == |T.entries| && i < |T.entries| && mem.getoptval == i
    ensures Applied(T, st, [Event(0, Str(value), mem, Str(last))], NameGiven(T.entries, i, value, last))
  {
    var e, g := Event(0, Str(value), mem, Str(last)), Give(i, Str(value));
    var complains := value == "" && T.entries[i].hasValue;
    var c := Complain(Record(ARG_EMISSARG, End, Str(last)));
    assert [e][1..] == [] && [g][1..] == [] && [c, g][1..] == [g];
    var st' := if complains then Perform(T, st, c) else st;
    assert Performed(T, st', [g]) == Perform(T, st', g) by {
      assert Performed(T, Perform(T, st', g), []) == Perform(T, st', g);
    }
    assert Performed(T, st, NameGiven(T.entries, i, value, last)) == Perform(T, st', g);
    assert ApplyEvent(T, st, e) == Perform(T, st', g);
    hide ApplyEvent, Perform, Performed;
    assert ApplyEvents(T, st, [e]) == ApplyEvent(T, st, e) by {
      assert ApplyEvents(T, ApplyEvent(T, st, e), []) == ApplyEvent(T, st, e);
    }
  }

  lemma SelectedEntry(entries: seq<Entry>, name: string, mem: Memory)
    requires LongMatch(LongOptions(entries, 0), name).Found?
    ensures Selected(ConfigOf(entries), name, mem).getoptval == NameEntry(entries, name)
  {
    hide LongMatch, LongOptions;
  }

  lemma NameApplied<S>(T: Table<S>, st: State<S>, w: Written, mem: Memory)
    requires T.Valid() && |st.parents| == |T.entries| && (w.Name? || w.NameValue?) && Proper(ConfigOf(T.entries), w)
    requires CString(w.before)
    ensures Applied(T, st, Meaning(ConfigOf(T.entries), w, mem), Effects(T.entries, w))
  {
    var cfg, m := ConfigOf(T.entries), BareMemory(ConfigOf(T.entries), w.before, mem);
    SelectedEntry(T.entries, w.name, m);
    hide LetterTakes, IsLetter, IsUnknown, ConfigOf, BareEvents, BareEffects, BareMemory, LongMatch, Selected, Applied,
      NameGiven, LongOptions, EntriesExist;
    var st' := Performed(T, st, BareEffects(T.entries, w.before));
    var i, selected := NameEntry(T.entries, w.name), Selected(cfg, w.name, m);
    if w.Name? {
      var e := Event(0, Null, selected, Str(Tokens(w)[0]));
      OneApplied(T, st', e, Give(i, Null));
      BehindBare(T, st, w.before, mem, e, [Give(i, Null)]);
    } else {
      var last := if w.apart then w.value else Tokens(w)[0];
      ValueApplied(T, st', i, w.value, selected, last);
      BehindBare(T, st, w.before, mem, Event(0, Str(w.value), selected, Str(last)),
                 NameGiven(T.entries, i, w.value, last));
    }
  }

  /** What is wrong with the other parts is registered for the end of the table. */
  lemma ErrorApplied<S>(T: Table<S>, st: State<S>, w: Written, mem: Memory)
    requires T.Valid() && |st.parents| == |T.entries| && Proper(ConfigOf(T.entries), w)
    requires w.WrongName? || w.WrongNameValue? || w.UnwantedValue? || w.LetterLacks? || w.NameLacks?
    requires CString(w.before)
    ensures Applied(T, st, Meaning(ConfigOf(T.entries), w, mem), Effects(T.entries, w))
  {
    var cfg, m, tok := ConfigOf(T.entries), BareMemory(ConfigOf(T.entries), w.before, mem), Str(Tokens(w)[0]);
    assert MissingCode(cfg) == ':' as int;
    hide LetterTakes, IsLetter, IsUnknown, ConfigOf, BareEvents, BareEffects, BareMemory, LongMatch, Applied,
      MissingCode, LongOptions, EntriesExist;
    var wrong := w.WrongName? || w.WrongNameValue?;
    var e := if wrong then NameRefused('?' as int, m, tok)
             else if w.LetterLacks? then Event(':' as int, Null, Memory(w.c as int, m.getoptval), tok)
             else NameRefused(':' as int, m, tok);
    var x := Complain(Record(if wrong then ARG_ELONGOPT else ARG_EMISSARG, End, tok));
    OneApplied(T, Performed(T, st, BareEffects(T.entries, w.before)), e, x);
    BehindBare(T, st, w.before, mem, e, [x]);
  }

  lemma TextParts(w: Written)
    requires CStrings(Tokens(w))
    ensures w.Flags? ==> CString(w.letters)
    ensures !w.Flags? && !w.Operand? ==> CString(w.before)
    ensures w.Letter? ==> w.c != '\0'
  {
    var toks := Tokens(w);
    assert toks[0] in toks;
    if w.Flags? {
      assert toks[0][1..] == w.letters;
    } else if !w.Operand? {
      assert toks[0][1..][..|w.before|] == w.before;
      assert w.Letter? ==> toks[0][1..][|w.before|] == w.c;
    }
  }

  /** What one part of a line reports is what is performed. */
  lemma PartApplied<S>(T: Table<S>, st: State<S>, w: Written, mem: Memory)
    requires T.Valid() && |st.parents| == |T.entries| && Proper(ConfigOf(T.entries), w) && CStrings(Tokens(w))
    ensures Applied(T, st, Meaning(ConfigOf(T.entries), w, mem), Effects(T.entries, w))
  {
    TextParts(w);
    if w.Operand? {
      NoneApplied(T, st);
    } else {
      hide *;
      if w.Flags? {
        FlagsApplied(T, st, w, mem);
      } else if w.Letter? {
        LetterApplied(T, st, w, mem);
      } else if w.Name? || w.NameValue? {
        NameApplied(T, st, w, mem);
      } else {
        ErrorApplied(T, st, w, mem);
      }
    }
  }

  /** What a line reports is what is performed. */
  lemma {:induction false} LineApplied<S>(T: Table<S>, st: State<S>, ws: seq<Written>, mem: Memory)
    requires T.Valid() && |st.parents| == |T.entries| && ProperLine(ConfigOf(T.entries), ws) && CStrings(AllTokens(ws))
    ensures Applied(T, st, AllMeaning(ConfigOf(T.entries), ws, mem), AllEffects(T.entries, ws))
    decreases |ws|
  {
    if ws == [] {
      NoneApplied(T, st);
    } else {
      var cfg, w, later := ConfigOf(T.entries), ws[0], ws[1..];
      LaterLine(cfg, ws);
      TokensText(ws);
      var es, effects := Meaning(cfg, w, mem), Effects(T.entries, w);
      hide Proper, Meaning, Effects, ConfigOf, Applied, EntriesExist, CStrings;
      PartApplied(T, st, w, mem);
      LineApplied(T, Performed(T, st, effects), later, Remembered(es, mem));
      AppliedJoin(T, st, es, effects, AllMeaning(cfg, later, Remembered(es, mem)), AllEffects(T.entries, later));
    }
  }

  lemma TokensText(ws: seq<Written>)
    requires ws != [] && CStrings(AllTokens(ws))
    ensures CStrings(Tokens(ws[0])) && CStrings(AllTokens(ws[1..]))
  {
    hide Tokens;
    forall s | s in Tokens(ws[0]) || s in AllTokens(ws[1..]) ensures CString(s) {
      assert s in AllTokens(ws);
    }
  }

  // ----- the whole command line -----

  /** The final checks, if nothing has been registered. */
  function Concluded<S>(T: Table<S>, st: State<S>): State<S>
    requires |st.parents| == |T.entries|
  {
    if st.log == [] then State(st.parents, CheckErrors(T, st.parents, 0)) else st
  }

  /** What is behind `--`. */
  function Behind(tail: seq<string>): seq<string> {
    if tail == [] then [] else tail[1..]
  }

  /** `arg_parse` on a line, and perhaps `--` and whatever is behind it: every entry is reset, the
      effects of the line are performed in their order, and then the operands and what is behind `--`
      are assigned to the untagged entries. */
  lemma ParsedLine<S>(T: Table<S>, parents: seq<S>, prog: string, ws: seq<Written>, tail: seq<string>, optopt: int)
    requires T.Valid() && |parents| == |T.entries| && ProperLine(ConfigOf(T.entries), ws) && CStrings(AllTokens(ws))
    requires tail != [] ==> tail[0] == "--" && EndingOf(ws) == Exhausted
    ensures var argv, st := [prog] + (AllTokens(ws) + tail), State(Reset(T, parents, 0), []);
      && (forall e :: e in Scanned(T, argv, optopt).events ==> Understood(T.entries, e))
      && Parsed(T, parents, argv, optopt)
         == Concluded(T, AssignUntagged(T, Performed(T, st, AllEffects(T.entries, ws)), 0,
                                        Parts(ws, true) + Behind(tail), None))
  {
    hide Proper, ConfigOf, AllTokens, AllMeaning, AllEffects, Parts, Run, Reset, Performed, AssignUntagged, EndingOf,
      Understood, CStrings, Applied, EntriesExist, Scanned, Parsed, Concluded, Behind, LettersUsable;
    var mem, argv := Memory(optopt, 0), [prog] + (AllTokens(ws) + tail);
    var st := State(Reset(T, parents, 0), []);
    LineScanned(T, ws, tail, prog, optopt);
    LineApplied(T, st, ws, mem);
    AppliedSays(T, st, AllMeaning(ConfigOf(T.entries), ws, mem), AllEffects(T.entries, ws));
    ParsedScanned(T, parents, argv, optopt);
  }

  lemma AppliedSays<S>(T: Table<S>, st: State<S>, es: seq<Event>, effects: seq<Effect>)
    requires |st.parents| == |T.entries| && EntriesExist(T.entries, effects) && Applied(T, st, es, effects)
    ensures (forall e :: e in es ==> Understood(T.entries, e)) && ApplyEvents(T, st, es) == Performed(T, st, effects)
  {
  }

  lemma LineScanned<S>(T: Table<S>, ws: seq<Written>, tail: seq<string>, prog: string, optopt: int)
    requires ProperLine(ConfigOf(T.entries), ws) && (tail != [] ==> tail[0] == "--" && EndingOf(ws) == Exhausted)
    ensures var o := Scanned(T, [prog] + (AllTokens(ws) + tail), optopt);
      && o.events == AllMeaning(ConfigOf(T.entries), ws, Memory(optopt, 0))
      && o.nonopts + o.rest == Parts(ws, true) + Behind(tail)
  {
    hide *;
    ScannedIs(T, prog, AllTokens(ws) + tail, optopt);
    LineRun(ConfigOf(T.entries), ws, tail, Memory(optopt, 0));
  }

  lemma ScannedIs<S>(T: Table<S>, prog: string, toks: seq<string>, optopt: int)
    ensures Scanned(T, [prog] + toks, optopt) == Run(ConfigOf(T.entries), "", toks, Memory(optopt, 0))
  {
    hide Run, ConfigOf;
    assert ([prog] + toks)[1..] == toks;
  }

  lemma LineRun(cfg: Config, ws: seq<Written>, tail: seq<string>, mem: Memory)
    requires ProperLine(cfg, ws) && (tail != [] ==> tail[0] == "--" && EndingOf(ws) == Exhausted)
    ensures var o := Run(cfg, "", AllTokens(ws) + tail, mem);
      o.events == AllMeaning(cfg, ws, mem) && o.nonopts + o.rest == Parts(ws, true) + Behind(tail)
  {
    hide AllTokens, AllMeaning, Parts, Run, EndingOf, Proper;
    if tail == [] {
      RunOfWritten(cfg, ws, mem);
      assert AllTokens(ws) + tail == AllTokens(ws);
    } else {
      RunBeforeDashes(cfg, ws, tail[1..], mem);
      assert tail == ["--"] + tail[1..];
    }
  }

  lemma ParsedScanned<S>(T: Table<S>, parents: seq<S>, argv: seq<string>, optopt: int)
    requires |parents| == |T.entries| && argv != []
    requires forall e :: e in Scanned(T, argv, optopt).events ==> Understood(T.entries, e)
    ensures var o := Scanned(T, argv, optopt);
      var tagged := ApplyEvents(T, State(Reset(T, parents, 0), []), o.events);
      Parsed(T, parents, argv, optopt) == Concluded(T, AssignUntagged(T, tagged, 0, o.nonopts + o.rest, None))
  {
    hide Scanned, Understood, ApplyEvents, AssignUntagged, Reset, CheckErrors;
  }

  // ----- entry by entry -----

  /** The arguments given to entry `i`, in order. */
  function ArgsTo(effects: seq<Effect>, i: nat): seq<Arg> {
    if effects == [] then []
    else (if effects[0].Give? && effects[0].entry == i then [effects[0].arg] else []) + ArgsTo(effects[1..], i)
  }

  function ScannedAll<S>(T: Table<S>, i: nat, s: S, args: seq<Arg>): S {
    if args == [] then s else ScannedAll(T, i, T.scan(i, s, args[0]).0, args[1..])
  }

  /** What an entry ends as depends on what it was given, and on nothing else. */
  lemma {:induction false} EntryAlone<S>(T: Table<S>, st: State<S>, effects: seq<Effect>, i: nat)
    requires |st.parents| == |T.entries| && i < |T.entries| && EntriesExist(T.entries, effects)
    ensures Performed(T, st, effects).parents[i]
      == if T.entries[i].hasScan then ScannedAll(T, i, st.parents[i], ArgsTo(effects, i)) else st.parents[i]
    decreases |effects|
  {
    if effects != [] {
      var e, later := effects[0], effects[1..];
      var st' := Perform(T, st, e);
      EntryAlone(T, st', later, i);
      if e.Give? && e.entry == i && T.entries[i].hasScan {
        assert ([e.arg] + ArgsTo(later, i))[1..] == ArgsTo(later, i);
        assert st'.parents[i] == T.scan(i, st.parents[i], e.arg).0;
      } else {
        assert st'.parents[i] == st.parents[i] && [] + ArgsTo(later, i) == ArgsTo(later, i);
        assert ArgsTo(effects, i) == (if e.Give? && e.entry == i then [e.arg] else []) + ArgsTo(later, i);
      }
    }
  }
}
