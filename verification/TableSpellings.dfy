/** Command lines with one option: whose value it is, however it is spelled, and what is registered
    for each way to get it wrong.  And when the final checks are made. */
module TableSpellings {
  import opened Options
  import opened WrittenOptions
  import opened ArgTables
  import opened ArgTableLaws
  import opened OptionLetters
  import opened LongTable
  import opened TableValues
  import opened Wrappers

  // ----- one part -----

  /** All parents reset, and nothing registered. */
  function Cleared<S>(T: Table<S>, parents: seq<S>): State<S>
    requires |parents| == |T.entries|
  {
    State(Reset(T, parents, 0), [])
  }

  lemma OneLine<S>(T: Table<S>, parents: seq<S>, prog: string, w: Written, optopt: int)
    requires T.Valid() && |parents| == |T.entries|
    requires Proper(ConfigOf(T.entries), w) && CStrings(Tokens(w)) && !w.Operand?
    ensures forall e :: e in Scanned(T, [prog] + Tokens(w), optopt).events ==> Understood(T.entries, e)
    ensures Parsed(T, parents, [prog] + Tokens(w), optopt)
      == Concluded(T, Performed(T, Cleared(T, parents), Effects(T.entries, w)))
  {
    hide ConfigOf, Proper, Reset, Effects, Parsed, Scanned, Understood, Performed, CStrings;
    var ws := [w];
    assert ws[1..] == [];
    assert AllTokens([]) == [] && Parts([], true) == [];
    assert Tokens(w) + [] == Tokens(w) && AllTokens(ws) == Tokens(w);
    assert AllEffects(T.entries, ws) == Effects(T.entries, w) by {
      assert AllEffects(T.entries, []) == [];
      assert Effects(T.entries, w) + [] == Effects(T.entries, w);
    }
    ParsedLine(T, parents, prog, ws, [], optopt);
    assert AllTokens(ws) + [] == Tokens(w) && Parts(ws, true) + [] == [];
    NothingLeft(T, Performed(T, Cleared(T, parents), Effects(T.entries, w)));
  }

  lemma NothingLeft<S>(T: Table<S>, st: State<S>)
    requires |st.parents| == |T.entries|
    ensures AssignUntagged(T, st, 0, [], None) == st
  {
  }

  /** The table after entry `i` was given `a`, and `r` was registered before that, and nothing else
      happened. */
  ghost predicate After<S>(T: Table<S>, parents: seq<S>, i: nat, a: Arg, r: seq<Record>, st: State<S>)
    requires |parents| == |T.entries| && i < |T.entries|
  {
    var (s, error) := T.scan(i, T.reset(i, parents[i]), a);
    var scans := T.entries[i].hasScan;
    var log := r + if scans && error != 0 then [Record(error, Parent(i), a)] else [];
    && |st.parents| == |parents|
    && (forall j :: 0 <= j < |parents| ==>
         st.parents[j] == if j == i && scans then s else T.reset(j, parents[j]))
    && st.log == if log == [] then CheckErrors(T, st.parents, 0) else log
  }

  /** The table after nothing but `r` was registered. */
  ghost predicate Only<S>(T: Table<S>, parents: seq<S>, r: Record, st: State<S>)
    requires |parents| == |T.entries|
  {
    && |st.parents| == |parents| && st.log == [r]
    && forall j :: 0 <= j < |parents| ==> st.parents[j] == T.reset(j, parents[j])
  }

  lemma GivenAfter<S>(T: Table<S>, parents: seq<S>, i: nat, a: Arg)
    requires |parents| == |T.entries| && i < |T.entries|
    ensures EntriesExist(T.entries, [Give(i, a)])
    ensures After(T, parents, i, a, [], Concluded(T, Performed(T, Cleared(T, parents), [Give(i, a)])))
  {
    hide Reset, CheckErrors;
    var st := Cleared(T, parents);
    assert [Give(i, a)][1..] == [];
    assert Performed(T, Perform(T, st, Give(i, a)), []) == Perform(T, st, Give(i, a));
    assert Performed(T, st, [Give(i, a)]) == Given(T, st, i, a);
  }

  lemma ComplainedAfter<S>(T: Table<S>, parents: seq<S>, r: Record, i: nat, a: Arg)
    requires |parents| == |T.entries| && i < |T.entries|
    ensures EntriesExist(T.entries, [Complain(r), Give(i, a)])
    ensures After(T, parents, i, a, [r], Concluded(T, Performed(T, Cleared(T, parents), [Complain(r), Give(i, a)])))
  {
    hide Reset, CheckErrors;
    var st := Cleared(T, parents);
    var st' := Perform(T, st, Complain(r));
    assert [Complain(r), Give(i, a)][1..] == [Give(i, a)] && [Give(i, a)][1..] == [];
    assert Performed(T, Perform(T, st', Give(i, a)), []) == Perform(T, st', Give(i, a));
    assert Performed(T, st', [Give(i, a)]) == Given(T, st', i, a);
    assert Performed(T, st, [Complain(r), Give(i, a)]) == Given(T, st', i, a);
  }

  lemma OnlyAfter<S>(T: Table<S>, parents: seq<S>, r: Record)
    requires |parents| == |T.entries|
    ensures EntriesExist(T.entries, [Complain(r)])
    ensures Only(T, parents, r, Concluded(T, Performed(T, Cleared(T, parents), [Complain(r)])))
  {
    hide Reset, CheckErrors;
    var st := Cleared(T, parents);
    assert [Complain(r)][1..] == [];
    assert Performed(T, Perform(T, st, Complain(r)), []) == Perform(T, st, Complain(r));
    assert Performed(T, st, [Complain(r)]) == Perform(T, st, Complain(r));
  }

  lemma NoneBefore(entries: seq<Entry>, effects: seq<Effect>)
    ensures BareEffects(entries, "") + effects == effects
  {
  }

  /** `arg_parse` leaves the table in which entry `i` was given `a`, after `r` was registered. */
  ghost predicate Leaves<S>(T: Table<S>, parents: seq<S>, argv: seq<string>, optopt: int, i: nat, a: Arg,
                            r: seq<Record>)
    requires |parents| == |T.entries| && i < |T.entries| && argv != []
  {
    && (forall e :: e in Scanned(T, argv, optopt).events ==> Understood(T.entries, e))
    && After(T, parents, i, a, r, Parsed(T, parents, argv, optopt))
  }

  /** `arg_parse` only registers `r`. */
  ghost predicate LeavesOnly<S>(T: Table<S>, parents: seq<S>, argv: seq<string>, optopt: int, r: Record)
    requires |parents| == |T.entries| && argv != []
  {
    && (forall e :: e in Scanned(T, argv, optopt).events ==> Understood(T.entries, e))
    && Only(T, parents, r, Parsed(T, parents, argv, optopt))
  }

  lemma PartLeaves<S>(T: Table<S>, parents: seq<S>, prog: string, w: Written, optopt: int, i: nat, a: Arg,
                      r: seq<Record>)
    requires T.Valid() && |parents| == |T.entries|
    requires Proper(ConfigOf(T.entries), w) && CStrings(Tokens(w)) && !w.Operand?
    requires i < |T.entries| && |r| <= 1
    requires Effects(T.entries, w) == (if r == [] then [] else [Complain(r[0])]) + [Give(i, a)]
    ensures Leaves(T, parents, [prog] + Tokens(w), optopt, i, a, r)
  {
    hide Proper, ConfigOf, Parsed, Scanned, Understood, After, Performed, Concluded, Tokens, CStrings, Cleared, Effects;
    OneLine(T, parents, prog, w, optopt);
    if r == [] {
      assert [] + [Give(i, a)] == [Give(i, a)];
      GivenAfter(T, parents, i, a);
    } else {
      assert r == [r[0]] && [Complain(r[0])] + [Give(i, a)] == [Complain(r[0]), Give(i, a)];
      ComplainedAfter(T, parents, r[0], i, a);
    }
  }

  lemma PartLeavesOnly<S>(T: Table<S>, parents: seq<S>, prog: string, w: Written, optopt: int, r: Record)
    requires T.Valid() && |parents| == |T.entries|
    requires Proper(ConfigOf(T.entries), w) && CStrings(Tokens(w)) && !w.Operand?
    requires Effects(T.entries, w) == [Complain(r)]
    ensures LeavesOnly(T, parents, [prog] + Tokens(w), optopt, r)
  {
    hide Proper, ConfigOf, Parsed, Scanned, Understood, Only, Performed, Concluded, Tokens, CStrings, Cleared, Effects;
    OneLine(T, parents, prog, w, optopt);
    OnlyAfter(T, parents, r);
  }

  // ----- the text of one part -----

  lemma LetterTokens(c: char, v: string, apart: bool)
    ensures Tokens(Letter("", c, v, apart)) == if apart then [['-', c], v] else [['-', c] + v]
    ensures Tokens(Flags([c])) == [['-', c]] == Tokens(LetterLacks("", c))
  {
    assert "" + [c] == [c] && "-" + [c] == ['-', c];
    assert "" + ([c] + v) == [c] + v && "-" + ([c] + v) == ['-', c] + v;
  }

  lemma NameTokens(name: string, v: string)
    ensures Tokens(Name("", name)) == ["--" + name] == Tokens(WrongName("", name)) == Tokens(NameLacks("", name))
    ensures Tokens(NameValue("", name, v, true)) == ["--" + name, v]
    ensures Tokens(NameValue("", name, v, false)) == ["--" + name + "=" + v]
    ensures Tokens(WrongNameValue("", name, v)) == ["--" + name + "=" + v] == Tokens(UnwantedValue("", name, v))
  {
    assert "" + ("-" + name) == "-" + name && "-" + ("-" + name) == "--" + name;
    assert "" + ("-" + (name + ("=" + v))) == "-" + (name + ("=" + v));
    assert "-" + ("-" + (name + ("=" + v))) == "--" + name + "=" + v;
  }

  /** The text of one token. */
  predicate OneText(c: char, s: string) {
    c != '\0' && CString(s)
  }

  // ----- the value of an option -----

  /** `-c v` and `-cv`: the entry that lists the letter gets the value. */
  lemma LetterValue<S>(T: Table<S>, parents: seq<S>, prog: string, c: char, v: string, apart: bool, optopt: int)
    requires T.Valid() && |parents| == |T.entries| && OneText(c, v)
    requires Proper(ConfigOf(T.entries), Letter("", c, v, apart))
    ensures Leaves(T, parents, [prog] + (if apart then [['-', c], v] else [['-', c] + v]), optopt,
                   LetterEntry(T.entries, c), Str(v), [])
  {
    hide Leaves, ConfigOf, BareEffects, LetterTakes, IsLetter, EntriesExist, AllBare, Tokens;
    LetterTokens(c, v, apart);
    var w, x := Letter("", c, v, apart), Give(LetterEntry(T.entries, c), Str(v));
    NoneBefore(T.entries, [x]);
    assert Effects(T.entries, w) == [] + [x] && CString(['-', c] + v) && CString(['-', c]);
    hide Proper, Effects, LetterEntry;
    PartLeaves(T, parents, prog, w, optopt, LetterEntry(T.entries, c), Str(v), []);
  }

  /** What is registered for an empty value. */
  function EmptyValue(entries: seq<Entry>, i: nat, v: string, last: string): seq<Record>
    requires i < |entries|
  {
    if v == "" && entries[i].hasValue then [Record(ARG_EMISSARG, End, Str(last))] else []
  }

  lemma NamedText(name: string, v: string, apart: bool)
    requires CString(name) && CString(v)
    ensures Tokens(NameValue("", name, v, apart)) == if apart then ["--" + name, v] else ["--" + name + "=" + v]
    ensures CStrings(Tokens(NameValue("", name, v, apart)))
  {
    NameTokens(name, v);
    hide Tokens;
  }

  lemma NamedEffects(entries: seq<Entry>, w: Written)
    requires w.NameValue? && w.before == "" && Proper(ConfigOf(entries), w)
    ensures var i, last := NameEntry(entries, w.name), if w.apart then w.value else "--" + w.name + "=" + w.value;
      var r := EmptyValue(entries, i, w.value, last);
      |r| <= 1 && Effects(entries, w) == (if r == [] then [] else [Complain(r[0])]) + [Give(i, Str(w.value))]
  {
    NameTokens(w.name, w.value);
    hide BareEffects, LongMatch, LongOptions, ConfigOf, Proper, EntriesExist, NameEntry, Tokens;
    var i, last := NameEntry(entries, w.name), if w.apart then w.value else Tokens(w)[0];
    NoneBefore(entries, NameGiven(entries, i, w.value, last));
  }

  /** `--name v` and `--name=v`: the entry whose name is selected gets the value; and an empty value
      is registered as a missing one, too, if the entry has values. */
  lemma NamedValue<S>(T: Table<S>, parents: seq<S>, prog: string, name: string, v: string, apart: bool, optopt: int)
    requires T.Valid() && |parents| == |T.entries| && CString(name) && CString(v)
    requires Proper(ConfigOf(T.entries), NameValue("", name, v, apart))
    ensures var i, token := NameEntry(T.entries, name), "--" + name + "=" + v;
      Leaves(T, parents, [prog] + (if apart then ["--" + name, v] else [token]), optopt, i, Str(v),
             EmptyValue(T.entries, i, v, if apart then v else token))
  {
    var w := NameValue("", name, v, apart);
    NamedEffects(T.entries, w);
    NamedText(name, v, apart);
    hide *;
    PartLeaves(T, parents, prog, w, optopt, NameEntry(T.entries, name), Str(v),
               EmptyValue(T.entries, NameEntry(T.entries, name), v, if apart then v else "--" + name + "=" + v));
  }

  /** `-c`, where no argument is needed: the entry is given none. */
  lemma LetterAlone<S>(T: Table<S>, parents: seq<S>, prog: string, c: char, optopt: int)
    requires T.Valid() && |parents| == |T.entries| && c != '\0'
    requires IsLetter(ConfigOf(T.entries), c) && !LetterTakes(ConfigOf(T.entries), c).RequiredArgument?
    ensures Leaves(T, parents, [prog, ['-', c]], optopt, LetterEntry(T.entries, c), Null, [])
  {
    LetterTokens(c, "", true);
    assert [prog] + [['-', c]] == [prog, ['-', c]] && [c][0] == c && [c][..0] == "" && [c][1..] == "";
    BareEffectOf(T.entries, c);
    hide Leaves, ConfigOf, BareEffects, LetterTakes, IsLetter, EntriesExist;
    PartLeaves(T, parents, prog, Flags([c]), optopt, LetterEntry(T.entries, c), Null, []);
  }

  lemma BareEffectOf(entries: seq<Entry>, c: char)
    requires IsUnknown(ConfigOf(entries), c) || IsLetter(ConfigOf(entries), c)
    ensures AllReported(ConfigOf(entries), [c]) && BareEffects(entries, [c]) == [BareEffect(entries, c)]
    ensures IsLetter(ConfigOf(entries), c) ==> !IsUnknown(ConfigOf(entries), c)
  {
    hide ConfigOf;
    assert [c][0] == c && [c][1..] == "";
    assert BareEffects(entries, "") == [];
  }

  /** `--name`, where no argument is needed. */
  lemma NameAlone<S>(T: Table<S>, parents: seq<S>, prog: string, name: string, optopt: int)
    requires T.Valid() && |parents| == |T.entries| && CString(name) && Proper(ConfigOf(T.entries), Name("", name))
    ensures Leaves(T, parents, [prog, "--" + name], optopt, NameEntry(T.entries, name), Null, [])
  {
    var i := NameEntry(T.entries, name);
    NameTokens(name, "");
    assert [prog] + ["--" + name] == [prog, "--" + name];
    NoneBefore(T.entries, [Give(i, Null)]);
    hide Leaves, ConfigOf, BareEffects, LongMatch, LongOptions, Proper, EntriesExist, NameEntry;
    PartLeaves(T, parents, prog, Name("", name), optopt, i, Null, []);
  }

  // ----- what is registered -----

  /** An unknown letter is registered under its own code. */
  lemma UnknownLetter<S>(T: Table<S>, parents: seq<S>, prog: string, c: char, optopt: int)
    requires T.Valid() && |parents| == |T.entries| && c != '\0' && IsUnknown(ConfigOf(T.entries), c)
    ensures LeavesOnly(T, parents, [prog, ['-', c]], optopt, Record(c as int, End, Null))
  {
    LetterTokens(c, "", true);
    assert [prog] + [['-', c]] == [prog, ['-', c]] && [c][0] == c && [c][..0] == "";
    BareEffectOf(T.entries, c);
    hide LeavesOnly, ConfigOf, BareEffects, LetterTakes, IsUnknown, EntriesExist;
    PartLeavesOnly(T, parents, prog, Flags([c]), optopt, Record(c as int, End, Null));
  }

  /** A name of no option, or of several; a missing argument; and an argument that is not wanted,
      which is registered as a missing one: each quotes its token. */
  lemma WrongPart<S>(T: Table<S>, parents: seq<S>, prog: string, w: Written, optopt: int)
    requires T.Valid() && |parents| == |T.entries| && Proper(ConfigOf(T.entries), w) && CStrings(Tokens(w))
    requires w.WrongName? || w.WrongNameValue? || w.UnwantedValue? || w.LetterLacks? || w.NameLacks?
    requires w.before == ""
    ensures LeavesOnly(T, parents, [prog] + Tokens(w), optopt,
                       Record(if w.WrongName? || w.WrongNameValue? then 4 else 5, End, Str(Tokens(w)[0])))
  {
    var r := Record(if w.WrongName? || w.WrongNameValue? then 4 else 5, End, Str(Tokens(w)[0]));
    NoneBefore(T.entries, [Complain(r)]);
    hide LeavesOnly, Proper, ConfigOf, BareEffects, Tokens, EntriesExist, CStrings;
    PartLeavesOnly(T, parents, prog, w, optopt, r);
  }

  // ----- four spellings -----

  lemma AfterOne<S>(T: Table<S>, parents: seq<S>, i: nat, a: Arg, r: seq<Record>, st: State<S>, st': State<S>)
    requires |parents| == |T.entries| && i < |T.entries|
    requires After(T, parents, i, a, r, st) && After(T, parents, i, a, r, st')
    ensures st == st'
  {
    hide CheckErrors;
    assert st.parents == st'.parents;
  }

  /** There is only one such table. */
  lemma SameTable<S>(T: Table<S>, parents: seq<S>, argv: seq<string>, argv': seq<string>, optopt: int, i: nat, a: Arg,
                     r: seq<Record>)
    requires |parents| == |T.entries| && i < |T.entries| && argv != [] && argv' != []
    requires Leaves(T, parents, argv, optopt, i, a, r) && Leaves(T, parents, argv', optopt, i, a, r)
    ensures forall e :: e in Scanned(T, argv, optopt).events ==> Understood(T.entries, e)
    ensures forall e :: e in Scanned(T, argv', optopt).events ==> Understood(T.entries, e)
    ensures Parsed(T, parents, argv, optopt) == Parsed(T, parents, argv', optopt)
  {
    hide Parsed, After, Scanned, Understood;
    AfterOne(T, parents, i, a, r, Parsed(T, parents, argv, optopt), Parsed(T, parents, argv', optopt));
  }

  /** The four ways to write a value for an entry. */
  function Spellings(c: char, name: string, v: string): (s: seq<Written>)
    ensures |s| == 4
  {
    [Letter("", c, v, true), Letter("", c, v, false), NameValue("", name, v, true), NameValue("", name, v, false)]
  }

  lemma SpellingsText(c: char, name: string, v: string)
    ensures var s := Spellings(c, name, v);
      && Tokens(s[0]) == [['-', c], v] && Tokens(s[1]) == [['-', c] + v]
      && Tokens(s[2]) == ["--" + name, v] && Tokens(s[3]) == ["--" + name + "=" + v]
  {
    LetterTokens(c, v, true);
    LetterTokens(c, v, false);
    NameTokens(name, v);
  }

  lemma LetterSpellingsProper(entries: seq<Entry>, c: char, v: string)
    requires PlainLetters(entries) && IsLetter(ConfigOf(entries), c) && v != ""
    ensures var e := entries[LetterEntry(entries, c)];
      && (Proper(ConfigOf(entries), Letter("", c, v, true)) <==> e.hasValue != e.hasOptValue)
      && (Proper(ConfigOf(entries), Letter("", c, v, false)) <==> e.hasValue || e.hasOptValue)
  {
    LetterHasEntry(entries, c);
    SpellingsAgree(entries, c);
    hide StrChr, FindShort, ShortLetters, ShortOptions, ArgumentAt, LongOptions;
    var cfg := ConfigOf(entries);
    assert LetterTakes(cfg, c) == ArgumentAt(ShortOptions(entries), StrChr(ShortOptions(entries), c));
  }

  lemma NameSpellingsProper(entries: seq<Entry>, name: string, v: string)
    requires '=' !in name && name != "" && LongMatch(LongOptions(entries, 0), name).Found?
    ensures var e := entries[NameEntry(entries, name)];
      && (Proper(ConfigOf(entries), NameValue("", name, v, true)) <==> e.hasValue && !e.hasOptValue)
      && (Proper(ConfigOf(entries), NameValue("", name, v, false)) <==> e.hasValue || e.hasOptValue)
  {
    NameTakes(entries, name);
    hide LongMatch, LongOptions, NameEntry;
  }

  lemma NameTakes(entries: seq<Entry>, name: string)
    requires LongMatch(LongOptions(entries, 0), name).Found?
    ensures LongOptions(entries, 0)[LongMatch(LongOptions(entries, 0), name).index].hasArg
      == HasArgOf(entries[NameEntry(entries, name)])
  {
    hide LongMatch, LongOptions, IsLongTable, NamesOf, HasArgOf;
    LongOptionsTable(entries);
    var i, k := OwnerAt(entries, LongOptions(entries, 0), LongMatch(LongOptions(entries, 0), name).index);
  }

  /** One of the four. */
  lemma SpelledOut<S>(T: Table<S>, parents: seq<S>, prog: string, c: char, name: string, v: string, m: nat, optopt: int)
    requires T.Valid() && |parents| == |T.entries| && OneText(c, v) && CString(name) && m < 4
    requires IsLetter(ConfigOf(T.entries), c) && v != "" && LongMatch(LongOptions(T.entries, 0), name).Found?
    requires LetterEntry(T.entries, c) == NameEntry(T.entries, name)
    requires Proper(ConfigOf(T.entries), Spellings(c, name, v)[m])
    ensures Leaves(T, parents, [prog] + Tokens(Spellings(c, name, v)[m]), optopt,
                   NameEntry(T.entries, name), Str(v), [])
  {
    SpellingsText(c, name, v);
    hide ConfigOf, Leaves, LongMatch, LongOptions, Tokens, IsLetter, Proper, NameEntry, LetterEntry;
    if m < 2 {
      LetterValue(T, parents, prog, c, v, m == 0, optopt);
    } else {
      NamedValue(T, parents, prog, name, v, m == 2, optopt);
    }
  }

  /** Every spelling leaves the table in which the entry was given the value; and all four do, if and
      only if the entry has values that are not optional. */
  lemma FourSpellings<S>(T: Table<S>, parents: seq<S>, prog: string, c: char, name: string, v: string, optopt: int)
    requires T.Valid() && |parents| == |T.entries| && OneText(c, v) && CString(name)
    requires PlainLetters(T.entries) && IsLetter(ConfigOf(T.entries), c) && v != ""
    requires '=' !in name && name != "" && LongMatch(LongOptions(T.entries, 0), name).Found?
    requires LetterEntry(T.entries, c) == NameEntry(T.entries, name)
    ensures var e, s := T.entries[NameEntry(T.entries, name)], Spellings(c, name, v);
      && ((forall m :: 0 <= m < 4 ==> Proper(ConfigOf(T.entries), s[m])) <==> e.hasValue && !e.hasOptValue)
      && forall m :: 0 <= m < 4 && Proper(ConfigOf(T.entries), s[m]) ==>
           Leaves(T, parents, [prog] + Tokens(s[m]), optopt, NameEntry(T.entries, name), Str(v), [])
  {
    hide *;
    var s := Spellings(c, name, v);
    LetterSpellingsProper(T.entries, c, v);
    NameSpellingsProper(T.entries, name, v);
    AllProper(T.entries, c, name, v);
    forall m | 0 <= m < 4 && Proper(ConfigOf(T.entries), s[m])
      ensures Leaves(T, parents, [prog] + Tokens(s[m]), optopt, NameEntry(T.entries, name), Str(v), [])
    {
      SpelledOut(T, parents, prog, c, name, v, m, optopt);
    }
  }

  lemma AllProper(entries: seq<Entry>, c: char, name: string, v: string)
    ensures var s := Spellings(c, name, v);
      (forall m :: 0 <= m < 4 ==> Proper(ConfigOf(entries), s[m])) <==>
        && Proper(ConfigOf(entries), Letter("", c, v, true)) && Proper(ConfigOf(entries), Letter("", c, v, false))
        && Proper(ConfigOf(entries), NameValue("", name, v, true))
        && Proper(ConfigOf(entries), NameValue("", name, v, false))
  {
    hide Proper, ConfigOf;
    var s := Spellings(c, name, v);
    assert s[0] == Letter("", c, v, true) && s[1] == Letter("", c, v, false);
    assert s[2] == NameValue("", name, v, true) && s[3] == NameValue("", name, v, false);
  }

  // ----- the final checks -----

  /** The error of a check has its owner, and no argument. */
  predicate FromCheck<S>(T: Table<S>, parents: seq<S>, from: nat, r: Record)
    requires |parents| == |T.entries|
  {
    && r.owner.Parent? && from <= r.owner.index < |parents| && r.error != 0 && r.argval == Null
    && r.error == T.check(r.owner.index, parents[r.owner.index])
  }

  predicate Earlier(a: Owner, b: Owner) {
    a.Parent? && b.Parent? && a.index < b.index
  }

  predicate InTableOrder(r: seq<Record>) {
    forall k, m :: 0 <= k < m < |r| ==> Earlier(r[k].owner, r[m].owner)
  }

  /** The errors the checks find: one for each entry whose state is not accepted, with its owner, in
      table order. */
  lemma {:induction false} ChecksExact<S>(T: Table<S>, parents: seq<S>, from: nat)
    requires |parents| == |T.entries| && from <= |parents|
    ensures forall r :: r in CheckErrors(T, parents, from) ==> FromCheck(T, parents, from, r)
    ensures InTableOrder(CheckErrors(T, parents, from))
    ensures forall i :: from <= i < |parents| && T.check(i, parents[i]) != 0 ==>
      Record(T.check(i, parents[i]), Parent(i), Null) in CheckErrors(T, parents, from)
    decreases |parents| - from
  {
    if from < |parents| {
      ChecksExact(T, parents, from + 1);
      var later := CheckErrors(T, parents, from + 1);
      var error := T.check(from, parents[from]);
      var first := Record(error, Parent(from), Null);
      assert CheckErrors(T, parents, from) == (if error != 0 then [first] else []) + later;
      hide CheckErrors;
      if error != 0 {
        FirstCheck(T, parents, from, first, later);
      } else {
        assert [] + later == later;
      }
    }
  }

  lemma FirstCheck<S>(T: Table<S>, parents: seq<S>, from: nat, first: Record, later: seq<Record>)
    requires |parents| == |T.entries| && from < |parents| && FromCheck(T, parents, from, first)
    requires first.owner.index == from && forall r :: r in later ==> FromCheck(T, parents, from + 1, r)
    requires InTableOrder(later)
    ensures forall r :: r in [first] + later ==> FromCheck(T, parents, from, r)
    ensures InTableOrder([first] + later) && ([first] + later)[0] == first
    ensures forall r :: r in later ==> r in [first] + later
  {
    var all := [first] + later;
    forall k, m | 0 <= k < m < |all| ensures Earlier(all[k].owner, all[m].owner) {
      assert all[m] == later[m - 1] && later[m - 1] in later;
    }
  }

  /** The checks are made if and only if everything before them went without an error: whatever the
      line does to the table, it does it without them, too. */
  lemma ChecksLast<S>(T: Table<S>, parents: seq<S>, argv: seq<string>, optopt: int)
    requires |parents| == |T.entries|
    requires argv != [] ==> forall e :: e in Scanned(T, argv, optopt).events ==> Understood(T.entries, e)
    ensures var T0 := T.(check := (i: nat, s: S) => 0);
      var st, st0 := Parsed(T, parents, argv, optopt), Parsed(T0, parents, argv, optopt);
      && st.parents == st0.parents
      && st.log == if st0.log == [] then CheckErrors(T, st.parents, 0) else st0.log
  {
    var T0 := T.(check := (i: nat, s: S) => 0);
    ResetUnchecked(T, T0, parents, 0);
    var cleared := Cleared(T, parents);
    if argv == [] {
      NoCheckErrors(T0, cleared.parents, 0);
    } else {
      hide Run, ApplyEvents, AssignUntagged, Reset, Understood, CheckErrors, ConfigOf;
      var o := Scanned(T, argv, optopt);
      AppliedUnchecked(T, T0, cleared, o.events);
      var tagged := ApplyEvents(T, cleared, o.events);
      AssignedUnchecked(T, T0, tagged, 0, o.nonopts + o.rest, None);
      NoCheckErrors(T0, AssignUntagged(T, tagged, 0, o.nonopts + o.rest, None).parents, 0);
    }
  }

  lemma {:induction false} NoCheckErrors<S>(T: Table<S>, parents: seq<S>, from: nat)
    requires |parents| == |T.entries| && from <= |parents| && forall i: nat, s :: T.check(i, s) == 0
    ensures CheckErrors(T, parents, from) == []
    decreases |parents| - from
  {
    if from < |parents| {
      NoCheckErrors(T, parents, from + 1);
    }
  }

  lemma {:induction false} ResetUnchecked<S>(T: Table<S>, T0: Table<S>, parents: seq<S>, from: nat)
    requires |parents| == |T.entries| && T0 == T.(check := T0.check) && from <= |parents|
    ensures Reset(T, parents, from) == Reset(T0, parents, from)
    decreases |parents| - from
  {
    if from < |parents| {
      ResetUnchecked(T, T0, parents, from + 1);
    }
  }

  lemma {:induction false} AppliedUnchecked<S>(T: Table<S>, T0: Table<S>, st: State<S>, es: seq<Event>)
    requires |st.parents| == |T.entries| && T0 == T.(check := T0.check)
    requires forall e :: e in es ==> Understood(T.entries, e)
    ensures ApplyEvents(T, st, es) == ApplyEvents(T0, st, es)
    decreases |es|
  {
    hide Understood;
    if es != [] {
      AppliedUnchecked(T, T0, ApplyEvent(T, st, es[0]), es[1..]);
    }
  }

  lemma {:induction false} AssignedUnchecked<S>(T: Table<S>, T0: Table<S>, st: State<S>, tab: nat, args: seq<string>,
                                                tentative: Option<Record>)
    requires |st.parents| == |T.entries| && T0 == T.(check := T0.check)
    requires tab <= |T.entries| && (tentative.Some? ==> args != [])
    ensures AssignUntagged(T, st, tab, args, tentative) == AssignUntagged(T0, st, tab, args, tentative)
    decreases |args| + |T.entries| - tab
  {
    if tab == |T.entries| || args == [] {
    } else if !T.entries[tab].Untagged() {
      AssignedUnchecked(T, T0, st, tab + 1, args, tentative);
    } else {
      var (s, error) := T.scan(tab, st.parents[tab], Str(args[0]));
      var st' := st.(parents := st.parents[tab := s]);
      if error == 0 {
        AssignedUnchecked(T, T0, st', tab, args[1..], None);
      } else {
        AssignedUnchecked(T, T0, st', tab + 1, args, Some(Record(error, Parent(tab), Str(args[0]))));
      }
    }
  }
}
