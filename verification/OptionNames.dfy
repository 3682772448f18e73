/** Which names reach which entry. */
module OptionNames {
  import opened Options
  import opened ArgTables
  import opened LongTable
  import opened LongNames
  import opened WrittenOptions
  import opened Wrappers

  /** Name `k` of entry `i` is the one that is selected: it is the first with exactly this name, behind
      at most one longer one, or the only longer one. */
  ghost predicate SelectsName(entries: seq<Entry>, key: string, i: nat, k: nat)
    requires i < |entries| && k < |NamesOf(entries[i])|
  {
    Selects(LongOptions(entries, 0), key, Offset(entries, i) + k)
  }

  ghost predicate SelectsEntry(entries: seq<Entry>, key: string, i: nat)
    requires i < |entries|
  {
    exists k: nat :: k < |NamesOf(entries[i])| && SelectsName(entries, key, i, k)
  }

  /** The argument that an entry's long options take is there, or is not there, as it should be. */
  predicate ArgumentFits(e: Entry, given: bool, more: bool) {
    if e.hasOptValue then true else if e.hasValue then given || more else !given
  }

  lemma SelectedIndex(entries: seq<Entry>, key: string, i: nat)
    requires i < |entries|
    ensures var m, longs := LongMatch(LongOptions(entries, 0), key), LongOptions(entries, 0);
      SelectsEntry(entries, key, i) <==> m.Found? && longs[m.index].val == i
  {
    var longs := LongOptions(entries, 0);
    var m := LongMatch(longs, key);
    hide *;
    if m.Found? && longs[m.index].val == i {
      SelectedByMatch(entries, key, i);
    }
    if SelectsEntry(entries, key, i) {
      MatchBySelected(entries, key, i);
    }
  }

  lemma SelectedByMatch(entries: seq<Entry>, key: string, i: nat)
    requires i < |entries|
    requires var m := LongMatch(LongOptions(entries, 0), key);
      m.Found? && LongOptions(entries, 0)[m.index].val == i
    ensures SelectsEntry(entries, key, i)
  {
    hide LongMatch, Selects, LongOptions, IsLongTable, NamesOf, HasArgOf, SelectsName, Offset;
    LongOptionsTable(entries);
    var m := LongMatch(LongOptions(entries, 0), key);
    var i', k := OwnerAt(entries, LongOptions(entries, 0), m.index);
    FoundIff(LongOptions(entries, 0), key, m.index);
    NameAt(entries, key, i, k);
  }

  lemma MatchBySelected(entries: seq<Entry>, key: string, i: nat)
    requires i < |entries| && SelectsEntry(entries, key, i)
    ensures var m := LongMatch(LongOptions(entries, 0), key);
      m.Found? && LongOptions(entries, 0)[m.index].val == i
  {
    hide LongMatch, Selects, LongOptions, IsLongTable, NamesOf, HasArgOf, SelectsName, Offset;
    var k: nat :| k < |NamesOf(entries[i])| && SelectsName(entries, key, i, k);
    LongOptionsTable(entries);
    NameAt(entries, key, i, k);
    FoundIff(LongOptions(entries, 0), key, Offset(entries, i) + k);
    ValueAt(entries, LongOptions(entries, 0), i, k);
  }

  lemma NameAt(entries: seq<Entry>, key: string, i: nat, k: nat)
    requires i < |entries| && k < |NamesOf(entries[i])|
    ensures SelectsName(entries, key, i, k) <==> Selects(LongOptions(entries, 0), key, Offset(entries, i) + k)
  {
    hide Selects, LongOptions, Offset, NamesOf;
  }

  lemma ValueAt(entries: seq<Entry>, longs: seq<LongOption>, i: nat, k: nat)
    requires i < |entries| && k < |NamesOf(entries[i])| && IsLongTable(entries, longs)
    ensures Offset(entries, i) + k < |longs| && longs[Offset(entries, i) + k].val == i
  {
    hide NamesOf, HasArgOf;
    PlacedAt(entries, longs, i, k);
  }

  /** `--body` is handed to entry `i` if and only if what stands before any `=` selects one of its
      names, and there is an argument where one is needed and none where none is taken. */
  lemma NameReachesEntryIff(entries: seq<Entry>, i: nat, body: string, rest: seq<string>, mem: Memory)
    requires i < |entries| && body != ""
    ensures var e := OptionStep(ConfigOf(entries), "-" + body, ["--" + body] + rest, mem).event;
      e.code == 0 && e.mem.getoptval == i
      <==> SelectsEntry(entries, Key(body), i) && ArgumentFits(entries[i], '=' in body, rest != [])
  {
    var cfg, toks := ConfigOf(entries), ["--" + body] + rest;
    var longs := LongOptions(entries, 0);
    var m := LongMatch(longs, Key(body));
    assert |"-" + body| != |toks[0]| && ("-" + body)[1..] == body;
    assert OptionStep(cfg, "-" + body, toks, mem) == LongStep(cfg, body, toks, mem) by {
      hide LongStep;
    }
    hide OptionStep, LongStep, LongMatch, LongOptions, SelectsEntry, Key, IsLongTable, NamesOf;
    LongStepReaches(cfg, body, toks, mem, i);
    SelectedIndex(entries, Key(body), i);
    if m.Found? {
      LongOptionsTable(entries);
      var i', k := OwnerAt(entries, longs, m.index);
    }
  }

  lemma LongStepReaches(cfg: Config, body: string, toks: seq<string>, mem: Memory, i: nat)
    requires toks != []
    ensures var e, m := LongStep(cfg, body, toks, mem).event, LongMatch(cfg.longs, Key(body));
      e.code == 0 && e.mem.getoptval == i
      <==> && m.Found? && cfg.longs[m.index].val == i
           && match cfg.longs[m.index].hasArg
              case NoArgument => '=' !in body
              case RequiredArgument => '=' in body || |toks| > 1
              case OptionalArgument => true
  {
    hide LongMatch, Key;
  }

  /** The complete name of an entry is handed to it if and only if it is the first to have this name,
      and no two longer names stand before it. */
  lemma OwnNameIff(entries: seq<Entry>, i: nat, k: nat)
    requires i < |entries| && k < |NamesOf(entries[i])|
    ensures var longs, p, name := LongOptions(entries, 0), Offset(entries, i) + k, NamesOf(entries[i])[k];
      p < |longs| && longs[p].name == name &&
      (SelectsName(entries, name, i, k)
       <==> && (forall q :: 0 <= q < p ==> longs[q].name != name)
            && (forall a, b :: 0 <= a < b < p && name < longs[a].name ==> !(name < longs[b].name)))
  {
    LongOptionsTable(entries);
    hide LongOptions, IsLongTable, Offset, NamesOf, SelectsName, HasArgOf;
    PlacedAt(entries, LongOptions(entries, 0), i, k);
    NameAt(entries, NamesOf(entries[i])[k], i, k);
  }
}
