/** The table of long options: how `alloc_longoptions` builds it in two passes that do not agree on
    every string, and which entry a name on the command line selects. */
module LongNames {
  import opened Options
  import opened ArgTables
  import opened LongTable
  import opened Wrappers

  // ----- one string of comma-separated names -----

  function Commas(s: string): nat {
    if s == "" then 0 else (if s[0] == ',' then 1 else 0) + Commas(s[1..])
  }

  /** The first pass: one name, and one more for each comma after the first character. */
  method CountNames(s: string) returns (n: nat)
    requires s != ""
    ensures n == 1 + Commas(s[1..])
  {
    n := 0;
    var longopts: int := 0;
    while longopts >= 0
      invariant -1 <= longopts < |s|
      invariant n + (if longopts >= 0 then 1 + Commas(s[longopts + 1..]) else 0) == 1 + Commas(s[1..])
      decreases if longopts >= 0 then |s| - longopts else 0
    {
      n := n + 1;
      var comma := StrChr(s[longopts + 1..], ',');
      CommasAfter(s[longopts + 1..]);
      assert comma >= 0 ==> s[longopts + 1..][comma + 1..] == s[longopts + 1 + comma + 1..];
      longopts := if comma < 0 then -1 else longopts + 1 + comma;
    }
  }

  lemma {:induction false} CommasAfter(s: string)
    ensures var comma := StrChr(s, ',');
      Commas(s) == if comma < 0 then 0 else 1 + Commas(s[comma + 1..])
  {
    if s != "" && s[0] != ',' {
      CommasAfter(s[1..]);
      var comma := StrChr(s[1..], ',');
      assert comma >= 0 ==> s[1..][comma + 1..] == s[comma + 2..];
    }
  }

  /** Copies one name; the result is where it ends. */
  method CopyName(s: string, storestart: nat, before: string) returns (longopts: nat, store: string)
    requires storestart < |s|
    ensures storestart <= longopts <= |s| && ',' !in s[storestart..longopts] && (longopts < |s| ==> s[longopts] == ',')
    ensures store == before + (s[storestart..longopts] + "\0")
  {
    longopts, store := storestart, before;
    while longopts < |s| && s[longopts] != ','
      invariant storestart <= longopts <= |s| && ',' !in s[storestart..longopts]
      invariant store == before + s[storestart..longopts]
    {
      store := store + [s[longopts]];
      longopts := longopts + 1;
    }
    store := store + "\0";
  }

  /** The second pass: the names, and the bytes it copies, each name with its terminator. */
  method CopyNames(s: string) returns (names: seq<string>, store: string)
    ensures names == Names(s) && store == Stored(names)
  {
    hide *;
    names, store := [], "";
    var longopts := 0;
    NothingNamed();
    assert s[0..] == s && [] + Names(s) == Names(s);
    while longopts < |s|
      invariant longopts <= |s| && store == Stored(names)
      invariant names + Names(s[longopts..]) == Names(s)
    {
      var storestart := longopts;
      longopts, store := CopyName(s, storestart, store);
      StoredSnoc(names, s[storestart..longopts]);
      NextName(s, names, storestart, longopts);
      names := names + [s[storestart..longopts]];
      if longopts < |s| {
        longopts := longopts + 1;
      }
    }
    assert s[longopts..] == "" && names + [] == names;
  }

  lemma NothingNamed()
    ensures Names("") == [] && Stored([]) == ""
  {
  }

  lemma NextName(s: string, names: seq<string>, start: nat, end: nat)
    requires start <= end <= |s| && start < |s| && ',' !in s[start..end] && (end < |s| ==> s[end] == ',')
    ensures names + Names(s[start..]) == names + [s[start..end]] + Names(s[if end < |s| then end + 1 else end..])
  {
    hide StrChr, Names;
    var rest := s[start..];
    assert rest[..end - start] == s[start..end];
    NameEnds(rest, end - start);
    if end < |s| {
      assert rest[end - start + 1..] == s[end + 1..];
    } else {
      NothingNamed();
      assert s[end..] == "";
    }
  }

  function Stored(names: seq<string>): string {
    if names == [] then "" else names[0] + "\0" + Stored(names[1..])
  }

  lemma {:induction false} StoredSnoc(names: seq<string>, name: string)
    ensures Stored(names + [name]) == Stored(names) + (name + "\0")
  {
    if names == [] {
      assert [name][1..] == [];
      assert Stored([]) == "";
    } else {
      assert (names + [name])[1..] == names[1..] + [name];
      StoredSnoc(names[1..], name);
    }
  }

  lemma NameEnds(s: string, n: nat)
    requires n <= |s| && ',' !in s[..n] && (n < |s| ==> s[n] == ',') && s != ""
    ensures Names(s) == [s[..n]] + if n < |s| then Names(s[n + 1..]) else []
  {
    hide StrChr, Names;
    FirstComma(s, n);
    NamesFirst(s);
    if n == |s| {
      assert s[..n] == s;
    }
  }

  lemma NamesFirst(s: string)
    requires s != ""
    ensures var comma := StrChr(s, ',');
      Names(s) == if comma < 0 then [s] + [] else [s[..comma]] + Names(s[comma + 1..])
  {
    hide StrChr;
  }

  lemma {:induction false} FirstComma(s: string, n: nat)
    requires n <= |s| && ',' !in s[..n] && (n < |s| ==> s[n] == ',')
    ensures StrChr(s, ',') == if n < |s| then n else -1
  {
    if n > 0 {
      assert s[0] == s[..n][0];
      assert s[1..][..n - 1] == s[..n][1..];
      FirstComma(s[1..], n - 1);
    }
  }

  predicate EndsWithComma(s: string) {
    s != "" && s[|s| - 1] == ','
  }

  /** The second pass finds a name more than the first if the string starts with a comma, and one
      less if it ends with one. */
  lemma {:induction false} PassesDiffer(s: string)
    requires s != ""
    ensures |Names(s)| + (if EndsWithComma(s) then 1 else 0) == 1 + Commas(s[1..]) + (if s[0] == ',' then 1 else 0)
    decreases |s|
  {
    NamesCount(s);
  }

  lemma {:induction false} NamesCount(s: string)
    ensures |Names(s)| == Commas(s) + if s == "" || EndsWithComma(s) then 0 else 1
    decreases |s|
  {
    if s != "" {
      CommasAfter(s);
      var comma := StrChr(s, ',');
      if comma >= 0 {
        NamesCount(s[comma + 1..]);
        if s[comma + 1..] != "" {
          assert s[comma + 1..][|s[comma + 1..]| - 1] == s[|s| - 1];
        }
      } else if EndsWithComma(s) {
        assert false;
      }
    }
  }

  /** The copies fit into the bytes reserved for them, whatever the string. */
  lemma {:induction false} CopiesFit(s: string)
    ensures |Stored(Names(s))| == |s| + if s == "" || EndsWithComma(s) then 0 else 1
    decreases |s|
  {
    hide StrChr;
    if s != "" {
      var comma := StrChr(s, ',');
      if comma < 0 {
        assert [s][1..] == [];
        assert Stored([]) == "";
        if EndsWithComma(s) {
          assert false;
        }
      } else {
        var rest := s[comma + 1..];
        CopiesFit(rest);
        assert ([s[..comma]] + Names(rest))[1..] == Names(rest);
        if rest != "" {
          assert rest[|rest| - 1] == s[|s| - 1];
        }
      }
    }
  }

  // ----- names and their text -----

  /** The text of a list of names. */
  function Join(names: seq<string>): string {
    if names == [] then "" else if |names| == 1 then names[0] else names[0] + "," + Join(names[1..])
  }

  /** A list of names, written with commas between them, is read back. */
  lemma {:induction false} NamesOfJoin(names: seq<string>)
    requires forall name :: name in names ==> ',' !in name
    requires names != [] ==> names[|names| - 1] != ""
    ensures Names(Join(names)) == names
  {
    hide StrChr, Names;
    if names == [] {
      NothingNamed();
    } else {
      var s, head := Join(names), names[0];
      assert head in names;
      assert s[..|head|] == head;
      NameEnds(s, |head|);
      if |names| > 1 {
        NamesOfJoin(names[1..]);
        assert s[|head| + 1..] == Join(names[1..]);
      }
    }
  }

  // ----- the table -----

  /** What `alloc_longoptions` computes: the number of entries it allocates, and those it writes,
      not counting the one that ends the list.  `end` is what the terminator of the table has for
      long options: the first pass counts that too. */
  method AllocLongOptions(entries: seq<Entry>, end: Option<string>) returns (room: nat, options: seq<LongOption>)
    requires forall e :: e in entries ==> e.longopts != Some("")
    requires end != Some("")
    ensures room == 1 + Counted(entries) + CountedIn(end)
    ensures options == LongOptions(entries, 0) && IsLongTable(entries, options)
  {
    LongOptionsTable(entries);
    hide IsLongTable;
    hide Commas, Counted, Names, Named;
    room := 1;
    NothingCounted();
    var tabindex := 0;
    assert entries[..0] == [];
    while tabindex < |entries|
      invariant tabindex <= |entries| && room == 1 + Counted(entries[..tabindex])
    {
      assert entries[tabindex] in entries;
      if entries[tabindex].longopts.Some? {
        var n := CountNames(entries[tabindex].longopts.value);
        room := room + n;
      }
      CountedSnoc(entries[..tabindex], entries[tabindex]);
      assert entries[..tabindex + 1] == entries[..tabindex] + [entries[tabindex]];
      tabindex := tabindex + 1;
    }
    assert entries[..|entries|] == entries;
    if end.Some? {
      var n := CountNames(end.value);
      room := room + n;
    }
    options, tabindex := [], 0;
    while tabindex < |entries|
      invariant tabindex <= |entries| && options + LongOptions(entries, tabindex) == LongOptions(entries, 0)
    {
      var e := entries[tabindex];
      if e.longopts.Some? {
        var names, _ := CopyNames(e.longopts.value);
        options := options + Named(names, HasArgOf(e), tabindex);
      }
      tabindex := tabindex + 1;
    }
  }

  lemma NothingCounted()
    ensures Counted([]) == 0
  {
  }

  function CountedIn(longopts: Option<string>): nat {
    if longopts.None? || longopts.value == "" then 0 else 1 + Commas(longopts.value[1..])
  }

  function Counted(entries: seq<Entry>): nat {
    if entries == [] then 0 else CountedIn(entries[0].longopts) + Counted(entries[1..])
  }

  lemma {:induction false} CountedSnoc(entries: seq<Entry>, e: Entry)
    ensures Counted(entries + [e]) == Counted(entries) + CountedIn(e.longopts)
  {
    if entries == [] {
      assert [e][1..] == [];
      assert Counted([]) == 0;
    } else {
      assert (entries + [e])[1..] == entries[1..] + [e];
      CountedSnoc(entries[1..], e);
    }
  }

  /** How many entries' names start with a comma, and how many end with one. */
  function Leading(entries: seq<Entry>): nat {
    if entries == [] then 0
    else (if entries[0].longopts.Some? && entries[0].longopts.value != ""
             && entries[0].longopts.value[0] == ',' then 1 else 0)
         + Leading(entries[1..])
  }

  function Trailing(entries: seq<Entry>): nat {
    if entries == [] then 0
    else
      (if entries[0].longopts.Some? && EndsWithComma(entries[0].longopts.value) then 1 else 0)
      + Trailing(entries[1..])
  }

  lemma {:induction false} Written(entries: seq<Entry>, from: nat)
    requires from <= |entries| && forall e :: e in entries ==> e.longopts != Some("")
    ensures |LongOptions(entries, from)| + Trailing(entries[from..])
      == Counted(entries[from..]) + Leading(entries[from..])
    decreases |entries| - from
  {
    if from < |entries| {
      assert entries[from] in entries;
      assert entries[from..][1..] == entries[from + 1..];
      Written(entries, from + 1);
      if entries[from].longopts.Some? {
        PassesDiffer(entries[from].longopts.value);
      }
    }
  }

  /** The list, with the entry that ends it, fits into what was allocated if and only if no more
      strings start with a comma than end with one (or are counted for the table's terminator). */
  lemma RoomIff(entries: seq<Entry>, end: Option<string>)
    requires forall e :: e in entries ==> e.longopts != Some("")
    ensures |LongOptions(entries, 0)| + 1 <= 1 + Counted(entries) + CountedIn(end)
      <==> Leading(entries) <= Trailing(entries) + CountedIn(end)
  {
    assert entries[0..] == entries;
    Written(entries, 0);
  }

  /** `",a"` is counted once and copied twice. */
  lemma LeadingCommaOverruns(hasValue: bool)
    ensures var entries := [Entry(None, Some(",a"), hasValue, false, true)];
      && 1 + Counted(entries) == 2
      && LongOptions(entries, 0)
         == [LongOption("", HasArgOf(entries[0]), 0), LongOption("a", HasArgOf(entries[0]), 0)]
  {
    var e := Entry(None, Some(",a"), hasValue, false, true);
    assert ",a"[1..] == "a" && "a"[1..] == "" && ",a"[..0] == "";
    assert StrChr(",a", ',') == 0 && StrChr("a", ',') == -1;
    assert Names("a") == ["a"];
    assert Names(",a") == ["", "a"];
    assert [e][1..] == [];
    assert LongOptions([e], 1) == [];
    assert Named(["a"], HasArgOf(e), 0) == [LongOption("a", HasArgOf(e), 0)] by {
      assert ["a"][1..] == [];
      assert Named([], HasArgOf(e), 0) == [];
    }
    assert ["", "a"][1..] == ["a"];
  }

  // ----- which entry a name selects -----

  /** Entries `i` and `j` have longer names, and nothing up to `j` has the name itself. */
  predicate TwoLonger(longs: seq<LongOption>, key: string, i: int, j: int) {
    && 0 <= i < j < |longs| && key < longs[i].name && key < longs[j].name
    && forall k :: 0 <= k <= j ==> longs[k].name != key
  }

  lemma {:induction false} AbbreviatedPair(longs: seq<LongOption>, key: string, n: nat)
    requires n <= |longs| && |Abbreviated(longs, key, n)| >= 2
    ensures var r := Abbreviated(longs, key, n); r[0] < r[1] < n && key < longs[r[0]].name && key < longs[r[1]].name
  {
    var r := Abbreviated(longs, key, n - 1);
    if |r| >= 2 {
      AbbreviatedPair(longs, key, n - 1);
    } else {
      assert key < longs[n - 1].name && |r| == 1;
      assert r[0] in r;
    }
  }

  lemma {:induction false} AbbreviatedMany(longs: seq<LongOption>, key: string, n: nat, i: nat, j: nat)
    requires n <= |longs| && i < j < n && key < longs[i].name && key < longs[j].name
    ensures |Abbreviated(longs, key, n)| >= 2
  {
    var r := Abbreviated(longs, key, n - 1);
    if j < n - 1 {
      AbbreviatedMany(longs, key, n - 1, i, j);
    } else {
      assert i in r;
    }
  }

  /** A name is called ambiguous if and only if two longer names come before any entry that has
      exactly this name -- even if there is such an entry. */
  lemma AmbiguousIff(longs: seq<LongOption>, key: string)
    ensures LongMatch(longs, key) == Ambiguous <==> exists i, j :: TwoLonger(longs, key, i, j)
  {
    var e := FirstExact(longs, key);
    if LongMatch(longs, key) == Ambiguous {
      AbbreviatedPair(longs, key, e);
      var r := Abbreviated(longs, key, e);
      assert TwoLonger(longs, key, r[0], r[1]);
    }
    if i, j :| TwoLonger(longs, key, i, j) {
      assert forall k :: 0 <= k <= j ==> longs[k].name != key;
      assert e == |longs| || longs[e].name == key;
      AbbreviatedMany(longs, key, e, i, j);
    }
  }

  /** The name of an option selects it, wherever it stands, if no other name extends it. */
  lemma ExactSelected(longs: seq<LongOption>, e: nat)
    requires e < |longs| && forall k :: 0 <= k < e ==> longs[k].name != longs[e].name
    ensures LongMatch(longs, longs[e].name) == Found(e)
      <==> !exists i, j :: TwoLonger(longs, longs[e].name, i, j) && j < e
  {
    var key := longs[e].name;
    assert FirstExact(longs, key) == e;
    AmbiguousIff(longs, key);
    if i, j :| TwoLonger(longs, key, i, j) {
      assert !(e <= j);
    }
  }

  /** `--foo` is refused as ambiguous in a table that has `foo`, after `foobar` and `foobaz`. */
  lemma ExactCanBeAmbiguous(a: HasArg)
    ensures var longs := [LongOption("foobar", a, 0), LongOption("foobaz", a, 1), LongOption("foo", a, 2)];
      LongMatch(longs, "foo") == Ambiguous
  {
    var longs := [LongOption("foobar", a, 0), LongOption("foobaz", a, 1), LongOption("foo", a, 2)];
    assert "foo" < "foobar" && "foo" < "foobaz";
    assert TwoLonger(longs, "foo", 0, 1);
    AmbiguousIff(longs, "foo");
  }

  /** Entry `p` has the name itself, first, and at most one longer name stands before it; or nobody
      has the name itself, and `p` is the only one with a longer name. */
  predicate Selects(longs: seq<LongOption>, key: string, p: int) {
    && 0 <= p < |longs|
    && if longs[p].name == key then
         && (forall k :: 0 <= k < p ==> longs[k].name != key)
         && (forall i, j :: 0 <= i < j < p && key < longs[i].name ==> !(key < longs[j].name))
       else
         && key < longs[p].name
         && forall k :: 0 <= k < |longs| && k != p ==> !(key <= longs[k].name)
  }

  /** Which entry a name or an abbreviation selects. */
  lemma FoundIff(longs: seq<LongOption>, key: string, p: nat)
    ensures LongMatch(longs, key) == Found(p) <==> Selects(longs, key, p)
  {
    var e := FirstExact(longs, key);
    if |Abbreviated(longs, key, e)| >= 2 {
      AbbreviatedPair(longs, key, e);
    } else if |Abbreviated(longs, key, e)| == 1 {
      OneAbbreviated(longs, key, e);
    }
    forall i: nat, j: nat | i < j < e && key < longs[i].name && key < longs[j].name
      ensures |Abbreviated(longs, key, e)| >= 2
    {
      AbbreviatedMany(longs, key, e, i, j);
    }
  }

  lemma OneAbbreviated(longs: seq<LongOption>, key: string, n: nat)
    requires n <= |longs| && |Abbreviated(longs, key, n)| == 1
    ensures var p := Abbreviated(longs, key, n)[0];
      p < n && key < longs[p].name && forall k :: 0 <= k < n && k != p ==> !(key < longs[k].name)
  {
    var r := Abbreviated(longs, key, n);
    assert r[0] in r;
    forall k | 0 <= k < n && key < longs[k].name ensures k == r[0] {
      assert k in r;
    }
  }

  /** Nothing is found if and only if no name starts with what was written. */
  lemma NotFoundIff(longs: seq<LongOption>, key: string)
    ensures LongMatch(longs, key) == NotFound <==> forall k :: 0 <= k < |longs| ==> !(key <= longs[k].name)
  {
    var e := FirstExact(longs, key);
    var r := Abbreviated(longs, key, e);
    if LongMatch(longs, key) == NotFound {
      forall k | 0 <= k < |longs| ensures !(key <= longs[k].name) {
        assert e == |longs| && r == [];
        assert k !in r;
      }
    } else if r != [] {
      assert r[0] in r && key <= longs[r[0]].name;
    }
  }
}
