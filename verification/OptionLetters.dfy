/** What the string of option letters says about an entry's letters, and which of them reach it. */
module OptionLetters {
  import opened Options
  import opened ArgTables
  import opened ArgTableLaws
  import opened WrittenOptions
  import opened Wrappers

  // ----- the colons behind a letter -----

  function Colons(e: Entry): nat {
    (if e.hasValue then 1 else 0) + (if e.hasOptValue then 1 else 0)
  }

  /** Exactly `n` colons stand behind position `k`. */
  predicate ColonsBehind(s: string, k: nat, n: nat) {
    && k + n < |s| && (forall i :: k < i <= k + n ==> s[i] == ':')
    && (k + n + 1 < |s| ==> s[k + n + 1] != ':')
  }

  predicate StartsPlain(s: string) {
    s == "" || s[0] != ':'
  }

  lemma FirstLetter(e: Entry, s: string)
    requires ':' !in s
    ensures StartsPlain(Letters(e, s))
  {
  }

  lemma ColonsAppend(a: string, b: string, k: nat, n: nat)
    requires ColonsBehind(a, k, n) && StartsPlain(b)
    ensures ColonsBehind(a + b, k, n)
  {
  }

  lemma ColonsShift(a: string, b: string, k: nat, n: nat)
    requires ColonsBehind(b, k, n)
    ensures ColonsBehind(a + b, |a| + k, n)
  {
    var s, m := a + b, |a| + k;
    forall i | m < i <= m + n ensures s[i] == ':' {
      assert s[i] == b[i - |a|];
    }
  }

  /** A letter with its colons. */
  function OneLetter(e: Entry, c: char): string {
    [c] + (if e.hasValue then ":" else "") + (if e.hasOptValue then ":" else "")
  }

  lemma OneLetterColons(e: Entry, c: char)
    requires c != ':'
    ensures ColonsBehind(OneLetter(e, c), 0, Colons(e)) && StrChr(OneLetter(e, c), c) == 0
    ensures forall d :: d in OneLetter(e, c) ==> d == c || d == ':'
  {
  }

  lemma LettersStep(e: Entry, s: string)
    requires s != ""
    ensures Letters(e, s) == OneLetter(e, s[0]) + Letters(e, s[1..])
  {
  }

  lemma {:induction false} LetterColons(e: Entry, s: string, c: char)
    requires ':' !in s && c in s
    ensures c in Letters(e, s) && ColonsBehind(Letters(e, s), StrChr(Letters(e, s), c), Colons(e))
    decreases |s|
  {
    var head, later := OneLetter(e, s[0]), Letters(e, s[1..]);
    FirstLetter(e, s[1..]);
    hide Letters, OneLetter, ColonsBehind, StrChr, StartsPlain;
    LettersStep(e, s);
    OneLetterColons(e, s[0]);
    StrChrAppend(head, later, c);
    if c == s[0] {
      assert StrChr(head, c) == 0 && c in head;
      ColonsAppend(head, later, 0, Colons(e));
    } else {
      assert c !in head && c in s[1..];
      LetterColons(e, s[1..], c);
      ColonsShift(head, later, StrChr(later, c), Colons(e));
    }
  }

  /** No letter is a colon. */
  predicate PlainLetters(entries: seq<Entry>) {
    !Declares(entries, ':')
  }

  lemma LaterEntries(entries: seq<Entry>, c: char)
    requires entries != []
    ensures Declares(entries, c)
      <==> (entries[0].shortopts.Some? && c in entries[0].shortopts.value) || Declares(entries[1..], c)
  {
    if i :| 0 <= i < |entries| && entries[i].shortopts.Some? && c in entries[i].shortopts.value {
      if i > 0 {
        assert entries[1..][i - 1] == entries[i];
      }
    }
    if i :| 0 <= i < |entries[1..]| && entries[1..][i].shortopts.Some? && c in entries[1..][i].shortopts.value {
      assert entries[i + 1] == entries[1..][i];
    }
  }

  function OwnLetters(e: Entry): string {
    if e.shortopts.Some? then Letters(e, e.shortopts.value) else ""
  }

  lemma {:induction false} StringStartsPlain(entries: seq<Entry>)
    requires PlainLetters(entries)
    ensures StartsPlain(ShortLetters(entries))
    decreases |entries|
  {
    if entries != [] {
      LaterEntries(entries, ':');
      if entries[0].shortopts.Some? {
        FirstLetter(entries[0], entries[0].shortopts.value);
      }
      StringStartsPlain(entries[1..]);
      assert ShortLetters(entries) == OwnLetters(entries[0]) + ShortLetters(entries[1..]);
    }
  }

  lemma FindShortStep(entries: seq<Entry>, c: char)
    requires entries != []
    ensures var i := FindShort(entries[1..], c as int);
      FindShort(entries, c as int)
        == if entries[0].shortopts.Some? && c in entries[0].shortopts.value then 0 else if i < 0 then -1 else i + 1
  {
    if entries[0].shortopts.Some? && c in entries[0].shortopts.value {
      var s := entries[0].shortopts.value;
      var k :| 0 <= k < |s| && s[k] == c;
      assert s[k] as int == c as int;
    }
  }

  /** The entry that is found for a letter is the first one that lists it. */
  lemma {:induction false} FindShortIff(entries: seq<Entry>, c: char, i: int)
    ensures FindShort(entries, c as int) == i
      <==> if i == -1 then !Declares(entries, c)
           else && 0 <= i < |entries| && entries[i].shortopts.Some? && c in entries[i].shortopts.value
                && !Declares(entries[..i], c)
    decreases |entries|
  {
    if entries != [] {
      FindShortIff(entries[1..], c, FindShort(entries[1..], c as int));
      LaterEntries(entries, c);
      FindShortStep(entries, c);
      forall k: nat | 0 < k <= |entries|
        ensures Declares(entries[..k], c)
          <==> (entries[0].shortopts.Some? && c in entries[0].shortopts.value) || Declares(entries[1..][..k - 1], c)
      {
        LaterEntries(entries[..k], c);
        assert entries[..k][1..] == entries[1..][..k - 1];
      }
    }
  }

  lemma ShortLettersStep(entries: seq<Entry>)
    requires entries != []
    ensures ShortLetters(entries) == OwnLetters(entries[0]) + ShortLetters(entries[1..])
  {
  }

  lemma NotOwn(e: Entry, c: char)
    requires c != ':' && !(e.shortopts.Some? && c in e.shortopts.value)
    ensures c !in OwnLetters(e)
  {
    if e.shortopts.Some? && c in Letters(e, e.shortopts.value) {
      LettersComeFromEntry(e, e.shortopts.value, c);
    }
  }

  predicate OwnsLetter(e: Entry, c: char) {
    e.shortopts.Some? && c in e.shortopts.value
  }

  /** The first colons behind `c` are those of an entry's own letters, if `c` is one of them. */
  lemma OwnColons(e: Entry, c: char, later: string)
    requires OwnsLetter(e, c) && ':' !in e.shortopts.value && StartsPlain(later)
    ensures var s := OwnLetters(e) + later; c in s && ColonsBehind(s, StrChr(s, c), Colons(e))
  {
    hide Letters, StrChr, ColonsBehind, StartsPlain;
    LetterColons(e, e.shortopts.value, c);
    StrChrAppend(OwnLetters(e), later, c);
    ColonsAppend(OwnLetters(e), later, StrChr(OwnLetters(e), c), Colons(e));
  }

  /** They are those of the letters that follow, if it is not. */
  lemma LaterColons(e: Entry, c: char, later: string, n: nat)
    requires c != ':' && !OwnsLetter(e, c) && c in later && ColonsBehind(later, StrChr(later, c), n)
    ensures var s := OwnLetters(e) + later; c in s && ColonsBehind(s, StrChr(s, c), n)
  {
    NotOwn(e, c);
    hide OwnLetters, StrChr, ColonsBehind;
    StrChrAppend(OwnLetters(e), later, c);
    ColonsShift(OwnLetters(e), later, StrChr(later, c), n);
  }

  /** Behind the first `c` of the string stand exactly the colons of the entry that lists `c` first. */
  lemma {:induction false} StringColons(entries: seq<Entry>, c: char)
    requires PlainLetters(entries) && Declares(entries, c)
    ensures var s, i := ShortLetters(entries), FindShort(entries, c as int);
      c in s && i >= 0 && ColonsBehind(s, StrChr(s, c), Colons(entries[i]))
    decreases |entries|
  {
    assert entries != [] && c != ':';
    LaterEntries(entries, c);
    LaterEntries(entries, ':');
    hide FindShort, ShortLetters, OwnLetters, StrChr, Declares, ColonsBehind, StartsPlain, Colons;
    var first, later := entries[0], ShortLetters(entries[1..]);
    ShortLettersStep(entries);
    FindShortStep(entries, c);
    if OwnsLetter(first, c) {
      StringStartsPlain(entries[1..]);
      OwnColons(first, c, later);
    } else {
      StringColons(entries[1..], c);
      LaterColons(first, c, later, Colons(entries[1..][FindShort(entries[1..], c as int)]));
    }
  }

  /** What an entry's short options take, and when that is what its long options take: the flag for
      an optional value alone makes the value optional for long options only. */
  lemma SpellingsAgree(entries: seq<Entry>, c: char)
    requires PlainLetters(entries) && Declares(entries, c)
    ensures var s, i := ShortOptions(entries), FindShort(entries, c as int);
      && i >= 0
      && ArgumentAt(s, StrChr(s, c)) == (if entries[i].hasValue && entries[i].hasOptValue then OptionalArgument
                                         else if entries[i].hasValue || entries[i].hasOptValue then RequiredArgument
                                         else NoArgument)
      && (ArgumentAt(s, StrChr(s, c)) == HasArgOf(entries[i]) <==> (entries[i].hasOptValue ==> entries[i].hasValue))
  {
    StringColons(entries, c);
    StrChrAppend(":", ShortLetters(entries), c);
    hide ShortLetters, StrChr, FindShort;
  }

  // ----- which letters reach their entry -----

  /** The code is neither zero nor one of the scanner's own. */
  predicate IsLetterCode(code: int) {
    code != 0 && code != BADCH && code != BADARG_COLON
  }

  /** A token that consists of the option letter `c`; two dashes would end the options. */
  function LetterToken(c: char): string {
    if c == '-' then "-" else ['-', c]
  }

  lemma {:induction false} DeclaredInString(entries: seq<Entry>, c: char)
    requires Declares(entries, c)
    ensures c in ShortLetters(entries)
    decreases |entries|
  {
    LaterEntries(entries, c);
    if entries[0].shortopts.Some? && c in entries[0].shortopts.value {
      InLetters(entries[0], entries[0].shortopts.value, c);
    } else {
      DeclaredInString(entries[1..], c);
    }
  }

  lemma {:induction false} InLetters(e: Entry, s: string, c: char)
    requires c in s
    ensures c in Letters(e, s)
    decreases |s|
  {
    if c != s[0] {
      InLetters(e, s[1..], c);
    }
  }

  /** A declared letter is handed to the entry that lists it first, unless it is one of the scanner's
      codes, or `W` is followed by `;` in the string, or its argument is missing. */
  lemma ReachesEntryIff(entries: seq<Entry>, c: char, rest: seq<string>, mem: Memory)
    requires Declares(entries, c) && c != '\0'
    ensures var s, toks := ShortOptions(entries), [LetterToken(c)] + rest;
      var e := OptionStep(ConfigOf(entries), [c], toks, mem).event;
      IsLetterCode(e.code) && FindShort(entries, e.code) == FindShort(entries, c as int)
      <==> && c != '?' && c != ':'
           && !(c == 'W' && CharAt(s, StrChr(s, c) + 1, ';'))
           && (rest == [] ==> !ArgumentAt(s, StrChr(s, c)).RequiredArgument?)
  {
    DeclaredInString(entries, c);
    var cfg, toks := ConfigOf(entries), [LetterToken(c)] + rest;
    assert c in cfg.options;
    LetterStepCode(cfg, c, toks, mem);
    hide ShortOptions, StrChr, FindShort, LongOptions, OptionStep;
  }

  /** The code that a token of one declared letter gives. */
  lemma LetterStepCode(cfg: Config, c: char, toks: seq<string>, mem: Memory)
    requires toks != [] && toks[0] == LetterToken(c) && c in cfg.options
    ensures var code, oli := OptionStep(cfg, [c], toks, mem).event.code, StrChr(cfg.options, c);
      if c == ':' || (c == 'W' && CharAt(cfg.options, oli + 1, ';'))
         || (|toks| == 1 && ArgumentAt(cfg.options, oli).RequiredArgument?)
      then !IsLetterCode(code)
      else code == c as int
  {
    var oli := StrChr(cfg.options, c);
    assert oli >= 0 && [c][1..] == "";
    hide StrChr, LongStep;
    assert OptionStep(cfg, [c], toks, mem) == ShortStep(cfg, [c], toks, mem);
    if |toks| > 1 {
      LongStepOwnCode(cfg, toks[1], toks[1..], mem);
    }
  }

  lemma LongStepOwnCode(cfg: Config, name: string, toks: seq<string>, mem: Memory)
    requires toks != []
    ensures !IsLetterCode(LongStep(cfg, name, toks, mem).event.code)
  {
    hide LongMatch, StrChr;
  }
}
