# Verified model of an SMS gateway's parsers and dispatch server

The repository is a gRPC service that hands SMS messages from clients to connected phones, with
command lines parsed by a bundled copy of argtable3.  This project models three of its parts in
Dafny and proves what they promise.  (`Wrappers` and `CType` hold what they share: an option type and
`<ctype.h>`.)

## The argument parser (`third-party/argtable3/argtable3.c`)

* `Cycles`, `Permute` -- `gcd` and `permute_args`, in place on an array, with the number theory
  that makes the cycles disjoint and exhaustive.
* `Options` -- what a command line means, said without scanner state: `Run` reads tokens from left
  to right and never moves one.  `Scanner` -- `getopt_long` as an object that permutes `argv` as
  it goes, refined against `Run`.  `Partition` -- which role each token has, without `Run`, and that
  `Run` splits the command line by these roles.  `CommandLines` -- laws of `Run`: locality,
  composition, and that permuting does not change the meaning.  `WrittenOptions` -- every way to
  write an option, right or wrong, and what it means; every command line is made of such parts.
  `OptionArguments` -- the tokens that are arguments are the arguments that are reported.
* `LongTable`, `LongNames`, `OptionNames` -- how the table of long options is built, what is in it,
  which entry a name selects, and which names reach which entry.
* `ArgTables`, `ArgTableLaws`, `ArgParse` -- `arg_parse` with its tagged, untagged and checking
  passes, and the laws about interleaving and about leftover arguments.  `OptionLetters` -- what
  the string of option letters says, and which letters reach their entry.  `TableValues`,
  `TableSpellings` -- from the command line to the table: whose value it is, however it is spelled,
  what is registered for what, and when the final checks are made.
* `Integers` -- `arg_int_scanfn`.  `DigitTexts` -- the positional system.

## The regular expressions (the same file)

* `Regex` -- pattern trees and the language each denotes.  `Matching` -- the matcher on trees,
  sound but not complete, with its termination measure.
* `Determinism` -- the patterns in which the next character always decides: what they accept is,
  for every text, exactly what they describe within the limits of their loops.  `Completeness` --
  what that comes to for short texts, without repetitions, and for one repeated character.
  `Refusals` -- pattern texts that refuse what they describe, and one exact condition.
* `PatternSyntax`, `Compiler`, `Nodes`, `NodeTree`, `NodeReach` -- the recursive-descent compiler
  appending to a growing node array, the tree an array represents, and that the array is a tree.
* `Matcher` -- the interpreter of the array, with captures.  `PatternPrinting` -- the round trip.
  `PatternTrees` -- every tree a pattern denotes can be printed.  `PatternErrors` -- patterns that
  are refused, and repetition counts that are not what they say.
* `CharacterClasses`, `ClassTexts` -- which characters classes, ranges, case and boundaries stand
  for, and which texts some families of short patterns accept.

## The dispatch server (`service-raw.cpp`, `sms-listener.cpp`)

* `Server` -- one event at a time as a state machine: the completion queue is a multiset of tags
  and the environment chooses which is delivered.  `ServerObjects` -- the same as objects updated
  in place, each method refining the function of the state machine, up to `Run`.
* `ServerRegistry`, `ServerOrder`, `ServerRuns` -- what every event keeps, and what follows for
  all runs.  `ServerTurns` -- fairness.  `ServerPhones`, `ServerFates`, `ServerOverlap` -- when a
  phone is dropped, and that the server comes to rest.  `ServerReplies` -- what clients are told.

## Where the code does not do what it seems to promise

* An exact long option name can be refused as ambiguous, if two longer names stand before it in the
  table (`LongNames.AmbiguousIff`, `ExactCanBeAmbiguous`), although the loop has a branch that is
  meant to prefer it.
* A comma at the start of a long-option string makes `alloc_longoptions` write more entries than it
  allocated (`LongNames.RoomIff`, `LeadingCommaOverruns`).
* An empty pattern gets a node array of capacity 0, which doubling cannot repair: there is room for
  the first node if and only if the pattern is not empty (`Compiler.Begin`, `Compiler.TRex.NewNode`).
* The flag for an optional value alone makes the value optional for the long names of an entry and
  required for its letters (`OptionLetters.SpellingsAgree` is the exact condition).
* A declared letter can be taken for one of the scanner's own codes and never reach its entry
  (`OptionLetters.ReachesEntryIff` is the exact condition).
* The matcher never backtracks and is not complete.  `.*` refuses the empty text, because the loop
  takes the terminator for a character; no repetition counts beyond 0x10000, so `a*` refuses 0x10001
  a's; and `a*a` refuses `a` (`Refusals.DotStarRefuses`, `CharStarRefuses`, `StarThenSame`).
  `Determinism.DeterminedAcceptsIff` is the exact condition for all patterns in which the next
  character always decides, such as `\d+@\l+` (`Refusals.NumberAtWord`), and
  `Completeness.RepetitionAcceptsIff` that for one repeated character.
* A repetition count is taken modulo 65536, so `a{65537}` accepts `a` (`PatternErrors.CountWraps`).
* `\b` looks at the character behind its place and the one after that, not at those on both sides
  (`CharacterClasses.BoundaryIff`, `ClassTexts.BoundaryBetweenIff`).
* Ignoring case, a range from a capital to a small letter loses characters
  (`CharacterClasses.RangeLosesIff` is the exact condition).
* Of two alternatives the first that matches is taken for good, so `a|ab` refuses `ab`
  (`ClassTexts.AlternativesInOrder` is the exact condition); and `a*a` accepts `aa` only
  (`ClassTexts.StarThenCharIff`).
* A value given to a long option that takes none is registered as a missing argument
  (`TableSpellings.WrongPart`).
* A dash inside a token of letters starts a long option: `-ab-name` is `-ab --name`
  (`WrittenOptions.OneWritten`).
* A range in brackets is tested by the index of its node and not by its lower character: `[0-9]` is
  accepted at the beginning of a pattern, and refused once 56 letters stand in front of it
  (`PatternPrinting.RangeAfterLetters`; `PatternReadBack` is the exact condition).
* A phone that is connected can be taken for gone although it never hung up, when a batch arrives
  while the alarm for an earlier one is still pending (`ServerOverlap.OverlapDropsPhone`;
  `ServerFates.StillConnectedIff` is the exact condition).
* Scanning a permuted command line a second time can give a skipped non-option to an option that
  lacked its argument (`CommandLines.RescanPermuted` is the exact condition).

## Model

| member | source | states |
|---|---|---|
| Permute.Gcd | third-party/argtable3/argtable3.c:418-430 | the loop returns the greatest common divisor of two positive block lengths: it divides both, and every common divisor divides it |
| Cycles.CyclesPartition | third-party/argtable3/argtable3.c:443-466 | for all block lengths a, b >= 1 every slot lies on exactly one of the gcd(a, b) cycles of p -> p + nopts (mod a + b), at exactly one of its (a + b) / gcd steps |
| Cycles.CycleCloses | third-party/argtable3/argtable3.c:456-465 | a cycle is back at its start after (a + b) / gcd steps |
| Cycles.OnCycleIff | third-party/argtable3/argtable3.c:452-454 | slot p is on cycle i if and only if p and i agree modulo the gcd |
| Permute.CycleSlotsAreCycle | third-party/argtable3/argtable3.c:452-465 | the slots the inner loop visits from `panonopt_end + i` form one cycle: distinct, inside the range, each the destination of the one before |
| Permute.CycleSlotsCover | third-party/argtable3/argtable3.c:452-465 | that cycle visits exactly the slots of its residue class |
| Permute.PermuteArgs | third-party/argtable3/argtable3.c:438-467 | in place, X ++ Y becomes Y ++ X with the order kept inside both blocks and every other slot untouched |
| Scanner.Scanner.constructor | third-party/argtable3/argtable3.c:4087-4094 | the scanner as `arg_parse_tagged` leaves it before its first call; what is to come is the meaning of the whole command line |
| Scanner.Scanner.SkipNonOption | third-party/argtable3/argtable3.c:681-693 | skipping a non-option, with the permutation of pending options, changes nothing about the outcome of the whole scan |
| Scanner.Scanner.Finish | third-party/argtable3/argtable3.c:645-662 | at the end `argv` is options, then skipped non-options, then the rest, and `optind` is at the first non-option |
| Scanner.Scanner.StartOption | third-party/argtable3/argtable3.c:695-715 | an option token is entered, or `--` ends the scan with the final permutation |
| Scanner.Scanner.FindOption | third-party/argtable3/argtable3.c:642-716 | the `goto start` loop terminates, at the next option or at the end; every `permute_args` call meets non-empty blocks |
| Scanner.Scanner.FindLong | third-party/argtable3/argtable3.c:494-522 | the table loop computes `LongMatch`: the first exact name, or the only longer one, or ambiguity |
| Scanner.Scanner.ParseLongOptions | third-party/argtable3/argtable3.c:475-586 | return code, `optarg`, `optopt`, `optind` are those of one step of the reference reading |
| Scanner.Scanner.TakeArgument | third-party/argtable3/argtable3.c:523-586 | the argument of a long option once its entry is known: after the `=`, from the next token, optional, refused or missing |
| Scanner.Scanner.ReadW | third-party/argtable3/argtable3.c:757-773 | `-W name`, with the name in the same or the next token |
| Scanner.Scanner.ReadLetter | third-party/argtable3/argtable3.c:774-796 | a short option, with its argument in the same token, in the next one, optional or missing |
| Scanner.Scanner.ReadOption | third-party/argtable3/argtable3.c:718-796 | one option is interpreted as one step says; the `return (-1)` at lines 748-749 is never reached |
| Scanner.Scanner.Prepare | third-party/argtable3/argtable3.c:632-643 | a pending reset is applied and the next option found |
| Scanner.Scanner.ReportOption | third-party/argtable3/argtable3.c:718-796 | one event is taken off the outcome, and the state between calls is valid again |
| Scanner.Scanner.GetoptLong | third-party/argtable3/argtable3.c:826-833 | each call reports the next event of the reference reading; -1 comes exactly when there is none, and then `argv` is the stable partition and `optind` at the first non-option |
| Partition.RolesUnique | third-party/argtable3/argtable3.c:642-716 | a command line has at most one assignment of roles: tokens an option takes are its arguments and no others, tokens after the first `--` that is not an argument are beyond it and no others, and every other token is an option, that `--`, or a plain non-option by its own text |
| Partition.RunIsStablePartition | third-party/argtable3/argtable3.c:642-716 | there is such an assignment, and by it the reference reading splits the command line: options with their arguments and `--`, skipped non-options, and what is beyond `--`, each in the order of the command line (Guideline 10 of section 12.2 of IEEE Std 1003.1) |
| CommandLines.SameFirstStep | third-party/argtable3/argtable3.c:718-796 | a step reads no token beyond those it finishes |
| CommandLines.RunOnOptions | third-party/argtable3/argtable3.c:642-716 | the options of a command line, put in front of any non-options, report the same events |
| CommandLines.EventsOfOptions | third-party/argtable3/argtable3.c:642-716 | the events of a command line are those of its options alone |
| CommandLines.SameOptionsSameEvents | third-party/argtable3/argtable3.c:642-716 | two command lines with the same options report the same events, however non-options are interleaved |
| CommandLines.RescanPermuted | third-party/argtable3/argtable3.c:642-716 | scanning the permuted command line again finds the same options if and only if it is not the case that an argument was missing while non-options were skipped |
| CommandLines.MissingTakesNext | third-party/argtable3/argtable3.c:538-568 | in that case the option takes the first non-option for its argument |
| CommandLines.RunConcat | third-party/argtable3/argtable3.c:642-716 | scanning is compositional: after complete options the rest is scanned as if it stood alone |
| CommandLines.InsertNonOption | third-party/argtable3/argtable3.c:663-694 | a non-option may stand anywhere between complete options |
| WrittenOptions.OneWritten | third-party/argtable3/argtable3.c:718-796 | what one part of a line means, whatever follows it: bare letters are reported without an argument, unknown ones as `?`; `-cVALUE`, `-c VALUE`, `--name=VALUE` and `--name VALUE` are reported with exactly VALUE as their argument; and a name of no option or of several, a value that is not wanted and one that is missing have each their code, with the letter or 0 remembered |
| WrittenOptions.RunOfWritten | third-party/argtable3/argtable3.c:642-796 | a command line made of such parts is read as these parts, one after another: their events in order, the options and the operands in order |
| WrittenOptions.RunBeforeDashes | third-party/argtable3/argtable3.c:695-715 | and it can be ended with `--` and anything behind it |
| WrittenOptions.EveryLine | third-party/argtable3/argtable3.c:642-796 | every command line is such a line, perhaps with `--` and anything behind it, if no letter is a dash and no names follow `W` |
| WrittenOptions.SingleDash | third-party/argtable3/argtable3.c:736-749 | a single dash is an operand unless the option string lists it; then it is a letter like others |
| WrittenOptions.NameBehindW | third-party/argtable3/argtable3.c:757-773 | `-Wname` and `-W name` mean what `--name` means, where names follow `W` |
| OptionArguments.ArgumentsReportedIff | third-party/argtable3/argtable3.c:774-796 | for every command line, the tokens with the role of an argument are, in order, the arguments of the events that take a token of their own -- if and only if names do not follow `W` |
| LongNames.CountNames | third-party/argtable3/argtable3.c:3938-3942 | the counting pass: one, and one more for each comma after the first character |
| LongNames.CopyNames | third-party/argtable3/argtable3.c:3967-3976 | the copying pass: the names, and the bytes stored for them |
| LongNames.AllocLongOptions | third-party/argtable3/argtable3.c:3915-3999 | the entries allocated, and the entries written: every name of every entry at its place, with the number of its entry, and nothing else |
| LongNames.PassesDiffer | third-party/argtable3/argtable3.c:3938-3990 | the two passes differ by one for a string that starts, and for one that ends, with a comma |
| LongNames.CopiesFit | third-party/argtable3/argtable3.c:3937-3976 | the copied names never need more bytes than were reserved |
| LongNames.NamesOfJoin | third-party/argtable3/argtable3.c:3967-3976 | names written with commas between them are read back |
| LongNames.RoomIff | third-party/argtable3/argtable3.c:3933-3996 | the option array, with its terminating entry, fits what was allocated if and only if no more strings start with a comma than end with one or are counted for the terminator |
| LongNames.LeadingCommaOverruns | third-party/argtable3/argtable3.c:3933-3996 | the table with the one name list `,a` is counted as one entry and copied as two |
| LongNames.AmbiguousIff | third-party/argtable3/argtable3.c:494-522 | a name is called ambiguous if and only if two longer names come before any exact one |
| LongNames.ExactSelected | third-party/argtable3/argtable3.c:494-522 | an option's own name selects it if and only if no two longer names precede it |
| LongNames.ExactCanBeAmbiguous | third-party/argtable3/argtable3.c:494-522 | `--foo` is ambiguous in the table foobar, foobaz, foo |
| LongNames.FoundIff | third-party/argtable3/argtable3.c:494-522 | an entry is selected if and only if it is the first with exactly this name and at most one longer name stands before it, or nobody has exactly this name and it is the only one with a longer one |
| LongNames.NotFoundIff | third-party/argtable3/argtable3.c:494-522 | nothing is found if and only if no name starts with what was written |
| LongTable.LongOptionsTable | third-party/argtable3/argtable3.c:3960-3990 | every name of every entry is in the table, with the number of its entry and what it takes, at the place given by the names counted before it |
| LongTable.OwnerAt | third-party/argtable3/argtable3.c:3960-3990 | and nothing else is in it |
| OptionNames.NameReachesEntryIff | third-party/argtable3/argtable3.c:475-586 | `--body` is handed to entry i if and only if what stands before any `=` selects a name of entry i, and an argument is there where one is needed and none where none is taken |
| OptionNames.OwnNameIff | third-party/argtable3/argtable3.c:494-522 | the complete name of an entry is handed to it if and only if it is the first to have it and no two longer names stand before it |
| ArgTables.RegisterCapped | third-party/argtable3/argtable3.c:3848-3867 | registering errors one by one keeps the beginning of the log, never more than the maximum, with the last slot marking the overflow |
| ArgParse.ArgTable.RegisterError | third-party/argtable3/argtable3.c:3848-3867 | the error list is the capped log |
| ArgParse.ArgTable.Apply | third-party/argtable3/argtable3.c:4102-4178 | one scanner event has the effect on the table that `ApplyEvent` says, for each of the five kinds of code |
| ArgParse.ArgTable.TaggedRound | third-party/argtable3/argtable3.c:4092-4179 | one round of the loop: the next event of the scan is applied to the table, or there is none and `argv` is left partitioned |
| ArgParse.ArgTable.ParseTagged | third-party/argtable3/argtable3.c:4060-4183 | every event of the scan is applied in order, and `argv` is left partitioned |
| ArgParse.ArgTable.ParseUntagged | third-party/argtable3/argtable3.c:4187-4270 | the untagged pass terminates, having consumed all of `argv`, with the effect of `AssignUntagged` |
| ArgParse.ArgTable.RejectRest | third-party/argtable3/argtable3.c:4254-4267 | the tentative error, then one error for each remaining token |
| ArgParse.ArgTable.Check | third-party/argtable3/argtable3.c:4274-4289 | the errors of the final checks, in table order |
| ArgParse.ArgTable.ResetTable | third-party/argtable3/argtable3.c:4292-4302 | every entry is reset, and the errors are gone |
| ArgParse.ArgTable.Parse | third-party/argtable3/argtable3.c:4305-4368 | the table ends as `Parsed` says, the count is the length of the error list, which holds what was registered, or the beginning of it and the mark for too many; and the caller's `argv` is not permuted |
| ArgTableLaws.EventsUnderstood | third-party/argtable3/argtable3.c:4092-4179 | for every table and command line, each event the scanner reports belongs to an entry of the table and has a token to quote where it quotes one; the only exception is a declared letter `?` in front of other letters |
| OptionLetters.StringColons | third-party/argtable3/argtable3.c:4005-4042 | behind the first occurrence of a letter in the option string stand exactly the colons of the entry that lists it first, if no letter is a colon |
| OptionLetters.SpellingsAgree | third-party/argtable3/argtable3.c:4005-4042 | a letter takes an optional argument if its entry has both flags, a required one if it has one of them, and none otherwise; that is what the long names of the entry take if and only if the flag for an optional value comes with that for a value |
| OptionLetters.ReachesEntryIff | third-party/argtable3/argtable3.c:4092-4179 | a declared letter is handed to its entry if and only if it is not `?` or a colon, not a `W` with `;` behind it in the string, and its argument is not missing |
| OptionLetters.FindShortIff | third-party/argtable3/argtable3.c:3875-3885 | the entry found for a letter is the first one that lists it |
| TableValues.LineApplied | third-party/argtable3/argtable3.c:4092-4179 | what a line reports has these effects on the table, one after another: each value is given to the entry that lists the letter first or whose name is selected, and each mistake is registered with the token it quotes |
| TableValues.ParsedLine | third-party/argtable3/argtable3.c:4305-4368 | `arg_parse` on a line, and perhaps `--` and whatever is behind it: every entry reset, these effects, then the operands assigned to the untagged entries, and the final checks if nothing was registered |
| TableValues.EntryAlone | third-party/argtable3/argtable3.c:4102-4178 | what an entry ends as is what its callback makes of the arguments given to it, in order, whatever other entries are given |
| TableSpellings.LetterValue | third-party/argtable3/argtable3.c:4155-4175 | `-c v` and `-cv`: the entry that lists the letter ends as its callback leaves it with `v`; its error, if it has one, is registered with `v`; nothing else happens |
| TableSpellings.NamedValue | third-party/argtable3/argtable3.c:4110-4131 | `--name v` and `--name=v` likewise for the entry whose name is selected; and an empty value is registered as a missing one, too, if the entry has values |
| TableSpellings.LetterAlone | third-party/argtable3/argtable3.c:4155-4175 | `-c`, where no argument is needed: the entry is given none |
| TableSpellings.NameAlone | third-party/argtable3/argtable3.c:4110-4131 | `--name`, where no argument is needed: the entry is given none |
| TableSpellings.UnknownLetter | third-party/argtable3/argtable3.c:4133-4152 | an unknown letter is registered under its own code, and nothing else happens |
| TableSpellings.WrongPart | third-party/argtable3/argtable3.c:4133-4153 | a name of no option or of several is registered with its token and code 4; a missing argument, and one that is not wanted, with code 5 |
| TableSpellings.FourSpellings | third-party/argtable3/argtable3.c:4092-4179 | whichever spellings give an entry a value leave the same table, and all four do if and only if the entry has values that are not optional |
| TableSpellings.ChecksExact | third-party/argtable3/argtable3.c:4274-4289 | the final checks find one error for each entry whose state is not accepted, with its owner, in table order, and no other |
| TableSpellings.ChecksLast | third-party/argtable3/argtable3.c:4352-4357 | the final checks are made if and only if nothing was registered before them |
| ArgTableLaws.InterleavingIrrelevant | third-party/argtable3/argtable3.c:4305-4368 | command lines with the same options and the same non-options leave the same table values and errors |
| ArgTableLaws.MovedNonOption | third-party/argtable3/argtable3.c:4305-4368 | in particular a non-option may be moved past a group of complete options |
| ArgTableLaws.UntaggedAccounted | third-party/argtable3/argtable3.c:4198-4267 | for any callbacks, every leftover token is accepted by exactly one entry, in consecutive runs in table order, or registered exactly once; each run is as long as it can be, since the entry refuses the token after it, and its state is then what accepting the run and refusing that token leave; the first token nobody takes is registered with the refusal of the last untagged entry |
| Integers.StrToL0X | third-party/argtable3/argtable3.c:2115-2173 | sign and base prefix, then `strtol`: the value if it fits, and where the number ends |
| Integers.DetectSuffix | third-party/argtable3/argtable3.c:2178-2205 | true if and only if the string is the suffix in any case, followed by spaces only |
| Integers.ArgInt.ScanNumber | third-party/argtable3/argtable3.c:2229-2250 | hexadecimal, octal, binary and decimal are tried in this order |
| Integers.ArgInt.ApplyUnit | third-party/argtable3/argtable3.c:2252-2297 | the unit multiplies the exact value, and overflow is reported if and only if the product is not an `int` |
| Integers.ArgInt.Scan | third-party/argtable3/argtable3.c:2208-2306 | success stores the exact mathematical value, in the range of `int`; each error code has its exact condition, and a failure changes nothing |
| Integers.MeaningOfText | third-party/argtable3/argtable3.c:2229-2297 | every properly written integer means its value |
| Integers.TextOfMeaning | third-party/argtable3/argtable3.c:2229-2297 | whatever is accepted is a properly written integer |
| Integers.MeaningIff | third-party/argtable3/argtable3.c:2229-2297 | the arguments that mean a value are exactly the written forms of that value |
| DigitTexts.DigitIff | third-party/argtable3/argtable3.c:2135-2173 | a character is a digit of value d if and only if it stands at place d of the digits and letters, in either case |
| DigitTexts.Positional | third-party/argtable3/argtable3.c:2135-2173 | the digits in front count for the power of the base that those behind them make up |
| DigitTexts.DecimalMeans | third-party/argtable3/argtable3.c:2229-2297 | the decimal text of every integer means that integer |
| DigitTexts.BasedMeans | third-party/argtable3/argtable3.c:2229-2297 | and so does its text in base 16, 8 or 2, behind the letter for the base |
| Nodes.CountsRecovered | third-party/argtable3/argtable3.c:3272-3377 | the two repetition counts packed into one `int` are recovered, also when the upper one makes it negative |
| Nodes.EmitRepresents | third-party/argtable3/argtable3.c:3205-3310 | the emitted nodes, wherever they stand in a larger array, represent their tree |
| NodeTree.AtMostOneParent | third-party/argtable3/argtable3.c:3053-3310 | no node of a compiled array has two parents, and node 0 has none |
| NodeReach.PatternIsTree | third-party/argtable3/argtable3.c:3053-3310 | a tree rooted at node 0: a node is reached from node 0 if and only if it is node 0 or has exactly one parent, and the only nodes without a parent are those a range in brackets leaves behind for its lower character |
| Compiler.TRex.NewNode | third-party/argtable3/argtable3.c:3053-3068 | a node is appended and the capacity doubled if it is used up; there is room for the node if and only if the capacity was positive |
| Compiler.TRex.CharNodeHere | third-party/argtable3/argtable3.c:3105-3142 | literals, escapes, named classes and word boundaries |
| Compiler.TRex.RangeStep | third-party/argtable3/argtable3.c:3155-3167 | a range, with the test as the code has it: node index against character |
| Compiler.TRex.CharStep | third-party/argtable3/argtable3.c:3168-3178 | a character of a class, linked behind the one before |
| Compiler.TRex.ClassHere | third-party/argtable3/argtable3.c:3143-3190 | the chain of items of a class, in order |
| Compiler.TRex.NumberHere | third-party/argtable3/argtable3.c:3192-3203 | a repetition count, or overflow |
| Compiler.TRex.CountsHere | third-party/argtable3/argtable3.c:3240-3271 | the repetition suffix: `*`, `+`, `?`, `{n}`, `{n,}`, `{n,m}` |
| Compiler.TRex.GroupHere | third-party/argtable3/argtable3.c:3210-3226 | a group, capturing or not |
| Compiler.TRex.RepeatedHere | third-party/argtable3/argtable3.c:3205-3277 | an element with its repetition |
| Compiler.TRex.ChainHere | third-party/argtable3/argtable3.c:3279-3284 | elements chained by `next` |
| Compiler.TRex.ListHere | third-party/argtable3/argtable3.c:3287-3310 | alternatives |
| Compiler.Compile | third-party/argtable3/argtable3.c:3520-3564 | for a non-empty pattern the result is the array of the parsed tree, or the parser's error |
| Compiler.Begin | third-party/argtable3/argtable3.c:3520-3530 | for every pattern, the array that starts with one place for each character has room for the first node if and only if the pattern is not empty |
| PatternPrinting.PatternReadBack | third-party/argtable3/argtable3.c:3105-3310 | parsing the printed form of a pattern tree, brackets included, yields that tree if each range's node index is at most the first character of its printed upper end, and `invalid range` if not |
| PatternPrinting.RangeAfterLetters | third-party/argtable3/argtable3.c:3155-3160 | so `[0-9]` behind m letters is accepted if and only if m <= 55 |
| PatternTrees.PatternPrints | third-party/argtable3/argtable3.c:3105-3310 | every tree that a pattern denotes can be printed, and is read back from that if its ranges fit where they then stand |
| PatternErrors.ExactCount | third-party/argtable3/argtable3.c:3192-3203 | `{n}` is read as n modulo 65536 if n has fewer than ten digits, and is an overflow otherwise |
| PatternErrors.CountWraps | third-party/argtable3/argtable3.c:3237-3275 | `a{n}` accepts a row of n modulo 65536 a's, for every n of fewer than ten digits; if that is 65535, which stands for no bound, one more will do |
| PatternErrors.Parentheses | third-party/argtable3/argtable3.c:3209-3224 | a group that is not closed, and a parenthesis that closes nothing, are refused with their errors |
| PatternErrors.WrongStarts | third-party/argtable3/argtable3.c:3105-3165 | an empty class, a wrong mark behind `(`, a backslash at the end and an unprintable character are refused with their errors |
| PatternErrors.WrongBraces | third-party/argtable3/argtable3.c:3244-3263 | a brace without a number, and a number without a comma or a brace, are refused with their errors |
| PatternErrors.SecondMark | third-party/argtable3/argtable3.c:3237-3284 | behind a repetition, `*` and `+` are refused, and the other marks stand for themselves |
| CharacterClasses.ClassMembers | third-party/argtable3/argtable3.c:3312-3333 | every class letter stands for the characters written out for it, and a capital for all others |
| CharacterClasses.SameCharIff | third-party/argtable3/argtable3.c:3504-3514 | ignoring case, a character stands for itself and for the same letter in the other case |
| CharacterClasses.RangeIgnoringCase | third-party/argtable3/argtable3.c:3339-3349 | ignoring case, a range between letters of one case has both cases of the letters between them; and one between other characters is what it is otherwise |
| CharacterClasses.RangeLosesIff | third-party/argtable3/argtable3.c:3339-3349 | ignoring case, a range loses characters if and only if it goes from a capital to a small letter |
| CharacterClasses.BoundaryIff | third-party/argtable3/argtable3.c:3474-3482 | inside a text, a boundary is a change of white space behind the character at its place, not in front of it; and what it is at both ends |
| ClassTexts.ClassRowIff | third-party/argtable3/argtable3.c:3312-3333 | for every class letter, `\w+` accepts exactly the texts that are not empty, not too long to count, and made of the characters written out for the class |
| ClassTexts.PlainCharIff | third-party/argtable3/argtable3.c:3105-3142 | a character that does not start anything accepts itself, or the other case when case is ignored, and nothing else |
| ClassTexts.EscapedCharIff | third-party/argtable3/argtable3.c:3108-3135 | an escaped character accepts the control character it names, or itself, and nothing else, unless it names a class or a boundary |
| ClassTexts.RangeLosesUnderscore | third-party/argtable3/argtable3.c:3339-3349 | `[A-z]` accepts the underscore if and only if case is not ignored |
| ClassTexts.BoundaryBetweenIff | third-party/argtable3/argtable3.c:3474-3482 | `x\by` accepts `xy` if and only if `y` is white space, whatever `x` is; `x\By` otherwise |
| Matcher.Matcher.MatchClass | third-party/argtable3/argtable3.c:3335-3366 | the chain of items decides membership in the class |
| Matcher.Matcher.MatchNode | third-party/argtable3/argtable3.c:3368-3517 | the interpreter of the array computes the tree matcher, and terminates on every text by (pattern left, size of the subtree); the fallback to `next->next` is never taken |
| Matcher.Matcher.MatchGroup | third-party/argtable3/argtable3.c:3443-3473 | capture bookkeeping does not change the answer |
| Matcher.Matcher.MatchGreedy | third-party/argtable3/argtable3.c:3373-3421 | the counted loop with its lookahead |
| Matcher.Matcher.Match | third-party/argtable3/argtable3.c:3576-3586 | `trex_match` accepts if and only if the tree matcher ends at the end of the text |
| Matcher.CompileAndMatch | third-party/argtable3/argtable3.c:3520-3586 | the answer for a pattern text is that of the tree matcher, whatever the captures did on the way; if a text is accepted, all of it is in the language of the pattern, within the limits of its loops, and for a determined pattern the converse holds as well |
| Matching.ElemSound | third-party/argtable3/argtable3.c:3368-3517 | soundness for every element, with any siblings and any continuation: what is matched is described, within the limits of the loops |
| Matching.AcceptsSound | third-party/argtable3/argtable3.c:3576-3586 | soundness of acceptance, within the limits of the loops, and for whatever memory follows the text |
| Regex.BeyondIrrelevant | third-party/argtable3/argtable3.c:3474-3515 | within the text the language does not depend on memory beyond it |
| Matching.DotStarRefusesEmpty | third-party/argtable3/argtable3.c:3387-3415 | completeness is false: the tree of `.*` describes the empty text and refuses it |
| Completeness.RepetitionAcceptsIff | third-party/argtable3/argtable3.c:3373-3421 | a repeated letter, dot or class, with any counts, accepts a text if and only if it describes it, the text has at most 0x10000 characters, and, on the empty text, the element does not take the terminator |
| Completeness.LongRunRefused | third-party/argtable3/argtable3.c:3373-3421 | the tree of `a*` describes 0x10001 a's and refuses them |
| Determinism.DeterminedAcceptsIff | third-party/argtable3/argtable3.c:3368-3586 | groups, alternatives and repetitions between which the next character always decides: such a pattern accepts a text, of any length, if and only if it describes it with at most 0x10000 rounds in each repetition, and with none at the end of the text where the element would take the terminator |
| Completeness.DeterminedAccepts | third-party/argtable3/argtable3.c:3368-3586 | for a text of at most 0x10000 characters, and a pattern that does not go on with the terminator, that is if and only if it describes the text |
| Refusals.DotStarRefuses | third-party/argtable3/argtable3.c:3373-3421 | the pattern text `.*` refuses a text it describes if and only if that is empty or longer than 0x10000 |
| Refusals.CharStarRefuses | third-party/argtable3/argtable3.c:3373-3421 | `a*`, for any character that stands for itself, refuses a text it describes if and only if that is longer than 0x10000 |
| Refusals.StarThenSame | third-party/argtable3/argtable3.c:3373-3421 | `a*a` describes `a` and refuses it |
| ClassTexts.StarThenIff | third-party/argtable3/argtable3.c:3387-3417 | for all single characters x and y, `x*y` accepts exactly the texts in which x takes all but the last character, y takes the last, and no other behind the first |
| ClassTexts.StarThenCharIff | third-party/argtable3/argtable3.c:3387-3417 | so `a*b` accepts a row of a's and a `b`, and `a*a` accepts `aa` and no other row |
| ClassTexts.GroupStarThenIff | third-party/argtable3/argtable3.c:3443-3472 | the lookahead reaches out of the parentheses: `(x*)y` accepts what `x*y` does |
| ClassTexts.AlternativesInOrder | third-party/argtable3/argtable3.c:3423-3442 | for all words u and v, `u|v` accepts `u`, and `v` if and only if `u` is not the beginning of it |
| Refusals.NumberAtWord | third-party/argtable3/argtable3.c:3368-3586 | `\d+@\l+` describes digits, an at sign and small letters, and accepts them if and only if there are at most 0x10000 digits and at most 0x10000 letters |
| Completeness.ChoiceFreeAccepts | third-party/argtable3/argtable3.c:3368-3586 | a pattern without repetitions and alternatives accepts a text, of any length, if and only if it describes it |
| ServerRegistry.InitInv | service-raw.cpp:82-92 | the invariant holds after start-up |
| ServerRegistry.StepInv | service-raw.cpp:93-102 | every event keeps the registry, the acceptors and the account of tags |
| ServerRegistry.ConnectInv | service-raw.cpp:325-331 | a connecting phone is registered, and another acceptor takes its place |
| ServerRegistry.TearDownInv | service-raw.cpp:332-336 | a phone taken for gone leaves the list |
| ServerRegistry.ServeInv | service-raw.cpp:150-178 | a served client leaves exactly one acceptor for its RPC |
| ServerOrder.StepOrder | service-raw.cpp:93-102 | every event keeps the account of messages: accepted = handed on, in order, then waiting |
| ServerOrder.EnqueueToAllReaches | sms-listener.cpp:67-71 | a batch reaches every listed phone exactly once and nobody else |
| ServerRuns.Reachable | service-raw.cpp:82-102 | both invariants hold in every reachable state, whatever order tags are delivered in |
| ServerRuns.EveryReachableState | service-raw.cpp:82-452 | the capstone: in every reachable state no wake-up is lost, the registry is exact, messages are handed on in order with none lost or duplicated, what each phone was given is in the order of acceptance, under round robin it is exactly what was dispatched to that phone, under send-to-all exactly what was dispatched since it joined, send-to-all histories are suffixes of each other, and a finished object holds nothing |
| ServerRuns.RegistryExact | service-raw.cpp:82-103 | the list holds each connected phone once and nothing else; exactly one armed acceptor exists for each of the four RPCs |
| ServerRuns.NoLostWakeUp | service-raw.cpp:287-344 | messages and phones imply a manager tag; a queued message implies that its phone is in LISTEN_COMMAND or LISTEN_COMMAND_SENT with a tag of its own |
| ServerRuns.Conservation | service-raw.cpp:278-300 | round robin: accepted messages = manager buffer + queued or written by phones, gone ones included + handed to lastSMSToSend callers, as multisets |
| ServerRuns.FinishedIsEmpty | service-raw.cpp:332-347 | an object in FINISH has an empty queue and is out of the list |
| ServerRuns.SendToAllSuffix | sms-listener.cpp:41-71 | send to all: the history of a later phone is a suffix of that of an earlier one |
| ServerReplies.Answered | service-raw.cpp:150-255 | what a client is told, from what was accepted and handed on so far: `requestToSend` 1, and its message is accepted; `countSMSToSend` the number accepted less the number handed on; `lastSMSToSend` the oldest message not handed on, which then is, or an empty one; a refused request -1 or `N/A`, and nothing changes |
| ServerReplies.NotAnswered | service-raw.cpp:270-355 | no other event answers, accepts, or hands a message to a caller |
| ServerReplies.EveryReply | service-raw.cpp:150-255 | after any run, every call had one answer, what was accepted is what allowed clients sent, and what left the buffer for callers of `lastSMSToSend` is what their replies said, in order; so with round robin every message sent is in the buffer, in one phone's queue or writes, or in one caller's reply |
| ServerTurns.TurnTaken | sms-listener.cpp:72-94 | the phone whose turn it is gets the whole buffer; nothing else moves the cursor, and the list changes only by a phone joining at its end or leaving it |
| ServerTurns.GoesRound | sms-listener.cpp:73-86 | while the list is unchanged the turns go round it from the cursor, leaving nobody out |
| ServerTurns.RoundRobinFair | sms-listener.cpp:72-94 | n turns over n phones reach each exactly once, and in any window two counts differ by at most one |
| ServerTurns.EveryoneServed | sms-listener.cpp:41-94 | if phones only join, each has its turn within as many turns as there are phones in the end |
| ServerTurns.StayerServed | sms-listener.cpp:41-94 | a phone that stays has its turn after a number of turns given by its place behind the cursor, its place in the list, and the number of phones that join, whoever else leaves; the first two come to less than the length of the list plus the triangle number of the place |
| ServerPhones.SurplusAccount | service-raw.cpp:278-290 | a phone has one tag too many for each hang-up and for each batch that overlaps an earlier one, and no others |
| ServerPhones.IdlePhoneDroppedIff | service-raw.cpp:325-337 | an idle phone has a tag that drops it if and only if it has such a surplus |
| ServerPhones.PhoneStays | service-raw.cpp:314-351 | without surplus, hang-up or overlap a phone stays connected |
| ServerPhones.InternalSmaller | service-raw.cpp:314-436 | the measure (manager tags, messages queued, tags, phones) falls with every internal event |
| ServerPhones.AtRest | service-raw.cpp:314-436 | at rest every queue is empty, and the buffer or the list is |
| ServerFates.DrainingEnds | service-raw.cpp:93-102 | there is no endless run of internal events, in any order of delivery |
| ServerFates.RestsOrGoesOn | service-raw.cpp:93-102 | a state that is not at rest has an internal event to deliver |
| ServerFates.StillConnectedIff | service-raw.cpp:278-337 | a phone is still connected at rest if and only if it never hung up and no batch for it overlapped another |
| ServerOverlap.OverlapDropsPhone | service-raw.cpp:278-337 | the concrete run in which two overlapping batches drop a phone that never hung up |
| ServerObjects.ListenSMS.Put | sms-listener.cpp:41-46 | append to the list |
| ServerObjects.ListenSMS.Rm | sms-listener.cpp:48-60 | the first occurrence is erased, and found if and only if it was there |
| ServerObjects.ListenSMS.EnqueueToEach | sms-listener.cpp:67-71 | the loop gives the batch to every listed phone |
| ServerObjects.ListenSMS.EnqueueToNext | sms-listener.cpp:72-94 | the phone after the last one, with wrap-around and stale cursor, gets the batch |
| ServerObjects.ListenSMS.Enqueue | sms-listener.cpp:62-97 | refines `Dispatch`, and returns the number of recipients |
| ServerObjects.QueuingMgr.FirstSmsCountReady2Send | service-raw.cpp:442-452 | the first waiting message is handed out and removed |
| ServerObjects.QueuingMgr.Proceed | service-raw.cpp:430-436 | refines `ProceedManager`: the buffer is cleared if and only if someone got it |
| ServerObjects.ListenData.constructor | service-raw.cpp:265-273 | registers the RPC, and wakes the manager if messages wait |
| ServerObjects.ListenData.Enqueue | service-raw.cpp:278-290 | refines `EnqueueTo`: queue, and arm an alarm if idle |
| ServerObjects.ListenData.WriteNext | service-raw.cpp:292-300 | one message leaves the queue for the stream, with a tag |
| ServerObjects.ListenData.Connect | service-raw.cpp:326-331 | refines the first `Proceed` |
| ServerObjects.ListenData.Proceed | service-raw.cpp:314-351 | refines `ProceedListener` in every state |
| ServerObjects.UnaryData.Answer | service-raw.cpp:150-259 | refines `Serve` for the three unary calls, with credentials checked |
| ServerObjects.UnaryData.Proceed | service-raw.cpp:150-259 | refines `ProceedCall` |
| ServerObjects.SMSServiceImpl.Open | service-raw.cpp:84-88 | start-up refines `Init` |
| ServerObjects.SMSServiceImpl.Turn | service-raw.cpp:99-101 | delivering a tag is one event of the state machine; a client's request is allowed exactly if it has both the login and the password of the service |
| ServerObjects.SMSServiceImpl.Run | service-raw.cpp:82-103 | the loop, with any choice of tags, requests and hang-ups, is a run of the state machine, so both invariants hold of the objects |

## Left out

* gRPC, protobuf, sockets, mutexes, alarm times, `stop()` and shutdown: only the tags they put on the completion queue are modelled; "written" means handed to `Write`.
* Reuse of the address of a deleted `ListenData`: identities are unique, and a tag of a deleted object is dropped.
* CREATE: it is left within the constructor, which is where the model has its effect.
* The three classes of unary calls, whose `Proceed` differs only in the answer, are one class with the RPC as a field; `delete this` takes the object out of the set of live ones.
* A disconnecting phone may put any number of tags on the queue, at any time after it connected.
* `printListenResponders`, `notifyClients` with several values, `checkConnStatus`: no state of their own.
* `getopt_long_only`, `getopt`, the scanning modes selected by `+` and `-`, POSIXLY_CORRECT, and the printing of errors.
* `argv[argc] == NULL` is the position just past the end of the array; the `flag` of a long option is never NULL in this program, and is folded into `getoptval`.
* Characters are ASCII, and `<ctype.h>` is that of the C locale.
* malloc failures, and the `usage`, `print` and `cat` functions of argtable3.
* The callbacks of an argument table are functions of the entry's state and argument; `arg_end` has room for at least one error.
* InterleavingIrrelevant: excludes tables that declare the letter `?`; of these EventsUnderstood says what can go wrong, but not which earlier token `argv[optind - 1]` then quotes.
* EveryLine: excludes option strings in which a dash is a letter or names follow `W`; SingleDash and NameBehindW say what these two mean.
* A long-option string that is empty: the counting pass would read past its terminator.
* `strtol` itself: it is a function with its standard meaning, saturating at 64 bits.  Negating the smallest `long` (a second sign after a base prefix, and an overflow) is taken as out of range.
* Matches found by `trex_search` and `trex_searchrange`, and the contents of captures.
* Compile: an empty pattern is excluded, since the node array then has no room; a pattern ending in a bare backslash, on which the compiler reads past the terminator, is an error of its own (`Overread`).
* DeterminedAcceptsIff: is about the patterns in which the next character always decides; of the others only soundness is proved, within the limits of the loops (AcceptsSound), and the exact texts of some families of short patterns (StarThenIff, GroupStarThenIff, AlternativesInOrder).  A repetition that may begin with the terminator and goes on after it is not among them either (`EndsWell`), because what the matcher says then depends on the memory beyond the text.
* `arg_date`, `arg_dbl`, `arg_file`, `arg_rex` and the remaining argument types; configuration files, the command-line client, daemonising, URL and hex helpers.
