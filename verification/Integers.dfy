/** Integers on the command line: an optional sign, an optional base prefix, digits, and an
    optional unit.

    `strtol` is taken to convert exactly and to saturate at the ends of a 64-bit `long`; an `int`
    has 32 bits. */
module Integers {
  import opened CType
  import opened Options
  import opened Wrappers
  import opened ArgTables

  const INT_MAX: int := 0x7fff_ffff
  const INT_MIN: int := -0x8000_0000
  const LONG_MAX: int := 0x7fff_ffff_ffff_ffff
  const LONG_MIN: int := -0x8000_0000_0000_0000

  const EMAXCOUNT := 2
  const EBADINT := 3
  const EOVERFLOW := 4

  // ----- characters -----

  /** The character at a position, or the terminator. */
  function At(s: string, i: nat): char {
    if i < |s| then s[i] else '\0'
  }

  /** The value of a digit; 36 if it is none. */
  function Digit(c: char): (d: nat)
    ensures d <= 36
  {
    if '0' <= c <= '9' then (c as int) - ('0' as int)
    else if 'A' <= ToUpper(c) <= 'Z' then (ToUpper(c) as int) - ('A' as int) + 10
    else 36
  }

  // ----- strtol -----

  function Spaces(s: string): (n: nat)
    ensures n <= |s| && (n < |s| ==> !IsSpace(s[n])) && forall i :: 0 <= i < n ==> IsSpace(s[i])
  {
    if s == "" || !IsSpace(s[0]) then 0 else 1 + Spaces(s[1..])
  }

  /** How many digits come first. */
  function Digits(s: string, base: nat): (n: nat)
    ensures n <= |s| && (n < |s| ==> Digit(s[n]) >= base) && forall i :: 0 <= i < n ==> Digit(s[i]) < base
  {
    if s == "" || Digit(s[0]) >= base then 0 else 1 + Digits(s[1..], base)
  }

  /** What a string of digits denotes. */
  function Magnitude(digits: string, base: nat): nat {
    if digits == "" then 0 else Magnitude(digits[..|digits| - 1], base) * base + Digit(digits[|digits| - 1])
  }

  predicate IsSign(c: char) {
    c == '+' || c == '-'
  }

  function SignAt(s: string, i: nat): int {
    if At(s, i) == '-' then -1 else 1
  }

  /** Where a sign at `i`, if there is one, ends. */
  function AfterSign(s: string, i: nat): nat {
    if IsSign(At(s, i)) then i + 1 else i
  }

  /** In base 16, `strtol` accepts a prefix of its own. */
  predicate HexPrefixAt(s: string, i: nat, base: nat) {
    base == 16 && i + 2 < |s| && s[i] == '0' && ToUpper(s[i + 1]) == 'X' && Digit(s[i + 2]) < 16
  }

  /** A number and the position where it ends. */
  datatype Parsed = Parsed(value: int, end: nat)

  /** What `strtol` finds at the beginning of `s`, if anything: the exact value. */
  function Exact(s: string, base: nat): (r: Option<Parsed>)
    ensures r.Some? ==> 0 < r.value.end <= |s|
  {
    var i := Spaces(s);
    var j := AfterSign(s, i);
    var k := if HexPrefixAt(s, j, base) then j + 2 else j;
    if k >= |s| then None
    else
      var n := Digits(s[k..], base);
      if n == 0 then None else Some(Parsed(SignAt(s, i) * Magnitude(s[k..k + n], base), k + n))
  }

  function Saturated(v: int): int {
    if v > LONG_MAX then LONG_MAX else if v < LONG_MIN then LONG_MIN else v
  }

  /** `strtol`: the saturated value, and the end; 0 and the start if there is no number. */
  function StrToL(s: string, base: nat): (r: (int, nat))
    ensures r.1 <= |s|
  {
    var e := Exact(s, base);
    if e.None? then (0, 0) else (Saturated(e.value.value), e.value.end)
  }

  // ----- strtol0X -----

  /** A number after a sign and a base prefix: the exact value. */
  function Prefixed(s: string, X: char, base: nat): (r: Option<Parsed>)
    ensures r.Some? ==> 0 < r.value.end <= |s|
  {
    var i := Spaces(s);
    var j := AfterSign(s, i);
    if At(s, j) == '0' && ToUpper(At(s, j + 1)) == X && j + 2 <= |s| then
      var e := Exact(s[j + 2..], base);
      if e.None? then None else Some(Parsed(SignAt(s, i) * e.value.value, j + 2 + e.value.end))
    else None
  }

  /** The end is 0 if there is no such number; what is returned is the value as far as it fits. */
  method StrToL0X(str: string, X: char, base: nat) returns (val: int, end: nat)
    requires 'A' <= X <= 'Z'
    ensures end == if Prefixed(str, X, base).Some? then Prefixed(str, X, base).value.end else 0
    ensures Prefixed(str, X, base).Some? ==> Fits(val, Prefixed(str, X, base).value.value)
  {
    hide Exact, Digit;
    var ptr := 0;
    while IsSpace(At(str, ptr))
      invariant ptr <= Spaces(str)
      decreases |str| - ptr
    {
      assert ptr < |str|;
      ptr := ptr + 1;
    }
    assert ptr == Spaces(str);
    var s := 1;
    if At(str, ptr) == '+' {
      ptr := ptr + 1;
    } else if At(str, ptr) == '-' {
      ptr, s := ptr + 1, -1;
    }
    if At(str, ptr) != '0' {
      return 0, 0;
    }
    if ToUpper(At(str, ptr + 1)) != X {
      return 0, 0;
    }
    assert At(str, ptr + 1) != '\0';
    ptr := ptr + 2;
    var r := StrToL(str[ptr..], base);
    if r.1 == 0 {
      return 0, 0;
    }
    return s * r.0, ptr + r.1;
  }

  /** A `long` that is the value, or like the value is out of the range of `int`. */
  predicate Fits(val: int, value: int) {
    val == value || ((val > INT_MAX || val < INT_MIN) && (value > INT_MAX || value < INT_MIN))
  }

  // ----- detectsuffix -----

  predicate Alike(a: string, b: string) {
    |a| == |b| && forall i :: 0 <= i < |a| ==> ToUpper(a[i]) == ToUpper(b[i])
  }

  /** `s` is `suffix`, in any case, and perhaps spaces. */
  predicate SuffixOf(s: string, suffix: string) {
    |suffix| <= |s| && Alike(s[..|suffix|], suffix) && forall i :: |suffix| <= i < |s| ==> IsSpace(s[i])
  }

  method DetectSuffix(str: string, suffix: string) returns (found: bool)
    requires CString(str) && CString(suffix)
    ensures found <==> SuffixOf(str, suffix)
  {
    var i := 0;
    while ToUpper(At(str, i)) == ToUpper(At(suffix, i))
      invariant i <= |str| && i <= |suffix| && Alike(str[..i], suffix[..i])
      decreases |str| - i
    {
      if At(str, i) == '\0' {
        assert i == |str| && i == |suffix|;
        return true;
      }
      assert i < |str| && i < |suffix|;
      i := i + 1;
    }
    if At(suffix, i) != '\0' {
      return false;
    }
    assert i == |suffix|;
    var k := i;
    while IsSpace(At(str, k))
      invariant i <= k <= |str| && forall m :: i <= m < k ==> IsSpace(str[m])
      decreases |str| - k
    {
      k := k + 1;
    }
    return At(str, k) == '\0';
  }

  // ----- arg_int_scanfn -----

  /** The formats are tried in this order. */
  function Number(s: string): (r: Option<Parsed>)
    ensures r.Some? ==> 0 < r.value.end <= |s|
  {
    if Prefixed(s, 'X', 16).Some? then Prefixed(s, 'X', 16)
    else if Prefixed(s, 'O', 8).Some? then Prefixed(s, 'O', 8)
    else if Prefixed(s, 'B', 2).Some? then Prefixed(s, 'B', 2)
    else Exact(s, 10)
  }

  function Multiplier(rest: string): (m: Option<int>)
    ensures m.Some? ==> m.value in {1, 0x400, 0x10_0000, 0x4000_0000}
  {
    if SuffixOf(rest, "KB") then Some(0x400)
    else if SuffixOf(rest, "MB") then Some(0x10_0000)
    else if SuffixOf(rest, "GB") then Some(0x4000_0000)
    else if SuffixOf(rest, "") then Some(1)
    else None
  }

  /** The exact mathematical value of an argument, if it is a number at all. */
  function Meaning(s: string): Option<int> {
    var n := Number(s);
    if n.None? then None
    else
      var m := Multiplier(s[n.value.end..]);
      if m.None? then None else Some(n.value.value * m.value)
  }

  /** 32 bits. */
  predicate IsInt(v: int) {
    -2147483648 <= v <= 2147483647
  }

  class ArgInt {
    const maxcount: nat
    var count: nat
    const ival: array<int>

    ghost predicate Valid()
      reads this
    {
      count <= maxcount == ival.Length
    }

    constructor (maxcount: nat)
      ensures Valid() && this.maxcount == maxcount && count == 0 && fresh(ival)
    {
      this.maxcount, count := maxcount, 0;
      ival := new int[maxcount];
    }

    /** Tries the formats one after the other. */
    method ScanNumber(argval: string) returns (val: int, end: nat)
      ensures end == if Number(argval).Some? then Number(argval).value.end else 0
      ensures Number(argval).Some? ==> Fits(val, Number(argval).value.value)
    {
      hide Prefixed, Exact;
      val, end := StrToL0X(argval, 'X', 16);
      if end == 0 {
        val, end := StrToL0X(argval, 'O', 8);
        if end == 0 {
          val, end := StrToL0X(argval, 'B', 2);
          if end == 0 {
            var r := StrToL(argval, 10);
            val, end := r.0, r.1;
          }
        }
      }
    }

    /** Multiplies by the unit, if the result is an `int`; otherwise says what is wrong. */
    method ApplyUnit(number: int, rest: string, ghost exact: int) returns (errorcode: int, val: int)
      requires CString(rest) && Fits(number, exact)
      ensures errorcode == if Multiplier(rest).None? then EBADINT
                           else if IsInt(exact * Multiplier(rest).value) then 0 else EOVERFLOW
      ensures errorcode == 0 ==> val == exact * Multiplier(rest).value
    {
      hide SuffixOf;
      errorcode, val := 0, number;
      if val > INT_MAX || val < INT_MIN {
        errorcode := EOVERFLOW;
      }
      var kb := DetectSuffix(rest, "KB");
      if kb {
        if val > INT_MAX / 0x400 || val < -(-INT_MIN / 0x400) {
          errorcode := EOVERFLOW;
        } else {
          val := val * 0x400;
        }
      } else {
        var mb := DetectSuffix(rest, "MB");
        if mb {
          if val > INT_MAX / 0x10_0000 || val < -(-INT_MIN / 0x10_0000) {
            errorcode := EOVERFLOW;
          } else {
            val := val * 0x10_0000;
          }
        } else {
          var gb := DetectSuffix(rest, "GB");
          if gb {
            if val > INT_MAX / 0x4000_0000 || val < -(-INT_MIN / 0x4000_0000) {
              errorcode := EOVERFLOW;
            } else {
              val := val * 0x4000_0000;
            }
          } else {
            var plain := DetectSuffix(rest, "");
            if !plain {
              errorcode := EBADINT;
            }
          }
        }
      }
    }

    /** Stores the exact value of the argument, if it is one, and an `int`, and there is room. */
    method Scan(argval: Arg) returns (errorcode: int)
      requires Valid() && (argval.Str? ==> CString(argval.s))
      modifies this`count, ival
      ensures Valid()
      ensures errorcode == EMAXCOUNT <==> old(count) == maxcount
      ensures errorcode == EBADINT <==> old(count) < maxcount && argval.Str? && Meaning(argval.s).None?
      ensures errorcode == EOVERFLOW
        <==> old(count) < maxcount && argval.Str? && Meaning(argval.s).Some? && !IsInt(Meaning(argval.s).value)
      ensures errorcode == 0
        <==> old(count) < maxcount && (argval.Str? ==> Meaning(argval.s).Some? && IsInt(Meaning(argval.s).value))
      ensures count == old(count) + if errorcode == 0 then 1 else 0
      ensures ival[..] == if errorcode == 0 && argval.Str? then old(ival[..])[old(count) := Meaning(argval.s).value]
                          else old(ival[..])
    {
      hide Number, Multiplier;
      if count == maxcount {
        return EMAXCOUNT;
      }
      if argval.Null? {
        count := count + 1;
        return 0;
      }
      var val, end := ScanNumber(argval.s);
      if end == 0 {
        return EBADINT;
      }
      ghost var exact := Number(argval.s).value.value;
      errorcode, val := ApplyUnit(val, argval.s[end..], exact);
      if errorcode == 0 {
        ival[count] := val;
        count := count + 1;
      }
    }
  }

  // ----- what can be written -----

  /** What `strtol` reads: spaces, a sign, in base 16 perhaps a prefix, and digits. */
  datatype Numeral = Numeral(space: string, sign: string, prefix: string, digits: string) {
    predicate Proper(base: nat) {
      && (forall i :: 0 <= i < |space| ==> IsSpace(space[i]))
      && (sign == "" || sign == "+" || sign == "-")
      && (prefix == "" || (base == 16 && |prefix| == 2 && prefix[0] == '0' && ToUpper(prefix[1]) == 'X'))
      && digits != "" && forall i :: 0 <= i < |digits| ==> Digit(digits[i]) < base
    }

    function Text(): string {
      space + sign + prefix + digits
    }

    function Value(base: nat): int {
      (if sign == "-" then -1 else 1) * Magnitude(digits, base)
    }
  }

  /** An integer as it is written: with or without a base prefix, a unit, and spaces at the end.
      After a base prefix there may be spaces and a second sign. */
  datatype Literal =
    | Decimal(number: Numeral, unit: string, trailing: string)
    | Based(space: string, sign: string, letter: char, number: Numeral, unit: string, trailing: string)
  {
    function Base(): nat {
      if Decimal? then 10 else if ToUpper(letter) == 'X' then 16 else if ToUpper(letter) == 'O' then 8 else 2
    }

    predicate Proper() {
      && number.Proper(Base())
      && (unit == "" || Alike(unit, "KB") || Alike(unit, "MB") || Alike(unit, "GB"))
      && (forall i :: 0 <= i < |trailing| ==> IsSpace(trailing[i]))
      && (Based? ==>
            && (forall i :: 0 <= i < |space| ==> IsSpace(space[i]))
            && (sign == "" || sign == "+" || sign == "-")
            && (ToUpper(letter) == 'X' || ToUpper(letter) == 'O' || ToUpper(letter) == 'B'))
    }

    function Front(): string {
      if Decimal? then "" else space + sign + ['0', letter]
    }

    function Text(): string {
      Front() + (number.Text() + (unit + trailing))
    }

    function Unit(): int {
      if Alike(unit, "KB") then 0x400 else if Alike(unit, "MB") then 0x10_0000
        else if Alike(unit, "GB") then 0x4000_0000 else 1
    }

    function Value(): int {
      (if Based? && sign == "-" then -1 else 1) * number.Value(Base()) * Unit()
    }
  }

  lemma {:induction false} SpacesIs(s: string, n: nat)
    requires n <= |s| && (n < |s| ==> !IsSpace(s[n])) && forall i :: 0 <= i < n ==> IsSpace(s[i])
    ensures Spaces(s) == n
  {
    assert !(Spaces(s) < n);
    assert !(n < Spaces(s));
  }

  lemma {:induction false} DigitsIs(s: string, base: nat, n: nat)
    requires n <= |s| && (n < |s| ==> Digit(s[n]) >= base) && forall i :: 0 <= i < n ==> Digit(s[i]) < base
    ensures Digits(s, base) == n
  {
    assert !(Digits(s, base) < n);
    assert !(n < Digits(s, base));
  }

  /** Something that can follow a number: a unit, spaces, or nothing. */
  predicate Ends(rest: string) {
    rest == "" || IsSpace(rest[0]) || ToUpper(rest[0]) == 'K' || ToUpper(rest[0]) == 'M' || ToUpper(rest[0]) == 'G'
  }

  /** Where the parts of a numeral are. */
  predicate PartsAt(s: string, base: nat, i: nat, j: nat, k: nat, d: nat) {
    && i <= j <= k && k + d <= |s| && d > 0
    && (forall m :: 0 <= m < i ==> IsSpace(s[m])) && !IsSpace(s[i])
    && (j == i || (j == i + 1 && IsSign(s[i]))) && !IsSign(s[j])
    && (k == j || k == j + 2) && (k == j + 2 <==> HexPrefixAt(s, j, base))
    && (forall m :: k <= m < k + d ==> Digit(s[m]) < base) && (k + d < |s| ==> Digit(s[k + d]) >= base)
  }

  lemma ExactAt(s: string, base: nat, i: nat, j: nat, k: nat, d: nat)
    requires PartsAt(s, base, i, j, k, d)
    ensures Exact(s, base) == Some(Parsed((if s[i] == '-' then -1 else 1) * Magnitude(s[k..k + d], base), k + d))
  {
    hide Digit, Magnitude, Spaces, Digits, HexPrefixAt, IsSpace;
    SpacesIs(s, i);
    assert AfterSign(s, i) == j;
    DigitsIs(s[k..], base, d);
    assert s[k..][..d] == s[k..k + d];
  }

  lemma Slices(a: string, b: string, c: string, d: string, rest: string)
    ensures var s := a + b + c + d + rest; var i := |a|; var j := i + |b|; var k := j + |c|;
      && (forall m :: 0 <= m < i ==> s[m] == a[m]) && (forall m :: i <= m < j ==> s[m] == b[m - i])
      && (forall m :: j <= m < k ==> s[m] == c[m - j]) && (forall m :: k <= m < k + |d| ==> s[m] == d[m - k])
      && (forall m :: k + |d| <= m < |s| ==> s[m] == rest[m - k - |d|])
      && s[k..k + |d|] == d && |s| == k + |d| + |rest|
  {
  }

  /** A numeral is read back. */
  lemma ExactOfText(n: Numeral, base: nat, rest: string)
    requires n.Proper(base) && base <= 16 && Ends(rest)
    ensures Exact(n.Text() + rest, base) == Some(Parsed(n.Value(base), |n.Text()|))
  {
    hide Exact, Magnitude, PartsAt, Ends, ToUpper, Digit, IsSpace;
    var s := n.Text() + rest;
    var i := |n.space|;
    var j := i + |n.sign|;
    var k := j + |n.prefix|;
    var d := |n.digits|;
    Slices(n.space, n.sign, n.prefix, n.digits, rest);
    assert s[k] == n.digits[0];
    assert k + d < |s| ==> s[k + d] == rest[0];
    TextParts(n, base, rest, s, i, j, k, d);
    ExactAt(s, base, i, j, k, d);
  }

  lemma TextParts(n: Numeral, base: nat, rest: string, s: string, i: nat, j: nat, k: nat, d: nat)
    requires n.Proper(base) && base <= 16 && Ends(rest)
    requires i == |n.space| && j == i + |n.sign| && k == j + |n.prefix| && d == |n.digits| && |s| == k + d + |rest|
    requires (forall m :: 0 <= m < i ==> s[m] == n.space[m]) && (forall m :: i <= m < j ==> s[m] == n.sign[m - i])
    requires (forall m :: j <= m < k ==> s[m] == n.prefix[m - j])
      && (forall m :: k <= m < k + d ==> s[m] == n.digits[m - k])
    requires k + d < |s| ==> s[k + d] == rest[0]
    ensures PartsAt(s, base, i, j, k, d) && (s[i] == '-' <==> n.sign == "-")
  {
    assert Digit(n.digits[0]) < base;
    if k == j {
      assert s[j] == n.digits[0];
      if d > 1 {
        assert Digit(s[j + 1]) < 16;
      }
      assert !HexPrefixAt(s, j, base);
    } else {
      assert s[j] == n.prefix[0] && s[j + 1] == n.prefix[1] && s[j + 2] == n.digits[0];
    }
  }

  /** Whatever is read is a numeral. */
  lemma TextOfExact(s: string, base: nat) returns (n: Numeral)
    requires Exact(s, base).Some?
    ensures n.Proper(base) && Exact(s, base).value == Parsed(n.Value(base), |n.Text()|) && s[..|n.Text()|] == n.Text()
  {
    hide *;
    var i, j, k, m := ExactParts(s, base);
    NumeralParts(s, base, i, j, k, m);
    n := Numeral(s[..i], s[i..j], s[j..k], s[k..m]);
  }

  lemma ExactParts(s: string, base: nat) returns (i: nat, j: nat, k: nat, m: nat)
    requires Exact(s, base).Some?
    ensures j == AfterSign(s, i) && i <= j <= k < m <= |s|
    ensures Numeral(s[..i], s[i..j], s[j..k], s[k..m]).Proper(base)
    ensures Exact(s, base).value == Parsed(SignAt(s, i) * Magnitude(s[k..m], base), m)
  {
    hide Digit, Magnitude, Spaces, Digits, IsSpace, AfterSign, SignAt, HexPrefixAt, ToUpper;
    i := Spaces(s);
    j := AfterSign(s, i);
    k := if HexPrefixAt(s, j, base) then j + 2 else j;
    m := k + Digits(s[k..], base);
    SignSlice(s, i);
    HexPrefixSlice(s, j, base);
    DigitsSlice(s, k, base);
    ProperParts(Numeral(s[..i], s[i..j], s[j..k], s[k..m]), base);
  }

  lemma NumeralParts(s: string, base: nat, i: nat, j: nat, k: nat, m: nat)
    requires j == AfterSign(s, i) && i <= j <= k < m <= |s|
    ensures var n := Numeral(s[..i], s[i..j], s[j..k], s[k..m]);
      n.Text() == s[..m] && |n.Text()| == m && n.Value(base) == SignAt(s, i) * Magnitude(s[k..m], base)
  {
    hide Magnitude, Digit;
    SignSlice(s, i);
    hide AfterSign, SignAt;
    FourSlices(s, i, j, k, m);
  }

  lemma ProperParts(n: Numeral, base: nat)
    requires (forall i :: 0 <= i < |n.space| ==> IsSpace(n.space[i])) && n.sign in ["", "+", "-"]
    requires n.prefix != "" ==>
      base == 16 && |n.prefix| == 2 && n.prefix[0] == '0' && ToUpper(n.prefix[1]) == 'X'
    requires n.digits != "" && forall i :: 0 <= i < |n.digits| ==> Digit(n.digits[i]) < base
    ensures n.Proper(base)
  {
    hide Digit, IsSpace, ToUpper;
  }

  lemma HexPrefixSlice(s: string, j: nat, base: nat)
    ensures HexPrefixAt(s, j, base) ==>
      base == 16 && j + 2 < |s| && s[j..j + 2][0] == '0' && ToUpper(s[j..j + 2][1]) == 'X'
  {
  }

  lemma DigitsSlice(s: string, k: nat, base: nat)
    requires k <= |s|
    ensures k + Digits(s[k..], base) <= |s|
    ensures var digits := s[k..k + Digits(s[k..], base)]; forall m :: 0 <= m < |digits| ==> Digit(digits[m]) < base
  {
    var digits := s[k..k + Digits(s[k..], base)];
    forall m | 0 <= m < |digits| ensures Digit(digits[m]) < base {
      assert digits[m] == s[k..][m];
    }
  }

  lemma FourSlices(s: string, i: nat, j: nat, k: nat, m: nat)
    requires i <= j <= k <= m <= |s|
    ensures Numeral(s[..i], s[i..j], s[j..k], s[k..m]).Text() == s[..m]
  {
  }

  lemma SignSlice(s: string, i: nat)
    requires i <= |s|
    ensures i <= AfterSign(s, i) <= |s|
    ensures var sign := s[i..AfterSign(s, i)];
      (sign == "" || sign == "+" || sign == "-") && SignAt(s, i) == if sign == "-" then -1 else 1
  {
  }

  // ----- base prefixes -----

  /** Spaces, a sign, a zero and a letter, as the prefix reader finds them. */
  lemma FrontAt(space: string, sign: string, letter: char, rest: string)
    requires (forall i :: 0 <= i < |space| ==> IsSpace(space[i])) && (sign == "" || sign == "+" || sign == "-")
    ensures var s := space + sign + ['0', letter] + rest; var j := |space| + |sign|;
      && Spaces(s) == |space| && AfterSign(s, |space|) == j
      && SignAt(s, |space|) == (if sign == "-" then -1 else 1)
      && s[j] == '0' && s[j + 1] == letter && s[j + 2..] == rest
  {
    hide Spaces;
    var s := space + sign + ['0', letter] + rest;
    Slices(space, sign, ['0'], [letter], rest);
    assert s == space + sign + ['0'] + [letter] + rest;
    SpacesIs(s, |space|);
  }

  lemma PrefixedAt(s: string, X: char, base: nat, i: nat, j: nat, letter: char, later: string, value: int, end: nat)
    requires Spaces(s) == i && AfterSign(s, i) == j && j + 2 <= |s|
    requires s[j] == '0' && s[j + 1] == letter && s[j + 2..] == later
    requires Exact(later, base) == Some(Parsed(value, end))
    ensures Prefixed(s, X, base)
         == if ToUpper(letter) != X then None else Some(Parsed(SignAt(s, i) * value, j + 2 + end))
  {
    hide Exact, Spaces, AfterSign, SignAt, ToUpper;
  }

  lemma PrefixedOfText(space: string, sign: string, letter: char, n: Numeral, base: nat, rest: string, X: char)
    requires (forall i :: 0 <= i < |space| ==> IsSpace(space[i])) && (sign == "" || sign == "+" || sign == "-")
    requires n.Proper(base) && base <= 16 && Ends(rest) && 'A' <= X <= 'Z'
    ensures var front := space + sign + ['0', letter]; var s := front + (n.Text() + rest);
      Prefixed(s, X, base) == if ToUpper(letter) != X then None
        else Some(Parsed(if sign == "-" then -n.Value(base) else n.Value(base), |front| + |n.Text()|))
  {
    hide *;
    ExactOfText(n, base, rest);
    PrefixedBefore(space, sign, letter, base, n.Text() + rest, X, n.Value(base), |n.Text()|);
  }

  lemma PrefixedBefore(space: string, sign: string, letter: char, base: nat, later: string, X: char, value: int,
                       end: nat)
    requires (forall i :: 0 <= i < |space| ==> IsSpace(space[i])) && (sign == "" || sign == "+" || sign == "-")
    requires Exact(later, base) == Some(Parsed(value, end))
    ensures var front := space + sign + ['0', letter];
      Prefixed(front + later, X, base) == if ToUpper(letter) != X then None
        else Some(Parsed(if sign == "-" then -value else value, |front| + end))
  {
    hide Exact, Prefixed, Spaces, AfterSign, SignAt, IsSpace, ToUpper;
    FrontAt(space, sign, letter, later);
    PrefixedAt(space + sign + ['0', letter] + later, X, base, |space|, |space| + |sign|, letter, later, value, end);
  }

  /** A decimal has no base prefix. */
  lemma NoPrefixOfText(n: Numeral, rest: string, X: char, base: nat)
    requires n.Proper(10) && Ends(rest) && (X == 'X' || X == 'O' || X == 'B')
    ensures Prefixed(n.Text() + rest, X, base) == None
  {
    DecimalAt(n, rest);
    hide *;
    NoPrefixAt(n.Text() + rest, |n.space|, |n.space| + |n.sign|, X, base);
  }

  /** After its sign and one more character, a decimal has no letter of a base. */
  lemma DecimalAt(n: Numeral, rest: string)
    requires n.Proper(10) && Ends(rest)
    ensures var s := n.Text() + rest; var j := |n.space| + |n.sign|;
      && Spaces(s) == |n.space| && AfterSign(s, |n.space|) == j
      && ToUpper(At(s, j + 1)) !in "XOB"
  {
    hide Spaces;
    var s := n.Text() + rest;
    var i := |n.space|;
    var j := i + |n.sign|;
    Slices(n.space, n.sign, "", n.digits, rest);
    assert n.Text() == n.space + n.sign + "" + n.digits;
    assert s[j] == n.digits[0] && Digit(n.digits[0]) < 10;
    SpacesIs(s, i);
    if |n.digits| > 1 {
      assert s[j + 1] == n.digits[1] && Digit(n.digits[1]) < 10;
    } else if rest != "" {
      assert s[j + 1] == rest[0];
    }
  }

  lemma NoPrefixAt(s: string, i: nat, j: nat, X: char, base: nat)
    requires Spaces(s) == i && AfterSign(s, i) == j
    requires ToUpper(At(s, j + 1)) !in "XOB" && (X == 'X' || X == 'O' || X == 'B')
    ensures Prefixed(s, X, base) == None
  {
    hide Exact, Spaces, AfterSign, SignAt, ToUpper, At;
  }

  /** Whatever is read after a base prefix is a numeral. */
  lemma TextOfPrefixed(s: string, X: char, base: nat) returns (space: string, sign: string, letter: char, n: Numeral)
    requires 'A' <= X <= 'Z' && Prefixed(s, X, base).Some?
    ensures (forall i :: 0 <= i < |space| ==> IsSpace(space[i])) && (sign == "" || sign == "+" || sign == "-")
    ensures n.Proper(base) && ToUpper(letter) == X
    ensures var front := space + sign + ['0', letter];
      && Prefixed(s, X, base).value == Parsed((if sign == "-" then -1 else 1) * n.Value(base), |front| + |n.Text()|)
      && s[..|front| + |n.Text()|] == front + n.Text()
  {
    hide Exact, Magnitude, Spaces;
    var i := Spaces(s);
    var j := AfterSign(s, i);
    space, sign, letter := s[..i], s[i..j], s[j + 1];
    n := TextOfExact(s[j + 2..], base);
    var front := space + sign + ['0', letter];
    assert s[..j + 2] == front;
    assert s[j + 2..][..|n.Text()|] == s[j + 2..j + 2 + |n.Text()|];
  }

  // ----- units -----

  lemma MultiplierOfText(unit: string, trailing: string)
    requires unit == "" || Alike(unit, "KB") || Alike(unit, "MB") || Alike(unit, "GB")
    requires forall i :: 0 <= i < |trailing| ==> IsSpace(trailing[i])
    ensures Ends(unit + trailing)
    ensures Multiplier(unit + trailing)
      == Some(if Alike(unit, "KB") then 0x400 else if Alike(unit, "MB") then 0x10_0000
              else if Alike(unit, "GB") then 0x4000_0000 else 1)
  {
    var s := unit + trailing;
    assert s[..|unit|] == unit;
    if unit == "" {
      assert s == trailing && s[..0] == "";
      assert forall suffix: string :: |suffix| == 2 && SuffixOf(s, suffix) ==> ToUpper(s[0]) == ToUpper(suffix[0]);
      assert SuffixOf(s, "");
    } else {
      assert forall suffix: string :: |suffix| == 2 ==> (SuffixOf(s, suffix) <==> Alike(unit, suffix));
    }
  }

  lemma TextOfMultiplier(s: string) returns (unit: string, trailing: string)
    requires Multiplier(s).Some?
    ensures s == unit + trailing && (unit == "" || Alike(unit, "KB") || Alike(unit, "MB") || Alike(unit, "GB"))
    ensures forall i :: 0 <= i < |trailing| ==> IsSpace(trailing[i])
  {
    var n := if SuffixOf(s, "KB") || SuffixOf(s, "MB") || SuffixOf(s, "GB") then 2 else 0;
    unit, trailing := s[..n], s[n..];
  }

  // ----- the whole argument -----

  /** Every integer that is properly written means its value. */
  lemma MeaningOfText(l: Literal)
    requires l.Proper()
    ensures Meaning(l.Text()) == Some(l.Value())
  {
    if l.Decimal? {
      MeaningOfDecimal(l);
    } else {
      MeaningOfBased(l);
    }
  }

  lemma MeaningOfDecimal(l: Literal)
    requires l.Proper() && l.Decimal?
    ensures Meaning(l.Text()) == Some(l.Value())
  {
    hide Prefixed, Exact, Multiplier, Magnitude;
    var n, rest := l.number, l.unit + l.trailing;
    MultiplierOfText(l.unit, l.trailing);
    assert l.Text() == n.Text() + rest;
    assert l.Text()[|n.Text()|..] == rest;
    NoPrefixOfText(n, rest, 'X', 16);
    NoPrefixOfText(n, rest, 'O', 8);
    NoPrefixOfText(n, rest, 'B', 2);
    ExactOfText(n, 10, rest);
  }

  lemma MeaningOfBased(l: Literal)
    requires l.Proper() && l.Based?
    ensures Meaning(l.Text()) == Some(l.Value())
  {
    hide Prefixed, Exact, Multiplier, Magnitude;
    var n, rest := l.number, l.unit + l.trailing;
    MultiplierOfText(l.unit, l.trailing);
    assert l.Text()[|l.Front()| + |n.Text()|..] == rest;
    var X := ToUpper(l.letter);
    PrefixedOfText(l.space, l.sign, l.letter, n, l.Base(), rest, X);
    if X != 'X' {
      OtherPrefix(l.space, l.sign, l.letter, n.Text() + rest, 'X', 16);
    }
    if X == 'B' {
      OtherPrefix(l.space, l.sign, l.letter, n.Text() + rest, 'O', 8);
    }
  }

  lemma OtherPrefix(space: string, sign: string, letter: char, rest: string, X: char, base: nat)
    requires (forall i :: 0 <= i < |space| ==> IsSpace(space[i])) && (sign == "" || sign == "+" || sign == "-")
    requires ToUpper(letter) != X
    ensures Prefixed(space + sign + ['0', letter] + rest, X, base) == None
  {
    FrontAt(space, sign, letter, rest);
    hide Exact, Spaces, AfterSign, SignAt, IsSpace, ToUpper;
  }

  lemma Regrouped(a: string, b: string, c: string)
    ensures a + b + c == a + (b + c)
  {
  }

  lemma BasedText(s: string, X: char, base: nat, unit: string, trailing: string) returns (l: Literal)
    requires Prefixed(s, X, base).Some? && s[Prefixed(s, X, base).value.end..] == unit + trailing
    requires (X == 'X' && base == 16) || (X == 'O' && base == 8) || (X == 'B' && base == 2)
    requires (unit == "" || Alike(unit, "KB") || Alike(unit, "MB") || Alike(unit, "GB"))
    requires forall i :: 0 <= i < |trailing| ==> IsSpace(trailing[i])
    ensures l.Proper() && l.Text() == s && l.Value() == Prefixed(s, X, base).value.value * l.Unit() && l.unit == unit
  {
    hide Prefixed, Magnitude, Alike, IsSpace, ToUpper;
    var space, sign, letter, n := TextOfPrefixed(s, X, base);
    l := Based(space, sign, letter, n, unit, trailing);
    assert s == s[..Prefixed(s, X, base).value.end] + (unit + trailing);
    Regrouped(space + sign + ['0', letter], n.Text(), unit + trailing);
  }

  /** Whatever means something is an integer that is properly written. */
  lemma TextOfMeaning(s: string) returns (l: Literal)
    requires Meaning(s).Some?
    ensures l.Proper() && l.Text() == s && l.Value() == Meaning(s).value
  {
    hide Prefixed, Exact, Multiplier, Magnitude, Alike;
    var number := Number(s).value;
    var rest := s[number.end..];
    var unit, trailing := TextOfMultiplier(rest);
    MultiplierOfText(unit, trailing);
    if Prefixed(s, 'X', 16).Some? {
      l := BasedText(s, 'X', 16, unit, trailing);
    } else if Prefixed(s, 'O', 8).Some? {
      l := BasedText(s, 'O', 8, unit, trailing);
    } else if Prefixed(s, 'B', 2).Some? {
      l := BasedText(s, 'B', 2, unit, trailing);
    } else {
      var n := TextOfExact(s, 10);
      l := Decimal(n, unit, trailing);
      assert s == s[..number.end] + rest;
      assert l.Text() == n.Text() + rest;
    }
  }

  /** The arguments that mean a value are exactly the written forms of that value. */
  lemma MeaningIff(s: string, v: int)
    ensures Meaning(s) == Some(v) <==> exists l: Literal :: l.Proper() && l.Text() == s && l.Value() == v
  {
    hide *;
    if Meaning(s) == Some(v) {
      var l := TextOfMeaning(s);
    }
    if l: Literal :| l.Proper() && l.Text() == s && l.Value() == v {
      MeaningOfText(l);
    }
  }
}
