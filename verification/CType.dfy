/** `<ctype.h>` in the "C" locale, for ASCII characters. */
module CType {

  predicate IsUpper(c: char) { 'A' <= c <= 'Z' }
  predicate IsLower(c: char) { 'a' <= c <= 'z' }
  predicate IsAlpha(c: char) { IsUpper(c) || IsLower(c) }
  predicate IsDigit(c: char) { '0' <= c <= '9' }
  predicate IsAlnum(c: char) { IsAlpha(c) || IsDigit(c) }
  predicate IsXDigit(c: char) { IsDigit(c) || 'a' <= c <= 'f' || 'A' <= c <= 'F' }
  predicate IsSpace(c: char) { c == ' ' || 9 <= c as int <= 13 }
  predicate IsPrint(c: char) { 32 <= c as int <= 126 }
  predicate IsCntrl(c: char) { c as int < 32 || c as int == 127 }
  predicate IsPunct(c: char) { IsPrint(c) && c != ' ' && !IsAlnum(c) }

  function ToLower(c: char): char {
    if IsUpper(c) then (c as int + 32) as char else c
  }

  function ToUpper(c: char): char {
    if IsLower(c) then (c as int - 32) as char else c
  }
}
