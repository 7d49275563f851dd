/** Character classes and string operations with the meaning JavaScript gives them.
    A Dafny char is a Unicode scalar value, where JavaScript strings hold UTF-16
    code units: a character outside the Basic Multilingual Plane is one char here
    and two code units there. */
module Text {

  /** Line terminators: `.` in a regular expression stops at them, and `^` in
      multiline mode matches right after them. */
  predicate IsLineTerminator(c: char) {
    c == '\n' || c == '\r' || c == '\U{2028}' || c == '\U{2029}'
  }

  /** The class `\s`, which is also the set that `String.prototype.trim` strips. */
  predicate IsSpace(c: char) {
    IsLineTerminator(c) || c == '\t' || c == '\U{B}' || c == '\U{C}' || c == ' '
    || c == '\U{A0}' || c == '\U{1680}' || ('\U{2000}' <= c <= '\U{200A}')
    || c == '\U{202F}' || c == '\U{205F}' || c == '\U{3000}' || c == '\U{FEFF}'
  }

  /** The class `\w`. */
  predicate IsWordChar(c: char) {
    'a' <= c <= 'z' || 'A' <= c <= 'Z' || '0' <= c <= '9' || c == '_'
  }

  /** The class `\d`. */
  predicate IsDigit(c: char) {
    '0' <= c <= '9'
  }

  /** The class `[a-z0-9]`. */
  predicate IsLowerAlnum(c: char) {
    'a' <= c <= 'z' || '0' <= c <= '9'
  }

  /** `toLowerCase` of one character. Modelled for ASCII, Latin-1 and the only two
      characters outside them that lower-case to ASCII letters (U+0130 and the
      Kelvin sign); every other character is kept, which is what JavaScript does
      for all characters that have no lower-case form. */
  function LowerOf(c: char): (r: string)
    ensures 1 <= |r| <= 2
    ensures IsLowerAlnum(c) || c == '-' || c == '.' ==> r == [c]
  {
    if 'A' <= c <= 'Z' || ('\U{C0}' <= c <= '\U{DE}' && c != '\U{D7}') then [(c as int + 32) as char]
    else if c == '\U{130}' then ['i', '\U{307}']
    else if c == '\U{212A}' then ['k']
    else [c]
  }

  /** `String.prototype.toLowerCase`, character by character. */
  function Lower(s: string): (r: string)
    ensures |r| >= |s|
  {
    if s == [] then [] else LowerOf(s[0]) + Lower(s[1..])
  }

  lemma {:induction false} LowerAppend(s: string, t: string)
    ensures Lower(s + t) == Lower(s) + Lower(t)
  {
    if s == [] {
      assert s + t == t;
    } else {
      assert (s + t)[0] == s[0];
      assert (s + t)[1..] == s[1..] + t;
      LowerAppend(s[1..], t);
    }
  }

  /** Where no character lower-cases to two, lower-casing works character by character. */
  lemma {:induction false} LowerByIndex(s: string)
    requires forall i :: 0 <= i < |s| ==> s[i] != '\U{130}'
    ensures |Lower(s)| == |s|
    ensures forall i :: 0 <= i < |s| ==> Lower(s)[i] == LowerOf(s[i])[0]
  {
    if s != [] {
      LowerByIndex(s[1..]);
      assert forall i :: 1 <= i < |s| ==> Lower(s)[i] == Lower(s[1..])[i - 1];
    }
  }

  /** Lower-casing leaves a string of `[a-z0-9.-]` characters as it is. */
  lemma {:induction false} LowerKeepsLowerAlnum(s: string)
    requires forall i :: 0 <= i < |s| ==> IsLowerAlnum(s[i]) || s[i] == '-' || s[i] == '.'
    ensures Lower(s) == s
  {
    if s != [] {
      LowerKeepsLowerAlnum(s[1..]);
    }
  }

  /** The character `c` upper-cased, for the ASCII letters the status keys use. */
  function UpperOf(c: char): (r: char)
    ensures 'a' <= c <= 'z' ==> 'A' <= r <= 'Z' && r as int == c as int - 32
    ensures !('a' <= c <= 'z') ==> r == c
  {
    if 'a' <= c <= 'z' then (c as int - 32) as char else c
  }

  /** `c` matches the ASCII pattern character `p` under the `i` flag. Regular
      expressions without the `u` flag never fold a non-ASCII character onto an
      ASCII one, so for ASCII patterns this is exact. */
  predicate CiEq(c: char, p: char) {
    c == p || ('a' <= p <= 'z' && c as int == p as int - 32)
  }

  /** `s` starts with `pat`, compared case-insensitively. */
  predicate CiPrefix(s: string, pat: string) {
    |pat| <= |s| && forall k :: 0 <= k < |pat| ==> CiEq(s[k], pat[k])
  }

  /** `s` contains `pat` case-insensitively somewhere. */
  predicate CiContains(s: string, pat: string) {
    exists j :: 0 <= j <= |s| && CiPrefix(s[j..], pat)
  }

  /** No occurrence of `pat` starts at a character that does not match its first one. */
  lemma NoCiPrefixFrom(s: string, pat: string, lo: nat, hi: nat)
    requires pat != [] && lo <= hi <= |s|
    requires forall i :: lo <= i < hi ==> !CiEq(s[i], pat[0])
    ensures forall i :: lo <= i < hi ==> !CiPrefix(s[i..], pat)
  {
    forall i | lo <= i < hi ensures !CiPrefix(s[i..], pat) {
      assert s[i..][0] == s[i];
    }
  }

  /** No occurrence of `pat` starts in `s[lo..hi]` when that slice does not contain
      it and the character at `hi` matches no character of `pat`. */
  lemma NoCiPrefixInside(s: string, pat: string, lo: nat, hi: nat)
    requires lo <= hi < |s|
    requires !CiContains(s[lo..hi], pat)
    requires forall k :: 0 <= k < |pat| ==> !CiEq(s[hi], pat[k])
    ensures forall i :: lo <= i <= hi ==> !CiPrefix(s[i..], pat)
  {
    forall i | lo <= i <= hi ensures !CiPrefix(s[i..], pat) {
      if i + |pat| <= hi {
        assert !CiPrefix(s[lo..hi][i - lo..], pat);
        var k :| 0 <= k < |pat| && !CiEq(s[lo..hi][i - lo..][k], pat[k]);
        assert s[i..][k] == s[lo..hi][i - lo..][k];
      } else {
        assert s[i..][hi - i] == s[hi];
      }
    }
  }

  /** `s.replace(/a/g, b)` for single characters. */
  function ReplaceChar(s: string, a: char, b: char): (r: string)
    ensures |r| == |s|
    ensures forall i :: 0 <= i < |s| ==> r[i] == if s[i] == a then b else s[i]
  {
    if s == [] then [] else [if s[0] == a then b else s[0]] + ReplaceChar(s[1..], a, b)
  }

  /** `s.trimStart()`. */
  function TrimStart(s: string): (r: string)
    ensures |r| <= |s| && r == s[|s| - |r|..]
    ensures r == [] || !IsSpace(r[0])
    ensures forall i :: 0 <= i < |s| - |r| ==> IsSpace(s[i])
  {
    if s != [] && IsSpace(s[0]) then TrimStart(s[1..]) else s
  }

  /** `s.trimEnd()`. */
  function TrimEnd(s: string): (r: string)
    ensures |r| <= |s| && r == s[..|r|]
    ensures r == [] || !IsSpace(r[|r| - 1])
    ensures forall i :: |r| <= i < |s| ==> IsSpace(s[i])
  {
    if s != [] && IsSpace(s[|s| - 1]) then TrimEnd(s[..|s| - 1]) else s
  }

  /** `s.trim()`. */
  function Trim(s: string): string {
    TrimEnd(TrimStart(s))
  }

  /** `Trim` is empty exactly for whitespace-only strings, and otherwise keeps a
      slice of its input that neither starts nor ends with whitespace. */
  lemma {:induction false} TrimShape(s: string)
    ensures Trim(s) == [] <==> forall i :: 0 <= i < |s| ==> IsSpace(s[i])
    ensures Trim(s) != [] ==> !IsSpace(Trim(s)[0]) && !IsSpace(Trim(s)[|Trim(s)| - 1])
    ensures Trim(s) == s[|s| - |TrimStart(s)|..][..|Trim(s)|]
  {
    var t := TrimStart(s);
    var r := TrimEnd(t);
    if r != [] {
      assert r[0] == t[0] == s[|s| - |t|];
    }
  }

  /** The number a string of decimal digits spells. */
  function DecimalValue(s: string): nat
    requires forall i :: 0 <= i < |s| ==> IsDigit(s[i])
  {
    if s == [] then 0
    else
      var last := s[|s| - 1];
      assert IsDigit(last);
      DecimalValue(s[..|s| - 1]) * 10 + (last as int - '0' as int)
  }

  /** Decimal digits of `n`, as a template literal `${n}` prints a whole number:
      they spell `n`, and only zero itself starts with `0`. */
  function NatToString(n: nat): (r: string)
    ensures |r| >= 1
    ensures forall i :: 0 <= i < |r| ==> IsDigit(r[i])
    ensures DecimalValue(r) == n
    ensures r[0] == '0' ==> n == 0
    decreases n
  {
    if n < 10 then [('0' as int + n) as char]
    else
      var front := NatToString(n / 10);
      var r := front + [('0' as int + n % 10) as char];
      assert r[..|r| - 1] == front;
      r
  }
}
