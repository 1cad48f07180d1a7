/**
 * The pieces of the C library that multi_ir.c leans on, as functions over
 * strings: the character classes of <ctype.h>, `strncmp` prefix tests,
 * `strstr`, the whitespace tokens `sscanf("%s %d %s")` reads, the decimal
 * number `%d` reads, and the hexadecimal number `strtol(.., 16)` reads.
 * Strings hold no NUL character, so a C string is its whole sequence.
 * Each `char` stands for one byte of the C string: offsets, lengths and
 * buffer bounds count characters as bytes, and multi-byte encodings such
 * as UTF-8 are not modelled.
 */
module CStrings {

  datatype Option<T> = None | Some(value: T)

  /** `isspace` in the C locale. */
  predicate IsSpace(c: char) {
    c == ' ' || c == '\t' || c == '\n' || c == '\U{B}' || c == '\U{C}' || c == '\r'
  }

  /** `isdigit`. */
  predicate IsDigit(c: char) {
    '0' <= c <= '9'
  }

  /** `isxdigit`. */
  predicate IsHexDigit(c: char) {
    IsDigit(c) || 'a' <= c <= 'f' || 'A' <= c <= 'F'
  }

  function HexDigitValue(c: char): (d: nat)
    requires IsHexDigit(c)
    ensures d < 16
    ensures IsDigit(c) <==> d < 10
  {
    if IsDigit(c) then c as int - '0' as int
    else if 'a' <= c <= 'f' then c as int - 'a' as int + 10
    else c as int - 'A' as int + 10
  }

  /**
   * `strncmp(s + off, p, strlen(p)) == 0`: the text at offset `off` begins
   * with `p`. A text that ends early never matches, since its terminator
   * differs from every character of `p`.
   */
  predicate HasPrefixAt(s: string, off: nat, p: string) {
    off + |p| <= |s| && s[off..off + |p|] == p
  }

  // ---------------------------------------------------------------------
  // strstr

  /** The text `pat` occurs in `text` starting at index `i`. */
  predicate OccursAt(text: string, pat: string, i: nat) {
    HasPrefixAt(text, i, pat)
  }

  /** The first occurrence of `pat` in `text` at or after index `i`. */
  function FindFrom(text: string, pat: string, i: nat): (r: Option<nat>)
    requires i <= |text|
    ensures r.Some? ==> i <= r.value <= |text| && OccursAt(text, pat, r.value)
    ensures r.Some? ==> forall j :: i <= j < r.value ==> !OccursAt(text, pat, j)
    ensures r.None? ==> forall j :: i <= j <= |text| ==> !OccursAt(text, pat, j)
    decreases |text| - i
  {
    if OccursAt(text, pat, i) then Some(i)
    else if i == |text| then None
    else FindFrom(text, pat, i + 1)
  }

  /** An occurrence with none before it (from `i` on) is what `FindFrom` finds. */
  lemma FindFromIsFirst(text: string, pat: string, i: nat, k: nat)
    requires i <= k <= |text| && OccursAt(text, pat, k)
    requires forall j :: i <= j < k ==> !OccursAt(text, pat, j)
    ensures FindFrom(text, pat, i) == Some(k)
  {
  }

  /** A one-character text occurs exactly where that character is. */
  lemma OccursCharAt(text: string, c: char, j: nat)
    ensures OccursAt(text, [c], j) <==> j < |text| && text[j] == c
  {
    if j < |text| {
      assert text[j..j + 1] == [text[j]];
    }
  }

  /** Whether `pat` occurs at `j` depends only on the text up to the end of the occurrence. */
  lemma OccursAtInPrefix(text: string, n: nat, pat: string, j: nat)
    requires j + |pat| <= n <= |text|
    ensures OccursAt(text, pat, j) <==> OccursAt(text[..n], pat, j)
  {
    assert text[..n][j..j + |pat|] == text[j..j + |pat|];
  }

  /** `strstr`: the index of the first occurrence of `pat`, if any. */
  function StrStr(text: string, pat: string): Option<nat>
  {
    FindFrom(text, pat, 0)
  }

  // ---------------------------------------------------------------------
  // Whitespace tokens, as `%s` reads them

  /** A token `%s` can read: one or more non-space characters. */
  predicate IsToken(t: string) {
    t != [] && forall i :: 0 <= i < |t| ==> !IsSpace(t[i])
  }

  /** Length of the run of non-space characters that starts `s`. */
  function TokenLength(s: string): (n: nat)
    ensures n <= |s|
    ensures forall i :: 0 <= i < n ==> !IsSpace(s[i])
    ensures n == |s| || IsSpace(s[n])
  {
    if s == [] || IsSpace(s[0]) then 0 else 1 + TokenLength(s[1..])
  }

  /** The whitespace-separated tokens of `s`, in order. */
  function Tokens(s: string): (ts: seq<string>)
    ensures forall i :: 0 <= i < |ts| ==> IsToken(ts[i])
    decreases |s|
  {
    if s == [] then []
    else if IsSpace(s[0]) then Tokens(s[1..])
    else
      var n := TokenLength(s);
      [s[..n]] + Tokens(s[n..])
  }

  lemma {:induction false} TokenLengthOfToken(t: string, rest: string)
    requires IsToken(t)
    requires rest == [] || IsSpace(rest[0])
    ensures TokenLength(t + rest) == |t|
    decreases |t|
  {
    if |t| > 1 {
      assert (t + rest)[1..] == t[1..] + rest;
      TokenLengthOfToken(t[1..], rest);
    } else {
      assert (t + rest)[1..] == rest;
    }
  }

  /** A token followed by a space or the end is read as one token. */
  lemma TokensOfToken(t: string, rest: string)
    requires IsToken(t)
    requires rest == [] || IsSpace(rest[0])
    ensures Tokens(t + rest) == [t] + Tokens(rest)
  {
    TokenLengthOfToken(t, rest);
    assert (t + rest)[..|t|] == t;
    assert (t + rest)[|t|..] == rest;
  }

  /** A token and a space are read as that token, then whatever follows. */
  lemma TokensOfTokenSpace(t: string, rest: string)
    requires IsToken(t)
    ensures Tokens(t + " " + rest) == [t] + Tokens(rest)
  {
    var srest := " " + rest;
    assert t + " " + rest == t + srest;
    TokensOfToken(t, srest);
    assert srest[1..] == rest;
  }

  /** Three tokens joined by single spaces read back as those three tokens. */
  lemma TokensOfTriple(a: string, b: string, c: string)
    requires IsToken(a) && IsToken(b) && IsToken(c)
    ensures Tokens(a + " " + b + " " + c) == [a, b, c]
  {
    var bc := b + " " + c;
    assert a + " " + b + " " + c == a + " " + bc;
    TokensOfToken(c, []);
    assert c + [] == c;
    TokensOfTokenSpace(b, c);
    TokensOfTokenSpace(a, bc);
  }

  // ---------------------------------------------------------------------
  // Decimal numbers, as `%d` reads them

  predicate IsDigits(s: string) {
    forall i :: 0 <= i < |s| ==> IsDigit(s[i])
  }

  /** The value of a string of decimal digits (0 for the empty string). */
  function DigitsValue(s: string): nat
    requires IsDigits(s)
    decreases |s|
  {
    if s == [] then 0 else 10 * DigitsValue(s[..|s| - 1]) + (s[|s| - 1] as int - '0' as int)
  }

  /** A token that `%d` reads whole: an optional sign, then one or more digits. */
  predicate IsDecimal(t: string) {
    if t != [] && (t[0] == '+' || t[0] == '-') then |t| > 1 && IsDigits(t[1..])
    else t != [] && IsDigits(t)
  }

  function DecimalValue(t: string): int
    requires IsDecimal(t)
  {
    if t[0] == '-' then -(DigitsValue(t[1..]) as int)
    else if t[0] == '+' then DigitsValue(t[1..])
    else DigitsValue(t)
  }

  /** The shortest decimal spelling of `n`, as `printf("%d")` writes it. */
  function NatToDigits(n: nat): (s: string)
    ensures s != [] && IsDigits(s)
    ensures s[0] != '+' && s[0] != '-'
    decreases n
  {
    if n < 10 then [('0' as int + n) as char]
    else NatToDigits(n / 10) + [('0' as int + n % 10) as char]
  }

  /** Reading back the decimal spelling of a number gives the number. */
  lemma {:induction false} NatToDigitsRoundTrip(n: nat)
    ensures IsDecimal(NatToDigits(n)) && DecimalValue(NatToDigits(n)) == n
  {
    var s := NatToDigits(n);
    if n >= 10 {
      NatToDigitsRoundTrip(n / 10);
      assert s[..|s| - 1] == NatToDigits(n / 10);
      assert DigitsValue(s) == 10 * (n / 10) + n % 10;
    } else {
      assert DigitsValue(s) == 10 * DigitsValue(s[..0]) + n;
    }
  }

  // ---------------------------------------------------------------------
  // Hexadecimal numbers, as `strtol(.., 16)` reads them

  predicate AllHex(s: string) {
    forall i :: 0 <= i < |s| ==> IsHexDigit(s[i])
  }

  function Pow16(n: nat): (p: nat)
    ensures p >= 1
  {
    if n == 0 then 1 else 16 * Pow16(n - 1)
  }

  /** The value of a string of hexadecimal digits, either case. */
  function HexValue(s: string): (v: nat)
    requires AllHex(s)
    ensures v < Pow16(|s|)
    decreases |s|
  {
    if s == [] then 0 else 16 * HexValue(s[..|s| - 1]) + HexDigitValue(s[|s| - 1])
  }

  /** Length of the run of hexadecimal digits that starts `s`. */
  function HexRunLength(s: string): (n: nat)
    ensures n <= |s| && AllHex(s[..n])
    ensures n == |s| || !IsHexDigit(s[n])
  {
    if s == [] || !IsHexDigit(s[0]) then 0
    else
      var m := HexRunLength(s[1..]);
      assert s[..1 + m] == [s[0]] + s[1..][..m];
      1 + m
  }

  /**
   * `strtol(s, &end, 16)` on a text whose first two characters are hex
   * digits: no leading space, no sign and no "0x" prefix can be present, so
   * the result is the value of the longest run of hex digits at the start.
   * (Overflow of `long` is not modelled: the value is unbounded.)
   */
  function Strtol16(s: string): nat
    requires |s| >= 2 && IsHexDigit(s[0]) && IsHexDigit(s[1])
  {
    HexValue(s[..HexRunLength(s)])
  }

  /** Appending a digit to a hex string multiplies its value by 16 and adds the digit. */
  lemma HexValueSnoc(s: string, c: char)
    requires AllHex(s) && IsHexDigit(c)
    ensures AllHex(s + [c]) && HexValue(s + [c]) == 16 * HexValue(s) + HexDigitValue(c)
  {
    assert (s + [c])[..|s|] == s;
  }

  /** `strtol` stops at the first character that is not a hex digit. */
  lemma Strtol16OfRun(s: string, k: nat)
    requires 2 <= k < |s| && AllHex(s[..k]) && !IsHexDigit(s[k])
    ensures IsHexDigit(s[0]) && IsHexDigit(s[1])
    ensures Strtol16(s) == HexValue(s[..k])
  {
    assert IsHexDigit(s[..k][0]) && IsHexDigit(s[..k][1]);
    assert forall i :: 0 <= i < k ==> IsHexDigit(s[..k][i]);
    assert HexRunLength(s) == k;
  }

  /** Four hex digits followed by a non-hex character read as a 16-bit value. */
  lemma Strtol16OfFourDigits(s: string)
    requires |s| >= 5 && AllHex(s[..4]) && !IsHexDigit(s[4])
    ensures IsHexDigit(s[0]) && IsHexDigit(s[1])
    ensures Strtol16(s) == HexValue(s[..4]) <= 0xFFFF
  {
    Strtol16OfRun(s, 4);
    assert Pow16(4) == 0x10000;
  }
}
