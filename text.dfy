/** String operations the directory's search relies on: ECMAScript's
    `String.prototype.trim`, `toLowerCase` (on the part of Unicode modelled
    here), `includes`, and the decimal rendering of a count. */
module Text {

  /** ECMAScript WhiteSpace or LineTerminator: the code points `trim` strips. */
  predicate IsSpace(c: char) {
    var n := c as int;
    n == 0x09 || n == 0x0A || n == 0x0B || n == 0x0C || n == 0x0D || n == 0x20 ||
    n == 0xA0 || n == 0x1680 || (0x2000 <= n <= 0x200A) || n == 0x2028 || n == 0x2029 ||
    n == 0x202F || n == 0x205F || n == 0x3000 || n == 0xFEFF
  }

  /** Number of whitespace characters at the start of `s`. */
  function Leading(s: string): (k: nat)
    ensures k <= |s|
    ensures forall m :: 0 <= m < k ==> IsSpace(s[m])
    ensures k < |s| ==> !IsSpace(s[k])
  {
    if s == [] || !IsSpace(s[0]) then 0 else 1 + Leading(s[1..])
  }

  /** Number of whitespace characters at the end of `s`. */
  function Trailing(s: string): (k: nat)
    ensures k <= |s|
    ensures forall m :: |s| - k <= m < |s| ==> IsSpace(s[m])
    ensures k < |s| ==> !IsSpace(s[|s| - 1 - k])
  {
    if s == [] || !IsSpace(s[|s| - 1]) then 0 else 1 + Trailing(s[..|s| - 1])
  }

  /** Trimming: `s` without its leading and trailing whitespace. */
  function Trim(s: string): (r: string)
    ensures |r| <= |s|
  {
    DropTrailing(DropLeading(s))
  }

  /** `s` without its leading whitespace. */
  function DropLeading(s: string): string {
    s[Leading(s)..]
  }

  /** `s` without its trailing whitespace. */
  function DropTrailing(s: string): string {
    s[..|s| - Trailing(s)]
  }

  /** What `trim` leaves: the stretch of `s` after its leading whitespace,
      followed in `s` only by whitespace, and neither starting nor ending
      with whitespace itself. */
  lemma TrimShape(s: string)
    ensures Leading(s) + |Trim(s)| <= |s|
    ensures Trim(s) == s[Leading(s)..Leading(s) + |Trim(s)|]
    ensures forall m :: Leading(s) + |Trim(s)| <= m < |s| ==> IsSpace(s[m])
    ensures Trim(s) == [] || (!IsSpace(Trim(s)[0]) && !IsSpace(Trim(s)[|Trim(s)| - 1]))
  {
  }

  /** The capitals `toLowerCase` maps here: ASCII A-Z and the Latin-1 capitals
      U+00C0..U+00DE except the multiplication sign U+00D7. */
  predicate IsCapital(c: char) {
    var n := c as int;
    (0x41 <= n <= 0x5A) || (0xC0 <= n <= 0xDE && n != 0xD7)
  }

  /** `toLowerCase` on one character: a capital moves up by 0x20 to its small
      letter; every other character is left as it is. */
  function LowerChar(c: char): (r: char)
    ensures IsCapital(c) ==> r as int == c as int + 0x20
    ensures !IsCapital(c) ==> r == c
    ensures !IsCapital(r)
  {
    if IsCapital(c) then (c as int + 0x20) as char else c
  }

  /** Lower-casing, character by character. */
  function Lower(s: string): (r: string)
    ensures |r| == |s|
    ensures forall i :: 0 <= i < |s| ==> r[i] == LowerChar(s[i])
  {
    seq(|s|, i requires 0 <= i < |s| => LowerChar(s[i]))
  }

  /** Lower-casing never turns whitespace into text or text into whitespace. */
  lemma LowerCharKeepsSpace(c: char)
    ensures IsSpace(LowerChar(c)) == IsSpace(c)
  {
  }

  lemma {:induction false} LeadingOfLower(s: string)
    ensures Leading(Lower(s)) == Leading(s)
  {
    if s != [] {
      LowerCharKeepsSpace(s[0]);
      assert Lower(s)[1..] == Lower(s[1..]);
      LeadingOfLower(s[1..]);
    }
  }

  lemma {:induction false} TrailingOfLower(s: string)
    ensures Trailing(Lower(s)) == Trailing(s)
  {
    if s != [] {
      LowerCharKeepsSpace(s[|s| - 1]);
      assert Lower(s)[..|s| - 1] == Lower(s[..|s| - 1]);
      TrailingOfLower(s[..|s| - 1]);
    }
  }

  /** Trimming and lower-casing commute, so `trim().toLowerCase()` is the
      same as `toLowerCase().trim()`. */
  lemma {:induction false} TrimLower(s: string)
    ensures Trim(Lower(s)) == Lower(Trim(s))
  {
    DropLeadingOfLower(s);
    DropTrailingOfLower(DropLeading(s));
  }

  lemma DropLeadingOfLower(s: string)
    ensures DropLeading(Lower(s)) == Lower(DropLeading(s))
  {
    LeadingOfLower(s);
    LowerSlice(s, Leading(s), |s|);
    assert s[Leading(s)..|s|] == s[Leading(s)..];
  }

  lemma DropTrailingOfLower(t: string)
    ensures DropTrailing(Lower(t)) == Lower(DropTrailing(t))
  {
    TrailingOfLower(t);
    var k := |t| - Trailing(t);
    LowerSlice(t, 0, k);
    assert t[0..k] == t[..k] && Lower(t)[0..k] == Lower(t)[..k];
  }

  lemma LowerSlice(s: string, a: nat, b: nat)
    requires a <= b <= |s|
    ensures Lower(s)[a..b] == Lower(s[a..b])
  {
  }

  /** A string that neither starts nor ends with whitespace is its own trim. */
  lemma TrimUnchanged(s: string)
    requires s == [] || (!IsSpace(s[0]) && !IsSpace(s[|s| - 1]))
    ensures Trim(s) == s
  {
    assert Leading(s) == 0;
    assert s[0..] == s;
    assert Trailing(s) == 0;
  }

  /** A trimmed string is empty exactly when the original held only whitespace. */
  lemma TrimEmptyIffBlank(s: string)
    ensures Trim(s) == [] <==> forall m :: 0 <= m < |s| ==> IsSpace(s[m])
  {
    TrimShape(s);
    if Trim(s) != [] {
      assert !IsSpace(s[Leading(s)]);
    }
  }

  /** `needle` occurs in `hay` starting at index `i`. */
  ghost predicate OccursAt(hay: string, needle: string, i: nat) {
    i + |needle| <= |hay| && hay[i..i + |needle|] == needle
  }

  /** Substring search: `needle` occurs somewhere in `hay`. */
  function Contains(hay: string, needle: string): (b: bool)
    ensures b <==> exists i: nat :: OccursAt(hay, needle, i)
    decreases |hay|
  {
    if |needle| > |hay| then false
    else if hay[..|needle|] == needle then assert OccursAt(hay, needle, 0); true
    else
      ShiftOccurrence(hay, needle);
      Contains(hay[1..], needle)
  }

  /** The occurrences in `hay` after its first position are those of `hay[1..]`, shifted. */
  lemma ShiftOccurrence(hay: string, needle: string)
    requires |needle| <= |hay| && hay[..|needle|] != needle
    ensures (exists i: nat :: OccursAt(hay, needle, i)) <==> (exists i: nat :: OccursAt(hay[1..], needle, i))
  {
    if exists i: nat :: OccursAt(hay, needle, i) {
      var i: nat :| OccursAt(hay, needle, i);
      assert i > 0;
      OccurrenceAfterHead(hay, needle, i - 1);
    }
    if exists i: nat :: OccursAt(hay[1..], needle, i) {
      var i: nat :| OccursAt(hay[1..], needle, i);
      OccurrenceAfterHead(hay, needle, i);
    }
  }

  /** An occurrence at `i + 1` in `hay` is one at `i` in `hay[1..]`. */
  lemma OccurrenceAfterHead(hay: string, needle: string, i: nat)
    requires hay != []
    ensures OccursAt(hay, needle, i + 1) <==> OccursAt(hay[1..], needle, i)
  {
    if i + 1 + |needle| <= |hay| {
      assert hay[1..][i..i + |needle|] == hay[i + 1..i + 1 + |needle|];
    }
  }

  predicate IsDigit(c: char) {
    '0' <= c <= '9'
  }

  predicate AllDigits(s: string) {
    forall i :: 0 <= i < |s| ==> IsDigit(s[i])
  }

  function DigitChar(d: nat): (c: char)
    requires d < 10
    ensures IsDigit(c) && c as int - '0' as int == d
  {
    ('0' as int + d) as char
  }

  /** The decimal text a template literal gives a non-negative integer. */
  function NatToString(n: nat): (s: string)
    ensures |s| >= 1 && AllDigits(s)
    ensures s[0] == '0' ==> n == 0
    ensures n < 10 <==> |s| == 1
    decreases n
  {
    if n < 10 then [DigitChar(n)] else NatToString(n / 10) + [DigitChar(n % 10)]
  }

  /** The value of a string of decimal digits. */
  function DigitsValue(s: string): nat
    requires AllDigits(s)
  {
    if s == [] then 0 else DigitsValue(s[..|s| - 1]) * 10 + (s[|s| - 1] as int - '0' as int)
  }

  /** Reading the decimal text back gives the number. */
  lemma {:induction false} NatToStringRoundTrip(n: nat)
    ensures DigitsValue(NatToString(n)) == n
    decreases n
  {
    if n >= 10 {
      NatToStringRoundTrip(n / 10);
      var s := NatToString(n);
      assert s[..|s| - 1] == NatToString(n / 10);
    }
  }

  /** The longest prefix of `s` made of decimal digits. */
  function DigitPrefix(s: string): (r: string)
    ensures AllDigits(r) && |r| <= |s| && r == s[..|r|]
    ensures |r| < |s| ==> !IsDigit(s[|r|])
  {
    if s == [] || !IsDigit(s[0]) then [] else [s[0]] + DigitPrefix(s[1..])
  }

  /** The number a string starts with, as `parseInt` reads it (no sign, no blanks). */
  function LeadingNumber(s: string): nat {
    DigitsValue(DigitPrefix(s))
  }

  /** The digit prefix of a run of digits followed by a non-digit is that run. */
  lemma {:induction false} DigitPrefixOf(digits: string, rest: string)
    requires AllDigits(digits)
    requires rest == [] || !IsDigit(rest[0])
    ensures DigitPrefix(digits + rest) == digits
  {
    if digits != [] {
      assert (digits + rest)[1..] == digits[1..] + rest;
      DigitPrefixOf(digits[1..], rest);
    }
  }
}
