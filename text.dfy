/** The JavaScript string operations the board relies on, stated over
    `seq<char>`: `trim`, `toLowerCase` (ASCII letters only), `includes`,
    the ordering used for sorting by city, `parseInt` and `Number`
    coercion of decimal strings, and decimal rendering of placeholders. */
module Text {
  import opened Wrappers

  // ---------------------------------------------------------------- trim

  /** The characters `String.prototype.trim` removes (the other Unicode
      space separators are not modelled). */
  predicate IsSpace(c: char) {
    c == ' ' || c == '\t' || c == '\n' || c == '\r' || c == '\U{000B}' || c == '\U{000C}'
    || c == '\U{00A0}' || c == '\U{FEFF}' || c == '\U{2028}' || c == '\U{2029}'
  }

  /** Drops leading white space. */
  function TrimStart(s: string): (r: string)
    ensures |r| <= |s|
  {
    if s != [] && IsSpace(s[0]) then TrimStart(s[1..]) else s
  }

  /** The result of `TrimStart` is the suffix that starts at the first
      non-space character. */
  lemma {:induction false} TrimStartSuffix(s: string)
    ensures TrimStart(s) == s[|s| - |TrimStart(s)|..]
    ensures forall i :: 0 <= i < |s| - |TrimStart(s)| ==> IsSpace(s[i])
    ensures TrimStart(s) == [] || !IsSpace(TrimStart(s)[0])
  {
    if s != [] && IsSpace(s[0]) {
      TrimStartSuffix(s[1..]);
    }
  }

  /** Drops trailing white space. */
  function TrimEnd(s: string): (r: string)
    ensures |r| <= |s|
  {
    if s != [] && IsSpace(s[|s| - 1]) then TrimEnd(s[..|s| - 1]) else s
  }

  /** The result of `TrimEnd` is the prefix that ends at the last non-space
      character. */
  lemma {:induction false} TrimEndPrefix(s: string)
    ensures TrimEnd(s) == s[..|TrimEnd(s)|]
    ensures forall i :: |TrimEnd(s)| <= i < |s| ==> IsSpace(s[i])
    ensures TrimEnd(s) == [] || !IsSpace(TrimEnd(s)[|TrimEnd(s)| - 1])
  {
    if s != [] && IsSpace(s[|s| - 1]) {
      TrimEndPrefix(s[..|s| - 1]);
    }
  }

  /** `s.trim()`: a contiguous piece of `s` that, unless empty, starts and
      ends with a non-space, and everything removed before and after it is
      white space. */
  function Trim(s: string): (r: string)
    ensures |r| <= |s|
    ensures exists k :: OccursAt(s, r, k) && TrimmedAround(s, r, k)
    ensures r != [] ==> !IsSpace(r[0]) && !IsSpace(r[|r| - 1])
  {
    var t := TrimStart(s);
    var r := TrimEnd(t);
    TrimStartSuffix(s);
    TrimEndPrefix(t);
    assert r == s[|s| - |t|..|s| - |t| + |r|];
    assert OccursAt(s, r, |s| - |t|);
    assert TrimmedAround(s, r, |s| - |t|) by {
      forall i | |s| - |t| + |r| <= i < |s|
        ensures IsSpace(s[i])
      {
        assert s[i] == t[i - (|s| - |t|)];
      }
    }
    r
  }

  /** The characters of `s` before position `k` and after the piece `r`
      placed there are all white space. */
  predicate TrimmedAround(s: string, r: string, k: int) {
    && (forall i :: 0 <= i < k && i < |s| ==> IsSpace(s[i]))
    && (forall i :: 0 <= k + |r| <= i < |s| ==> IsSpace(s[i]))
  }

  /** `s.trim()` is empty exactly when `s` is all white space. */
  lemma TrimEmpty(s: string)
    ensures Trim(s) == [] <==> forall i :: 0 <= i < |s| ==> IsSpace(s[i])
  {
    TrimStartSuffix(s);
    TrimEndPrefix(TrimStart(s));
  }

  // ---------------------------------------------------------- lower case

  /** `toLowerCase` on one character, for the ASCII letters. */
  function LowerChar(c: char): char {
    if 'A' <= c <= 'Z' then (c as int + 32) as char else c
  }

  function Lower(s: string): (r: string)
    ensures |r| == |s|
    ensures forall i :: 0 <= i < |s| ==> r[i] == LowerChar(s[i])
  {
    seq(|s|, i requires 0 <= i < |s| => LowerChar(s[i]))
  }

  /** Lower-casing works character by character, so it distributes over
      concatenation. */
  lemma LowerAppend(a: string, b: string)
    ensures Lower(a + b) == Lower(a) + Lower(b)
  {
  }

  // ----------------------------------------------------------- substrings

  predicate OccursAt(text: string, pat: string, i: int) {
    0 <= i && i + |pat| <= |text| && text[i..i + |pat|] == pat
  }

  /** `text.includes(pat)`. */
  predicate Contains(text: string, pat: string) {
    exists i :: 0 <= i <= |text| - |pat| && OccursAt(text, pat, i)
  }

  /** The empty string occurs in every string. */
  lemma ContainsEmpty(text: string)
    ensures Contains(text, "")
  {
    assert OccursAt(text, "", 0);
  }

  // ------------------------------------------------------------- ordering

  /** Lexicographic order by character code, standing for `localeCompare`
      and for the store's text collation. */
  predicate LexLe(a: string, b: string) {
    if a == [] then true
    else if b == [] then false
    else if a[0] != b[0] then a[0] < b[0]
    else LexLe(a[1..], b[1..])
  }

  lemma {:induction false} LexLeTotal(a: string, b: string)
    ensures LexLe(a, b) || LexLe(b, a)
  {
    if a != [] && b != [] && a[0] == b[0] {
      LexLeTotal(a[1..], b[1..]);
    }
  }

  lemma {:induction false} LexLeTransitive(a: string, b: string, c: string)
    requires LexLe(a, b) && LexLe(b, c)
    ensures LexLe(a, c)
  {
    if a != [] && b != [] && c != [] && a[0] == b[0] && b[0] == c[0] {
      LexLeTransitive(a[1..], b[1..], c[1..]);
    }
  }

  // --------------------------------------------------------------- digits

  predicate IsDigit(c: char) {
    '0' <= c <= '9'
  }

  predicate AllDigits(s: string) {
    forall i :: 0 <= i < |s| ==> IsDigit(s[i])
  }

  function DigitValue(c: char): nat
    requires IsDigit(c)
  {
    c as int - '0' as int
  }

  function DigitChar(d: nat): (c: char)
    requires d < 10
    ensures IsDigit(c) && DigitValue(c) == d
  {
    ('0' as int + d) as char
  }

  /** The value of a string of decimal digits, most significant first. */
  function DigitsValue(ds: string): nat
    requires AllDigits(ds)
  {
    if ds == [] then 0 else DigitsValue(ds[..|ds| - 1]) * 10 + DigitValue(ds[|ds| - 1])
  }

  /** The decimal rendering of a natural number, as template literals print
      placeholder numbers: a non-empty digit string whose value is `n`. */
  function NatToString(n: nat): (r: string)
    ensures |r| >= 1 && AllDigits(r) && DigitsValue(r) == n
  {
    if n < 10 then [DigitChar(n)]
    else
      var prefix := NatToString(n / 10);
      var r := prefix + [DigitChar(n % 10)];
      assert r[..|r| - 1] == prefix;
      r
  }

  /** The longest prefix of decimal digits. */
  function LeadingDigits(s: string): (r: string)
    ensures |r| <= |s| && r == s[..|r|] && AllDigits(r)
    ensures |r| < |s| ==> !IsDigit(s[|r|])
  {
    if s != [] && IsDigit(s[0]) then [s[0]] + LeadingDigits(s[1..]) else []
  }

  // -------------------------------------------------------------- parsing

  /** A sign followed by the rest of the text: `-` negates, `+` does not. */
  function SplitSign(t: string): (bool, string) {
    if t != [] && (t[0] == '-' || t[0] == '+') then (t[0] == '-', t[1..]) else (false, t)
  }

  function Signed(negative: bool, n: nat): int {
    if negative then -(n as int) else n
  }

  /** `parseInt(s)` with the default radix on decimal input: leading white
      space is skipped, an optional sign is read, and then the longest run of
      digits; without a digit the result is NaN (None). */
  function ParseInt(s: string): Option<int> {
    var (negative, rest) := SplitSign(TrimStart(s));
    var ds := LeadingDigits(rest);
    if ds == [] then None else Some(Signed(negative, DigitsValue(ds)))
  }

  /** `Number(s)` on a decimal integer string: surrounding white space is
      ignored, the empty string is 0, and the remainder must be an optional
      sign followed by digits only; anything else is NaN (None). */
  function ToNumber(s: string): Option<int> {
    var t := Trim(s);
    if t == [] then Some(0)
    else
      var (negative, rest) := SplitSign(t);
      if rest != [] && AllDigits(rest) then Some(Signed(negative, DigitsValue(rest))) else None
  }

  lemma {:induction false} LeadingDigitsOfDigits(s: string)
    requires AllDigits(s)
    ensures LeadingDigits(s) == s
  {
    if s != [] {
      LeadingDigitsOfDigits(s[1..]);
    }
  }

  /** `parseInt` reads back what `NatToString` writes. */
  lemma ParseIntOfNat(n: nat)
    ensures ParseInt(NatToString(n)) == Some(n)
  {
    var s := NatToString(n);
    assert !IsSpace(s[0]) && s[0] != '-' && s[0] != '+';
    LeadingDigitsOfDigits(s);
  }

  /** `Number` reads back what `NatToString` writes. */
  lemma ToNumberOfNat(n: nat)
    ensures ToNumber(NatToString(n)) == Some(n)
  {
    var s := NatToString(n);
    assert !IsSpace(s[0]) && !IsSpace(s[|s| - 1]);
    assert Trim(s) == s;
    assert SplitSign(s) == (false, s);
  }

  /** `Number` reads back a minus sign followed by what `NatToString` writes. */
  lemma ToNumberOfNegated(n: nat)
    ensures ToNumber("-" + NatToString(n)) == Some(-(n as int))
  {
    var s := NatToString(n);
    var m := "-" + s;
    assert m[1..] == s;
    assert m[0] == '-' && m[|m| - 1] == s[|s| - 1];
    assert TrimStart(m) == m;
    assert TrimEnd(m) == m;
    assert Trim(m) == m;
    assert SplitSign(m) == (true, s);
    assert s != [] && AllDigits(s);
    assert Signed(true, DigitsValue(s)) == -(n as int);
  }

  /** On a non-empty string of digits, `parseInt` and `Number` agree: both
      read its decimal value. */
  lemma ParseIntAgreesWithNumber(s: string)
    requires s != [] && AllDigits(s)
    ensures ParseInt(s) == Some(DigitsValue(s))
    ensures ToNumber(s) == Some(DigitsValue(s))
  {
    assert !IsSpace(s[0]) && !IsSpace(s[|s| - 1]) && s[0] != '-' && s[0] != '+';
    assert TrimStart(s) == s;
    assert Trim(s) == s;
    LeadingDigitsOfDigits(s);
  }
}
