/** The pieces of JavaScript string behaviour the source depends on: the `\s`
    character class and `String.prototype.trim`, decimal `toString` of
    non-negative integers and its inverse, `parseInt`, and the e-mail pattern
    `^[^\s@]+@[^\s@]+\.[^\s@]+$` used by the server and both client views. */
module JsText {
  import opened Options

  /** ECMAScript WhiteSpace and LineTerminator: the `\s` class, which is also
      the set `trim` strips. */
  predicate IsSpace(c: char) {
    ('\U{9}' <= c <= '\U{D}') || c == ' ' || c == '\U{A0}' || c == '\U{1680}'
    || ('\U{2000}' <= c <= '\U{200A}') || c == '\U{2028}' || c == '\U{2029}'
    || c == '\U{202F}' || c == '\U{205F}' || c == '\U{3000}' || c == '\U{FEFF}'
  }

  function TrimStart(s: string): (r: string)
    ensures |r| <= |s| && r == s[|s| - |r|..]
    ensures r == [] || !IsSpace(r[0])
    ensures forall i :: 0 <= i < |s| - |r| ==> IsSpace(s[i])
  {
    if s != [] && IsSpace(s[0]) then TrimStart(s[1..]) else s
  }

  function TrimEnd(s: string): (r: string)
    ensures |r| <= |s| && r == s[..|r|]
    ensures r == [] || !IsSpace(r[|r| - 1])
    ensures forall i :: |r| <= i < |s| ==> IsSpace(s[i])
  {
    if s != [] && IsSpace(s[|s| - 1]) then TrimEnd(s[..|s| - 1]) else s
  }

  /** `String.prototype.trim`: the input with its leading and trailing
      white space removed. */
  function Trim(s: string): (r: string)
    ensures r == [] || (!IsSpace(r[0]) && !IsSpace(r[|r| - 1]))
    ensures exists k :: TrimmedAt(s, r, k)
  {
    var t := TrimStart(s);
    var r := TrimEnd(t);
    assert TrimmedAt(s, r, |s| - |t|);
    r
  }

  /** `r` is `s[k..k + |r|]` and everything around it in `s` is white space. */
  ghost predicate TrimmedAt(s: string, r: string, k: nat) {
    && k + |r| <= |s|
    && r == s[k..k + |r|]
    && (forall i :: 0 <= i < k ==> IsSpace(s[i]))
    && (forall i :: k + |r| <= i < |s| ==> IsSpace(s[i]))
  }

  /** The trimmed text is empty exactly when the input is all white space. */
  lemma TrimEmptyIff(s: string)
    ensures Trim(s) == [] <==> forall i :: 0 <= i < |s| ==> IsSpace(s[i])
  {
    var t := TrimStart(s);
    if t != [] {
      assert !IsSpace(s[|s| - |t|]);
      assert TrimEnd(t) != [] by { assert !IsSpace(t[0]); }
    }
  }

  predicate IsDigit(c: char) { '0' <= c <= '9' }

  function DigitChar(d: nat): (c: char)
    requires d < 10
    ensures IsDigit(c) && c as int - '0' as int == d
  {
    ('0' as int + d) as char
  }

  /** `Number.prototype.toString()` for a non-negative integer: canonical decimal. */
  function Decimal(n: nat): (r: string)
    ensures |r| >= 1 && (|r| > 1 ==> r[0] != '0')
    ensures forall i :: 0 <= i < |r| ==> IsDigit(r[i])
  {
    if n < 10 then [DigitChar(n)] else Decimal(n / 10) + [DigitChar(n % 10)]
  }

  predicate AllDigits(s: string) {
    forall i :: 0 <= i < |s| ==> IsDigit(s[i])
  }

  function DigitsValue(s: string): nat
    requires AllDigits(s)
  {
    if s == [] then 0
    else DigitsValue(s[..|s| - 1]) * 10 + (s[|s| - 1] as int - '0' as int)
  }

  /** `Number(s)` restricted to strings of decimal digits; anything else
      (including the empty string) is `NaN`, here `None`. */
  function ParseDecimal(s: string): (r: Option<nat>)
    ensures r.Some? <==> s != [] && AllDigits(s)
  {
    if s != [] && AllDigits(s) then Some(DigitsValue(s)) else None
  }

  /** Reading back what `String(n)` wrote gives `n`. */
  lemma {:induction false} DecimalRoundTrip(n: nat)
    ensures ParseDecimal(Decimal(n)) == Some(n)
  {
    if n >= 10 {
      DecimalRoundTrip(n / 10);
      var r := Decimal(n);
      assert r == Decimal(n / 10) + [DigitChar(n % 10)];
      assert r[..|r| - 1] == Decimal(n / 10);
      assert DigitsValue(r) == DigitsValue(Decimal(n / 10)) * 10 + n % 10;
    }
  }

  /** Distinct numbers print differently. */
  lemma DecimalInjective(a: nat, b: nat)
    ensures Decimal(a) == Decimal(b) <==> a == b
  {
    DecimalRoundTrip(a);
    DecimalRoundTrip(b);
  }

  function SkipSpace(s: string): (r: string)
    ensures |r| <= |s|
  {
    if s != [] && IsSpace(s[0]) then SkipSpace(s[1..]) else s
  }

  function DigitPrefix(s: string): (r: string)
    ensures AllDigits(r) && |r| <= |s| && r == s[..|r|]
    ensures |r| < |s| ==> !IsDigit(s[|r|])
  {
    if s != [] && IsDigit(s[0]) then [s[0]] + DigitPrefix(s[1..]) else []
  }

  /** `parseInt(s)` in base ten: leading white space, an optional sign, then
      the longest run of digits; `NaN` (here `None`) when there is no digit. */
  function ParseInt(s: string): (r: Option<int>)
  {
    var t := SkipSpace(s);
    var neg := t != [] && t[0] == '-';
    var body := if t != [] && (t[0] == '-' || t[0] == '+') then t[1..] else t;
    var digits := DigitPrefix(body);
    if digits == [] then None
    else if neg then Some(-(DigitsValue(digits) as int))
    else Some(DigitsValue(digits))
  }

  /** `parseInt(String(n)) === n`. */
  lemma ParseIntDecimal(n: nat)
    ensures ParseInt(Decimal(n)) == Some(n)
  {
    var d := Decimal(n);
    assert !IsSpace(d[0]);
    assert DigitPrefix(d) == d by { DigitPrefixAll(d); }
    DecimalRoundTrip(n);
  }

  lemma {:induction false} DigitPrefixAll(s: string)
    requires AllDigits(s)
    ensures DigitPrefix(s) == s
  {
    if s != [] { DigitPrefixAll(s[1..]); }
  }

  // ---- e-mail format: ^[^\s@]+@[^\s@]+\.[^\s@]+$ ----

  predicate EmailChar(c: char) { !IsSpace(c) && c != '@' }

  /** One `[^\s@]+` run. */
  ghost predicate Run(s: string) {
    |s| > 0 && forall i :: 0 <= i < |s| ==> EmailChar(s[i])
  }

  /** `s` splits as the regular expression reads it. */
  ghost predicate EmailSplit(s: string, local: string, host: string, tld: string) {
    Run(local) && Run(host) && Run(tld) && s == local + "@" + host + "." + tld
  }

  /** The language of the regular expression. */
  ghost predicate MatchesEmailRegex(s: string) {
    exists local, host, tld :: EmailSplit(s, local, host, tld)
  }

  /** The check the code runs, as a decision procedure: no white space,
      exactly one `@`, not first, and a `.` strictly inside the part after it. */
  predicate IsValidEmail(s: string) {
    (forall i | 0 <= i < |s| :: !IsSpace(s[i]))
    && exists at | 0 < at < |s| ::
         s[at] == '@'
         && (forall j | 0 <= j < |s| && j != at :: s[j] != '@')
         && exists k | at + 1 < k < |s| - 1 :: s[k] == '.'
  }

  /** The decision procedure accepts exactly the language of the regex. */
  lemma EmailRegexIff(s: string)
    ensures IsValidEmail(s) <==> MatchesEmailRegex(s)
  {
    if IsValidEmail(s) { ValidEmailMatches(s); }
    if MatchesEmailRegex(s) {
      var local, host, tld :| EmailSplit(s, local, host, tld);
      MatchIsValidEmail(s, local, host, tld);
    }
  }

  lemma ValidEmailMatches(s: string)
    requires IsValidEmail(s)
    ensures MatchesEmailRegex(s)
  {
    var at :| 0 < at < |s| && s[at] == '@'
       && (forall j | 0 <= j < |s| && j != at :: s[j] != '@')
       && exists k | at + 1 < k < |s| - 1 :: s[k] == '.';
    var k :| at + 1 < k < |s| - 1 && s[k] == '.';
    var local, host, tld := s[..at], s[at + 1..k], s[k + 1..];
    assert s == local + "@" + host + "." + tld;
    assert Run(local) && Run(host) && Run(tld);
    assert EmailSplit(s, local, host, tld);
  }

  lemma MatchIsValidEmail(s: string, local: string, host: string, tld: string)
    requires EmailSplit(s, local, host, tld)
    ensures IsValidEmail(s)
  {
    var at, k := |local|, |local| + 1 + |host|;
    assert s[..at] == local && s[at] == '@';
    assert s[at + 1..k] == host && s[k] == '.';
    assert s[k + 1..] == tld;
    forall i | 0 <= i < |s| ensures !IsSpace(s[i]) && (i != at ==> s[i] != '@') {
      if i < at { assert s[i] == s[..at][i]; }
      else if at < i < k { assert s[i] == s[at + 1..k][i - at - 1]; }
      else if k < i { assert s[i] == s[k + 1..][i - k - 1]; }
    }
    assert at + 1 < k < |s| - 1;
  }
}
