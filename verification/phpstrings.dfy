/**
 * The PHP string built-ins the shortcut resolution relies on: explode on one
 * separator character, trim with its default character list, strpos used as
 * a containment test, str_replace with an empty replacement, and the integer
 * cast of a string.
 */
module PhpStrings {

  /** The characters trim() strips by default: space, tab, newline, carriage return, NUL and vertical tab. */
  predicate IsTrimmable(c: char)
  {
    c == ' ' || c == '\t' || c == '\n' || c == '\r' || c as int == 0 || c as int == 11
  }

  /** explode($sep, $s) for a one-character separator. */
  function Explode(s: string, sep: char): (parts: seq<string>)
    ensures |parts| >= 1
    ensures forall i :: 0 <= i < |parts| ==> sep !in parts[i]
  {
    if s == [] then [""]
    else
      var init := Explode(s[..|s| - 1], sep);
      var c := s[|s| - 1];
      if c == sep then init + [""]
      else init[..|init| - 1] + [init[|init| - 1] + [c]]
  }

  /** implode($sep, $parts): the inverse of Explode. */
  function Join(parts: seq<string>, sep: char): string
    requires |parts| >= 1
  {
    if |parts| == 1 then parts[0] else Join(parts[..|parts| - 1], sep) + [sep] + parts[|parts| - 1]
  }

  /** Joining the parts of a string gives the string back. */
  lemma {:induction false} JoinExplode(s: string, sep: char)
    ensures Join(Explode(s, sep), sep) == s
    decreases |s|
  {
    if s != [] {
      var s' := s[..|s| - 1];
      var c := s[|s| - 1];
      JoinExplode(s', sep);
      if c == sep {
        JoinNewPart(Explode(s', sep), sep);
      } else {
        JoinExtendLast(Explode(s', sep), c, sep);
      }
      LastSplit(s);
    }
  }

  lemma JoinNewPart(parts: seq<string>, sep: char)
    requires |parts| >= 1
    ensures Join(parts + [""], sep) == Join(parts, sep) + [sep]
  {
    assert (parts + [""])[..|parts|] == parts;
  }

  lemma JoinExtendLast(parts: seq<string>, c: char, sep: char)
    requires |parts| >= 1
    ensures var n := |parts| - 1; Join(parts[..n] + [parts[n] + [c]], sep) == Join(parts, sep) + [c]
  {
    var n := |parts| - 1;
    var q := parts[..n] + [parts[n] + [c]];
    if n > 0 {
      assert q[..n] == parts[..n];
    }
  }

  /** Appending text without a separator extends the last part. */
  lemma {:induction false} ExplodeAppend(a: string, b: string, sep: char)
    requires sep !in b
    ensures var parts := Explode(a, sep);
      Explode(a + b, sep) == parts[..|parts| - 1] + [parts[|parts| - 1] + b]
    decreases |b|
  {
    if b == [] {
      var parts := Explode(a, sep);
      assert a + b == a;
      assert parts[|parts| - 1] + b == parts[|parts| - 1];
      assert parts[..|parts| - 1] + [parts[|parts| - 1]] == parts;
    } else {
      var parts := Explode(a, sep);
      var n := |parts| - 1;
      var b' := b[..|b| - 1];
      var c := b[|b| - 1];
      assert c in b;
      assert (a + b)[..|a + b| - 1] == a + b';
      assert (a + b)[|a + b| - 1] == c;
      ExplodeAppend(a, b', sep);
      var init := parts[..n] + [parts[n] + b'];
      assert Explode(a + b', sep) == init;
      assert init[..|init| - 1] == parts[..n];
      assert init[|init| - 1] + [c] == parts[n] + b;
    }
  }

  /** Splitting joined parts gives the parts back, as long as no part holds the separator. */
  lemma {:induction false} ExplodeJoin(parts: seq<string>, sep: char)
    requires |parts| >= 1
    requires forall i :: 0 <= i < |parts| ==> sep !in parts[i]
    ensures Explode(Join(parts, sep), sep) == parts
    decreases |parts|
  {
    var n := |parts| - 1;
    if n == 0 {
      ExplodeAppend([], parts[0], sep);
      assert [] + parts[0] == parts[0];
    } else {
      var a := Join(parts[..n], sep);
      ExplodeJoin(parts[..n], sep);
      ExplodeSeparator(a, sep);
      ExplodeAppend(a + [sep], parts[n], sep);
      NewPartFilled(parts[..n], parts[n]);
      LastSplit(parts);
    }
  }

  /** A trailing separator opens a new, empty part. */
  lemma ExplodeSeparator(a: string, sep: char)
    ensures Explode(a + [sep], sep) == Explode(a, sep) + [""]
  {
    assert (a + [sep])[..|a + [sep]| - 1] == a;
  }

  lemma LastSplit<T>(p: seq<T>)
    requires |p| >= 1
    ensures p[..|p| - 1] + [p[|p| - 1]] == p
  {
  }

  lemma NewPartFilled(p: seq<string>, x: string)
    ensures var e := p + [""]; e[..|e| - 1] + [e[|e| - 1] + x] == p + [x]
  {
    var e := p + [""];
    assert e[..|e| - 1] == p;
    assert e[|e| - 1] + x == x;
  }

  function TrimLeft(s: string): (r: string)
    ensures |r| <= |s|
  {
    if s != [] && IsTrimmable(s[0]) then TrimLeft(s[1..]) else s
  }

  function TrimRight(s: string): (r: string)
    ensures |r| <= |s|
  {
    if s != [] && IsTrimmable(s[|s| - 1]) then TrimRight(s[..|s| - 1]) else s
  }

  /** trim($s): the string without its leading and trailing trimmable characters. */
  function Trim(s: string): string
  {
    TrimRight(TrimLeft(s))
  }

  /** TrimLeft cuts a prefix of trimmable characters, up to the first character that is not. */
  lemma {:induction false} TrimLeftCuts(s: string)
    ensures TrimLeft(s) == s[|s| - |TrimLeft(s)|..]
    ensures TrimLeft(s) == [] || !IsTrimmable(TrimLeft(s)[0])
    ensures forall i :: 0 <= i < |s| - |TrimLeft(s)| ==> IsTrimmable(s[i])
    decreases |s|
  {
    if s != [] && IsTrimmable(s[0]) {
      TrimLeftCuts(s[1..]);
      forall i | 1 <= i < |s| - |TrimLeft(s)|
        ensures IsTrimmable(s[i])
      {
        assert s[i] == s[1..][i - 1];
      }
    }
  }

  /** TrimRight cuts a suffix of trimmable characters, back to the last character that is not. */
  lemma {:induction false} TrimRightCuts(s: string)
    ensures TrimRight(s) == s[..|TrimRight(s)|]
    ensures TrimRight(s) == [] || !IsTrimmable(TrimRight(s)[|TrimRight(s)| - 1])
    ensures forall i :: |TrimRight(s)| <= i < |s| ==> IsTrimmable(s[i])
    decreases |s|
  {
    if s != [] && IsTrimmable(s[|s| - 1]) {
      TrimRightCuts(s[..|s| - 1]);
    }
  }

  /** Where the trimmed string starts in the original. */
  function TrimStart(s: string): nat
  {
    |s| - |TrimLeft(s)|
  }

  /**
   * The trimmed string is a piece of the original that neither starts nor
   * ends with a trimmable character, and only trimmable characters are cut.
   */
  lemma TrimCuts(s: string)
    ensures TrimStart(s) + |Trim(s)| <= |s|
    ensures Trim(s) == s[TrimStart(s)..TrimStart(s) + |Trim(s)|]
    ensures Trim(s) == [] || (!IsTrimmable(Trim(s)[0]) && !IsTrimmable(Trim(s)[|Trim(s)| - 1]))
    ensures forall i :: 0 <= i < TrimStart(s) ==> IsTrimmable(s[i])
    ensures forall i :: TrimStart(s) + |Trim(s)| <= i < |s| ==> IsTrimmable(s[i])
  {
    TrimLeftCuts(s);
    TrimIsPiece(s);
    TrimEnds(s);
    TrimRightTail(s);
  }

  lemma TrimIsPiece(s: string)
    ensures TrimStart(s) + |Trim(s)| <= |s|
    ensures Trim(s) == s[TrimStart(s)..TrimStart(s) + |Trim(s)|]
  {
    var l := TrimLeft(s);
    var k := TrimStart(s);
    TrimLeftCuts(s);
    TrimRightCuts(l);
    assert l == s[k..];
  }

  lemma TrimEnds(s: string)
    ensures Trim(s) == [] || (!IsTrimmable(Trim(s)[0]) && !IsTrimmable(Trim(s)[|Trim(s)| - 1]))
  {
    var l := TrimLeft(s);
    TrimLeftCuts(s);
    TrimRightCuts(l);
    var r := TrimRight(l);
    if r != [] {
      assert r[0] == l[0];
    }
  }

  lemma TrimRightTail(s: string)
    ensures forall i :: TrimStart(s) + |Trim(s)| <= i < |s| ==> IsTrimmable(s[i])
  {
    var l := TrimLeft(s);
    var k := TrimStart(s);
    TrimLeftCuts(s);
    TrimRightCuts(l);
    forall i | k + |Trim(s)| <= i < |s|
      ensures IsTrimmable(s[i])
    {
      assert s[i] == l[i - k];
    }
  }

  /** A string that neither starts nor ends with a trimmable character is its own trim. */
  lemma TrimKeeps(s: string)
    requires s == [] || (!IsTrimmable(s[0]) && !IsTrimmable(s[|s| - 1]))
    ensures Trim(s) == s
  {
  }

  predicate StartsWith(s: string, prefix: string)
  {
    |prefix| <= |s| && s[..|prefix|] == prefix
  }

  /** strpos($s, $sub) !== false. */
  predicate Contains(s: string, sub: string)
    decreases |s|
  {
    StartsWith(s, sub) || (s != [] && Contains(s[1..], sub))
  }

  /** `sub` occurs in `s` at position `i`. */
  predicate OccursAt(s: string, sub: string, i: int)
  {
    0 <= i && i + |sub| <= |s| && s[i..i + |sub|] == sub
  }

  /** Containment means an occurrence at some position. */
  lemma {:induction false} ContainsAt(s: string, sub: string)
    ensures Contains(s, sub) <==> exists i :: OccursAt(s, sub, i)
    decreases |s|
  {
    if OccursAt(s, sub, 0) {
      assert s[..|sub|] == s[0..0 + |sub|];
    }
    if s != [] {
      ContainsAt(s[1..], sub);
      if Contains(s[1..], sub) {
        var i :| OccursAt(s[1..], sub, i);
        assert s[1..][i..i + |sub|] == s[i + 1..i + 1 + |sub|];
        assert OccursAt(s, sub, i + 1);
      }
      if exists i :: OccursAt(s, sub, i) {
        var i :| OccursAt(s, sub, i);
        if i > 0 {
          assert s[1..][i - 1..i - 1 + |sub|] == s[i..i + |sub|];
          assert OccursAt(s[1..], sub, i - 1);
        } else {
          assert s[..|sub|] == s[0..0 + |sub|];
        }
      }
    } else if StartsWith(s, sub) {
      assert OccursAt(s, sub, 0);
    }
  }

  /** str_replace($sub, '', $s): occurrences removed from left to right, without overlap. */
  function RemoveAll(s: string, sub: string): (r: string)
    requires sub != []
    ensures |r| <= |s|
    decreases |s|
  {
    if |s| < |sub| then s
    else if StartsWith(s, sub) then RemoveAll(s[|sub|..], sub)
    else [s[0]] + RemoveAll(s[1..], sub)
  }

  /** Without an occurrence nothing is removed. */
  lemma {:induction false} RemoveAllAbsent(s: string, sub: string)
    requires sub != [] && !Contains(s, sub)
    ensures RemoveAll(s, sub) == s
    decreases |s|
  {
    if |s| >= |sub| {
      RemoveAllAbsent(s[1..], sub);
      assert [s[0]] + s[1..] == s;
    }
  }

  /** A leading occurrence is removed. */
  lemma RemoveAllPrefix(sub: string, s: string)
    requires sub != []
    ensures RemoveAll(sub + s, sub) == RemoveAll(s, sub)
  {
    assert (sub + s)[..|sub|] == sub;
    assert (sub + s)[|sub|..] == s;
  }

  predicate IsDigit(c: char)
  {
    '0' as int <= c as int <= '9' as int
  }

  /** Leading whitespace a numeric string may start with: space, tab, newline, carriage return, vertical tab, form feed. */
  predicate IsNumericSpace(c: char)
  {
    c == ' ' || c == '\t' || c == '\n' || c == '\r' || c as int == 11 || c as int == 12
  }

  function SkipSpaces(s: string): string
  {
    if s != [] && IsNumericSpace(s[0]) then SkipSpaces(s[1..]) else s
  }

  /** The longest prefix of digits. */
  function LeadingDigits(s: string): (d: string)
    ensures |d| <= |s| && d == s[..|d|]
    ensures forall i :: 0 <= i < |d| ==> IsDigit(d[i])
    ensures |d| < |s| ==> !IsDigit(s[|d|])
  {
    if s != [] && IsDigit(s[0]) then [s[0]] + LeadingDigits(s[1..]) else []
  }

  /** The value of a string of decimal digits. */
  function DigitsValue(d: string): nat
    requires forall i :: 0 <= i < |d| ==> IsDigit(d[i])
  {
    if d == [] then 0
    else
      assert IsDigit(d[|d| - 1]);
      10 * DigitsValue(d[..|d| - 1]) + (d[|d| - 1] as int - '0' as int)
  }

  function Pow10(k: nat): (p: nat)
    ensures p >= 1
  {
    if k == 0 then 1 else 10 * Pow10(k - 1)
  }

  /** The exponent part of a number ("e" or "E", an optional sign, digits); 0 when there is none. */
  function ExponentOf(r: string): int
  {
    if r != [] && (r[0] == 'e' || r[0] == 'E') then
      var e := r[1..];
      if e != [] && e[0] == '-' then 0 - DigitsValue(LeadingDigits(e[1..]))
      else if e != [] && e[0] == '+' then DigitsValue(LeadingDigits(e[1..]))
      else DigitsValue(LeadingDigits(e))
    else 0
  }

  /** m * 10^k, truncated toward zero when k is negative. */
  function Scale(m: nat, k: int): nat
    decreases if k >= 0 then k else -k
  {
    if k == 0 then m
    else if k > 0 then 10 * Scale(m, k - 1)
    else Scale(m / 10, k + 1)
  }

  /** A non-negative exponent multiplies by a power of ten. */
  lemma {:induction false} ScaleUp(m: nat, k: nat)
    ensures Scale(m, k) == m * Pow10(k)
  {
    if k > 0 {
      ScaleUp(m, k - 1);
      assert 10 * (m * Pow10(k - 1)) == m * (10 * Pow10(k - 1));
    }
  }

  /**
   * The magnitude of an unsigned numeric prefix: digits, an optional "." with
   * fraction digits, an optional exponent, truncated toward zero; 0 when the
   * prefix has no digit.
   */
  function NumericMagnitude(u: string): nat
  {
    var whole := LeadingDigits(u);
    var afterWhole := u[|whole|..];
    var hasPoint := afterWhole != [] && afterWhole[0] == '.';
    var fraction := if hasPoint then LeadingDigits(afterWhole[1..]) else [];
    var rest := if hasPoint then afterWhole[1 + |fraction|..] else afterWhole;
    if whole == [] && fraction == [] then 0
    else Scale(DigitsValue(whole + fraction), ExponentOf(rest) - |fraction|)
  }

  /**
   * (int)$s: optional leading whitespace and an optional sign, then the
   * leading numeric prefix, read as a decimal number (with fraction and
   * exponent) and truncated toward zero; 0 when there is none.
   */
  function IntVal(s: string): int
  {
    var t := SkipSpaces(s);
    if t != [] && t[0] == '-' then 0 - NumericMagnitude(t[1..])
    else if t != [] && t[0] == '+' then NumericMagnitude(t[1..])
    else NumericMagnitude(t)
  }

  /** A run of digits followed by a non-digit: the digits are the leading digits. */
  lemma {:induction false} LeadingDigitsStop(d: string, r: string)
    requires forall i :: 0 <= i < |d| ==> IsDigit(d[i])
    requires r != [] && !IsDigit(r[0])
    ensures LeadingDigits(d + r) == d
    ensures (d + r)[|d|..] == r
    decreases |d|
  {
    if d == [] {
      assert d + r == r;
    } else {
      assert (d + r)[1..] == d[1..] + r;
      LeadingDigitsStop(d[1..], r);
    }
  }

  /** Digits alone are read as their value. */
  lemma DigitsMagnitude(d: string)
    requires d != [] && forall i :: 0 <= i < |d| ==> IsDigit(d[i])
    ensures NumericMagnitude(d) == DigitsValue(d)
  {
    DigitsAreLeading(d);
    assert d + [] == d;
  }

  /** Digits followed by something other than a digit or a point: no fraction. */
  lemma WholeMagnitude(d: string, r: string)
    requires d != [] && forall i :: 0 <= i < |d| ==> IsDigit(d[i])
    requires r != [] && !IsDigit(r[0]) && r[0] != '.'
    ensures NumericMagnitude(d + r) == Scale(DigitsValue(d), ExponentOf(r))
  {
    LeadingDigitsStop(d, r);
    var whole, fraction := LeadingDigits(d + r), [];
    assert whole + fraction == d;
  }

  /** "e" and digits: a positive exponent. */
  lemma ExponentDigits(e: string)
    requires e != [] && forall i :: 0 <= i < |e| ==> IsDigit(e[i])
    ensures ExponentOf("e" + e) == DigitsValue(e)
  {
    assert ("e" + e)[1..] == e;
    DigitsAreLeading(e);
  }

  /** Digits, "e" and digits: the mantissa times a power of ten. */
  lemma ExponentMagnitude(d: string, e: string)
    requires d != [] && forall i :: 0 <= i < |d| ==> IsDigit(d[i])
    requires e != [] && forall i :: 0 <= i < |e| ==> IsDigit(e[i])
    ensures NumericMagnitude(d + "e" + e) == DigitsValue(d) * Pow10(DigitsValue(e))
  {
    assert d + "e" + e == d + ("e" + e);
    WholeMagnitude(d, "e" + e);
    ExponentDigits(e);
    ScaleUp(DigitsValue(d), DigitsValue(e));
  }

  /** The decimal notation of a natural number, as PHP writes an integer. */
  function ToDecimal(n: nat): (s: string)
    ensures s != []
    ensures forall i :: 0 <= i < |s| ==> IsDigit(s[i])
    ensures DigitsValue(s) == n
  {
    var digit := ['0' + (n % 10) as char];
    if n < 10 then digit
    else
      var init := ToDecimal(n / 10);
      var s := init + digit;
      assert s[..|s| - 1] == init;
      s
  }

  /** The integer cast reads back a number written in decimal. */
  lemma IntValToDecimal(n: nat)
    ensures IntVal(ToDecimal(n)) == n
  {
    var s := ToDecimal(n);
    assert SkipSpaces(s) == s;
    DigitsMagnitude(s);
  }

  /** Since PHP 7.1 the cast reads the exponent form as a whole: "2e3" is 2000, not 2. */
  lemma IntValExponent(m: nat, k: nat)
    ensures IntVal(ToDecimal(m) + "e" + ToDecimal(k)) == m * Pow10(k)
  {
    var s := ToDecimal(m) + "e" + ToDecimal(k);
    assert s[0] == ToDecimal(m)[0];
    assert SkipSpaces(s) == s;
    ExponentMagnitude(ToDecimal(m), ToDecimal(k));
  }

  lemma {:induction false} DigitsAreLeading(s: string)
    requires forall i :: 0 <= i < |s| ==> IsDigit(s[i])
    ensures LeadingDigits(s) == s
    decreases |s|
  {
    if s != [] {
      DigitsAreLeading(s[1..]);
    }
  }
}
