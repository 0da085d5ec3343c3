/**
 * The JavaScript String operations the configuration parsers rely on, on
 * strings as sequences of characters: split on one character, trim (with the
 * ECMAScript WhiteSpace and LineTerminator sets), includes, startsWith, the
 * ASCII part of toLowerCase, the first `\((.*?)\)` group, and the numeric
 * literals Number() accepts as finite.
 */
module JsText {
  import opened Wrappers

  /** The characters String.prototype.trim removes: WhiteSpace and LineTerminator. */
  predicate IsJsSpace(c: char)
  {
    || c == '\t' || c == '\n' || c == '\U{000B}' || c == '\U{000C}' || c == '\r' || c == ' '
    || c == '\U{00A0}' || c == '\U{1680}' || ('\U{2000}' <= c <= '\U{200A}')
    || c == '\U{2028}' || c == '\U{2029}' || c == '\U{202F}' || c == '\U{205F}'
    || c == '\U{3000}' || c == '\U{FEFF}'
  }

  /** The characters a regular-expression `.` does not match. */
  predicate IsLineTerminator(c: char)
  {
    c == '\n' || c == '\r' || c == '\U{2028}' || c == '\U{2029}'
  }

  // ---------------------------------------------------------------------------
  // indexOf, split and join on one character

  function IndexOf(s: string, c: char): (r: Option<nat>)
    ensures r.Some? ==> r.value < |s| && s[r.value] == c && c !in s[..r.value]
    ensures r.None? <==> c !in s
  {
    if s == [] then None
    else if s[0] == c then Some(0)
    else
      match IndexOf(s[1..], c)
      case None => None
      case Some(k) =>
        assert s[..k + 1] == [s[0]] + s[1..][..k];
        Some(k + 1)
  }

  /** The first occurrence is the one with none before it. */
  lemma {:induction false} IndexOfAt(s: string, c: char, n: nat)
    requires n < |s| && s[n] == c && c !in s[..n]
    ensures IndexOf(s, c) == Some(n)
    decreases n
  {
    if n > 0 {
      assert s[0] in s[..n];
      assert s[1..][..n - 1] == s[1..n];
      assert forall x :: x in s[1..n] ==> x in s[..n];
      IndexOfAt(s[1..], c, n - 1);
    }
  }

  /** s.split(sep) for a one-character separator: never empty, no piece contains sep. */
  function Split(s: string, sep: char): (parts: seq<string>)
    ensures |parts| >= 1
    ensures forall i :: 0 <= i < |parts| ==> sep !in parts[i]
    decreases |s|
  {
    match IndexOf(s, sep)
    case None => [s]
    case Some(i) => [s[..i]] + Split(s[i + 1..], sep)
  }

  /** parts.join(sep). */
  function Join(parts: seq<string>, sep: char): string
    requires |parts| >= 1
    decreases |parts|
  {
    if |parts| == 1 then parts[0] else parts[0] + [sep] + Join(parts[1..], sep)
  }

  lemma {:induction false} JoinSplit(s: string, sep: char)
    ensures Join(Split(s, sep), sep) == s
    decreases |s|
  {
    match IndexOf(s, sep)
    case None =>
    case Some(i) =>
      JoinSplit(s[i + 1..], sep);
      var rest := Split(s[i + 1..], sep);
      assert Split(s, sep) == [s[..i]] + rest;
      assert Split(s, sep)[1..] == rest;
      assert s == s[..i] + [sep] + s[i + 1..];
  }

  lemma {:induction false} SplitJoin(parts: seq<string>, sep: char)
    requires |parts| >= 1 && forall i :: 0 <= i < |parts| ==> sep !in parts[i]
    ensures Split(Join(parts, sep), sep) == parts
    decreases |parts|
  {
    if |parts| == 1 {
      assert IndexOf(parts[0], sep) == None;
    } else {
      var tail := parts[1..];
      assert forall i :: 0 <= i < |tail| ==> sep !in tail[i] by {
        forall i | 0 <= i < |tail| ensures sep !in tail[i] { assert tail[i] == parts[i + 1]; }
      }
      SplitJoin(tail, sep);
      var s := Join(parts, sep);
      var n := |parts[0]|;
      assert s[..n] == parts[0];
      assert s[n] == sep;
      assert s[n + 1..] == Join(tail, sep);
      IndexOfAt(s, sep, n);
    }
  }

  // ---------------------------------------------------------------------------
  // trim

  /** Drops leading JavaScript whitespace. */
  function TrimStart(s: string): string
    decreases |s|
  {
    if s != [] && IsJsSpace(s[0]) then TrimStart(s[1..]) else s
  }

  /** Drops trailing JavaScript whitespace. */
  function TrimEnd(s: string): string
    decreases |s|
  {
    if s != [] && IsJsSpace(s[|s| - 1]) then TrimEnd(s[..|s| - 1]) else s
  }

  /**
   * Exactly the leading whitespace goes: the result is a suffix of s, what is dropped
   * is whitespace, and what is kept starts with none.
   */
  lemma {:induction false} TrimStartSpec(s: string)
    ensures var r := TrimStart(s);
      && |r| <= |s| && r == s[|s| - |r|..]
      && (r != [] ==> !IsJsSpace(r[0]))
      && forall i :: 0 <= i < |s| - |r| ==> IsJsSpace(s[i])
    decreases |s|
  {
    if s != [] && IsJsSpace(s[0]) {
      var tail := s[1..];
      TrimStartSpec(tail);
      forall i | 0 < i < |s| - |TrimStart(s)|
        ensures IsJsSpace(s[i])
      {
        assert s[i] == tail[i - 1];
      }
    }
  }

  /** Exactly the trailing whitespace goes: the result is a prefix of s. */
  lemma {:induction false} TrimEndSpec(s: string)
    ensures var r := TrimEnd(s);
      && |r| <= |s| && r == s[..|r|]
      && (r != [] ==> !IsJsSpace(r[|r| - 1]))
      && forall i :: |r| <= i < |s| ==> IsJsSpace(s[i])
    decreases |s|
  {
    if s != [] && IsJsSpace(s[|s| - 1]) {
      var init := s[..|s| - 1];
      TrimEndSpec(init);
      forall i | |TrimEnd(s)| <= i < |s| - 1
        ensures IsJsSpace(s[i])
      {
        assert s[i] == init[i];
      }
    }
  }

  /** s.trim(). */
  function Trim(s: string): string
  {
    TrimEnd(TrimStart(s))
  }

  /** r is s[i..i + |r|], and everything of s around it is whitespace. */
  predicate TrimmedAt(s: string, r: string, i: int)
  {
    && 0 <= i <= |s| - |r| && s[i..i + |r|] == r
    && (forall j :: 0 <= j < i ==> IsJsSpace(s[j]))
    && (forall j :: i + |r| <= j < |s| ==> IsJsSpace(s[j]))
  }

  /** trim keeps a contiguous stretch of s, removing only JavaScript whitespace around it. */
  lemma TrimSpec(s: string)
    ensures var r := Trim(s);
      && (r != [] ==> !IsJsSpace(r[0]) && !IsJsSpace(r[|r| - 1]))
      && exists i :: TrimmedAt(s, r, i)
  {
    var t := TrimStart(s);
    var r := TrimEnd(t);
    TrimStartSpec(s);
    TrimEndSpec(t);
    var i := |s| - |t|;
    assert s[i..i + |r|] == r;
    if r != [] {
      assert r[0] == t[0];
    }
    forall j | i + |r| <= j < |s|
      ensures IsJsSpace(s[j])
    {
      assert s[j] == t[j - i];
    }
    assert TrimmedAt(s, r, i);
  }

  /** trim is idempotent. */
  lemma TrimIdempotent(s: string)
    ensures Trim(Trim(s)) == Trim(s)
  {
    var r := Trim(s);
    TrimSpec(s);
    assert TrimStart(r) == r;
    assert TrimEnd(r) == r;
  }

  // ---------------------------------------------------------------------------
  // startsWith and includes

  predicate StartsWith(s: string, prefix: string)
  {
    |prefix| <= |s| && s[..|prefix|] == prefix
  }

  /** s.includes(sub), from the leftmost position. */
  predicate Includes(s: string, sub: string)
    decreases |s|
  {
    StartsWith(s, sub) || (s != [] && Includes(s[1..], sub))
  }

  /** sub occurs in s at position i. */
  predicate OccursAt(s: string, sub: string, i: int)
  {
    0 <= i <= |s| - |sub| && s[i..i + |sub|] == sub
  }

  lemma {:induction false} IncludesIff(s: string, sub: string)
    ensures Includes(s, sub) <==> exists i :: OccursAt(s, sub, i)
    decreases |s|
  {
    if StartsWith(s, sub) {
      assert OccursAt(s, sub, 0);
    }
    if s != [] {
      IncludesIff(s[1..], sub);
      if Includes(s[1..], sub) {
        var i :| OccursAt(s[1..], sub, i);
        assert s[i + 1..i + 1 + |sub|] == sub;
        assert OccursAt(s, sub, i + 1);
      }
      if exists i :: OccursAt(s, sub, i) {
        var i :| OccursAt(s, sub, i);
        if i > 0 {
          assert s[1..][i - 1..i - 1 + |sub|] == sub;
          assert OccursAt(s[1..], sub, i - 1);
        }
      }
    }
  }

  /** Appending text keeps every occurrence: includes is stable under extension. */
  lemma {:induction false} IncludesExtend(s: string, sub: string, suffix: string)
    requires Includes(s, sub)
    ensures Includes(s + suffix, sub)
    decreases |s|
  {
    if StartsWith(s, sub) {
      assert (s + suffix)[..|sub|] == s[..|sub|];
    } else {
      assert (s + suffix)[1..] == s[1..] + suffix;
      IncludesExtend(s[1..], sub, suffix);
    }
  }

  // ---------------------------------------------------------------------------
  // toLowerCase and replace(/\\/g, '/')

  /** toLowerCase on ASCII letters; other characters are kept. */
  function LowerChar(c: char): char
  {
    if 'A' <= c <= 'Z' then (c as int + 32) as char else c
  }

  function ToLower(s: string): (r: string)
    ensures |r| == |s| && forall i :: 0 <= i < |s| ==> r[i] == LowerChar(s[i])
  {
    seq(|s|, i requires 0 <= i < |s| => LowerChar(s[i]))
  }

  /** Every backslash becomes a forward slash. */
  function ForwardSlashes(s: string): (r: string)
    ensures |r| == |s| && forall i :: 0 <= i < |s| ==> r[i] == (if s[i] == '\\' then '/' else s[i])
  {
    seq(|s|, i requires 0 <= i < |s| => if s[i] == '\\' then '/' else s[i])
  }

  // ---------------------------------------------------------------------------
  // The first match of /\((.*?)\)/

  /** The ')' at c is the nearest one from k, and no line terminator comes before it. */
  predicate CloseAt(s: string, k: int, c: int)
  {
    0 <= k <= c < |s| && s[c] == ')' && forall j :: k <= j < c ==> s[j] != ')' && !IsLineTerminator(s[j])
  }

  /** The first ')' at or after k, unless a line terminator comes first. */
  function CloseFrom(s: string, k: nat): (r: Option<nat>)
    requires k <= |s|
    ensures r.Some? ==> k <= r.value < |s| && s[r.value] == ')'
    ensures r.Some? ==> CloseAt(s, k, r.value)
    ensures r.None? ==> forall c :: !CloseAt(s, k, c)
    decreases |s| - k
  {
    if k == |s| then None
    else if s[k] == ')' then Some(k)
    else if IsLineTerminator(s[k]) then None
    else
      assert forall c :: CloseAt(s, k, c) ==> CloseAt(s, k + 1, c);
      CloseFrom(s, k + 1)
  }

  /** The regular expression matches at i: a '(' there, and a ')' reachable after it. */
  predicate MatchAt(s: string, i: int)
  {
    0 <= i < |s| && s[i] == '(' && exists c :: i < c < |s| && s[c] == ')' && CloseAt(s, i + 1, c)
  }

  /** i is the leftmost position at or after p where the regular expression matches. */
  predicate FirstMatchFrom(s: string, p: int, i: int)
  {
    p <= i && MatchAt(s, i) && forall j :: p <= j < i ==> !MatchAt(s, j)
  }

  /** The group of the leftmost match of /\((.*?)\)/ starting at or after p. */
  function ParenGroupFrom(s: string, p: nat): (r: Option<string>)
    requires p <= |s|
    decreases |s| - p
  {
    if p == |s| then None
    else if s[p] == '(' && CloseFrom(s, p + 1).Some? then Some(s[p + 1..CloseFrom(s, p + 1).value])
    else ParenGroupFrom(s, p + 1)
  }

  function ParenGroup(s: string): Option<string>
  {
    ParenGroupFrom(s, 0)
  }

  /** g stands between a '(' at i and the ')' right after it, and holds no ')' and no line terminator. */
  predicate GroupAt(s: string, g: string, i: int)
  {
    && 0 <= i && i + |g| + 2 <= |s| && s[i] == '(' && s[i + 1..i + 1 + |g|] == g && s[i + 1 + |g|] == ')'
    && forall j :: 0 <= j < |g| ==> g[j] != ')' && !IsLineTerminator(g[j])
  }

  /**
   * The search finds nothing exactly when the regular expression matches nowhere
   * from p on. Otherwise it returns the group of the leftmost match: the text
   * between that '(' and the nearest ')' after it, holding no ')' and no line
   * terminator (the lazy group and the `.` of the regular expression).
   */
  lemma {:induction false} ParenGroupFromSpec(s: string, p: nat)
    requires p <= |s|
    ensures ParenGroupFrom(s, p).None? <==> forall i :: p <= i < |s| ==> !MatchAt(s, i)
    ensures ParenGroupFrom(s, p).Some? ==>
      exists i :: FirstMatchFrom(s, p, i) && GroupAt(s, ParenGroupFrom(s, p).value, i)
    decreases |s| - p
  {
    if p < |s| {
      if s[p] == '(' && CloseFrom(s, p + 1).Some? {
        var q := CloseFrom(s, p + 1).value;
        var g := s[p + 1..q];
        assert s[p + 1..p + 1 + |g|] == g;
        forall j | 0 <= j < |g|
          ensures g[j] != ')' && !IsLineTerminator(g[j])
        {
          assert g[j] == s[p + 1 + j];
        }
        assert MatchAt(s, p);
        assert FirstMatchFrom(s, p, p) && GroupAt(s, g, p);
      } else {
        assert !MatchAt(s, p);
        ParenGroupFromSpec(s, p + 1);
        if ParenGroupFrom(s, p + 1).Some? {
          var i :| FirstMatchFrom(s, p + 1, i) && GroupAt(s, ParenGroupFrom(s, p + 1).value, i);
          assert FirstMatchFrom(s, p, i);
        }
      }
    }
  }

  /** The first match of the regular expression in s, or None exactly when it matches nowhere. */
  lemma ParenGroupSpec(s: string)
    ensures ParenGroup(s).None? <==> forall i :: 0 <= i < |s| ==> !MatchAt(s, i)
    ensures ParenGroup(s).Some? ==> exists i :: FirstMatchFrom(s, 0, i) && GroupAt(s, ParenGroup(s).value, i)
  {
    ParenGroupFromSpec(s, 0);
  }

  /** Without a '(' there is no match. */
  lemma {:induction false} NoOpenNoGroup(s: string, p: nat)
    requires p <= |s| && forall j :: p <= j < |s| ==> s[j] != '('
    ensures ParenGroupFrom(s, p) == None
    decreases |s| - p
  {
    if p < |s| {
      NoOpenNoGroup(s, p + 1);
    }
  }

  // ---------------------------------------------------------------------------
  // Numeric literals

  predicate IsDigit(c: char)
  {
    '0' <= c <= '9'
  }

  predicate AllDigits(s: string)
  {
    forall i :: 0 <= i < |s| ==> IsDigit(s[i])
  }

  /** The value of a string of decimal digits. */
  function DigitsValue(s: string): (n: nat)
    requires AllDigits(s)
    decreases |s|
  {
    if s == [] then 0
    else DigitsValue(s[..|s| - 1]) * 10 + (s[|s| - 1] as int - '0' as int)
  }

  function Pow10(e: nat): (r: nat)
    ensures r >= 1
  {
    if e == 0 then 1 else 10 * Pow10(e - 1)
  }

  /** x * 10^e for a possibly negative exponent. */
  function Scale(x: real, e: int): real
  {
    if e >= 0 then x * (Pow10(e) as real) else x / (Pow10(-e) as real)
  }

  /** An optionally signed non-empty digit string, as in an exponent. */
  function SignedInteger(s: string): Option<int>
  {
    if s != [] && (s[0] == '+' || s[0] == '-') then
      var digits := s[1..];
      if digits != [] && AllDigits(digits) then
        Some(if s[0] == '-' then -(DigitsValue(digits) as int) else DigitsValue(digits) as int)
      else None
    else if s != [] && AllDigits(s) then Some(DigitsValue(s) as int)
    else None
  }

  /** digits [ . digits ] or . digits, with at least one digit. */
  function Mantissa(s: string): Option<real>
  {
    match IndexOf(s, '.')
    case None => if s != [] && AllDigits(s) then Some(DigitsValue(s) as real) else None
    case Some(d) =>
      var whole := s[..d];
      var frac := s[d + 1..];
      if (whole != [] || frac != []) && AllDigits(whole) && AllDigits(frac) then
        Some(DigitsValue(whole) as real + (DigitsValue(frac) as real) / (Pow10(|frac|) as real))
      else None
  }

  /** An unsigned decimal literal with an optional exponent. */
  function UnsignedDecimal(s: string): Option<real>
  {
    var e := match IndexOf(s, 'e') case Some(i) => Some(i) case None => IndexOf(s, 'E');
    match e
    case None => Mantissa(s)
    case Some(i) =>
      match (Mantissa(s[..i]), SignedInteger(s[i + 1..]))
      case (Some(m), Some(x)) => Some(Scale(m, x))
      case _ => None
  }

  /**
   * The value of s when Number(s) reads it as a finite decimal literal (an optional
   * sign, digits with an optional fraction, an optional exponent); parseFloat(s)
   * reads the same value from such a string.
   */
  function FiniteDecimal(s: string): Option<real>
  {
    if s != [] && (s[0] == '+' || s[0] == '-') then
      match UnsignedDecimal(s[1..])
      case None => None
      case Some(v) => Some(if s[0] == '-' then -v else v)
    else UnsignedDecimal(s)
  }

  predicate IsRadixDigit(c: char, radix: char)
  {
    match radix
    case 'x' => IsDigit(c) || ('a' <= c <= 'f') || ('A' <= c <= 'F')
    case 'o' => '0' <= c <= '7'
    case _ => c == '0' || c == '1'
  }

  /** A 0x / 0o / 0b literal: finite for Number(), while parseFloat reads only its leading 0. */
  predicate NonDecimalInteger(s: string)
  {
    && |s| >= 3 && s[0] == '0'
    && var radix := LowerChar(s[1]);
    && (radix == 'x' || radix == 'o' || radix == 'b')
    && forall i :: 2 <= i < |s| ==> IsRadixDigit(s[i], radix)
  }

  /** "12" reads as the integer 12. */
  lemma IntegerLiteral()
    ensures FiniteDecimal("12") == Some(12.0)
  {
    assert IndexOf("12", 'e') == None && IndexOf("12", 'E') == None && IndexOf("12", '.') == None;
    assert AllDigits("12");
    assert DigitsValue("12") == 12 by {
      assert "12"[..1] == "1" && "1"[..0] == "";
    }
  }

  /** "-0.5" reads as the negative fraction -0.5. */
  lemma SignedFractionLiteral()
    ensures FiniteDecimal("-0.5") == Some(-0.5)
  {
    var u := "-0.5"[1..];
    assert u == "0.5";
    assert IndexOf(u, 'e') == None && IndexOf(u, 'E') == None;
    assert IndexOf(u, '.') == Some(1);
    assert u[..1] == "0" && u[2..] == "5";
    assert DigitsValue("0") == 0 && DigitsValue("5") == 5 by {
      assert "0"[..0] == "" && "5"[..0] == "";
    }
  }

  /** "1e3" reads as 1000. */
  lemma ExponentLiteral()
    ensures FiniteDecimal("1e3") == Some(1000.0)
  {
    assert IndexOf("1e3", 'e') == Some(1);
    assert "1e3"[..1] == "1" && "1e3"[2..] == "3";
    assert IndexOf("1", '.') == None;
    assert DigitsValue("1") == 1 && DigitsValue("3") == 3 by {
      assert "1"[..0] == "" && "3"[..0] == "";
    }
    assert SignedInteger("3") == Some(3);
  }

  /** A number followed by a unit is not a finite Number(). */
  lemma UnitSuffixIsText()
    ensures FiniteDecimal("12px") == None
  {
    assert IndexOf("12px", 'e') == None && IndexOf("12px", 'E') == None && IndexOf("12px", '.') == None;
    assert !IsDigit("12px"[2]);
  }

  /** A mantissa starts with a digit or the decimal point. */
  lemma MantissaLeadingChar(s: string)
    requires s != [] && !IsDigit(s[0]) && s[0] != '.'
    ensures Mantissa(s) == None
  {
    match IndexOf(s, '.')
    case None =>
    case Some(d) =>
      assert d > 0 && s[..d][0] == s[0];
  }

  /**
   * A string starting with anything but a digit, a point or a sign is not a finite
   * decimal; so Infinity and NaN, which Number() accepts, are kept as text.
   */
  lemma LeadingLetterIsText(s: string)
    requires s != [] && !IsDigit(s[0]) && s[0] != '.' && s[0] != '+' && s[0] != '-'
    ensures FiniteDecimal(s) == None
  {
    var e := match IndexOf(s, 'e') case Some(i) => Some(i) case None => IndexOf(s, 'E');
    match e
    case None => MantissaLeadingChar(s);
    case Some(i) =>
      if i > 0 {
        assert s[..i][0] == s[0];
        MantissaLeadingChar(s[..i]);
      }
  }

  lemma InfinityIsText()
    ensures FiniteDecimal("Infinity") == None && FiniteDecimal("NaN") == None
  {
    LeadingLetterIsText("Infinity");
    LeadingLetterIsText("NaN");
  }

  /** 0x1F is a finite non-decimal literal; 0x alone is not. */
  lemma HexLiteral()
    ensures NonDecimalInteger("0x1F") && !NonDecimalInteger("0x")
  {
  }
}
