/** The JSON reader's token level, and skipping a value of any shape. */
module JsonText {

  import opened Basics
  /** A parse either fails or yields a value and the text behind it. */
  datatype Parse<+T> = Fail | Got(value: T, rest: string)

  // ---------------------------------------------------------------------------
  // White space and single characters
  // ---------------------------------------------------------------------------

  predicate IsWS(c: char) {
    c == ' ' || c == '\t' || c == '\n' || c == '\r'
  }

  predicate AllWS(s: string) {
    forall i :: 0 <= i < |s| ==> IsWS(s[i])
  }

  function SkipWS(s: string): (r: string)
    ensures |r| <= |s|
    ensures |r| > 0 ==> !IsWS(r[0])
  {
    if |s| > 0 && IsWS(s[0]) then SkipWS(s[1..]) else s
  }

  predicate Starts(s: string, c: char) {
    |s| > 0 && s[0] == c
  }

  function Expect(s: string, c: char): (r: Parse<()>)
    ensures r.Got? ==> |r.rest| < |s|
  {
    var t := SkipWS(s);
    if Starts(t, c) then Got((), t[1..]) else Fail
  }

  lemma {:induction false} SkipTwice(s: string)
    ensures SkipWS(SkipWS(s)) == SkipWS(s)
  {
    if |s| > 0 && IsWS(s[0]) {
      SkipTwice(s[1..]);
    }
  }

  lemma {:induction false} SkipLeading(ws: string, s: string)
    requires AllWS(ws)
    ensures SkipWS(ws + s) == SkipWS(s)
  {
    if |ws| == 0 {
      assert ws + s == s;
    } else {
      assert (ws + s)[1..] == ws[1..] + s;
      SkipLeading(ws[1..], s);
    }
  }

  lemma ExpectIt(ws: string, c: char, s: string)
    requires AllWS(ws) && !IsWS(c)
    ensures Expect(ws + ([c] + s), c) == Got((), s)
  {
    SkipLeading(ws, [c] + s);
    assert ([c] + s)[1..] == s;
  }

  // ---------------------------------------------------------------------------
  // Strings
  // ---------------------------------------------------------------------------

  function Escape(s: string): string {
    if |s| == 0 then "" else EscapeChar(s[0]) + Escape(s[1..])
  }

  function EscapeChar(c: char): string {
    if c == '"' then ['\\', '"']
    else if c == '\\' then ['\\', '\\']
    else if c == '\n' then ['\\', 'n']
    else if c == '\r' then ['\\', 'r']
    else if c == '\t' then ['\\', 't']
    else [c]
  }

  method JsonEscape(s: string) returns (out: string)
    ensures out == Escape(s)
  {
    hide EscapeChar;
    out := "";
    assert s[0..] == s && "" + Escape(s) == Escape(s);
    for i := 0 to |s|
      invariant out + Escape(s[i..]) == Escape(s)
    {
      EscapeFrom(s, i, out);
      out := out + EscapeChar(s[i]);
    }
    assert s[|s|..] == "" && out + "" == out;
  }

  lemma EscapeFrom(s: string, i: nat, out: string)
    requires i < |s|
    ensures out + Escape(s[i..]) == (out + EscapeChar(s[i])) + Escape(s[i + 1..])
  {
    assert s[i..][1..] == s[i + 1..];
  }

  function Unescape(c: char): char {
    if c == 'n' then '\n' else if c == 'r' then '\r' else if c == 't' then '\t' else c
  }

  function Push(c: char, r: Parse<string>): (q: Parse<string>)
    ensures q.Got? <==> r.Got?
    ensures q.Got? ==> q.rest == r.rest
  {
    match r
    case Fail => Fail
    case Got(v, rest) => Got([c] + v, rest)
  }

  /** The characters up to the closing quote. */
  function Body(s: string): (r: Parse<string>)
    ensures r.Got? ==> |r.rest| < |s|
  {
    if |s| == 0 then Fail
    else if s[0] == '"' then Got("", s[1..])
    else if s[0] == '\\' then
      if |s| == 1 then Fail else Push(Unescape(s[1]), Body(s[2..]))
    else Push(s[0], Body(s[1..]))
  }

  function ParseString(s: string): (r: Parse<string>)
    ensures r.Got? ==> |r.rest| < |s|
  {
    match Expect(s, '"')
    case Fail => Fail
    case Got(_, t) => Body(t)
  }

  const QUOTE: string := ['"']

  lemma BodyOfPair(x: char, later: string)
    ensures Body(['\\', x] + later) == Push(Unescape(x), Body(later))
  {
    var s := ['\\', x] + later;
    assert s[0] == '\\' && s[1] == x && s[2..] == later;
  }

  lemma BodyOfChar(c: char, later: string)
    ensures Body(EscapeChar(c) + later) == Push(c, Body(later))
  {
    if |EscapeChar(c)| == 1 {
      assert ([c] + later)[1..] == later;
    } else {
      hide Body;
      BodyOfPair(EscapeChar(c)[1], later);
      assert EscapeChar(c) == ['\\', EscapeChar(c)[1]];
    }
  }

  lemma {:induction false} BodyOfEscape(x: string, rest: string)
    ensures Body(Escape(x) + (QUOTE + rest)) == Got(x, rest)
  {
    if |x| == 0 {
      assert Escape(x) + (QUOTE + rest) == QUOTE + rest;
    } else {
      hide Body, EscapeChar;
      var e, later := EscapeChar(x[0]), Escape(x[1..]) + (QUOTE + rest);
      assert Escape(x) + (QUOTE + rest) == e + later;
      BodyOfEscape(x[1..], rest);
      BodyOfChar(x[0], later);
      assert [x[0]] + x[1..] == x;
    }
  }

  /** Parsing a quoted, escaped string gives back every character. */
  lemma StringRoundTrip(ws: string, x: string, rest: string)
    requires AllWS(ws)
    ensures ParseString(ws + (QUOTE + (Escape(x) + (QUOTE + rest)))) == Got(x, rest)
  {
    ExpectIt(ws, '"', Escape(x) + (QUOTE + rest));
    BodyOfEscape(x, rest);
  }

  /** Text that needs no escapes. */
  ghost predicate Plain(s: string) {
    forall i :: 0 <= i < |s| ==> IsAlpha(s[i]) || IsDigit(s[i]) || s[i] == '_'
  }

  lemma {:induction false} PlainEscape(s: string)
    requires Plain(s)
    ensures Escape(s) == s
  {
    if |s| > 0 {
      PlainEscape(s[1..]);
      assert [s[0]] + s[1..] == s;
    }
  }

  // ---------------------------------------------------------------------------
  // Unsigned integers
  // ---------------------------------------------------------------------------

  predicate IsDigit(c: char) {
    '0' <= c <= '9'
  }

  function SkipDigits(s: string): (r: string)
    ensures |r| <= |s|
  {
    if |s| > 0 && IsDigit(s[0]) then SkipDigits(s[1..]) else s
  }

  /** Digits folded from the left into a 64-bit value. */
  function Digits(s: string, value: nat): nat {
    if |s| > 0 && IsDigit(s[0])
    then Digits(s[1..], (value * 10 + (s[0] as nat - '0' as nat)) % WORD64)
    else value
  }

  function SkipFraction(s: string): (r: string)
    ensures |r| <= |s|
  {
    if Starts(s, '.') then SkipDigits(s[1..]) else s
  }

  function ParseUint64(s: string): (r: Parse<nat>)
    ensures r.Got? ==> |r.rest| < |s|
  {
    var t := SkipWS(s);
    if |t| > 0 && IsDigit(t[0]) then Got(Digits(t, 0), SkipFraction(SkipDigits(t))) else Fail
  }

  function DigitOf(n: nat): char
    requires n < 10
  {
    ('0' as nat + n) as char
  }

  function PrintNat(n: nat): (s: string)
    ensures |s| > 0 && forall i :: 0 <= i < |s| ==> IsDigit(s[i])
  {
    if n < 10 then [DigitOf(n)] else PrintNat(n / 10) + [DigitOf(n % 10)]
  }

  /** What may follow a number or a word: the end, white space, a comma or a closing bracket. */
  predicate Delimited(rest: string) {
    |rest| > 0 ==> IsWS(rest[0]) || rest[0] == ',' || rest[0] == ']' || rest[0] == '}'
  }

  lemma {:induction false} DigitsConcat(a: string, b: string, value: nat)
    requires forall i :: 0 <= i < |a| ==> IsDigit(a[i])
    ensures Digits(a + b, value) == Digits(b, Digits(a, value))
    ensures SkipDigits(a + b) == SkipDigits(b)
    decreases |a|
  {
    if |a| == 0 {
      assert a + b == b;
    } else {
      assert (a + b)[1..] == a[1..] + b;
      DigitsConcat(a[1..], b, (value * 10 + (a[0] as nat - '0' as nat)) % WORD64);
    }
  }

  lemma DigitAppended(a: string, d: nat)
    requires d < 10 && forall i :: 0 <= i < |a| ==> IsDigit(a[i])
    ensures Digits(a + [DigitOf(d)], 0) == (Digits(a, 0) * 10 + d) % WORD64
  {
    hide Digits, DigitOf;
    var v := Digits(a, 0);
    DigitsConcat(a, [DigitOf(d)], 0);
    OneDigit(d, v);
  }

  lemma OneDigit(d: nat, v: nat)
    requires d < 10
    ensures Digits([DigitOf(d)], v) == (v * 10 + d) % WORD64
  {
    assert [DigitOf(d)][1..] == "";
  }

  lemma {:induction false} DigitsOfPrint(n: nat)
    requires n < WORD64
    ensures Digits(PrintNat(n), 0) == n
  {
    hide Digits, DigitOf;
    if n >= 10 {
      DigitsOfPrint(n / 10);
      DigitAppended(PrintNat(n / 10), n % 10);
    } else {
      OneDigit(n, 0);
    }
  }

  /** A printed 64-bit value parses back. */
  lemma UintRoundTrip(ws: string, n: nat, rest: string)
    requires AllWS(ws) && n < WORD64 && Delimited(rest)
    ensures ParseUint64(ws + (PrintNat(n) + rest)) == Got(n, rest)
  {
    var p := PrintNat(n);
    SkipLeading(ws, p + rest);
    assert IsDigit((p + rest)[0]);
    DigitsConcat(p, rest, 0);
    DigitsOfPrint(n);
  }

  lemma {:induction false} DigitsEnd(digits: string, rest: string)
    requires forall i :: 0 <= i < |digits| ==> IsDigit(digits[i])
    requires |rest| > 0 ==> !IsDigit(rest[0])
    ensures SkipDigits(digits + rest) == rest
  {
    if |digits| == 0 {
      assert digits + rest == rest;
    } else {
      assert (digits + rest)[1..] == digits[1..] + rest;
      DigitsEnd(digits[1..], rest);
    }
  }

  /** An integer written with a fraction parses to the integer; the fraction is dropped. */
  lemma UintWithFraction(ws: string, n: nat, digits: string, rest: string)
    requires AllWS(ws) && n < WORD64
    requires forall i :: 0 <= i < |digits| ==> IsDigit(digits[i])
    requires |rest| > 0 ==> !IsDigit(rest[0])
    ensures ParseUint64(ws + (PrintNat(n) + ("." + (digits + rest)))) == Got(n, rest)
  {
    hide Digits, SkipDigits, PrintNat;
    var p, tail := PrintNat(n), "." + (digits + rest);
    SkipLeading(ws, p + tail);
    assert IsDigit((p + tail)[0]);
    DigitsConcat(p, tail, 0);
    DigitsOfPrint(n);
    DigitsStop(tail, n);
    assert tail[1..] == digits + rest;
    DigitsEnd(digits, rest);
  }

  lemma DigitsStop(s: string, value: nat)
    requires |s| > 0 && !IsDigit(s[0])
    ensures Digits(s, value) == value && SkipDigits(s) == s
  {
  }

  // ---------------------------------------------------------------------------
  // Floating numerals, kept as text
  // ---------------------------------------------------------------------------

  function SkipSign(s: string): (r: string)
    ensures |r| <= |s|
  {
    if Starts(s, '-') then s[1..] else s
  }

  function SkipExponent(s: string): (r: string)
    ensures |r| <= |s|
  {
    if Starts(s, 'e') || Starts(s, 'E') then
      SkipSigned(s[1..])
    else s
  }

  function SkipSigned(s: string): (r: string)
    ensures |r| <= |s|
  {
    SkipDigits(if Starts(s, '+') || Starts(s, '-') then s[1..] else s)
  }

  function SkipNumber(s: string): (r: string)
    ensures |r| <= |s|
  {
    SkipExponent(SkipFraction(SkipDigits(SkipSign(s))))
  }

  /** A token that converts: a digit behind the sign, or behind a leading point. */
  predicate Converts(token: string) {
    var u := SkipSign(token);
    |u| > 0 && (IsDigit(u[0]) || (u[0] == '.' && |u| > 1 && IsDigit(u[1])))
  }

  function ParseDouble(s: string): (r: Parse<string>)
    ensures r.Got? ==> |r.rest| < |s|
  {
    var t := SkipWS(s);
    var r := SkipNumber(t);
    var token := t[..|t| - |r|];
    if |r| == |t| || !Converts(token) then Fail else Got(token, r)
  }

  predicate Numeral(token: string) {
    SkipNumber(token) == "" && Converts(token)
  }

  lemma {:induction false} DigitsBefore(s: string, rest: string)
    requires Delimited(rest)
    ensures SkipDigits(s + rest) == SkipDigits(s) + rest
  {
    if |s| > 0 && IsDigit(s[0]) {
      assert (s + rest)[1..] == s[1..] + rest;
      DigitsBefore(s[1..], rest);
    } else if |s| == 0 {
      assert s + rest == rest;
    }
  }

  lemma FractionBefore(s: string, rest: string)
    requires Delimited(rest)
    ensures SkipFraction(s + rest) == SkipFraction(s) + rest
  {
    if |s| == 0 {
      assert s + rest == rest;
    } else {
      assert (s + rest)[1..] == s[1..] + rest;
      DigitsBefore(s[1..], rest);
    }
  }

  lemma SignedBefore(s: string, rest: string)
    requires Delimited(rest)
    ensures SkipSigned(s + rest) == SkipSigned(s) + rest
  {
    hide SkipDigits;
    if |s| == 0 {
      assert s + rest == rest;
      DigitsBefore("", rest);
    } else {
      assert (s + rest)[1..] == s[1..] + rest;
      DigitsBefore(s, rest);
      DigitsBefore(s[1..], rest);
    }
  }

  lemma ExponentBefore(s: string, rest: string)
    requires Delimited(rest)
    ensures SkipExponent(s + rest) == SkipExponent(s) + rest
  {
    hide SkipSigned;
    if |s| == 0 {
      assert s + rest == rest;
    } else {
      assert (s + rest)[1..] == s[1..] + rest;
      SignedBefore(s[1..], rest);
    }
  }

  lemma NumberBefore(s: string, rest: string)
    requires Delimited(rest)
    ensures SkipNumber(s + rest) == SkipNumber(s) + rest
  {
    hide SkipDigits, SkipFraction, SkipExponent;
    var u := SkipSign(s);
    assert SkipSign(s + rest) == u + rest by {
      if |s| == 0 {
        assert s + rest == rest;
      } else {
        assert (s + rest)[1..] == s[1..] + rest;
      }
    }
    DigitsBefore(u, rest);
    FractionBefore(SkipDigits(u), rest);
    ExponentBefore(SkipFraction(SkipDigits(u)), rest);
  }

  /** A numeral is read to its end and comes back as it was written. */
  lemma NumeralRoundTrip(ws: string, token: string, rest: string)
    requires AllWS(ws) && Numeral(token) && Delimited(rest)
    ensures ParseDouble(ws + (token + rest)) == Got(token, rest)
  {
    NumberBefore(token, rest);
    SkipLeading(ws, token + rest);
    assert !IsWS(token[0]);
    assert "" + rest == rest;
    assert (token + rest)[..|token|] == token;
  }

  // ---------------------------------------------------------------------------
  // Skipping a value
  // ---------------------------------------------------------------------------

  predicate IsAlpha(c: char) {
    'a' <= c <= 'z' || 'A' <= c <= 'Z'
  }

  function SkipAlpha(s: string): (r: string)
    ensures |r| <= |s|
    ensures |s| > 0 && IsAlpha(s[0]) ==> |r| < |s|
  {
    if |s| > 0 && IsAlpha(s[0]) then SkipAlpha(s[1..]) else s
  }

  function SkipValue(s: string): (r: Parse<()>)
    ensures r.Got? ==> |r.rest| < |s|
    decreases |s|, 1
  {
    var t := SkipWS(s);
    if |t| == 0 then Fail
    else if t[0] == '"' then
      match ParseString(t)
      case Fail => Fail
      case Got(_, rest) => Got((), rest)
    else if t[0] == '{' then
      var u := SkipWS(t[1..]);
      if |u| == 0 then Fail
      else if u[0] != '}' then SkipMembers(u)
      else Expect(u, '}')
    else if t[0] == '[' then
      var u := SkipWS(t[1..]);
      if |u| == 0 then Fail
      else if u[0] != ']' then SkipElements(u)
      else Expect(u, ']')
    else if t[0] == 't' || t[0] == 'f' || t[0] == 'n' then Got((), SkipAlpha(t))
    else
      match ParseDouble(t)
      case Fail => Fail
      case Got(_, rest) => Got((), rest)
  }

  /** The members of an object up to and with its closing brace. */
  function SkipMembers(s: string): (r: Parse<()>)
    ensures r.Got? ==> |r.rest| < |s|
    decreases |s|, 0
  {
    match ParseString(s)
    case Fail => Fail
    case Got(_, s1) =>
      match Expect(s1, ':')
      case Fail => Fail
      case Got(_, s2) =>
        match SkipValue(s2)
        case Fail => Fail
        case Got(_, s3) =>
          var w := SkipWS(s3);
          if |w| == 0 then Fail
          else if w[0] == ',' then SkipMembers(SkipWS(w[1..]))
          else Expect(w, '}')
  }

  function SkipElements(s: string): (r: Parse<()>)
    ensures r.Got? ==> |r.rest| < |s|
    decreases |s|, 2
  {
    match SkipValue(s)
    case Fail => Fail
    case Got(_, s1) =>
      var w := SkipWS(s1);
      if |w| == 0 then Fail
      else if w[0] == ',' then SkipElements(SkipWS(w[1..]))
      else Expect(w, ']')
  }
}
