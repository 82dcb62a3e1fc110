/** The cursor-based reader: every method advances one position over the text. */
module JsonReaders {

  import opened Basics
  import opened JsonText

  class JsonReader {
    const data: string
    var pos: nat

    ghost predicate Valid()
      reads this
    {
      pos <= |data|
    }

    ghost function Rest(): string
      requires Valid()
      reads this
    {
      data[pos..]
    }

    constructor (data: string)
      ensures Valid() && this.data == data && Rest() == data
    {
      this.data, pos := data, 0;
    }

    method SkipSpace()
      requires Valid()
      modifies this
      ensures Valid() && Rest() == SkipWS(old(Rest())) && pos >= old(pos)
    {
      while pos < |data| && IsWS(data[pos])
        invariant Valid() && pos >= old(pos) && SkipWS(Rest()) == SkipWS(old(Rest()))
      {
        assert Rest()[1..] == data[pos + 1..];
        pos := pos + 1;
      }
    }

    /** The next character that is not white space. */
    method Peek() returns (ok: bool, c: char)
      requires Valid()
      modifies this
      ensures Valid() && Rest() == SkipWS(old(Rest())) && pos >= old(pos)
      ensures ok == (|Rest()| > 0) && (ok ==> c == Rest()[0])
    {
      SkipSpace();
      if pos >= |data| {
        return false, ' ';
      }
      return true, data[pos];
    }

    method ExpectChar(c: char) returns (ok: bool)
      requires Valid()
      modifies this
      ensures Valid() && pos >= old(pos)
      ensures var e := Expect(old(Rest()), c);
              ok == e.Got? && (ok ==> Rest() == e.rest && pos > old(pos))
    {
      SkipSpace();
      if pos >= |data| || data[pos] != c {
        return false;
      }
      assert Rest()[1..] == data[pos + 1..];
      pos := pos + 1;
      return true;
    }

    /** Reads to the closing quote, replacing escapes. */
    method ReadBody() returns (ok: bool, text: string)
      requires Valid()
      modifies this
      ensures Valid() && pos >= old(pos)
      ensures var p := Body(old(Rest()));
              ok == p.Got? && (ok ==> text == p.value && Rest() == p.rest && pos > old(pos))
    {
      hide Body, Unescape;
      text := "";
      ghost var all := Body(Rest());
      assert Joined("", all) == all by { JoinedNothing(all); }
      while pos < |data| && data[pos] != '"'
        invariant Valid() && pos >= old(pos) && Joined(text, Body(Rest())) == all
      {
        ghost var here := Rest();
        BodyStep(here, text);
        if data[pos] == '\\' {
          pos := pos + 1;
          if pos >= |data| {
            return false, text;
          }
          assert here[2..] == data[pos + 1..] && here[1] == data[pos];
          text := text + [Unescape(data[pos])];
        } else {
          assert here[1..] == data[pos + 1..];
          text := text + [data[pos]];
        }
        pos := pos + 1;
      }
      BodyEnds(Rest(), text);
      if pos >= |data| {
        return false, text;
      }
      assert Rest()[1..] == data[pos + 1..];
      pos := pos + 1;
      ok := true;
    }

    method ReadString() returns (ok: bool, text: string)
      requires Valid()
      modifies this
      ensures Valid() && pos >= old(pos)
      ensures var p := ParseString(old(Rest()));
              ok == p.Got? && (ok ==> text == p.value && Rest() == p.rest && pos > old(pos))
    {
      hide Body;
      text := "";
      SkipSpace();
      SkipTwice(old(Rest()));
      ok := ExpectChar('"');
      if ok {
        ok, text := ReadBody();
      }
    }

    method SkipDigitRun()
      requires Valid()
      modifies this
      ensures Valid() && pos >= old(pos) && Rest() == SkipDigits(old(Rest()))
    {
      while pos < |data| && IsDigit(data[pos])
        invariant Valid() && pos >= old(pos) && SkipDigits(Rest()) == SkipDigits(old(Rest()))
      {
        assert Rest()[1..] == data[pos + 1..];
        pos := pos + 1;
      }
    }

    /** Reads decimal digits into a 64-bit value and skips a fraction. */
    method ReadUint64() returns (ok: bool, val: nat)
      requires Valid()
      modifies this
      ensures Valid() && pos >= old(pos)
      ensures var p := ParseUint64(old(Rest()));
              ok == p.Got? && (ok ==> val == p.value && Rest() == p.rest)
    {
      SkipSpace();
      val := 0;
      if pos >= |data| || !IsDigit(data[pos]) {
        return false, 0;
      }
      ghost var start := Rest();
      while pos < |data| && IsDigit(data[pos])
        invariant Valid() && pos >= old(pos)
        invariant Digits(Rest(), val) == Digits(start, 0)
        invariant SkipDigits(Rest()) == SkipDigits(start)
      {
        assert Rest()[1..] == data[pos + 1..];
        val := (val * 10 + (data[pos] as nat - '0' as nat)) % WORD64;
        pos := pos + 1;
      }
      if pos < |data| && data[pos] == '.' {
        assert Rest()[1..] == data[pos + 1..];
        pos := pos + 1;
        SkipDigitRun();
      }
      ok := true;
    }

    method SkipFractionPart()
      requires Valid()
      modifies this
      ensures Valid() && pos >= old(pos) && Rest() == SkipFraction(old(Rest()))
    {
      if pos < |data| && data[pos] == '.' {
        assert Rest()[1..] == data[pos + 1..];
        pos := pos + 1;
        SkipDigitRun();
      }
    }

    method SkipExponentPart()
      requires Valid()
      modifies this
      ensures Valid() && pos >= old(pos) && Rest() == SkipExponent(old(Rest()))
    {
      hide SkipDigits;
      if pos < |data| && (data[pos] == 'e' || data[pos] == 'E') {
        assert Rest()[1..] == data[pos + 1..];
        pos := pos + 1;
        if pos < |data| && (data[pos] == '+' || data[pos] == '-') {
          assert Rest()[1..] == data[pos + 1..];
          pos := pos + 1;
        }
        SkipDigitRun();
      }
    }

    /** Reads a number; its text stands for the value. */
    method ReadDouble() returns (ok: bool, token: string)
      requires Valid()
      modifies this
      ensures Valid() && pos >= old(pos)
      ensures var p := ParseDouble(old(Rest()));
              ok == p.Got? && (ok ==> token == p.value && Rest() == p.rest && pos > old(pos))
    {
      hide SkipDigits, SkipFraction, SkipExponent, Converts;
      SkipSpace();
      var start := pos;
      ghost var s := Rest();
      if pos < |data| && data[pos] == '-' {
        assert Rest()[1..] == data[pos + 1..];
        pos := pos + 1;
      }
      assert Rest() == SkipSign(s);
      SkipDigitRun();
      SkipFractionPart();
      SkipExponentPart();
      assert Rest() == SkipNumber(s);
      token := data[start..pos];
      assert token == s[..|s| - |Rest()|];
      ok := pos > start && Converts(token);
    }

    method SkipWord()
      requires Valid()
      modifies this
      ensures Valid() && pos >= old(pos) && Rest() == SkipAlpha(old(Rest()))
    {
      while pos < |data| && IsAlpha(data[pos])
        invariant Valid() && pos >= old(pos) && SkipAlpha(Rest()) == SkipAlpha(old(Rest()))
      {
        assert Rest()[1..] == data[pos + 1..];
        pos := pos + 1;
      }
    }

    /** Skips one value of any shape. */
    method SkipAny() returns (ok: bool)
      requires Valid()
      modifies this
      ensures Valid() && pos >= old(pos)
      ensures var p := SkipValue(old(Rest()));
              ok == p.Got? && (ok ==> Rest() == p.rest && pos > old(pos))
      decreases |data| - pos, 1
    {
      hide SkipMembers, SkipElements, SkipAlpha, ParseDouble, Body;
      SkipSpace();
      if pos >= |data| {
        return false;
      }
      ghost var t := Rest();
      var c := data[pos];
      if c == '"' {
        var text;
        ok, text := ReadString();
      } else if c == '{' || c == '[' {
        assert t[1..] == data[pos + 1..];
        pos := pos + 1;
        var some, next := Peek();
        if !some {
          return false;
        }
        if c == '{' {
          ok := SkipObjectRest(next);
        } else {
          ok := SkipArrayRest(next);
        }
      } else if c == 't' || c == 'f' || c == 'n' {
        AlphaShorter(t);
        SkipWord();
        ok := true;
      } else {
        var token;
        SkipTwice(t);
        ok, token := ReadDouble();
      }
    }

    /** The inside of an object, standing at its first character that is not white space. */
    method SkipObjectRest(next: char) returns (ok: bool)
      requires Valid() && |Rest()| > 0 && next == Rest()[0] && !IsWS(next)
      modifies this
      ensures Valid() && pos >= old(pos)
      ensures var p := if next != '}' then SkipMembers(old(Rest())) else Expect(old(Rest()), '}');
              ok == p.Got? && (ok ==> Rest() == p.rest)
      decreases |data| - pos, 0
    {
      hide SkipValue, ParseString;
      if next != '}' {
        ghost var all := SkipMembers(Rest());
        while true
          invariant Valid() && pos >= old(pos) && SkipMembers(Rest()) == all
          decreases |data| - pos
        {
          var read, key := ReadString();
          if !read {
            return false;
          }
          var colon := ExpectChar(':');
          if !colon {
            return false;
          }
          var skipped := SkipAny();
          if !skipped {
            return false;
          }
          var some, c := Peek();
          if !some {
            return false;
          }
          if c != ',' {
            break;
          }
          assert Rest()[1..] == data[pos + 1..];
          pos := pos + 1;
          SkipSpace();
        }
      }
      ok := ExpectChar('}');
    }

    method SkipArrayRest(next: char) returns (ok: bool)
      requires Valid() && |Rest()| > 0 && next == Rest()[0] && !IsWS(next)
      modifies this
      ensures Valid() && pos >= old(pos)
      ensures var p := if next != ']' then SkipElements(old(Rest())) else Expect(old(Rest()), ']');
              ok == p.Got? && (ok ==> Rest() == p.rest)
      decreases |data| - pos, 2
    {
      hide SkipValue;
      if next != ']' {
        ghost var all := SkipElements(Rest());
        while true
          invariant Valid() && pos >= old(pos) && SkipElements(Rest()) == all
          decreases |data| - pos
        {
          var skipped := SkipAny();
          if !skipped {
            return false;
          }
          var some, c := Peek();
          if !some {
            return false;
          }
          if c != ',' {
            break;
          }
          assert Rest()[1..] == data[pos + 1..];
          pos := pos + 1;
          SkipSpace();
        }
      }
      ok := ExpectChar(']');
    }
  }

  lemma JoinChar(text: string, c: char, r: Parse<string>)
    ensures r.Got? ==> (text + [c]) + r.value == text + ([c] + r.value)
  {
  }

  /** What reading one more character of a string leaves to be read. */
  lemma BodyStep(s: string, text: string)
    requires |s| > 0 && s[0] != '"'
    ensures s[0] == '\\' && |s| == 1 ==> Body(s).Fail?
    ensures s[0] == '\\' && |s| > 1 ==>
              Joined(text, Body(s)) == Joined(text + [Unescape(s[1])], Body(s[2..]))
    ensures s[0] != '\\' ==> Joined(text, Body(s)) == Joined(text + [s[0]], Body(s[1..]))
  {
    if s[0] != '\\' {
      JoinChar(text, s[0], Body(s[1..]));
    } else if |s| > 1 {
      JoinChar(text, Unescape(s[1]), Body(s[2..]));
    }
  }

  lemma JoinedNothing(r: Parse<string>)
    ensures Joined("", r) == r
  {
    if r.Got? {
      assert "" + r.value == r.value;
    }
  }

  lemma BodyEnds(s: string, text: string)
    requires |s| == 0 || s[0] == '"'
    ensures |s| == 0 ==> Joined(text, Body(s)) == Fail
    ensures |s| > 0 ==> Joined(text, Body(s)) == Got(text, s[1..])
  {
    assert text + "" == text;
  }

  /** A string read so far, and the rest of it. */
  function Joined(text: string, r: Parse<string>): Parse<string> {
    match r
    case Fail => Fail
    case Got(v, rest) => Got(text + v, rest)
  }

  lemma AlphaShorter(s: string)
    requires |s| > 0 && (s[0] == 't' || s[0] == 'f' || s[0] == 'n')
    ensures |SkipAlpha(s)| < |s|
  {
  }
}
