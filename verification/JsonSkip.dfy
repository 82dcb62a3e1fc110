/** Any well-formed JSON text, with any white space, is skipped exactly. */
module JsonSkip {

  import opened JsonText

  /** Concrete syntax: strings and numbers as written, white space kept. */
  datatype Json =
    | JText(raw: string)
    | JNumber(token: string)
    | JWord(token: string)
    | JArray(gap: string, items: seq<Item>)
    | JObject(gap: string, members: seq<Member>)

  datatype Item = Item(before: string, value: Json, after: string)

  datatype Member = Member(before: string, key: string, beforeColon: string, item: Item)

  /** Characters between quotes: none is a bare quote, and every backslash takes one along. */
  predicate RawOk(raw: string) {
    if |raw| == 0 then true
    else if raw[0] == '\\' then |raw| > 1 && RawOk(raw[2..])
    else raw[0] != '"' && RawOk(raw[1..])
  }

  predicate WellFormed(j: Json) {
    match j
    case JText(raw) => RawOk(raw)
    case JNumber(token) => Numeral(token)
    case JWord(token) => token == "true" || token == "false" || token == "null"
    case JArray(gap, items) =>
      AllWS(gap) && forall i :: 0 <= i < |items| ==> ItemOk(items[i])
    case JObject(gap, members) =>
      AllWS(gap) && forall i :: 0 <= i < |members| ==> MemberOk(members[i])
  }

  predicate ItemOk(it: Item) {
    AllWS(it.before) && WellFormed(it.value) && AllWS(it.after)
  }

  predicate MemberOk(m: Member) {
    AllWS(m.before) && RawOk(m.key) && AllWS(m.beforeColon) && ItemOk(m.item)
  }

  function Print(j: Json): string {
    match j
    case JText(raw) => QUOTE + (raw + QUOTE)
    case JNumber(token) => token
    case JWord(token) => token
    case JArray(gap, items) => "[" + if |items| == 0 then gap + "]" else PrintItems(items)
    case JObject(gap, members) => "{" + if |members| == 0 then gap + "}" else PrintMembers(members)
  }

  function PrintItem(it: Item): string {
    it.before + (Print(it.value) + it.after)
  }

  function PrintMember(m: Member): string {
    m.before + (QUOTE + (m.key + (QUOTE + (m.beforeColon + (":" + PrintItem(m.item))))))
  }

  /** The items of a nonempty array up to and with the closing bracket. */
  function PrintItems(items: seq<Item>): string
    requires |items| > 0
  {
    PrintItem(items[0]) + if |items| == 1 then "]" else "," + PrintItems(items[1..])
  }

  function PrintMembers(members: seq<Member>): string
    requires |members| > 0
  {
    PrintMember(members[0]) + if |members| == 1 then "}" else "," + PrintMembers(members[1..])
  }

  // ---------------------------------------------------------------------------
  // Leading white space does not matter
  // ---------------------------------------------------------------------------

  lemma {:induction false} ValueWS(s: string)
    ensures SkipValue(SkipWS(s)) == SkipValue(s)
  {
    SkipTwice(s);
  }

  lemma {:induction false} ElementsWS(s: string)
    ensures SkipElements(SkipWS(s)) == SkipElements(s)
  {
    hide SkipValue;
    ValueWS(s);
  }

  lemma {:induction false} MembersWS(s: string)
    ensures SkipMembers(SkipWS(s)) == SkipMembers(s)
  {
    hide SkipValue;
    SkipTwice(s);
  }

  // ---------------------------------------------------------------------------
  // Leaves
  // ---------------------------------------------------------------------------

  /** The text a quoted string stands for. */
  function RawText(raw: string): string
    requires RawOk(raw)
  {
    if |raw| == 0 then ""
    else if raw[0] == '\\' then [Unescape(raw[1])] + RawText(raw[2..])
    else [raw[0]] + RawText(raw[1..])
  }

  lemma {:induction false} RawBody(raw: string, rest: string)
    requires RawOk(raw)
    ensures Body(raw + (QUOTE + rest)) == Got(RawText(raw), rest)
  {
    var s := raw + (QUOTE + rest);
    if |raw| == 0 {
      assert s == QUOTE + rest;
    } else if raw[0] == '\\' {
      assert s[2..] == raw[2..] + (QUOTE + rest);
      RawBody(raw[2..], rest);
    } else {
      assert s[1..] == raw[1..] + (QUOTE + rest);
      RawBody(raw[1..], rest);
    }
  }

  lemma {:induction false} QuotedParses(ws: string, raw: string, rest: string)
    requires AllWS(ws) && RawOk(raw)
    ensures ParseString(ws + (QUOTE + (raw + (QUOTE + rest)))) == Got(RawText(raw), rest)
  {
    ExpectIt(ws, '"', raw + (QUOTE + rest));
    RawBody(raw, rest);
  }

  lemma {:induction false} TextSkipped(raw: string, rest: string)
    requires RawOk(raw)
    ensures SkipValue(QUOTE + (raw + (QUOTE + rest))) == Got((), rest)
  {
    var s := QUOTE + (raw + (QUOTE + rest));
    QuotedParses("", raw, rest);
    assert "" + s == s;
  }

  lemma {:induction false} NumberSkipped(token: string, rest: string)
    requires Numeral(token) && Delimited(rest)
    ensures SkipValue(token + rest) == Got((), rest)
  {
    hide SkipNumber, SkipElements, SkipMembers, ParseString, ParseDouble, Delimited;
    NumeralRoundTrip("", token, rest);
    assert "" + (token + rest) == token + rest;
    assert token[0] == '-' || token[0] == '.' || IsDigit(token[0]);
  }

  lemma {:induction false} AlphaBefore(word: string, rest: string)
    requires (forall i :: 0 <= i < |word| ==> IsAlpha(word[i])) && Delimited(rest)
    ensures SkipAlpha(word + rest) == rest
  {
    if |word| == 0 {
      assert word + rest == rest;
    } else {
      assert (word + rest)[1..] == word[1..] + rest;
      AlphaBefore(word[1..], rest);
    }
  }

  lemma {:induction false} WordSkipped(token: string, rest: string)
    requires (token == "true" || token == "false" || token == "null") && Delimited(rest)
    ensures SkipValue(token + rest) == Got((), rest)
  {
    AlphaBefore(token, rest);
  }

  // ---------------------------------------------------------------------------
  // Containers
  // ---------------------------------------------------------------------------

  /** A value starts with none of the characters that end or separate values. */
  lemma {:induction false} PrintStart(j: Json)
    requires WellFormed(j)
    ensures |Print(j)| > 0
    ensures var c := Print(j)[0];
            !IsWS(c) && c != ',' && c != ']' && c != '}'
  {
  }

  lemma {:induction false} NextIsSeparator(after: string, c: char, rest: string)
    requires AllWS(after) && (c == ',' || c == ']' || c == '}')
    ensures SkipWS(after + ([c] + rest)) == [c] + rest
    ensures Delimited(after + ([c] + rest))
  {
    SkipLeading(after, [c] + rest);
  }

  lemma {:induction false} SkipPrinted(j: Json, rest: string)
    requires WellFormed(j) && Delimited(rest)
    ensures SkipValue(Print(j) + rest) == Got((), rest)
    decreases j, 1
  {
    match j
    case JText(raw) =>
      assert (QUOTE + (raw + QUOTE)) + rest == QUOTE + (raw + (QUOTE + rest));
      TextSkipped(raw, rest);
    case JNumber(token) => NumberSkipped(token, rest);
    case JWord(token) => WordSkipped(token, rest);
    case JArray(gap, items) =>
      if |items| == 0 {
        EmptySkipped('[', ']', gap, rest);
        assert ("[" + (gap + "]")) + rest == "[" + (gap + ("]" + rest));
      } else {
        ItemsSkipped(items, rest);
        ArrayOpened(items, rest);
      }
    case JObject(gap, members) =>
      if |members| == 0 {
        EmptySkipped('{', '}', gap, rest);
        assert ("{" + (gap + "}")) + rest == "{" + (gap + ("}" + rest));
      } else {
        MembersSkipped(members, rest);
        ObjectOpened(members, rest);
      }
  }

  lemma {:induction false} EmptySkipped(open: char, close: char, gap: string, rest: string)
    requires AllWS(gap) && ((open == '[' && close == ']') || (open == '{' && close == '}'))
    ensures SkipValue([open] + (gap + ([close] + rest))) == Got((), rest)
  {
    var s := [open] + (gap + ([close] + rest));
    assert s[1..] == gap + ([close] + rest);
    NextIsSeparator(gap, close, rest);
    assert ([close] + rest)[1..] == rest;
  }

  /** Behind the opening bracket comes the first item. */
  lemma {:induction false} ArrayOpened(items: seq<Item>, rest: string)
    requires |items| > 0 && ItemOk(items[0])
    ensures SkipValue(("[" + PrintItems(items)) + rest) == SkipElements(PrintItems(items) + rest)
  {
    hide SkipElements, Print;
    var s, t := ("[" + PrintItems(items)) + rest, PrintItems(items) + rest;
    assert s[1..] == t;
    var it := items[0];
    PrintStart(it.value);
    var x := it.after + if |items| == 1 then "]" else "," + PrintItems(items[1..]);
    var later := Print(it.value) + (x + rest);
    assert PrintItems(items) == it.before + (Print(it.value) + x);
    assert t == it.before + later && later[0] == Print(it.value)[0];
    SkipLeading(it.before, later);
    ElementsWS(t);
  }

  lemma {:induction false} ObjectOpened(members: seq<Member>, rest: string)
    requires |members| > 0 && MemberOk(members[0])
    ensures SkipValue(("{" + PrintMembers(members)) + rest)
            == SkipMembers(PrintMembers(members) + rest)
  {
    hide SkipMembers, PrintItem;
    var s, t := ("{" + PrintMembers(members)) + rest, PrintMembers(members) + rest;
    assert s[1..] == t;
    var m := members[0];
    var x := m.key + (QUOTE + (m.beforeColon + (":" + PrintItem(m.item))));
    var y := if |members| == 1 then "}" else "," + PrintMembers(members[1..]);
    var later := QUOTE + (x + (y + rest));
    assert PrintMembers(members) == (m.before + (QUOTE + x)) + y;
    assert t == m.before + later && later[0] == '"';
    SkipLeading(m.before, later);
    MembersWS(t);
  }

  /** One item, and what comes after it. */
  lemma {:induction false} ItemSkipped(it: Item, c: char, rest: string)
    requires ItemOk(it) && (c == ',' || c == ']' || c == '}')
    ensures SkipValue(PrintItem(it) + ([c] + rest)) == Got((), it.after + ([c] + rest))
    ensures SkipWS(it.after + ([c] + rest)) == [c] + rest
    decreases it, 2
  {
    hide SkipValue, Print;
    var later := it.after + ([c] + rest);
    assert PrintItem(it) + ([c] + rest) == it.before + (Print(it.value) + later);
    NextIsSeparator(it.after, c, rest);
    SkipPrinted(it.value, later);
    SkipLeading(it.before, Print(it.value) + later);
    ValueWS(it.before + (Print(it.value) + later));
    ValueWS(Print(it.value) + later);
  }

  /** One element of an array, and what comes after it. */
  lemma {:induction false} ElementSkipped(it: Item, c: char, rest: string)
    requires ItemOk(it) && (c == ',' || c == ']')
    ensures SkipElements(PrintItem(it) + ([c] + rest))
            == if c == ',' then SkipElements(SkipWS(rest)) else Got((), rest)
    decreases it, 3
  {
    hide SkipValue, PrintItem;
    ItemSkipped(it, c, rest);
    assert ([c] + rest)[1..] == rest;
    ExpectIt("", c, rest);
    assert "" + ([c] + rest) == [c] + rest;
  }

  lemma {:induction false} ItemsSkipped(items: seq<Item>, rest: string)
    requires |items| > 0 && forall i :: 0 <= i < |items| ==> ItemOk(items[i])
    ensures SkipElements(PrintItems(items) + rest) == Got((), rest)
    decreases items, 4
  {
    hide SkipElements, PrintItem;
    var it := items[0];
    if |items| == 1 {
      ElementSkipped(it, ']', rest);
      assert PrintItems(items) + rest == PrintItem(it) + ([']'] + rest);
    } else {
      var later := PrintItems(items[1..]) + rest;
      ElementSkipped(it, ',', later);
      assert PrintItems(items) + rest == PrintItem(it) + ([','] + later);
      ItemsSkipped(items[1..], rest);
      ElementsWS(later);
    }
  }

  /** A member up to its value. */
  lemma {:induction false} KeySkipped(m: Member, s: string)
    requires MemberOk(m)
    ensures var k := ParseString(m.before + (QUOTE + (m.key + (QUOTE + (m.beforeColon + (":" + s))))));
            && k == Got(RawText(m.key), m.beforeColon + (":" + s))
            && Expect(k.rest, ':') == Got((), s)
  {
    QuotedParses(m.before, m.key, m.beforeColon + (":" + s));
    ExpectIt(m.beforeColon, ':', s);
  }

  /** One member of an object, and what comes after it. */
  lemma {:induction false} MemberSkipped(m: Member, c: char, rest: string)
    requires MemberOk(m) && (c == ',' || c == '}')
    ensures SkipMembers(PrintMember(m) + ([c] + rest))
            == if c == ',' then SkipMembers(SkipWS(rest)) else Got((), rest)
    decreases m, 3
  {
    hide SkipValue, PrintItem, ParseString;
    var tail := PrintItem(m.item) + ([c] + rest);
    ItemSkipped(m.item, c, rest);
    KeySkipped(m, tail);
    assert PrintMember(m) + ([c] + rest)
           == m.before + (QUOTE + (m.key + (QUOTE + (m.beforeColon + (":" + tail)))));
    assert ([c] + rest)[1..] == rest;
    ExpectIt("", c, rest);
    assert "" + ([c] + rest) == [c] + rest;
  }

  lemma {:induction false} MembersSkipped(members: seq<Member>, rest: string)
    requires |members| > 0 && forall i :: 0 <= i < |members| ==> MemberOk(members[i])
    ensures SkipMembers(PrintMembers(members) + rest) == Got((), rest)
    decreases members, 4
  {
    hide SkipMembers, PrintMember;
    var m := members[0];
    if |members| == 1 {
      MemberSkipped(m, '}', rest);
      assert PrintMembers(members) + rest == PrintMember(m) + (['}'] + rest);
    } else {
      var later := PrintMembers(members[1..]) + rest;
      MemberSkipped(m, ',', later);
      assert PrintMembers(members) + rest == PrintMember(m) + ([','] + later);
      MembersSkipped(members[1..], rest);
      MembersWS(later);
    }
  }
}
