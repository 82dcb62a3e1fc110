/** The autotune history file: records of typed fields, printed and parsed. */
module JsonHistory {

  import opened Basics
  import opened JsonText
  import opened JsonSkip

  /** The type of a field; a `fixed` array keeps its length. */
  datatype Kind =
    | Text
    | Word32
    | Word64
    | Real
    | Words(fixed: nat)
    | Object(schema: seq<Field>)

  datatype Field = Field(name: string, kind: Kind)

  datatype Value =
    | TextV(text: string)
    | NumV(n: nat)
    | RealV(token: string)
    | WordsV(words: seq<nat>)
    | ObjectV(fields: seq<Value>)

  // ---------------------------------------------------------------------------
  // The records of a history
  // ---------------------------------------------------------------------------

  const OPTIMAL_PARAMS := [
    Field("fb_bound", Word32), Field("sieve_bound", Word32), Field("lp1_bound", Word64),
    Field("kernel_params", Words(8)), Field("recommended_witness_capacity", Word64),
    Field("recommended_partial_buffer", Word64), Field("recommended_accum_buffer", Word64)]

  const MEASURED_PERFORMANCE := [
    Field("sieve_time_sec", Real), Field("total_time_sec", Real),
    Field("relations_per_sec", Real), Field("total_relations", Word64),
    Field("lp_witnesses", Word64), Field("lp_combined_relations", Word64),
    Field("witness_peak", Word64), Field("witness_capacity", Word64),
    Field("witness_fill_pct", Real), Field("overflow_events", Word64),
    Field("accum_peak", Word64), Field("partial_peak", Word64),
    Field("persistent_peak", Word64)]

  const ENVIRONMENT := [
    Field("gpu_name", Text), Field("gpu_compute_capability", Text), Field("cuda_version", Text)]

  const ENTRY := [
    Field("N_decimal", Text), Field("N_hash_sha256", Text), Field("digit_count", Word32),
    Field("bit_length", Word32), Field("optimal_params", Object(OPTIMAL_PARAMS)),
    Field("measured_performance", Object(MEASURED_PERFORMANCE)),
    Field("environment", Object(ENVIRONMENT)), Field("timestamp", Text),
    Field("autotune_stages_run", Words(0)), Field("confidence", Real)]

  // ---------------------------------------------------------------------------
  // Parsing
  // ---------------------------------------------------------------------------

  function Default(k: Kind): Value {
    match k
    case Text => TextV("")
    case Word32 => NumV(0)
    case Word64 => NumV(0)
    case Real => RealV("0")
    case Words(fixed) => WordsV(seq(fixed, _ => 0))
    case Object(schema) => ObjectV(Defaults(schema))
  }

  function Defaults(schema: seq<Field>): (r: seq<Value>)
    ensures |r| == |schema|
  {
    if |schema| == 0 then [] else [Default(schema[0].kind)] + Defaults(schema[1..])
  }

  /** Position of a key, or the length. */
  function FieldIndex(schema: seq<Field>, key: string): (i: nat)
    ensures i <= |schema|
    ensures i < |schema| ==> schema[i].name == key
  {
    if |schema| == 0 || schema[0].name == key then 0 else 1 + FieldIndex(schema[1..], key)
  }

  /** What a parsed value does to the field: an array of fixed length takes over as many words
      as it has room for. */
  function Store(was: Value, v: Value, k: Kind): Value {
    if k.Words? && k.fixed > 0 && was.WordsV? && v.WordsV? then
      var n := if |v.words| < |was.words| then |v.words| else |was.words|;
      WordsV(v.words[..n] + was.words[n..])
    else v
  }

  function PushWord(n: nat, r: Parse<seq<nat>>): (q: Parse<seq<nat>>)
    ensures q.Got? <==> r.Got?
    ensures q.Got? ==> q.rest == r.rest
  {
    match r
    case Fail => Fail
    case Got(v, rest) => Got([n] + v, rest)
  }

  function ParseWordList(s: string): (r: Parse<seq<nat>>)
    ensures r.Got? ==> |r.rest| < |s|
    decreases |s|
  {
    match ParseUint64(s)
    case Fail => Fail
    case Got(n, s1) =>
      var w := SkipWS(s1);
      if |w| == 0 then Fail
      else if w[0] == ',' then PushWord(n % WORD32, ParseWordList(SkipWS(w[1..])))
      else
        match Expect(w, ']')
        case Fail => Fail
        case Got(_, rest) => Got([n % WORD32], rest)
  }

  function ParseWords(s: string): (r: Parse<seq<nat>>)
    ensures r.Got? ==> |r.rest| < |s|
  {
    match Expect(s, '[')
    case Fail => Fail
    case Got(_, t) =>
      var u := SkipWS(t);
      if |u| == 0 then Fail
      else if u[0] != ']' then ParseWordList(u)
      else Got([], u[1..])
  }

  function ParseKind(s: string, k: Kind): (r: Parse<Value>)
    ensures r.Got? ==> |r.rest| < |s|
    decreases |s|, 2
  {
    match k
    case Text =>
      (match ParseString(s) case Fail => Fail case Got(t, rest) => Got(TextV(t), rest))
    case Word32 =>
      (match ParseUint64(s) case Fail => Fail case Got(n, rest) => Got(NumV(n % WORD32), rest))
    case Word64 =>
      (match ParseUint64(s) case Fail => Fail case Got(n, rest) => Got(NumV(n), rest))
    case Real =>
      (match ParseDouble(s) case Fail => Fail case Got(t, rest) => Got(RealV(t), rest))
    case Words(_) =>
      (match ParseWords(s) case Fail => Fail case Got(w, rest) => Got(WordsV(w), rest))
    case Object(schema) => ParseObject(s, schema)
  }

  function ParseObject(s: string, schema: seq<Field>): (r: Parse<Value>)
    ensures r.Got? ==> |r.rest| < |s|
    decreases |s|, 1
  {
    match Expect(s, '{')
    case Fail => Fail
    case Got(_, t) =>
      var u := SkipWS(t);
      if |u| == 0 then Fail
      else if u[0] != '}' then ParseFields(u, schema, Defaults(schema))
      else Got(ObjectV(Defaults(schema)), u[1..])
  }

  /** Members up to and with the closing brace; unknown keys are skipped, and the last of equal
      keys wins. */
  function ParseFields(s: string, schema: seq<Field>, rec: seq<Value>): (r: Parse<Value>)
    requires |rec| == |schema|
    ensures r.Got? ==> |r.rest| < |s|
    decreases |s|, 0
  {
    match ParseString(s)
    case Fail => Fail
    case Got(key, s1) =>
      match Expect(s1, ':')
      case Fail => Fail
      case Got(_, s2) =>
        var i := FieldIndex(schema, key);
        if i < |schema| then
          match ParseKind(s2, schema[i].kind)
          case Fail => Fail
          case Got(v, s3) => MoreFields(s3, schema, rec[i := Store(rec[i], v, schema[i].kind)])
        else
          match SkipValue(s2)
          case Fail => Fail
          case Got(_, s3) => MoreFields(s3, schema, rec)
  }

  function MoreFields(s: string, schema: seq<Field>, rec: seq<Value>): (r: Parse<Value>)
    requires |rec| == |schema|
    ensures r.Got? ==> |r.rest| < |s|
    decreases |s|, 1
  {
    var w := SkipWS(s);
    if |w| == 0 then Fail
    else if w[0] == ',' then ParseFields(SkipWS(w[1..]), schema, rec)
    else
      match Expect(w, '}')
      case Fail => Fail
      case Got(_, rest) => Got(ObjectV(rec), rest)
  }

  // ---------------------------------------------------------------------------
  // Printing
  // ---------------------------------------------------------------------------

  function Spaces(n: nat): (s: string)
    ensures |s| == n && AllWS(s)
  {
    seq(n, _ => ' ')
  }

  function PrintWordList(words: seq<nat>): string
    requires |words| > 0
  {
    PrintNat(words[0]) + if |words| == 1 then "]" else ", " + PrintWordList(words[1..])
  }

  predicate Fits(v: Value, k: Kind) {
    match k
    case Text => v.TextV?
    case Word32 => v.NumV? && v.n < WORD32
    case Word64 => v.NumV? && v.n < WORD64
    case Real => v.RealV? && Numeral(v.token)
    case Words(fixed) =>
      v.WordsV? && (forall i :: 0 <= i < |v.words| ==> v.words[i] < WORD32)
      && (fixed > 0 ==> |v.words| == fixed)
    case Object(schema) => v.ObjectV? && FieldsFit(v.fields, schema)
  }

  predicate FieldsFit(vals: seq<Value>, schema: seq<Field>) {
    |vals| == |schema|
    && (|schema| > 0 ==> Fits(vals[0], schema[0].kind) && FieldsFit(vals[1..], schema[1..]))
  }

  function PrintKind(v: Value, k: Kind, indent: nat): string
    requires Fits(v, k)
    decreases k, 1
  {
    match k
    case Text => QUOTE + (Escape(v.text) + QUOTE)
    case Word32 => PrintNat(v.n)
    case Word64 => PrintNat(v.n)
    case Real => v.token
    case Words(_) => "[" + if |v.words| == 0 then "]" else PrintWordList(v.words)
    case Object(schema) =>
      if |schema| == 0 then "{}"
      else "{\n" + (PrintFields(v.fields, schema, indent + 2) + ("\n" + (Spaces(indent) + "}")))
  }

  /** The members, one a line. */
  function PrintFields(vals: seq<Value>, schema: seq<Field>, indent: nat): string
    requires FieldsFit(vals, schema) && |schema| > 0
    decreases schema, 0
  {
    PrintField(schema[0].name, PrintKind(vals[0], schema[0].kind, indent), indent)
    + if |schema| == 1 then "" else ",\n" + PrintFields(vals[1..], schema[1..], indent)
  }

  function PrintField(name: string, value: string, indent: nat): string {
    Spaces(indent) + (QUOTE + (name + (QUOTE + (": " + value))))
  }

  // ---------------------------------------------------------------------------
  // Round trips of values
  // ---------------------------------------------------------------------------

  lemma {:induction false} WordListWS(s: string)
    ensures ParseWordList(SkipWS(s)) == ParseWordList(s)
  {
    SkipTwice(s);
  }

  lemma {:induction false} WordListRoundTrip(words: seq<nat>, rest: string)
    requires |words| > 0 && forall i :: 0 <= i < |words| ==> words[i] < WORD32
    ensures ParseWordList(PrintWordList(words) + rest) == Got(words, rest)
  {
    hide ParseUint64, PrintNat;
    var n, p := words[0], PrintNat(words[0]);
    if |words| == 1 {
      assert (p + "]") + rest == p + ([']'] + rest);
      UintRoundTrip("", n, [']'] + rest);
      assert "" + (p + ([']'] + rest)) == p + ([']'] + rest);
      ExpectIt("", ']', rest);
      assert "" + ([']'] + rest) == [']'] + rest;
      assert words == [n];
    } else {
      var later := PrintWordList(words[1..]) + rest;
      assert (p + (", " + PrintWordList(words[1..]))) + rest == p + ([','] + (" " + later));
      UintRoundTrip("", n, [','] + (" " + later));
      assert "" + (p + ([','] + (" " + later))) == p + ([','] + (" " + later));
      assert ([','] + (" " + later))[1..] == " " + later;
      WordListRoundTrip(words[1..], rest);
      SkipLeading(" ", later);
      WordListWS(later);
      assert [n] + words[1..] == words;
    }
  }

  lemma {:induction false} WordsRoundTrip(ws: string, words: seq<nat>, rest: string)
    requires AllWS(ws) && forall i :: 0 <= i < |words| ==> words[i] < WORD32
    ensures ParseWords(ws + (("[" + if |words| == 0 then "]" else PrintWordList(words)) + rest))
            == Got(words, rest)
  {
    hide ParseWordList;
    var body := if |words| == 0 then "]" else PrintWordList(words);
    assert ("[" + body) + rest == ['['] + (body + rest);
    ExpectIt(ws, '[', body + rest);
    if |words| == 0 {
      assert (body + rest)[1..] == rest;
    } else {
      WordListRoundTrip(words, rest);
      assert (body + rest)[0] == PrintNat(words[0])[0];
      assert !IsWS((body + rest)[0]) && (body + rest)[0] != ']';
    }
  }

  ghost predicate KindOk(k: Kind) {
    k.Object? ==> SchemaOk(k.schema)
  }

  /** Key names are plain and pairwise different. */
  ghost predicate SchemaOk(schema: seq<Field>) {
    forall i :: 0 <= i < |schema| ==>
      Plain(schema[i].name) && FieldIndex(schema, schema[i].name) == i && KindOk(schema[i].kind)
  }

  lemma {:induction false} FieldsWS(s: string, schema: seq<Field>, rec: seq<Value>)
    requires |rec| == |schema|
    ensures ParseFields(SkipWS(s), schema, rec) == ParseFields(s, schema, rec)
  {
    hide ParseKind, SkipValue, MoreFields;
    SkipTwice(s);
  }

  /** A known key stores its value. */
  lemma {:induction false} FieldParsed(
      schema: seq<Field>, i: nat, rec: seq<Value>, lead: string, text: string, v: Value,
      tail: string)
    requires |rec| == |schema| && i < |schema|
    requires Plain(schema[i].name) && FieldIndex(schema, schema[i].name) == i
    requires AllWS(lead)
    requires ParseKind(" " + (text + tail), schema[i].kind) == Got(v, tail)
    ensures ParseFields(lead + (QUOTE + (schema[i].name + (QUOTE + (": " + (text + tail))))),
                        schema, rec)
            == MoreFields(tail, schema, rec[i := Store(rec[i], v, schema[i].kind)])
  {
    hide ParseKind, SkipValue, MoreFields, ParseString, Expect;
    var name := schema[i].name;
    PlainEscape(name);
    assert ": " + (text + tail) == [':'] + (" " + (text + tail));
    StringRoundTrip(lead, name, ": " + (text + tail));
    ExpectIt("", ':', " " + (text + tail));
    assert "" + ([':'] + (" " + (text + tail))) == ": " + (text + tail);
  }

  /** Any member with an unknown key and any well-formed value, laid out in any way, changes
      nothing. */
  lemma {:induction false} UnknownMemberIgnored(
      schema: seq<Field>, rec: seq<Value>, m: Member, s: string)
    requires |rec| == |schema| && MemberOk(m)
    requires FieldIndex(schema, RawText(m.key)) == |schema|
    ensures ParseFields(PrintMember(m) + ("," + s), schema, rec) == ParseFields(s, schema, rec)
    ensures ParseFields(PrintMember(m) + ("}" + s), schema, rec) == Got(ObjectV(rec), s)
  {
    hide ParseKind, SkipValue, ParseString, PrintItem, ParseFields;
    UnknownMember(schema, rec, m, ',', s);
    UnknownMember(schema, rec, m, '}', s);
  }

  lemma {:induction false} UnknownMember(
      schema: seq<Field>, rec: seq<Value>, m: Member, c: char, s: string)
    requires |rec| == |schema| && MemberOk(m) && (c == ',' || c == '}')
    requires FieldIndex(schema, RawText(m.key)) == |schema|
    ensures ParseFields(PrintMember(m) + ([c] + s), schema, rec)
            == if c == ',' then ParseFields(s, schema, rec) else Got(ObjectV(rec), s)
  {
    hide ParseKind, SkipValue, ParseString, PrintItem, MoreFields, Expect, FieldIndex, RawText;
    var tail := PrintItem(m.item) + ([c] + s);
    ItemSkipped(m.item, c, s);
    KeySkipped(m, tail);
    MoreThen(m.item.after, c, s, schema, rec);
    assert PrintMember(m) + ([c] + s)
           == m.before + (QUOTE + (m.key + (QUOTE + (m.beforeColon + (":" + tail)))));
  }

  lemma {:induction false} MoreThen(
      after: string, c: char, rest: string, schema: seq<Field>, rec: seq<Value>)
    requires AllWS(after) && (c == ',' || c == '}') && |rec| == |schema|
    ensures MoreFields(after + ([c] + rest), schema, rec)
            == if c == ',' then ParseFields(rest, schema, rec) else Got(ObjectV(rec), rest)
  {
    hide ParseFields;
    NextIsSeparator(after, c, rest);
    assert ([c] + rest)[1..] == rest;
    if c == ',' {
      FieldsWS(rest, schema, rec);
    } else {
      ExpectIt("", c, rest);
      assert "" + ([c] + rest) == [c] + rest;
    }
  }

  lemma {:induction false} FieldsFitAt(vals: seq<Value>, schema: seq<Field>, i: nat)
    requires FieldsFit(vals, schema) && i <= |schema|
    ensures FieldsFit(vals[i..], schema[i..])
    ensures i < |schema| ==> Fits(vals[i], schema[i].kind)
  {
    if i > 0 {
      FieldsFitAt(vals[1..], schema[1..], i - 1);
      assert vals[1..][i - 1..] == vals[i..] && schema[1..][i - 1..] == schema[i..];
    } else {
      assert vals[0..] == vals && schema[0..] == schema;
    }
  }

  lemma {:induction false} DefaultAt(schema: seq<Field>, i: nat)
    requires i < |schema|
    ensures Defaults(schema)[i] == Default(schema[i].kind)
  {
    if i > 0 {
      DefaultAt(schema[1..], i - 1);
    }
  }

  lemma {:induction false} StoreDefault(v: Value, k: Kind)
    requires Fits(v, k)
    ensures Store(Default(k), v, k) == v
  {
  }

  /** A printed value parses back, behind any white space. */
  lemma {:induction false} ValueRoundTrip(
      ws: string, v: Value, k: Kind, indent: nat, rest: string)
    requires AllWS(ws) && Fits(v, k) && KindOk(k) && Delimited(rest)
    ensures ParseKind(ws + (PrintKind(v, k, indent) + rest), k) == Got(v, rest)
    decreases k, 1
  {
    hide ParseString, ParseUint64, ParseDouble, ParseWords, ParseObject, PrintNat, Escape, Numeral,
      Delimited, AllWS;
    match k
    case Text =>
      assert (QUOTE + (Escape(v.text) + QUOTE)) + rest == QUOTE + (Escape(v.text) + (QUOTE + rest));
      StringRoundTrip(ws, v.text, rest);
    case Word32 => UintRoundTrip(ws, v.n, rest);
    case Word64 => UintRoundTrip(ws, v.n, rest);
    case Real => NumeralRoundTrip(ws, v.token, rest);
    case Words(_) => WordsRoundTrip(ws, v.words, rest);
    case Object(schema) => ObjectRoundTrip(ws, v, schema, indent, rest);
  }

  lemma {:induction false} ObjectRoundTrip(
      ws: string, v: Value, schema: seq<Field>, indent: nat, rest: string)
    requires AllWS(ws) && Fits(v, Object(schema)) && SchemaOk(schema)
    ensures ParseObject(ws + (PrintKind(v, Object(schema), indent) + rest), schema) == Got(v, rest)
    decreases schema, 2
  {
    hide ParseFields, SchemaOk, PrintFields, Spaces, Reached;
    if |schema| == 0 {
      assert "{}" + rest == ['{'] + (['}'] + rest);
      ExpectIt(ws, '{', ['}'] + rest);
      assert (['}'] + rest)[1..] == rest;
      assert v.fields == [] == Defaults(schema);
    } else {
      var close := "\n" + (Spaces(indent) + ("}" + rest));
      var t := PrintFields(v.fields, schema, indent + 2) + close;
      assert PrintKind(v, Object(schema), indent) + rest == ['{'] + ("\n" + t);
      ExpectIt(ws, '{', "\n" + t);
      SkipLeading("\n", t);
      FieldsStart(v.fields, schema, indent + 2, close);
      FieldsWS(t, schema, Defaults(schema));
      ReachedStart(v.fields, schema);
      FieldsRoundTrip(v.fields, schema, 0, Defaults(schema), indent, rest);
      assert v.fields[0..] == v.fields && schema[0..] == schema;
    }
  }

  /** Members start with a key. */
  lemma {:induction false} FieldsStart(
      vals: seq<Value>, schema: seq<Field>, indent: nat, close: string)
    requires FieldsFit(vals, schema) && |schema| > 0
    ensures var u := SkipWS(PrintFields(vals, schema, indent) + close);
            |u| > 0 && u[0] == '"'
  {
    var value := PrintKind(vals[0], schema[0].kind, indent);
    var x := schema[0].name + (QUOTE + (": " + value));
    var y := if |schema| == 1 then "" else ",\n" + PrintFields(vals[1..], schema[1..], indent);
    assert PrintFields(vals, schema, indent) + close
           == Spaces(indent) + (QUOTE + ((x + y) + close));
    SkipLeading(Spaces(indent), QUOTE + ((x + y) + close));
  }

  /** One printed member, and what comes after it. */
  lemma {:induction false} OneField(
      v: Value, schema: seq<Field>, i: nat, rec: seq<Value>, indent: nat, after: string, c: char,
      rest: string)
    requires SchemaOk(schema) && i < |schema| == |rec| && Fits(v, schema[i].kind)
    requires rec[i] == Default(schema[i].kind)
    requires AllWS(after) && (c == ',' || c == '}')
    ensures ParseFields(PrintField(schema[i].name, PrintKind(v, schema[i].kind, indent), indent)
                        + (after + ([c] + rest)), schema, rec)
            == if c == ',' then ParseFields(rest, schema, rec[i := v])
               else Got(ObjectV(rec[i := v]), rest)
    decreases schema, 0
  {
    hide ParseFields, ParseKind, MoreFields, PrintKind, Store, Default, Fits, FieldIndex;
    var k, tail := schema[i].kind, after + ([c] + rest);
    var text := PrintKind(v, k, indent);
    assert Plain(schema[i].name) && FieldIndex(schema, schema[i].name) == i && KindOk(k);
    hide SchemaOk, Plain;
    NextIsSeparator(after, c, rest);
    assert AllWS(" ");
    ValueRoundTrip(" ", v, k, indent, tail);
    assert PrintField(schema[i].name, text, indent) + tail
           == Spaces(indent) + (QUOTE + (schema[i].name + (QUOTE + (": " + (text + tail)))));
    FieldParsed(schema, i, rec, Spaces(indent), text, v, tail);
    StoreDefault(v, k);
    MoreThen(after, c, rest, schema, rec[i := v]);
  }

  /** `rec` holds the values before position `i` and the defaults from there on. */
  ghost predicate Reached(rec: seq<Value>, vals: seq<Value>, schema: seq<Field>, i: nat) {
    && i <= |schema| == |rec| == |vals|
    && (forall j :: 0 <= j < i ==> rec[j] == vals[j])
    && forall j :: i <= j < |schema| ==> rec[j] == Default(schema[j].kind)
  }

  lemma {:induction false} ReachedNext(
      rec: seq<Value>, vals: seq<Value>, schema: seq<Field>, i: nat)
    requires Reached(rec, vals, schema, i) && i < |schema|
    ensures rec[i] == Default(schema[i].kind)
    ensures Reached(rec[i := vals[i]], vals, schema, i + 1)
    ensures i + 1 == |schema| ==> rec[i := vals[i]] == vals
  {
    hide Default;
  }

  lemma {:induction false} ReachedStart(vals: seq<Value>, schema: seq<Field>)
    requires |vals| == |schema|
    ensures Reached(Defaults(schema), vals, schema, 0)
  {
    hide Default, Defaults;
    forall j | 0 <= j < |schema| ensures Defaults(schema)[j] == Default(schema[j].kind) {
      DefaultAt(schema, j);
    }
  }

  lemma {:induction false} FieldsRoundTrip(
      vals: seq<Value>, schema: seq<Field>, i: nat, rec: seq<Value>, indent: nat, rest: string)
    requires SchemaOk(schema) && i < |schema| && Reached(rec, vals, schema, i)
    requires FieldsFit(vals, schema) && FieldsFit(vals[i..], schema[i..])
    ensures ParseFields(PrintFields(vals[i..], schema[i..], indent + 2)
                        + ("\n" + (Spaces(indent) + ("}" + rest))), schema, rec)
            == Got(ObjectV(vals), rest)
    decreases schema, 1, |schema| - i
  {
    hide ParseFields, SchemaOk, PrintFields, PrintKind, FieldsFit, Fits, PrintField, Default;
    FieldsFitAt(vals, schema, i);
    FieldsFitAt(vals, schema, i + 1);
    ReachedNext(rec, vals, schema, i);
    hide Reached;
    PrintFirst(vals, schema, i, indent + 2);
    var close := "\n" + (Spaces(indent) + ("}" + rest));
    var first := PrintField(schema[i].name, PrintKind(vals[i], schema[i].kind, indent + 2),
                            indent + 2);
    var next := rec[i := vals[i]];
    if i + 1 == |schema| {
      var after := "\n" + Spaces(indent);
      assert close == after + (['}'] + rest);
      OneField(vals[i], schema, i, rec, indent + 2, after, '}', rest);
      assert first + "" == first;
    } else {
      var later := PrintFields(vals[i + 1..], schema[i + 1..], indent + 2) + close;
      assert PrintFields(vals[i..], schema[i..], indent + 2) + close
             == first + ("" + ([','] + ("\n" + later)));
      OneField(vals[i], schema, i, rec, indent + 2, "", ',', "\n" + later);
      FieldsRoundTrip(vals, schema, i + 1, next, indent, rest);
      LineBreak(later, schema, next);
    }
  }

  lemma {:induction false} LineBreak(s: string, schema: seq<Field>, rec: seq<Value>)
    requires |rec| == |schema|
    ensures ParseFields("\n" + s, schema, rec) == ParseFields(s, schema, rec)
  {
    hide ParseFields;
    SkipLeading("\n", s);
    FieldsWS("\n" + s, schema, rec);
    FieldsWS(s, schema, rec);
  }

  lemma {:induction false} PrintFirst(vals: seq<Value>, schema: seq<Field>, i: nat, indent: nat)
    requires FieldsFit(vals, schema) && i < |schema|
    requires FieldsFit(vals[i..], schema[i..]) && FieldsFit(vals[i + 1..], schema[i + 1..])
    requires Fits(vals[i], schema[i].kind)
    ensures PrintFields(vals[i..], schema[i..], indent)
            == PrintField(schema[i].name, PrintKind(vals[i], schema[i].kind, indent), indent)
               + if i + 1 == |schema| then ""
                 else ",\n" + PrintFields(vals[i + 1..], schema[i + 1..], indent)
  {
    assert vals[i..][1..] == vals[i + 1..] && schema[i..][1..] == schema[i + 1..];
  }

  // ---------------------------------------------------------------------------
  // The schemas of the history
  // ---------------------------------------------------------------------------

  ghost predicate Distinct(schema: seq<Field>) {
    forall i, j :: 0 <= i < j < |schema| ==> schema[i].name != schema[j].name
  }

  lemma {:induction false} IndexOfName(schema: seq<Field>, i: nat)
    requires i < |schema|
    requires forall j :: 0 <= j < i ==> schema[j].name != schema[i].name
    ensures FieldIndex(schema, schema[i].name) == i
  {
    if i > 0 {
      IndexOfName(schema[1..], i - 1);
    }
  }

  lemma {:induction false} NamedSchemaOk(schema: seq<Field>)
    requires Distinct(schema)
    requires forall i :: 0 <= i < |schema| ==> Plain(schema[i].name) && KindOk(schema[i].kind)
    ensures SchemaOk(schema)
  {
    hide Plain;
    forall i | 0 <= i < |schema| ensures FieldIndex(schema, schema[i].name) == i {
      IndexOfName(schema, i);
    }
  }

  lemma {:induction false} OptimalPlain0()
    ensures Plain("fb_bound")
    ensures Plain("sieve_bound")
    ensures Plain("lp1_bound")
    ensures Plain("kernel_params")
  {
  }

  lemma {:induction false} OptimalPlain1()
    ensures Plain("recommended_witness_capacity")
    ensures Plain("recommended_partial_buffer")
    ensures Plain("recommended_accum_buffer")
  {
  }

  lemma {:induction false} OptimalDistinct()
    ensures Distinct(OPTIMAL_PARAMS)
  {
    var s := OPTIMAL_PARAMS;
    assert |s[0].name| == 8 && |s[1].name| == 11 && |s[2].name| == 9 && |s[3].name| == 13
           && |s[4].name| == 28 && |s[5].name| == 26 && |s[6].name| == 24;
  }

  lemma {:induction false} OptimalOk()
    ensures SchemaOk(OPTIMAL_PARAMS)
  {
    hide Plain, Distinct, SchemaOk, FieldIndex;
    OptimalDistinct();
    OptimalPlain0();
    OptimalPlain1();
    NamedSchemaOk(OPTIMAL_PARAMS);
  }

  lemma {:induction false} MeasuredPlain0()
    ensures Plain("sieve_time_sec")
    ensures Plain("total_time_sec")
    ensures Plain("relations_per_sec")
    ensures Plain("total_relations")
  {
  }

  lemma {:induction false} MeasuredPlain1()
    ensures Plain("lp_witnesses")
    ensures Plain("lp_combined_relations")
    ensures Plain("witness_peak")
    ensures Plain("witness_capacity")
  {
  }

  lemma {:induction false} MeasuredPlain2()
    ensures Plain("witness_fill_pct")
    ensures Plain("overflow_events")
    ensures Plain("accum_peak")
    ensures Plain("partial_peak")
  {
  }

  lemma {:induction false} MeasuredPlain3()
    ensures Plain("persistent_peak")
  {
  }

  lemma {:induction false} MeasuredDistinct()
    ensures Distinct(MEASURED_PERFORMANCE)
  {
    var s := MEASURED_PERFORMANCE;
    assert |s[0].name| == 14 && |s[1].name| == 14 && |s[2].name| == 17 && |s[3].name| == 15
           && |s[4].name| == 12 && |s[5].name| == 21 && |s[6].name| == 12 && |s[7].name| == 16
           && |s[8].name| == 16 && |s[9].name| == 15 && |s[10].name| == 10 && |s[11].name| == 12
           && |s[12].name| == 15;
    assert s[0].name[0] != s[1].name[0];
    assert s[3].name[0] != s[9].name[0];
    assert s[3].name[0] != s[12].name[0];
    assert s[4].name[0] != s[6].name[0];
    assert s[4].name[0] != s[11].name[0];
    assert s[6].name[0] != s[11].name[0];
    assert s[7].name[8] != s[8].name[8];
    assert s[9].name[0] != s[12].name[0];
  }

  lemma {:induction false} MeasuredOk()
    ensures SchemaOk(MEASURED_PERFORMANCE)
  {
    hide Plain, Distinct, SchemaOk, FieldIndex;
    MeasuredDistinct();
    MeasuredPlain0();
    MeasuredPlain1();
    MeasuredPlain2();
    MeasuredPlain3();
    NamedSchemaOk(MEASURED_PERFORMANCE);
  }

  lemma {:induction false} EnvironmentPlain0()
    ensures Plain("gpu_name")
    ensures Plain("gpu_compute_capability")
    ensures Plain("cuda_version")
  {
  }

  lemma {:induction false} EnvironmentDistinct()
    ensures Distinct(ENVIRONMENT)
  {
    var s := ENVIRONMENT;
    assert |s[0].name| == 8 && |s[1].name| == 22 && |s[2].name| == 12;
  }

  lemma {:induction false} EnvironmentOk()
    ensures SchemaOk(ENVIRONMENT)
  {
    hide Plain, Distinct, SchemaOk, FieldIndex;
    EnvironmentDistinct();
    EnvironmentPlain0();
    NamedSchemaOk(ENVIRONMENT);
  }

  lemma {:induction false} EntryPlain0()
    ensures Plain("N_decimal")
    ensures Plain("N_hash_sha256")
    ensures Plain("digit_count")
    ensures Plain("bit_length")
  {
  }

  lemma {:induction false} EntryPlain1()
    ensures Plain("optimal_params")
    ensures Plain("measured_performance")
    ensures Plain("environment")
    ensures Plain("timestamp")
  {
  }

  lemma {:induction false} EntryPlain2()
    ensures Plain("autotune_stages_run")
    ensures Plain("confidence")
  {
  }

  lemma {:induction false} EntryDistinct()
    ensures Distinct(ENTRY)
  {
    var s := ENTRY;
    assert |s[0].name| == 9 && |s[1].name| == 13 && |s[2].name| == 11 && |s[3].name| == 10
           && |s[4].name| == 14 && |s[5].name| == 20 && |s[6].name| == 11 && |s[7].name| == 9
           && |s[8].name| == 19 && |s[9].name| == 10;
    assert s[0].name[0] != s[7].name[0];
    assert s[2].name[0] != s[6].name[0];
    assert s[3].name[0] != s[9].name[0];
  }

  lemma {:induction false} EntryOk()
    ensures SchemaOk(ENTRY)
  {
    OptimalOk();
    MeasuredOk();
    EnvironmentOk();
    hide Plain, Distinct, SchemaOk, FieldIndex;
    EntryDistinct();
    EntryPlain0();
    EntryPlain1();
    EntryPlain2();
    NamedSchemaOk(ENTRY);
  }

  // ---------------------------------------------------------------------------
  // The whole file
  // ---------------------------------------------------------------------------

  function PushEntry(v: Value, r: Parse<seq<Value>>): (q: Parse<seq<Value>>)
    ensures q.Got? <==> r.Got?
    ensures q.Got? ==> q.rest == r.rest
  {
    match r
    case Fail => Fail
    case Got(vs, rest) => Got([v] + vs, rest)
  }

  function ParseEntryList(s: string): (r: Parse<seq<Value>>)
    ensures r.Got? ==> |r.rest| < |s|
    decreases |s|
  {
    match ParseObject(s, ENTRY)
    case Fail => Fail
    case Got(e, s1) =>
      var w := SkipWS(s1);
      if |w| == 0 then Fail
      else if w[0] == ',' then PushEntry(e, ParseEntryList(SkipWS(w[1..])))
      else
        match Expect(w, ']')
        case Fail => Fail
        case Got(_, rest) => Got([e], rest)
  }

  function ParseEntries(s: string): (r: Parse<seq<Value>>)
    ensures r.Got? ==> |r.rest| < |s|
  {
    match Expect(s, '[')
    case Fail => Fail
    case Got(_, t) =>
      var u := SkipWS(t);
      if |u| == 0 then Fail
      else if u[0] != ']' then ParseEntryList(u)
      else Got([], u[1..])
  }

  datatype History = History(version: nat, entries: seq<Value>)

  /** The members of the file; entries of several lists add up, unknown keys are skipped. */
  function ParseTop(s: string, h: History): (r: Parse<History>)
    decreases |s|, 1
  {
    var u := SkipWS(s);
    if |u| == 0 then Fail
    else if u[0] == '}' then Got(h, u[1..])
    else
      match ParseString(u)
      case Fail => Fail
      case Got(key, s1) =>
        match Expect(s1, ':')
        case Fail => Fail
        case Got(_, s2) =>
          if key == "version" then
            match ParseUint64(s2)
            case Fail => Fail
            case Got(n, s3) => MoreTop(s3, h.(version := n))
          else if key == "entries" then
            match ParseEntries(s2)
            case Fail => Fail
            case Got(es, s3) => MoreTop(s3, h.(entries := h.entries + es))
          else
            match SkipValue(s2)
            case Fail => Fail
            case Got(_, s3) => MoreTop(s3, h)
  }

  function MoreTop(s: string, h: History): (r: Parse<History>)
    decreases |s|, 2
  {
    var w := SkipWS(s);
    if |w| == 0 then Fail
    else if w[0] == ',' then ParseTop(SkipWS(w[1..]), h)
    else
      match Expect(w, '}')
      case Fail => Fail
      case Got(_, rest) => Got(h, rest)
  }

  /** The entries of a file of version 1. */
  function ParseHistory(s: string): Parse<seq<Value>> {
    match Expect(s, '{')
    case Fail => Fail
    case Got(_, t) =>
      match ParseTop(t, History(0, []))
      case Fail => Fail
      case Got(h, rest) => if h.version != 1 then Fail else Got(h.entries, rest)
  }

  ghost predicate EntriesFit(es: seq<Value>) {
    forall i :: 0 <= i < |es| ==> Fits(es[i], Object(ENTRY))
  }

  ghost function PrintEntryList(es: seq<Value>): string
    requires |es| > 0 && EntriesFit(es)
  {
    "\n    " + (PrintKind(es[0], Object(ENTRY), 4)
                + if |es| == 1 then "" else "," + PrintEntryList(es[1..]))
  }

  const GENERATOR := "cuda-mpqs-autotune"

  /** A top-level key on a line of its own. */
  function TopLine(name: string, value: string): string {
    "\n  " + (QUOTE + (name + (QUOTE + (":" + (" " + value)))))
  }

  ghost function PrintEntries(es: seq<Value>): string
    requires EntriesFit(es)
  {
    "[" + (if |es| == 0 then "]" else PrintEntryList(es) + "\n  ]")
  }

  ghost function SerializeHistory(es: seq<Value>): string
    requires EntriesFit(es)
  {
    "{" + TopLine("version", PrintNat(1) + ("," +
          TopLine("generator", QUOTE + (GENERATOR + (QUOTE + ("," +
          TopLine("entries", PrintEntries(es) + "\n}\n")))))))
  }

  lemma {:induction false} EntryListWS(s: string)
    ensures ParseEntryList(SkipWS(s)) == ParseEntryList(s)
  {
    hide ParseFields;
    SkipTwice(s);
  }

  lemma {:induction false} TopWS(s: string, h: History)
    ensures ParseTop(SkipWS(s), h) == ParseTop(s, h)
  {
    hide MoreTop, ParseEntries, SkipValue;
    SkipTwice(s);
  }

  lemma {:induction false} MoreTopThen(after: string, c: char, rest: string, h: History)
    requires AllWS(after) && (c == ',' || c == '}')
    ensures MoreTop(after + ([c] + rest), h)
            == if c == ',' then ParseTop(rest, h) else Got(h, rest)
  {
    hide ParseTop;
    NextIsSeparator(after, c, rest);
    assert ([c] + rest)[1..] == rest;
    if c == ',' {
      TopWS(rest, h);
    } else {
      ExpectIt("", c, rest);
      assert "" + ([c] + rest) == [c] + rest;
    }
  }

  lemma {:induction false} PlainRaw(raw: string)
    requires forall i :: 0 <= i < |raw| ==> raw[i] != '"' && raw[i] != '\\'
    ensures RawOk(raw)
  {
    if |raw| > 0 {
      PlainRaw(raw[1..]);
    }
  }

  lemma {:induction false} GeneratorRaw()
    ensures RawOk(GENERATOR)
  {
    hide RawOk;
    PlainRaw(GENERATOR);
  }

  lemma {:induction false} PlainKeys()
    ensures Plain("generator") && Plain("version") && Plain("entries")
    ensures "generator" != "version" && "generator" != "entries" && "entries" != "version"
  {
    assert "generator"[0] != "version"[0] && "entries"[0] != "version"[0];
    assert "generator"[0] != "entries"[0];
  }
}
