/** History files laid out in any way, with unknown members anywhere: at the top level, in an
    entry, or in a record inside an entry. */
module JsonLayout {

  import opened Basics
  import opened JsonText
  import opened JsonSkip
  import opened JsonHistory

  /** A value as it stands in the file. */
  datatype Doc = Leaf(v: Value) | Record(slots: seq<Slot>)

  /** A member of a record: field `i` of its schema, or one the schema does not know. */
  datatype Slot =
    | Known(before: string, i: nat, doc: Doc, after: string)
    | Unknown(m: Member)

  ghost predicate DocOk(d: Doc, k: Kind)
    decreases d
  {
    match d
    case Leaf(v) => !k.Object? && Fits(v, k) && KindOk(k)
    case Record(slots) =>
      k.Object? && SchemaOk(k.schema)
      && forall j :: 0 <= j < |slots| ==> SlotOk(slots[j], k.schema)
  }

  ghost predicate SlotOk(s: Slot, schema: seq<Field>)
    decreases s
  {
    match s
    case Known(before, i, doc, after) =>
      AllWS(before) && AllWS(after) && i < |schema| && DocOk(doc, schema[i].kind)
    case Unknown(m) => MemberOk(m) && FieldIndex(schema, RawText(m.key)) == |schema|
  }

  ghost predicate SlotsOk(slots: seq<Slot>, schema: seq<Field>) {
    SchemaOk(schema) && forall j :: 0 <= j < |slots| ==> SlotOk(slots[j], schema)
  }

  ghost function PrintDoc(d: Doc, k: Kind): string
    requires DocOk(d, k)
    decreases d
  {
    match d
    case Leaf(v) => PrintKind(v, k, 0)
    case Record(slots) => "{" + PrintSlots(slots, k.schema)
  }

  /** The members up to and with the closing brace. */
  ghost function PrintSlots(slots: seq<Slot>, schema: seq<Field>): string
    requires SlotsOk(slots, schema)
    decreases slots
  {
    if |slots| == 0 then "}"
    else PrintSlot(slots[0], schema)
         + if |slots| == 1 then "}" else "," + PrintSlots(slots[1..], schema)
  }

  ghost function PrintSlot(s: Slot, schema: seq<Field>): string
    requires SlotOk(s, schema)
    decreases s
  {
    match s
    case Known(before, i, doc, after) =>
      before + (QUOTE + (schema[i].name + (QUOTE + (": " + (PrintDoc(doc, schema[i].kind) + after)))))
    case Unknown(m) => PrintMember(m)
  }

  /** What the document says: a record holds the defaults, overwritten by its known members. */
  ghost function Meaning(d: Doc, k: Kind): Value
    requires DocOk(d, k)
    decreases d
  {
    match d
    case Leaf(v) => v
    case Record(slots) => ObjectV(Filled(slots, k.schema, Defaults(k.schema)))
  }

  ghost function Filled(slots: seq<Slot>, schema: seq<Field>, rec: seq<Value>): (r: seq<Value>)
    requires SlotsOk(slots, schema) && |rec| == |schema|
    ensures |r| == |schema|
    decreases slots
  {
    if |slots| == 0 then rec
    else Filled(slots[1..], schema, Put(slots[0], schema, rec))
  }

  ghost function Put(s: Slot, schema: seq<Field>, rec: seq<Value>): (r: seq<Value>)
    requires SlotOk(s, schema) && |rec| == |schema|
    ensures |r| == |schema|
    decreases s
  {
    match s
    case Known(_, i, doc, _) =>
      rec[i := Store(rec[i], Meaning(doc, schema[i].kind), schema[i].kind)]
    case Unknown(_) => rec
  }

  // ---------------------------------------------------------------------------
  // Parsing a document
  // ---------------------------------------------------------------------------

  lemma {:induction false} LeafParses(ws: string, v: Value, k: Kind, rest: string)
    requires AllWS(ws) && Fits(v, k) && KindOk(k) && Delimited(rest)
    ensures ParseKind(ws + (PrintKind(v, k, 0) + rest), k) == Got(v, rest)
  {
    ValueRoundTrip(ws, v, k, 0, rest);
  }

  /** A document parses to what it says. */
  lemma {:induction false} DocParses(ws: string, d: Doc, k: Kind, rest: string)
    requires AllWS(ws) && DocOk(d, k) && Delimited(rest)
    ensures ParseKind(ws + (PrintDoc(d, k) + rest), k) == Got(Meaning(d, k), rest)
    decreases d, 0
  {
    hide ParseFields, PrintKind, Delimited, SlotOk, SchemaOk, Put, PrintSlot;
    match d
    case Leaf(v) => LeafParses(ws, v, k, rest);
    case Record(slots) =>
      var t := PrintSlots(slots, k.schema) + rest;
      assert PrintDoc(d, k) + rest == ['{'] + t;
      ExpectIt(ws, '{', t);
      if |slots| == 0 {
        assert t == ['}'] + rest;
        assert t[1..] == rest;
      } else {
        SlotsStart(slots, k.schema, rest);
        FieldsWS(t, k.schema, Defaults(k.schema));
        SlotsParse(slots, k.schema, Defaults(k.schema), rest);
      }
  }

  /** Members start with a key. */
  lemma {:induction false} SlotsStart(slots: seq<Slot>, schema: seq<Field>, rest: string)
    requires SlotsOk(slots, schema) && |slots| > 0
    ensures var u := SkipWS(PrintSlots(slots, schema) + rest);
            |u| > 0 && u[0] == '"'
  {
    hide PrintSlot, SlotOk, SchemaOk;
    var y := if |slots| == 1 then "}" else "," + PrintSlots(slots[1..], schema);
    assert SlotOk(slots[0], schema);
    SlotStart(slots[0], schema, y + rest);
    assert PrintSlots(slots, schema) + rest == PrintSlot(slots[0], schema) + (y + rest);
  }

  lemma {:induction false} SlotStart(s: Slot, schema: seq<Field>, rest: string)
    requires SlotOk(s, schema)
    ensures var u := SkipWS(PrintSlot(s, schema) + rest);
            |u| > 0 && u[0] == '"'
  {
    hide PrintDoc, PrintItem, DocOk;
    match s
    case Known(before, i, doc, after) =>
      var x := schema[i].name + (QUOTE + (": " + (PrintDoc(doc, schema[i].kind) + after)));
      assert PrintSlot(s, schema) + rest == before + (QUOTE + (x + rest));
      SkipLeading(before, QUOTE + (x + rest));
    case Unknown(m) =>
      var x := m.key + (QUOTE + (m.beforeColon + (":" + PrintItem(m.item))));
      assert PrintSlot(s, schema) + rest == m.before + (QUOTE + (x + rest));
      SkipLeading(m.before, QUOTE + (x + rest));
  }

  /** One member, and what comes after it. */
  lemma {:induction false} SlotParses(
      s: Slot, schema: seq<Field>, rec: seq<Value>, c: char, rest: string)
    requires SchemaOk(schema) && SlotOk(s, schema) && |rec| == |schema|
    requires c == ',' || c == '}'
    ensures ParseFields(PrintSlot(s, schema) + ([c] + rest), schema, rec)
            == if c == ',' then ParseFields(rest, schema, Put(s, schema, rec))
               else Got(ObjectV(Put(s, schema, rec)), rest)
    decreases s, 1
  {
    hide ParseFields, ParseKind, MoreFields, PrintMember, PrintDoc, Meaning, Store, DocOk,
      FieldIndex, MemberOk;
    match s
    case Known(before, i, doc, after) =>
      var k := schema[i].kind;
      var text, tail := PrintDoc(doc, k), after + ([c] + rest);
      assert Plain(schema[i].name) && FieldIndex(schema, schema[i].name) == i;
      hide SchemaOk, Plain;
      NextIsSeparator(after, c, rest);
      assert AllWS(" ");
      DocParses(" ", doc, k, tail);
      FieldParsed(schema, i, rec, before, text, Meaning(doc, k), tail);
      assert PrintSlot(s, schema) + ([c] + rest)
             == before + (QUOTE + (schema[i].name + (QUOTE + (": " + (text + tail)))));
      MoreThen(after, c, rest, schema, Put(s, schema, rec));
    case Unknown(m) => UnknownMember(schema, rec, m, c, rest);
  }

  lemma {:induction false} SlotsParse(
      slots: seq<Slot>, schema: seq<Field>, rec: seq<Value>, rest: string)
    requires SlotsOk(slots, schema) && |slots| > 0 && |rec| == |schema|
    ensures ParseFields(PrintSlots(slots, schema) + rest, schema, rec)
            == Got(ObjectV(Filled(slots, schema, rec)), rest)
    decreases slots, 1
  {
    hide ParseFields, PrintSlot, SlotOk, SchemaOk, Put;
    var first := PrintSlot(slots[0], schema);
    if |slots| == 1 {
      assert PrintSlots(slots, schema) + rest == first + (['}'] + rest);
      SlotParses(slots[0], schema, rec, '}', rest);
    } else {
      var later := PrintSlots(slots[1..], schema) + rest;
      assert PrintSlots(slots, schema) + rest == first + ([','] + later);
      SlotParses(slots[0], schema, rec, ',', later);
      SlotsParse(slots[1..], schema, Put(slots[0], schema, rec), rest);
    }
  }

  // ---------------------------------------------------------------------------
  // Leaving out the unknown members
  // ---------------------------------------------------------------------------

  ghost function Strip(d: Doc): Doc
    decreases d
  {
    match d
    case Leaf(v) => d
    case Record(slots) => Record(StripSlots(slots))
  }

  ghost function StripSlots(slots: seq<Slot>): seq<Slot>
    decreases slots
  {
    if |slots| == 0 then [] else StripSlot(slots[0]) + StripSlots(slots[1..])
  }

  ghost function StripSlot(s: Slot): seq<Slot>
    decreases s
  {
    match s
    case Known(before, i, doc, after) => [Known(before, i, Strip(doc), after)]
    case Unknown(_) => []
  }

  lemma {:induction false} StripKeeps(d: Doc, k: Kind)
    requires DocOk(d, k)
    ensures DocOk(Strip(d), k) && Meaning(Strip(d), k) == Meaning(d, k)
    decreases d, 0
  {
    if d.Record? {
      hide SlotOk, SchemaOk, Filled, Put;
      StripSlotsKeep(d.slots, k.schema, Defaults(k.schema));
    }
  }

  lemma {:induction false} StripSlotsKeep(slots: seq<Slot>, schema: seq<Field>, rec: seq<Value>)
    requires SlotsOk(slots, schema) && |rec| == |schema|
    ensures SlotsOk(StripSlots(slots), schema)
    ensures Filled(StripSlots(slots), schema, rec) == Filled(slots, schema, rec)
    decreases slots, 1
  {
    hide SchemaOk, FieldIndex, MemberOk, Meaning, DocOk, Strip;
    if |slots| > 0 {
      var s, later := slots[0], slots[1..];
      StripSlotsKeep(later, schema, Put(s, schema, rec));
      if s.Known? {
        StripKeeps(s.doc, schema[s.i].kind);
        var s' := Known(s.before, s.i, Strip(s.doc), s.after);
        var stripped := [s'] + StripSlots(later);
        assert StripSlots(slots) == stripped;
        assert stripped[1..] == StripSlots(later);
        assert Put(s', schema, rec) == Put(s, schema, rec);
      } else {
        assert StripSlots(slots) == StripSlots(later);
      }
    }
  }

  // ---------------------------------------------------------------------------
  // The file
  // ---------------------------------------------------------------------------

  datatype Element = Element(before: string, doc: Doc, after: string)

  datatype Part =
    | Version(before: string, n: nat, after: string)
    | Entries(before: string, list: seq<Element>, after: string)
    | Other(m: Member)

  ghost predicate ElementOk(e: Element) {
    AllWS(e.before) && AllWS(e.after) && e.doc.Record? && DocOk(e.doc, Object(ENTRY))
  }

  ghost predicate ElementsOk(list: seq<Element>) {
    forall j :: 0 <= j < |list| ==> ElementOk(list[j])
  }

  ghost predicate PartOk(p: Part) {
    match p
    case Version(before, n, after) => AllWS(before) && AllWS(after) && n < WORD64
    case Entries(before, list, after) => AllWS(before) && AllWS(after) && ElementsOk(list)
    case Other(m) =>
      MemberOk(m) && RawText(m.key) != "version" && RawText(m.key) != "entries"
  }

  ghost predicate PartsOk(parts: seq<Part>) {
    forall j :: 0 <= j < |parts| ==> PartOk(parts[j])
  }

  ghost function PrintElement(e: Element): string
    requires ElementOk(e)
  {
    e.before + (PrintDoc(e.doc, Object(ENTRY)) + e.after)
  }

  ghost function PrintElements(list: seq<Element>): string
    requires ElementsOk(list)
  {
    if |list| == 0 then "]"
    else PrintElement(list[0]) + if |list| == 1 then "]" else "," + PrintElements(list[1..])
  }

  ghost function PrintPart(p: Part): string
    requires PartOk(p)
  {
    match p
    case Version(before, n, after) =>
      before + (QUOTE + ("version" + (QUOTE + (":" + (" " + (PrintNat(n) + after))))))
    case Entries(before, list, after) =>
      before + (QUOTE + ("entries" + (QUOTE + (":" + (" " + (("[" + PrintElements(list)) + after))))))
    case Other(m) => PrintMember(m)
  }

  ghost function PrintParts(parts: seq<Part>): string
    requires PartsOk(parts)
  {
    if |parts| == 0 then "}"
    else PrintPart(parts[0]) + if |parts| == 1 then "}" else "," + PrintParts(parts[1..])
  }

  ghost function PrintFile(parts: seq<Part>, rest: string): string
    requires PartsOk(parts)
  {
    "{" + (PrintParts(parts) + rest)
  }

  ghost function Values(list: seq<Element>): (v: seq<Value>)
    requires ElementsOk(list)
    ensures |v| == |list|
  {
    seq(|list|, j requires 0 <= j < |list| => Meaning(list[j].doc, Object(ENTRY)))
  }

  ghost function Note(p: Part, h: History): History
    requires PartOk(p)
  {
    match p
    case Version(_, n, _) => h.(version := n)
    case Entries(_, list, _) => h.(entries := h.entries + Values(list))
    case Other(_) => h
  }

  ghost function Noted(parts: seq<Part>, h: History): History
    requires PartsOk(parts)
  {
    if |parts| == 0 then h else Noted(parts[1..], Note(parts[0], h))
  }

  // ---------------------------------------------------------------------------
  // Parsing a file
  // ---------------------------------------------------------------------------

  /** One entry of the list, and what comes after it. */
  lemma {:induction false} ElementParses(e: Element, c: char, rest: string)
    requires ElementOk(e) && (c == ',' || c == ']')
    ensures ParseEntryList(PrintElement(e) + ([c] + rest))
            == if c == ',' then PushEntry(Meaning(e.doc, Object(ENTRY)), ParseEntryList(rest))
               else Got([Meaning(e.doc, Object(ENTRY))], rest)
  {
    hide ParseObject, PrintDoc, Meaning, DocOk, SchemaOk, AllWS;
    var p, tail := PrintDoc(e.doc, Object(ENTRY)), e.after + ([c] + rest);
    NextIsSeparator(e.after, c, rest);
    DocParses(e.before, e.doc, Object(ENTRY), tail);
    assert PrintElement(e) + ([c] + rest) == e.before + (p + tail);
    assert ([c] + rest)[1..] == rest;
    ExpectIt("", c, rest);
    assert "" + ([c] + rest) == [c] + rest;
    if c == ',' {
      EntryListWS(rest);
    }
  }

  lemma {:induction false} ElementsParse(list: seq<Element>, rest: string)
    requires ElementsOk(list) && |list| > 0
    ensures ParseEntryList(PrintElements(list) + rest) == Got(Values(list), rest)
    decreases |list|
  {
    assert ElementOk(list[0]);
    hide ParseEntryList, PrintElement, DocOk, Meaning;
    var p, v := PrintElement(list[0]), Meaning(list[0].doc, Object(ENTRY));
    if |list| == 1 {
      assert PrintElements(list) + rest == p + ([']'] + rest);
      ElementParses(list[0], ']', rest);
      assert Values(list) == [v];
    } else {
      var later := PrintElements(list[1..]) + rest;
      assert PrintElements(list) + rest == p + ([','] + later);
      ElementParses(list[0], ',', later);
      ElementsParse(list[1..], rest);
      assert Values(list) == [v] + Values(list[1..]);
    }
  }

  lemma {:induction false} EntriesParse(list: seq<Element>, rest: string)
    requires ElementsOk(list)
    ensures ParseEntries(" " + (("[" + PrintElements(list)) + rest)) == Got(Values(list), rest)
  {
    hide ParseEntryList, ElementOk, PrintElement, Meaning;
    var t := PrintElements(list) + rest;
    assert ("[" + PrintElements(list)) + rest == ['['] + t;
    assert AllWS(" ");
    ExpectIt(" ", '[', t);
    if |list| == 0 {
      assert t == [']'] + rest && t[1..] == rest;
    } else {
      ElementsStart(list, rest);
      ElementsParse(list, rest);
      EntryListWS(t);
    }
  }

  lemma {:induction false} ElementsStart(list: seq<Element>, rest: string)
    requires ElementsOk(list) && |list| > 0
    ensures var u := SkipWS(PrintElements(list) + rest);
            |u| > 0 && u[0] == '{'
  {
    hide PrintSlots, DocOk;
    var e := list[0];
    var p := PrintDoc(e.doc, Object(ENTRY));
    var y := if |list| == 1 then "]" else "," + PrintElements(list[1..]);
    assert PrintElements(list) + rest == e.before + (p + ((e.after + y) + rest));
    SkipLeading(e.before, p + ((e.after + y) + rest));
  }

  /** What a top-level member does once its key is read. */
  ghost function AfterKey(key: string, value: string, h: History): Parse<History> {
    if key == "version" then
      match ParseUint64(value)
      case Fail => Fail
      case Got(n, t) => MoreTop(t, h.(version := n))
    else if key == "entries" then
      match ParseEntries(value)
      case Fail => Fail
      case Got(es, t) => MoreTop(t, h.(entries := h.entries + es))
    else
      match SkipValue(value)
      case Fail => Fail
      case Got(_, t) => MoreTop(t, h)
  }

  lemma {:induction false} TopStep(
      before: string, q: string, key: string, colon: string, value: string, h: History)
    requires AllWS(before) && |q| > 0 && q[0] == '"'
    requires ParseString(q) == Got(key, colon) && Expect(colon, ':') == Got((), value)
    ensures ParseTop(before + q, h) == AfterKey(key, value, h)
  {
    hide MoreTop, ParseEntries, SkipValue, ParseUint64, ParseString, Expect;
    SkipLeading(before, q);
    assert SkipWS(q) == q;
  }

  /** A key at the top level, laid out in any way. */
  lemma {:induction false} TopMember(before: string, name: string, value: string, h: History)
    requires AllWS(before) && Plain(name)
    ensures ParseTop(before + (QUOTE + (name + (QUOTE + (":" + value)))), h)
            == AfterKey(name, value, h)
  {
    hide AfterKey, ParseTop;
    var q := QUOTE + (name + (QUOTE + (":" + value)));
    PlainEscape(name);
    StringRoundTrip("", name, ":" + value);
    assert "" + q == q;
    ExpectIt("", ':', value);
    assert "" + ([':'] + value) == ":" + value;
    TopStep(before, q, name, ":" + value, value, h);
  }

  lemma {:induction false} OtherParses(m: Member, c: char, s: string, h: History)
    requires PartOk(Other(m)) && (c == ',' || c == '}')
    ensures ParseTop(PrintMember(m) + ([c] + s), h)
            == if c == ',' then ParseTop(s, h) else Got(h, s)
  {
    hide ParseEntries, ParseUint64, SkipValue, ParseString, PrintItem, MoreTop, ParseTop, Expect,
      RawText;
    var tail := PrintItem(m.item) + ([c] + s);
    ItemSkipped(m.item, c, s);
    var q := QUOTE + (m.key + (QUOTE + (m.beforeColon + (":" + tail))));
    KeyOnly(m, tail);
    TopStep(m.before, q, RawText(m.key), m.beforeColon + (":" + tail), tail, h);
    MoreTopThen(m.item.after, c, s, h);
    assert PrintMember(m) + ([c] + s) == m.before + q;
  }

  lemma {:induction false} KeyOnly(m: Member, s: string)
    requires MemberOk(m)
    ensures var k := ParseString(QUOTE + (m.key + (QUOTE + (m.beforeColon + (":" + s)))));
            && k == Got(RawText(m.key), m.beforeColon + (":" + s))
            && Expect(k.rest, ':') == Got((), s)
  {
    var q := QUOTE + (m.key + (QUOTE + (m.beforeColon + (":" + s))));
    assert "" + q == q;
    QuotedParses("", m.key, m.beforeColon + (":" + s));
    ExpectIt(m.beforeColon, ':', s);
  }

  lemma {:induction false} VersionParses(p: Part, c: char, s: string, h: History)
    requires p.Version? && PartOk(p) && (c == ',' || c == '}')
    ensures ParseTop(PrintPart(p) + ([c] + s), h)
            == if c == ',' then ParseTop(s, Note(p, h)) else Got(Note(p, h), s)
  {
    hide ParseTop, MoreTop, ParseEntries, PrintNat, ParseUint64, SkipValue;
    var tail := p.after + ([c] + s);
    PlainKeys();
    TopMember(p.before, "version", " " + (PrintNat(p.n) + tail), h);
    assert PrintPart(p) + ([c] + s)
           == p.before + (QUOTE + ("version" + (QUOTE + (":" + (" " + (PrintNat(p.n) + tail))))));
    NextIsSeparator(p.after, c, s);
    assert AllWS(" ");
    UintRoundTrip(" ", p.n, tail);
    MoreTopThen(p.after, c, s, Note(p, h));
  }

  lemma {:induction false} EntriesPartParses(p: Part, c: char, s: string, h: History)
    requires p.Entries? && PartOk(p) && (c == ',' || c == '}')
    ensures ParseTop(PrintPart(p) + ([c] + s), h)
            == if c == ',' then ParseTop(s, Note(p, h)) else Got(Note(p, h), s)
  {
    hide ParseTop, MoreTop, ParseEntries, PrintElements, ElementsOk, ParseUint64, SkipValue;
    var tail, text := p.after + ([c] + s), "[" + PrintElements(p.list);
    PlainKeys();
    TopMember(p.before, "entries", " " + (text + tail), h);
    assert PrintPart(p) + ([c] + s)
           == p.before + (QUOTE + ("entries" + (QUOTE + (":" + (" " + (text + tail))))));
    EntriesParse(p.list, tail);
    MoreTopThen(p.after, c, s, Note(p, h));
  }

  /** One part of the file, and what comes after it. */
  lemma {:induction false} PartParses(p: Part, c: char, s: string, h: History)
    requires PartOk(p) && (c == ',' || c == '}')
    ensures ParseTop(PrintPart(p) + ([c] + s), h)
            == if c == ',' then ParseTop(s, Note(p, h)) else Got(Note(p, h), s)
  {
    hide ParseTop, PrintElements, ElementsOk, PrintNat, PrintMember;
    match p
    case Version(_, _, _) => VersionParses(p, c, s, h);
    case Entries(_, _, _) => EntriesPartParses(p, c, s, h);
    case Other(m) => OtherParses(m, c, s, h);
  }

  lemma {:induction false} NoParts(rest: string, h: History)
    ensures ParseTop("}" + rest, h) == Got(h, rest)
  {
    hide MoreTop, ParseEntries, SkipValue;
    assert ("}" + rest)[1..] == rest;
  }

  lemma {:induction false} PartsParse(parts: seq<Part>, rest: string, h: History)
    requires PartsOk(parts)
    ensures ParseTop(PrintParts(parts) + rest, h) == Got(Noted(parts, h), rest)
    decreases |parts|
  {
    hide ParseTop, PrintPart, PartOk, Note;
    if |parts| == 0 {
      NoParts(rest, h);
    } else {
      var first := PrintPart(parts[0]);
      if |parts| == 1 {
        assert PrintParts(parts) + rest == first + (['}'] + rest);
        PartParses(parts[0], '}', rest, h);
      } else {
        var later := PrintParts(parts[1..]) + rest;
        assert PrintParts(parts) + rest == first + ([','] + later);
        PartParses(parts[0], ',', later, h);
        PartsParse(parts[1..], rest, Note(parts[0], h));
      }
    }
  }

  /** A file parses to what it says, if its last version is 1. */
  lemma {:induction false} FileParses(parts: seq<Part>, rest: string)
    requires PartsOk(parts)
    ensures var h := Noted(parts, History(0, []));
            ParseHistory(PrintFile(parts, rest))
            == if h.version != 1 then Fail else Got(h.entries, rest)
  {
    hide ParseTop, PrintParts, Noted, PartsOk;
    var t := PrintParts(parts) + rest;
    ExpectIt("", '{', t);
    assert "" + (['{'] + t) == PrintFile(parts, rest);
    PartsParse(parts, rest, History(0, []));
  }

  // ---------------------------------------------------------------------------
  // Unknown members anywhere
  // ---------------------------------------------------------------------------

  ghost function StripElements(list: seq<Element>): (r: seq<Element>)
    ensures |r| == |list|
  {
    seq(|list|, j requires 0 <= j < |list| =>
      Element(list[j].before, Strip(list[j].doc), list[j].after))
  }

  /** The file without the members the parser does not know. */
  ghost function StripParts(parts: seq<Part>): seq<Part> {
    if |parts| == 0 then [] else StripPart(parts[0]) + StripParts(parts[1..])
  }

  ghost function StripPart(p: Part): seq<Part> {
    match p
    case Version(_, _, _) => [p]
    case Entries(before, list, after) => [Entries(before, StripElements(list), after)]
    case Other(_) => []
  }

  lemma {:induction false} StripElementsKeep(list: seq<Element>)
    requires ElementsOk(list)
    ensures ElementsOk(StripElements(list)) && Values(StripElements(list)) == Values(list)
  {
    hide DocOk, Meaning;
    forall j | 0 <= j < |list|
      ensures ElementOk(StripElements(list)[j])
      ensures Meaning(Strip(list[j].doc), Object(ENTRY)) == Meaning(list[j].doc, Object(ENTRY))
    {
      assert ElementOk(list[j]);
      StripKeeps(list[j].doc, Object(ENTRY));
    }
  }

  lemma {:induction false} StripPartsKeep(parts: seq<Part>, h: History)
    requires PartsOk(parts)
    ensures PartsOk(StripParts(parts)) && Noted(StripParts(parts), h) == Noted(parts, h)
    decreases |parts|
  {
    hide ElementsOk, StripElements, Values, MemberOk, RawText;
    if |parts| > 0 {
      var p, later := parts[0], parts[1..];
      StripPartsKeep(later, Note(p, h));
      if p.Other? {
        assert StripParts(parts) == StripParts(later);
      } else {
        if p.Entries? {
          StripElementsKeep(p.list);
        }
        var p' := StripPart(p)[0];
        var stripped := [p'] + StripParts(later);
        assert StripParts(parts) == stripped && stripped[1..] == StripParts(later);
        assert PartOk(p') && Note(p', h) == Note(p, h);
      }
    }
  }

  /** Members with unknown keys and any well-formed values, wherever they stand and however they
      are laid out, change nothing: the file parses as it does without them. */
  lemma UnknownsIgnored(parts: seq<Part>, rest: string)
    requires PartsOk(parts)
    ensures PartsOk(StripParts(parts))
    ensures ParseHistory(PrintFile(parts, rest)) == ParseHistory(PrintFile(StripParts(parts), rest))
  {
    hide PartsOk, StripParts, Noted, ParseHistory, PrintFile;
    StripPartsKeep(parts, History(0, []));
    FileParses(parts, rest);
    FileParses(StripParts(parts), rest);
  }

  // ---------------------------------------------------------------------------
  // The printed history as a document
  // ---------------------------------------------------------------------------

  ghost function DocOf(v: Value, k: Kind, indent: nat): Doc
    requires Fits(v, k)
    decreases k, 1
  {
    match k
    case Object(schema) => Record(SlotsOf(v.fields, schema, 0, indent))
    case _ => Leaf(v)
  }

  /** The members from field `i` on, one a line. */
  ghost function SlotsOf(vals: seq<Value>, schema: seq<Field>, i: nat, indent: nat): seq<Slot>
    requires FieldsFit(vals, schema) && i <= |schema|
    decreases schema, 0, |schema| - i
  {
    if i == |schema| then []
    else
      FieldsFitAt(vals, schema, i);
      [Known("\n" + Spaces(indent + 2), i, DocOf(vals[i], schema[i].kind, indent + 2),
             if i + 1 == |schema| then "\n" + Spaces(indent) else "")]
      + SlotsOf(vals, schema, i + 1, indent)
  }

  lemma {:induction false} LeafIndent(v: Value, k: Kind, indent: nat)
    requires Fits(v, k) && !k.Object?
    ensures PrintKind(v, k, 0) == PrintKind(v, k, indent)
  {
  }

  lemma {:induction false} DocOfOk(v: Value, k: Kind, indent: nat)
    requires Fits(v, k) && KindOk(k)
    ensures DocOk(DocOf(v, k, indent), k)
    ensures PrintDoc(DocOf(v, k, indent), k) == PrintKind(v, k, indent)
    decreases k, 1
  {
    if k.Object? {
      hide SchemaOk, SlotOk, PrintSlots, SlotsOf, PrintFields, FieldsFit, Spaces;
      var schema := k.schema;
      SlotsOfOk(v.fields, schema, 0, indent);
      assert v.fields[0..] == v.fields && schema[0..] == schema;
      if |schema| == 0 {
        assert "{" + "}" == "{}";
      } else {
        var f := PrintFields(v.fields, schema, indent + 2);
        var close := "\n" + (Spaces(indent) + "}");
        assert "{" + ("\n" + (f + close)) == "{\n" + (f + close);
      }
    } else {
      hide PrintKind, Fits;
      LeafIndent(v, k, indent);
    }
  }

  lemma {:induction false} SlotsOfOk(vals: seq<Value>, schema: seq<Field>, i: nat, indent: nat)
    requires FieldsFit(vals, schema) && SchemaOk(schema) && i <= |schema|
    ensures SlotsOk(SlotsOf(vals, schema, i, indent), schema)
    ensures FieldsFit(vals[i..], schema[i..])
    ensures PrintSlots(SlotsOf(vals, schema, i, indent), schema)
            == if i == |schema| then "}"
               else "\n" + (PrintFields(vals[i..], schema[i..], indent + 2)
                            + ("\n" + (Spaces(indent) + "}")))
    decreases schema, 0, |schema| - i
  {
    assert |vals| == |schema|;
    hide PrintKind, PrintFields, FieldsFit, Fits, DocOf, PrintSlot, PrintField, SlotOk, SchemaOk,
      Spaces;
    FieldsFitAt(vals, schema, i);
    if i < |schema| {
      SlotsOfOk(vals, schema, i + 1, indent);
      var slots, later := SlotsOf(vals, schema, i, indent), SlotsOf(vals, schema, i + 1, indent);
      var after := if i + 1 == |schema| then "\n" + Spaces(indent) else "";
      var slot := Known("\n" + Spaces(indent + 2), i,
                        DocOf(vals[i], schema[i].kind, indent + 2), after);
      assert slots == [slot] + later && slots[1..] == later;
      assert |later| > 0 <==> i + 1 < |schema|;
      hide SlotsOf;
      SlotOfOk(vals[i], schema, i, indent + 2, after);
      assert SlotsOk(slots, schema);
      PrintFirst(vals, schema, i, indent + 2);
      var text := PrintKind(vals[i], schema[i].kind, indent + 2);
      var f, pad := PrintField(schema[i].name, text, indent + 2), Spaces(indent);
      hide SlotsOk;
      if i + 1 == |schema| {
        assert PrintSlots(slots, schema) == PrintSlot(slot, schema) + "}";
        LastText(f, pad);
      } else {
        MoreText(f, PrintFields(vals[i + 1..], schema[i + 1..], indent + 2),
                 "\n" + (pad + "}"));
      }
    }
  }

  lemma {:induction false} SlotOfOk(v: Value, schema: seq<Field>, i: nat, indent: nat,
                                    after: string)
    requires i < |schema| && SchemaOk(schema) && Fits(v, schema[i].kind)
    requires after == "" || exists n :: after == "\n" + Spaces(n)
    ensures var s := Known("\n" + Spaces(indent), i, DocOf(v, schema[i].kind, indent), after);
            && SlotOk(s, schema)
            && PrintSlot(s, schema)
               == "\n" + (PrintField(schema[i].name, PrintKind(v, schema[i].kind, indent), indent)
                          + after)
    decreases schema, 0, 0
  {
    hide PrintKind, PrintDoc, Fits, DocOk, DocOf;
    assert KindOk(schema[i].kind);
    hide SchemaOk;
    var s := Known("\n" + Spaces(indent), i, DocOf(v, schema[i].kind, indent), after);
    assert AllWS(s.before) && AllWS(after);
    DocOfOk(v, schema[i].kind, indent);
    hide AllWS;
    SlotText(s, schema, PrintKind(v, schema[i].kind, indent), indent);
  }

  lemma LastText(f: string, pad: string)
    ensures ("\n" + (f + ("\n" + pad))) + "}" == "\n" + ((f + "") + ("\n" + (pad + "}")))
  {
  }

  lemma MoreText(f: string, later: string, close: string)
    ensures ("\n" + (f + "")) + ("," + ("\n" + (later + close)))
            == "\n" + ((f + (",\n" + later)) + close)
  {
  }

  lemma {:induction false} SlotText(s: Slot, schema: seq<Field>, text: string, indent: nat)
    requires s.Known? && SlotOk(s, schema) && s.before == "\n" + Spaces(indent)
    requires PrintDoc(s.doc, schema[s.i].kind) == text
    ensures PrintSlot(s, schema) == "\n" + (PrintField(schema[s.i].name, text, indent) + s.after)
  {
    hide PrintDoc, DocOk;
    var name := schema[s.i].name;
    assert ("\n" + Spaces(indent)) + (QUOTE + (name + (QUOTE + (": " + (text + s.after)))))
           == "\n" + ((Spaces(indent) + (QUOTE + (name + (QUOTE + (": " + text))))) + s.after);
  }

  ghost function ElementsOf(es: seq<Value>): seq<Element>
    requires EntriesFit(es)
  {
    if |es| == 0 then []
    else
      [Element("\n    ", DocOf(es[0], Object(ENTRY), 4), if |es| == 1 then "\n  " else "")]
      + ElementsOf(es[1..])
  }

  lemma {:induction false} ElementOfOk(v: Value, after: string)
    requires Fits(v, Object(ENTRY)) && (after == "" || after == "\n  ")
    ensures var e := Element("\n    ", DocOf(v, Object(ENTRY), 4), after);
            ElementOk(e) && PrintElement(e) == "\n    " + (PrintKind(v, Object(ENTRY), 4) + after)
  {
    hide PrintKind, PrintDoc, Fits, DocOk, SchemaOk;
    assert DocOf(v, Object(ENTRY), 4).Record?;
    hide DocOf;
    EntryOk();
    DocOfOk(v, Object(ENTRY), 4);
    assert AllWS("\n    ") && AllWS(after);
  }

  lemma {:induction false} ElementsOfOk(es: seq<Value>)
    requires EntriesFit(es)
    ensures ElementsOk(ElementsOf(es)) && |ElementsOf(es)| == |es|
    ensures PrintElements(ElementsOf(es)) == if |es| == 0 then "]" else PrintEntryList(es) + "\n  ]"
    decreases |es|
  {
    hide PrintKind, PrintElement, ElementOk, Fits, DocOf;
    if |es| > 0 {
      ElementsOfOk(es[1..]);
      var after := if |es| == 1 then "\n  " else "";
      ElementOfOk(es[0], after);
      var e := Element("\n    ", DocOf(es[0], Object(ENTRY), 4), after);
      var list, later := ElementsOf(es), ElementsOf(es[1..]);
      assert list == [e] + later && list[1..] == later;
      hide ElementsOf;
      var p := PrintKind(es[0], Object(ENTRY), 4);
      if |es| == 1 {
        LastEntryText(p);
      } else {
        MoreEntriesText(p, PrintEntryList(es[1..]));
      }
    }
  }

  lemma LastEntryText(p: string)
    ensures ("\n    " + (p + "\n  ")) + "]" == ("\n    " + (p + "")) + "\n  ]"
  {
  }

  lemma MoreEntriesText(p: string, later: string)
    ensures ("\n    " + (p + "")) + ("," + (later + "\n  ]"))
            == ("\n    " + (p + ("," + later))) + "\n  ]"
  {
  }

  ghost function PartsOf(es: seq<Value>): seq<Part>
    requires EntriesFit(es)
  {
    [Version("\n  ", 1, ""),
     Other(Member("\n  ", "generator", "", Item(" ", JText(GENERATOR), ""))),
     Entries("\n  ", ElementsOf(es), "\n")]
  }

  lemma {:induction false} VersionText(t: string)
    ensures var p := Version("\n  ", 1, "");
            PartOk(p) && PrintPart(p) + ("," + t) == TopLine("version", PrintNat(1) + ("," + t))
  {
    hide PrintNat;
    assert AllWS("\n  ") && WORD64 > 1;
  }

  lemma {:induction false} GeneratorText(t: string)
    ensures var p := Other(Member("\n  ", "generator", "", Item(" ", JText(GENERATOR), "")));
            PartOk(p) && PrintPart(p) + ("," + t)
                         == TopLine("generator", QUOTE + (GENERATOR + (QUOTE + ("," + t))))
  {
    hide RawOk, RawText;
    GeneratorRaw();
    GeneratorKey();
    assert AllWS("\n  ") && AllWS(" ");
  }

  lemma {:induction false} EntriesText(es: seq<Value>)
    requires EntriesFit(es)
    ensures var p := Entries("\n  ", ElementsOf(es), "\n");
            PartOk(p) && PrintPart(p) + ("}" + "\n")
                         == TopLine("entries", PrintEntries(es) + "\n}\n")
  {
    hide PrintElements, PrintEntryList, ElementsOf, ElementsOk, EntriesFit;
    ElementsOfOk(es);
    assert AllWS("\n  ") && AllWS("\n");
    assert "[" + PrintElements(ElementsOf(es)) == PrintEntries(es);
    hide PrintEntries;
    var e := PrintEntries(es);
    assert (e + "\n") + ("}" + "\n") == e + "\n}\n";
  }

  /** The printed history is such a file. */
  lemma {:induction false} PartsOfOk(es: seq<Value>)
    requires EntriesFit(es)
    ensures PartsOk(PartsOf(es)) && PrintFile(PartsOf(es), "\n") == SerializeHistory(es)
  {
    var t3 := TopLine("entries", PrintEntries(es) + "\n}\n");
    var t2 := TopLine("generator", QUOTE + (GENERATOR + (QUOTE + ("," + t3))));
    hide EntriesFit, PrintPart, PartOk, TopLine, PrintEntries, ElementsOf, PrintNat, PrintParts,
      PartsOk, PrintFile;
    EntriesText(es);
    GeneratorText(t3);
    VersionText(t2);
    var parts := PartsOf(es);
    ThreeParts(parts[0], parts[1], parts[2], "\n");
    assert parts == [parts[0], parts[1], parts[2]];
  }

  lemma {:induction false} ThreeParts(p0: Part, p1: Part, p2: Part, rest: string)
    requires PartOk(p0) && PartOk(p1) && PartOk(p2)
    ensures PartsOk([p0, p1, p2])
    ensures PrintFile([p0, p1, p2], rest)
            == "{" + (PrintPart(p0) + ("," + (PrintPart(p1) + ("," + (PrintPart(p2) + ("}" + rest))))))
  {
    hide PrintPart, PartOk;
    assert [p0, p1, p2][1..] == [p1, p2] && [p1, p2][1..] == [p2];
    assert PrintParts([p2]) == PrintPart(p2) + "}";
    assert PrintParts([p1, p2]) == PrintPart(p1) + ("," + PrintParts([p2]));
  }

  lemma {:induction false} GeneratorKey()
    ensures RawOk("generator") && RawText("generator") == "generator"
    ensures "generator" != "version" && "generator" != "entries"
  {
    PlainRaw("generator");
    RawIsText("generator");
    PlainKeys();
  }

  lemma {:induction false} RawIsText(raw: string)
    requires forall i :: 0 <= i < |raw| ==> raw[i] != '"' && raw[i] != '\\'
    ensures RawOk(raw) && RawText(raw) == raw
  {
    if |raw| > 0 {
      RawIsText(raw[1..]);
      assert [raw[0]] + raw[1..] == raw;
    }
  }

  /** Printing and parsing agree on what a value says. */
  lemma {:induction false} MeaningOfPrinted(v: Value, k: Kind, indent: nat)
    requires Fits(v, k) && KindOk(k)
    ensures DocOk(DocOf(v, k, indent), k) && Meaning(DocOf(v, k, indent), k) == v
  {
    hide ParseKind, PrintKind, PrintDoc, DocOk, DocOf, Meaning, Fits;
    DocOfOk(v, k, indent);
    ValueRoundTrip("", v, k, indent, "");
    DocParses("", DocOf(v, k, indent), k, "");
  }

  lemma {:induction false} ValuesOfPrinted(es: seq<Value>)
    requires EntriesFit(es)
    ensures ElementsOk(ElementsOf(es)) && Values(ElementsOf(es)) == es
    decreases |es|
  {
    hide Fits, DocOk, DocOf, Meaning, SchemaOk;
    ElementsOfOk(es);
    if |es| > 0 {
      ValuesOfPrinted(es[1..]);
      EntryOk();
      MeaningOfPrinted(es[0], Object(ENTRY), 4);
      assert ElementsOf(es)[1..] == ElementsOf(es[1..]);
      assert Values(ElementsOf(es)) == [es[0]] + Values(ElementsOf(es[1..]));
    }
  }

  lemma NotedThree(p0: Part, p1: Part, p2: Part, h: History)
    requires PartOk(p0) && PartOk(p1) && PartOk(p2)
    ensures PartsOk([p0, p1, p2])
    ensures Noted([p0, p1, p2], h) == Note(p2, Note(p1, Note(p0, h)))
  {
    hide Note, PartOk;
    assert [p0, p1, p2][1..] == [p1, p2] && [p1, p2][1..] == [p2] && [p2][1..] == [];
    assert Noted([p2], Note(p1, Note(p0, h))) == Note(p2, Note(p1, Note(p0, h)));
  }

  /** Parsing a printed history gives back every entry: strings of any characters, all integers
      below their type's bound, arrays, and numerals as they were printed. */
  lemma {:induction false} HistoryRoundTrip(es: seq<Value>)
    requires EntriesFit(es)
    ensures ParseHistory(SerializeHistory(es)) == Got(es, "\n")
  {
    hide ParseHistory, SerializeHistory, PrintFile, EntriesFit, ElementsOf, Values, Noted;
    PartsOfOk(es);
    FileParses(PartsOf(es), "\n");
    ValuesOfPrinted(es);
    var parts, h := PartsOf(es), History(0, []);
    NotedThree(parts[0], parts[1], parts[2], h);
    assert parts == [parts[0], parts[1], parts[2]];
    assert [] + es == es;
  }

  /** A printed history with unknown members inserted anywhere parses back to its entries. */
  lemma HistoryWithUnknowns(es: seq<Value>, parts: seq<Part>)
    requires EntriesFit(es) && PartsOk(parts)
    requires StripParts(parts) == StripParts(PartsOf(es))
    ensures ParseHistory(PrintFile(parts, "\n")) == Got(es, "\n")
  {
    hide ParseHistory, PrintFile, PartsOk, StripParts, EntriesFit, PartsOf;
    PartsOfOk(es);
    UnknownsIgnored(parts, "\n");
    UnknownsIgnored(PartsOf(es), "\n");
    HistoryRoundTrip(es);
  }
}
