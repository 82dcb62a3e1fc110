/** Length-prefixed frames with a checksum over a byte stream that splits anywhere. */
module Framing {
  import opened Basics
  import opened Bytes
  import Crc32

  const PROTOCOL_MAGIC: nat := 0x4D52
  const HEADER_SIZE: nat := 11
  const CRC_SIZE: nat := 4
  const MAX_PAYLOAD: nat := 64 * 1024 * 1024
  const READ_SIZE: nat := 8192
  datatype Message = Message(kind: byte, payload: seq<byte>)

  /** Magic, message type, sequence number, payload length. */
  function Header(kind: byte, seqNo: nat, len: nat): (h: seq<byte>)
    ensures |h| == HEADER_SIZE
  {
    LittleEndian(PROTOCOL_MAGIC, 2) + [kind] + LittleEndian(seqNo, 4) + LittleEndian(len, 4)
  }

  function Body(m: Message, seqNo: nat): (b: seq<byte>)
    ensures |b| == HEADER_SIZE + |m.payload|
  {
    Header(m.kind, seqNo, |m.payload|) + m.payload
  }

  function Frame(m: Message, seqNo: nat): (f: seq<byte>)
    ensures |f| == HEADER_SIZE + |m.payload| + CRC_SIZE
  {
    Body(m, seqNo) + LittleEndian(Crc32.Crc(Body(m, seqNo)), 4)
  }

  /** What the front of the receive buffer turns out to be. */
  datatype Parsed =
    | NeedMore
    | BadMagic
    | TooLong
    | BadCrc(rest: seq<byte>)
    | Got(msg: Message, rest: seq<byte>)

  function MagicOf(buf: seq<byte>): nat
    requires |buf| >= HEADER_SIZE
  {
    FromLittleEndian(buf[0..2])
  }

  function LengthOf(buf: seq<byte>): nat
    requires |buf| >= HEADER_SIZE
  {
    FromLittleEndian(buf[7..11])
  }

  function Parse(buf: seq<byte>): Parsed {
    if |buf| < HEADER_SIZE then NeedMore
    else if MagicOf(buf) != PROTOCOL_MAGIC then BadMagic
    else if LengthOf(buf) > MAX_PAYLOAD then TooLong
    else
      var body := HEADER_SIZE + LengthOf(buf);
      var total := body + CRC_SIZE;
      if |buf| < total then NeedMore
      else if FromLittleEndian(buf[body..total]) != Crc32.Crc(buf[..body]) then BadCrc(buf[total..])
      else Got(Message(buf[2], buf[HEADER_SIZE..body]), buf[total..])
  }

  // ---------------------------------------------------------------------------
  // Receiving
  // ---------------------------------------------------------------------------

  /** What one `recv` call of the operating system does. */
  datatype Read =
    | Ready(count: nat)      // up to `count` bytes are available
    | WouldBlock             // the receive timeout elapsed
    | Interrupted            // a signal arrived: try again
    | Shutdown               // the peer closed the connection
    | Broken                 // any other error

  datatype Status = GotMsg(msg: Message) | Timeout | Closed

  /** The receive side: the buffered bytes and the bytes still in the network. */
  datatype Channel = Channel(buffer: seq<byte>, wire: seq<byte>)

  /** Number of bytes a read delivers. */
  function Delivered(c: Channel, count: nat): (n: nat)
    ensures n <= |c.wire|
  {
    Min(count, Min(READ_SIZE, |c.wire|))
  }

  /** One `recvMsg` call against a schedule of reads.  When the schedule ends the call is still
      waiting, which the caller sees as a timeout. */
  function Receive(c: Channel, schedule: seq<Read>): (Status, Channel)
    decreases |schedule|
  {
    match Parse(c.buffer)
    case Got(msg, rest) => (GotMsg(msg), c.(buffer := rest))
    case BadCrc(rest) => (Timeout, c.(buffer := rest))
    case BadMagic => (Timeout, c.(buffer := []))
    case TooLong => (Timeout, c.(buffer := []))
    case NeedMore =>
      if |schedule| == 0 then (Timeout, c)
      else match schedule[0]
           case Interrupted => Receive(c, schedule[1..])
           case WouldBlock => (Timeout, c)
           case Shutdown => (Closed, c)
           case Broken => (Closed, c)
           case Ready(count) =>
             var n := Delivered(c, count);
             if n == 0 then (Timeout, c)
             else Receive(Channel(c.buffer + c.wire[..n], c.wire[n..]), schedule[1..])
  }

  /** A signal makes the call try again, a timeout leaves everything in place, and the connection
      counts as closed only after the peer closed it or an error. */
  lemma {:induction false} ReadOutcomes(c: Channel, schedule: seq<Read>)
    ensures Receive(c, [Interrupted] + schedule) == Receive(c, schedule)
    ensures Parse(c.buffer) == NeedMore ==>
              && Receive(c, [WouldBlock] + schedule) == (Timeout, c)
              && Receive(c, [Shutdown] + schedule) == (Closed, c)
              && Receive(c, [Broken] + schedule) == (Closed, c)
    ensures Shutdown !in schedule && Broken !in schedule ==> Receive(c, schedule).0 != Closed
    decreases |schedule|
  {
    hide Parse;
    assert ([Interrupted] + schedule)[1..] == schedule;
    if Shutdown !in schedule && Broken !in schedule && |schedule| > 0 {
      match schedule[0]
      case Interrupted => ReadOutcomes(c, schedule[1..]);
      case Ready(count) =>
        var n := Delivered(c, count);
        ReadOutcomes(Channel(c.buffer + c.wire[..n], c.wire[n..]), schedule[1..]);
      case _ =>
    }
  }

  /** Calls `recvMsg` once per schedule and collects the messages. */
  function ReceiveAll(c: Channel, calls: seq<seq<Read>>): (seq<Message>, Channel)
    decreases |calls|
  {
    if |calls| == 0 then ([], c)
    else
      var (status, c') := Receive(c, calls[0]);
      var (rest, c'') := ReceiveAll(c', calls[1..]);
      (if status.GotMsg? then [status.msg] + rest else rest, c'')
  }

  // ---------------------------------------------------------------------------
  // Frames on the wire, possibly with one damaged byte
  // ---------------------------------------------------------------------------

  datatype Damage = Intact | Damaged(pos: nat, value: byte)

  datatype Item = Item(msg: Message, seqNo: nat, damage: Damage) {
    /** The receiver does not reject the length, and damage hits no byte that delimits the
        frame. */
    ghost predicate Ok() {
      && |msg.payload| <= MAX_PAYLOAD
      && seqNo < WORD32
      && (damage.Damaged? ==>
            && 2 <= damage.pos < HEADER_SIZE + |msg.payload| + CRC_SIZE
            && !(7 <= damage.pos < HEADER_SIZE)
            && Frame(msg, seqNo)[damage.pos] != damage.value)
    }

    ghost function Wire(): (w: seq<byte>)
      requires Ok()
      ensures |w| == HEADER_SIZE + |msg.payload| + CRC_SIZE
    {
      if damage.Intact? then Frame(msg, seqNo)
      else Frame(msg, seqNo)[damage.pos := damage.value]
    }
  }

  ghost predicate AllOk(items: seq<Item>) {
    forall i :: 0 <= i < |items| ==> items[i].Ok()
  }

  ghost function Stream(items: seq<Item>): seq<byte>
    requires AllOk(items)
  {
    if |items| == 0 then [] else items[0].Wire() + Stream(items[1..])
  }

  /** The messages whose frames arrive undamaged. */
  ghost function IntactMessages(items: seq<Item>): seq<Message> {
    if |items| == 0 then []
    else (if items[0].damage.Intact? then [items[0].msg] else []) + IntactMessages(items[1..])
  }

  lemma HeaderFields(kind: byte, seqNo: nat, len: nat)
    requires seqNo < WORD32 && len < WORD32
    ensures var h := Header(kind, seqNo, len);
            && FromLittleEndian(h[0..2]) == PROTOCOL_MAGIC
            && h[2] == kind
            && FromLittleEndian(h[7..11]) == len
  {
    var h := Header(kind, seqNo, len);
    Pow256Values();
    assert h[0..2] == LittleEndian(PROTOCOL_MAGIC, 2);
    assert h[7..11] == LittleEndian(len, 4);
    LittleEndianRoundTrip(PROTOCOL_MAGIC, 2);
    LittleEndianRoundTrip(len, 4);
  }

  lemma FrameStart(m: Message, seqNo: nat)
    ensures Frame(m, seqNo)[..HEADER_SIZE] == Header(m.kind, seqNo, |m.payload|)
  {
    hide LittleEndian, Crc32.Crc;
  }

  /** Where everything stands in a frame. */
  lemma FrameLayout(m: Message, seqNo: nat)
    requires seqNo < WORD32 && |m.payload| < WORD32
    ensures var (f, body) := (Frame(m, seqNo), 11 + |m.payload|);
            && |f| == body + 4
            && f[0] == 0x52 && f[1] == 0x4D && f[2] == m.kind
            && FromLittleEndian(f[3..7]) == seqNo
            && FromLittleEndian(f[7..11]) == |m.payload|
            && f[11..body] == m.payload
            && FromLittleEndian(f[body..]) == Crc32.Crc(f[..body])
  {
    HeaderLayout(m.kind, seqNo, |m.payload|);
    hide FromLittleEndian, LittleEndian, Header;
    var f, h, b := Frame(m, seqNo), Header(m.kind, seqNo, |m.payload|), Body(m, seqNo);
    var body := 11 + |m.payload|;
    FrameStart(m, seqNo);
    assert forall k :: 0 <= k < 11 ==> f[k] == f[..HEADER_SIZE][k] == h[k];
    assert f[3..7] == h[3..7] && f[7..11] == h[7..11];
    assert f[..body] == b && f[body..] == LittleEndian(Crc32.Crc(b), 4);
    Crc32.CrcWord(b);
    Pow256Values();
    LittleEndianRoundTrip(Crc32.Crc(b), 4);
  }

  lemma HeaderLayout(kind: byte, seqNo: nat, len: nat)
    requires seqNo < WORD32 && len < WORD32
    ensures var h := Header(kind, seqNo, len);
            && h[0] == 0x52 && h[1] == 0x4D && h[2] == kind
            && FromLittleEndian(h[3..7]) == seqNo && FromLittleEndian(h[7..11]) == len
  {
    var h := Header(kind, seqNo, len);
    HeaderFields(kind, seqNo, len);
    Pow256Values();
    assert h[3..7] == LittleEndian(seqNo, 4);
    LittleEndianRoundTrip(seqNo, 4);
    var magic := LittleEndian(PROTOCOL_MAGIC, 2);
    assert h[0] == magic[0] && h[1] == magic[1];
    assert LittleEndian(0x4D, 1)[0] == 0x4D;
  }

  /** Damage outside the delimiting bytes leaves magic and length readable. */
  lemma ItemHeader(it: Item, buf: seq<byte>)
    requires it.Ok() && |buf| >= HEADER_SIZE
    requires buf[..HEADER_SIZE] == it.Wire()[..HEADER_SIZE]
    ensures MagicOf(buf) == PROTOCOL_MAGIC && LengthOf(buf) == |it.msg.payload|
    ensures it.damage.Intact? ==> buf[2] == it.msg.kind
  {
    hide FromLittleEndian, LittleEndian, Frame, Header;
    var f := Frame(it.msg, it.seqNo);
    var h := Header(it.msg.kind, it.seqNo, |it.msg.payload|);
    FrameStart(it.msg, it.seqNo);
    HeaderFields(it.msg.kind, it.seqNo, |it.msg.payload|);
    var w := it.Wire();
    assert forall k :: 0 <= k < 2 || 7 <= k < 11 ==> w[k] == f[k] == h[k];
    assert buf[0..2] == buf[..HEADER_SIZE][0..2] == h[0..2];
    assert buf[7..11] == buf[..HEADER_SIZE][7..11] == h[7..11];
  }

  /** An intact frame has a matching checksum, a damaged one does not. */
  lemma ItemChecksum(it: Item)
    requires it.Ok()
    ensures var w, body := it.Wire(), HEADER_SIZE + |it.msg.payload|;
            FromLittleEndian(w[body..]) == Crc32.Crc(w[..body]) <==> it.damage.Intact?
  {
    hide FromLittleEndian, LittleEndian;
    var b, body := Body(it.msg, it.seqNo), HEADER_SIZE + |it.msg.payload|;
    var f, w := Frame(it.msg, it.seqNo), it.Wire();
    var crc := LittleEndian(Crc32.Crc(b), 4);
    assert f[..body] == b && f[body..] == crc;
    Crc32.CrcWord(b);
    Pow256Values();
    LittleEndianRoundTrip(Crc32.Crc(b), 4);
    if it.damage.Damaged? {
      var p, v := it.damage.pos, it.damage.value;
      if p < body {
        assert w[..body] == b[p := v] && w[body..] == crc;
        Crc32.OneByteChangesCrc(b, p, v);
      } else {
        assert w[..body] == b && w[body..] == crc[p - body := v];
        if FromLittleEndian(w[body..]) == FromLittleEndian(crc) {
          FromLittleEndianInjective(w[body..], crc);
        }
      }
    }
  }

  /** A complete frame at the front of the buffer is taken off whole. */
  lemma ParseItem(it: Item, rest: seq<byte>)
    requires it.Ok()
    ensures Parse(it.Wire() + rest) ==
            if it.damage.Intact? then Got(it.msg, rest) else BadCrc(rest)
  {
    hide FromLittleEndian, LittleEndian, Crc32.Crc;
    var w, body := it.Wire(), HEADER_SIZE + |it.msg.payload|;
    var buf := w + rest;
    assert buf[..HEADER_SIZE] == w[..HEADER_SIZE];
    ItemHeader(it, buf);
    ItemChecksum(it);
    assert buf[body..body + CRC_SIZE] == w[body..] && buf[..body] == w[..body];
    assert buf[body + CRC_SIZE..] == rest;
    if it.damage.Intact? {
      assert buf[HEADER_SIZE..body] == it.msg.payload;
    }
  }

  /** An incomplete frame asks for more bytes. */
  lemma ParsePartial(it: Item, buf: seq<byte>)
    requires it.Ok() && buf < it.Wire()
    ensures Parse(buf) == NeedMore
  {
    hide FromLittleEndian, LittleEndian, Crc32.Crc;
    if |buf| >= HEADER_SIZE {
      assert buf[..HEADER_SIZE] == it.Wire()[..HEADER_SIZE];
      ItemHeader(it, buf);
    }
  }

  // ---------------------------------------------------------------------------
  // Delivery
  // ---------------------------------------------------------------------------

  /** The buffer and the wire together hold exactly the frames not yet taken off. */
  ghost predicate Holds(c: Channel, items: seq<Item>) {
    AllOk(items) && c.buffer + c.wire == Stream(items)
  }

  lemma FrontItem(c: Channel, items: seq<Item>)
    requires Holds(c, items) && |items| > 0
    ensures Parse(c.buffer) == NeedMore
            || (|c.buffer| >= |items[0].Wire()|
                && Parse(c.buffer) == (var rest := c.buffer[|items[0].Wire()|..];
                     if items[0].damage.Intact? then Got(items[0].msg, rest) else BadCrc(rest))
                && Holds(c.(buffer := c.buffer[|items[0].Wire()|..]), items[1..]))
  {
    hide Parse, Stream, Item.Ok, Item.Wire;
    var it := items[0];
    var w := it.Wire();
    var s := c.buffer + c.wire;
    StreamCons(items);
    if |c.buffer| < |w| {
      assert c.buffer == s[..|c.buffer|] == w[..|c.buffer|];
      ParsePartial(it, c.buffer);
    } else {
      var rest := c.buffer[|w|..];
      assert c.buffer[..|w|] == s[..|w|] == w;
      assert c.buffer == w + rest;
      ParseItem(it, rest);
      assert rest + c.wire == s[|w|..] == Stream(items[1..]);
    }
  }

  lemma NoItems(c: Channel)
    requires Holds(c, [])
    ensures c.buffer == [] && c.wire == [] && Parse(c.buffer) == NeedMore
  {
    assert |c.buffer + c.wire| == 0;
  }

  /** One call either takes nothing off, or takes off the front frame: it returns its message
      if the frame is intact and reports a timeout if it is damaged. */
  lemma {:induction false} ReceiveOne(c: Channel, items: seq<Item>, schedule: seq<Read>)
    requires Holds(c, items)
    ensures var (status, c') := Receive(c, schedule);
            || (!status.GotMsg? && Holds(c', items))
            || (|items| > 0 && Holds(c', items[1..])
                && status == if items[0].damage.Intact? then GotMsg(items[0].msg) else Timeout)
    decreases |schedule|
  {
    hide Parse, Holds;
    if |items| == 0 {
      NoItems(c);
    } else {
      FrontItem(c, items);
    }
    if Parse(c.buffer).NeedMore? && |schedule| > 0 {
      match schedule[0]
      case Interrupted => ReceiveOne(c, items, schedule[1..]);
      case Ready(count) =>
        var n := Delivered(c, count);
        if n > 0 {
          var c1 := Channel(c.buffer + c.wire[..n], c.wire[n..]);
          ReadKeeps(c, items, n);
          ReceiveOne(c1, items, schedule[1..]);
        }
      case _ =>
    }
  }

  lemma ReadKeeps(c: Channel, items: seq<Item>, n: nat)
    requires Holds(c, items) && n <= |c.wire|
    ensures Holds(Channel(c.buffer + c.wire[..n], c.wire[n..]), items)
  {
    assert (c.buffer + c.wire[..n]) + c.wire[n..] == c.buffer + c.wire;
  }

  /** For every list of frames, every way of splitting the stream into reads and every timeout
      in between, the calls deliver the intact messages of some first part of the list, in
      order, and the rest of the list is still to come. */
  lemma {:induction false} DeliveredInOrder(c: Channel, items: seq<Item>, calls: seq<seq<Read>>)
    returns (k: nat)
    requires Holds(c, items)
    ensures k <= |items|
    ensures var (msgs, c') := ReceiveAll(c, calls);
            msgs == IntactMessages(items[..k]) && Holds(c', items[k..])
    decreases |calls|
  {
    hide Holds, Receive;
    if |calls| == 0 {
      k := 0;
      assert items[0..] == items;
    } else {
      var (status, c1) := Receive(c, calls[0]);
      ReceiveOne(c, items, calls[0]);
      if !status.GotMsg? && Holds(c1, items) {
        k := DeliveredInOrder(c1, items, calls[1..]);
      } else {
        var j := DeliveredInOrder(c1, items[1..], calls[1..]);
        k := j + 1;
        assert items[..k][1..] == items[1..][..j] && items[..k][0] == items[0];
        assert items[k..] == items[1..][j..];
      }
    }
  }

  /** If in the end the wire is empty and the receiver waits for more, then every intact
      message was delivered. */
  lemma AllDelivered(c: Channel, items: seq<Item>, calls: seq<seq<Read>>)
    requires Holds(c, items)
    requires ReceiveAll(c, calls).1.wire == []
    requires Parse(ReceiveAll(c, calls).1.buffer) == NeedMore
    ensures ReceiveAll(c, calls).0 == IntactMessages(items)
  {
    hide Parse, Receive, ReceiveAll;
    var k := DeliveredInOrder(c, items, calls);
    var c' := ReceiveAll(c, calls).1;
    if k < |items| {
      var left := items[k..];
      FrontItem(c', left);
      assert c'.buffer == c'.buffer + c'.wire == left[0].Wire() + Stream(left[1..]);
      ParseItem(left[0], Stream(left[1..]));
    }
    assert items[..k] == items;
  }

  // ---------------------------------------------------------------------------
  // From the sender's side
  // ---------------------------------------------------------------------------

  /** The bytes of a list of messages sent under consecutive sequence numbers. */
  function SentBytes(msgs: seq<Message>, seqNo: nat): seq<byte> {
    if |msgs| == 0 then []
    else Frame(msgs[0], seqNo) + SentBytes(msgs[1..], (seqNo + 1) % WORD32)
  }

  /** The payloads are those the receiver accepts; the sender takes every 32-bit length. */
  ghost predicate AllReceivable(msgs: seq<Message>) {
    forall i :: 0 <= i < |msgs| ==> |msgs[i].payload| <= MAX_PAYLOAD
  }

  /** Sending one more message extends the stream by its frame. */
  lemma {:induction false} SendExtends(msgs: seq<Message>, m: Message, seqNo: nat)
    requires seqNo < WORD32
    ensures SentBytes(msgs + [m], seqNo) ==
            SentBytes(msgs, seqNo) + Frame(m, (seqNo + |msgs|) % WORD32)
    decreases |msgs|
  {
    hide Frame;
    if |msgs| == 0 {
      assert [m][1..] == [];
      assert msgs + [m] == [m];
      assert SentBytes([], (seqNo + 1) % WORD32) == [];
    } else {
      var next := (seqNo + 1) % WORD32;
      SendExtends(msgs[1..], m, next);
      assert (msgs + [m])[1..] == msgs[1..] + [m];
      NextSeq(seqNo, |msgs|);
    }
  }

  ghost function Outgoing(msgs: seq<Message>, seqNo: nat): seq<Item>
    requires seqNo < WORD32
  {
    if |msgs| == 0 then []
    else [Item(msgs[0], seqNo, Intact)] + Outgoing(msgs[1..], (seqNo + 1) % WORD32)
  }

  lemma OutgoingNone(seqNo: nat)
    requires seqNo < WORD32
    ensures Outgoing([], seqNo) == [] && Stream([]) == []
  {
  }

  lemma OutgoingFirst(msgs: seq<Message>, seqNo: nat)
    requires seqNo < WORD32 && |msgs| > 0
    ensures var items := Outgoing(msgs, seqNo);
            && |items| > 0 && items[0] == Item(msgs[0], seqNo, Intact)
            && items[1..] == Outgoing(msgs[1..], (seqNo + 1) % WORD32)
  {
  }

  lemma {:induction false} OutgoingItems(msgs: seq<Message>, seqNo: nat)
    requires seqNo < WORD32 && AllReceivable(msgs)
    ensures AllOk(Outgoing(msgs, seqNo))
    ensures IntactMessages(Outgoing(msgs, seqNo)) == msgs
    ensures Stream(Outgoing(msgs, seqNo)) == SentBytes(msgs, seqNo)
    decreases |msgs|
  {
    hide Frame, Stream, Outgoing;
    if |msgs| == 0 {
      OutgoingNone(seqNo);
    } else {
      OutgoingItems(msgs[1..], (seqNo + 1) % WORD32);
      OutgoingFirst(msgs, seqNo);
      StreamCons(Outgoing(msgs, seqNo));
      assert msgs == [msgs[0]] + msgs[1..];
    }
  }

  /** No call returns a message above the cap, whatever is on the wire. */
  lemma {:induction false} ReceivedFits(c: Channel, schedule: seq<Read>)
    requires Receive(c, schedule).0.GotMsg?
    ensures |Receive(c, schedule).0.msg.payload| <= MAX_PAYLOAD
    decreases |schedule|
  {
    ParsedFits(c.buffer);
    hide Parse;
    if Parse(c.buffer).NeedMore? && |schedule| > 0 {
      match schedule[0]
      case Interrupted => ReceivedFits(c, schedule[1..]);
      case Ready(count) =>
        var n := Delivered(c, count);
        if n > 0 {
          ReceivedFits(Channel(c.buffer + c.wire[..n], c.wire[n..]), schedule[1..]);
        }
      case _ =>
    }
  }

  lemma ParsedFits(buf: seq<byte>)
    ensures Parse(buf).Got? ==> |Parse(buf).msg.payload| <= MAX_PAYLOAD
  {
    hide FromLittleEndian, Crc32.Crc;
  }

  lemma {:induction false} AllReceivedFit(c: Channel, calls: seq<seq<Read>>)
    ensures AllReceivable(ReceiveAll(c, calls).0)
    decreases |calls|
  {
    hide Receive;
    if |calls| > 0 {
      if Receive(c, calls[0]).0.GotMsg? {
        ReceivedFits(c, calls[0]);
      }
      AllReceivedFit(Receive(c, calls[0]).1, calls[1..]);
    }
  }

  /** Everything was read, and the receiver waits for more. */
  ghost predicate Drained(c: Channel) {
    c.wire == [] && Parse(c.buffer) == NeedMore
  }

  lemma ParsedShrinks(buf: seq<byte>)
    ensures var p := Parse(buf);
            && (p.Got? || p.BadCrc? ==> |p.rest| < |buf|)
            && (p != NeedMore ==> |buf| > 0)
  {
    hide FromLittleEndian, Crc32.Crc;
  }

  /** From every state, whatever is buffered and on the wire, enough calls drain the channel. */
  lemma {:induction false} CanDrain(c: Channel) returns (calls: seq<seq<Read>>)
    ensures Drained(ReceiveAll(c, calls).1)
    decreases 2 * |c.wire| + |c.buffer|
  {
    ParsedShrinks(c.buffer);
    hide Parse;
    if Drained(c) {
      calls := [];
    } else {
      var schedule := if Parse(c.buffer) == NeedMore then [Ready(READ_SIZE)] else [];
      var c' := Receive(c, schedule).1;
      if Parse(c.buffer) == NeedMore {
        var n := Delivered(c, READ_SIZE);
        var c1 := Channel(c.buffer + c.wire[..n], c.wire[n..]);
        assert schedule[1..] == [];
        assert Receive(c, schedule) == Receive(c1, []);
        ParsedShrinks(c1.buffer);
      }
      var rest := CanDrain(c');
      calls := [schedule] + rest;
      assert calls[1..] == rest;
    }
  }

  /** Once the channel is drained, exactly the sent messages have been delivered, once and in
      order, if and only if none is above the cap of the receiver. */
  lemma SentIsDelivered(msgs: seq<Message>, seqNo: nat, calls: seq<seq<Read>>)
    requires seqNo < WORD32
    requires Drained(ReceiveAll(Channel([], SentBytes(msgs, seqNo)), calls).1)
    ensures ReceiveAll(Channel([], SentBytes(msgs, seqNo)), calls).0 == msgs <==>
            AllReceivable(msgs)
  {
    hide Parse, ReceiveAll;
    var c := Channel([], SentBytes(msgs, seqNo));
    AllReceivedFit(c, calls);
    if AllReceivable(msgs) {
      OutgoingItems(msgs, seqNo);
      var items := Outgoing(msgs, seqNo);
      assert c.buffer + c.wire == Stream(items);
      AllDelivered(c, items, calls);
    }
  }

  /** For every list of messages the sender takes: some calls deliver exactly that list if and
      only if no payload is above the cap. */
  lemma DeliverableIff(msgs: seq<Message>, seqNo: nat)
    requires seqNo < WORD32
    ensures (exists calls :: ReceiveAll(Channel([], SentBytes(msgs, seqNo)), calls).0 == msgs)
            <==> AllReceivable(msgs)
  {
    hide AllReceivable, Drained, ReceiveAll;
    var c := Channel([], SentBytes(msgs, seqNo));
    if calls :| ReceiveAll(c, calls).0 == msgs {
      AllReceivedFit(c, calls);
    }
    var calls := CanDrain(c);
    SentIsDelivered(msgs, seqNo, calls);
  }

  /** The sender frames a message above the cap like any other; the receiver drops all it has
      buffered when it sees the length. */
  lemma OversizeClearsBuffer(m: Message, seqNo: nat, rest: seq<byte>, c: Channel,
                             schedule: seq<Read>)
    requires seqNo < WORD32 && MAX_PAYLOAD < |m.payload| < WORD32
    requires c.buffer + c.wire == Frame(m, seqNo) + rest && |c.buffer| >= HEADER_SIZE
    ensures Receive(c, schedule) == (Timeout, c.(buffer := []))
  {
    hide FromLittleEndian, LittleEndian, Crc32.Crc;
    var h, f := Header(m.kind, seqNo, |m.payload|), Frame(m, seqNo) + rest;
    FrameStart(m, seqNo);
    assert f[..HEADER_SIZE] == h;
    assert c.buffer[..HEADER_SIZE] == f[..HEADER_SIZE];
    assert c.buffer[0..2] == h[0..2] && c.buffer[7..11] == h[7..11];
    HeaderFields(m.kind, seqNo, |m.payload|);
  }

  lemma NextSeq(seqNo: nat, n: nat)
    requires seqNo < WORD32 && n > 0
    ensures ((seqNo + 1) % WORD32 + (n - 1)) % WORD32 == (seqNo + n) % WORD32
  {
    if seqNo + 1 == WORD32 {
      assert seqNo + n == WORD32 + (n - 1);
    }
  }

  lemma StreamCons(items: seq<Item>)
    requires AllOk(items) && |items| > 0
    ensures Stream(items) == items[0].Wire() + Stream(items[1..])
  {
  }

  // ---------------------------------------------------------------------------
  // The socket
  // ---------------------------------------------------------------------------

  /** One end of a connection: what it has sent, what it has buffered, what is still to be
      read. */
  class TcpSocket {
    var sendSeq: nat
    var sent: seq<byte>
    var recvBuf: seq<byte>
    var inbound: seq<byte>
    var table: seq<nat>

    ghost predicate Valid()
      reads this
    {
      sendSeq < WORD32 && Crc32.TableOk(table)
    }

    constructor (inbound: seq<byte>)
      ensures Valid()
      ensures sendSeq == 0 && sent == [] && recvBuf == [] && this.inbound == inbound
    {
      sendSeq, sent, recvBuf, this.inbound := 0, [], [], inbound;
      table := [];
      new;
      table := Crc32.InitTable();
    }

    /** Sends one frame under the next sequence number. */
    method SendMsg(kind: byte, payload: seq<byte>)
      requires Valid()
      modifies this`sendSeq, this`sent
      ensures Valid()
      ensures sent == old(sent) + Frame(Message(kind, payload), old(sendSeq))
      ensures sendSeq == (old(sendSeq) + 1) % WORD32
    {
      var header := Header(kind, sendSeq, |payload|);
      sendSeq := (sendSeq + 1) % WORD32;
      var frame := header + payload;
      var crc := Crc32.ComputeCRC32(table, frame);
      sent := sent + (frame + LittleEndian(crc, CRC_SIZE));
    }

    /** Looks at the front of the buffer. */
    method ParseBuffer() returns (p: Parsed)
      requires Valid()
      ensures p == Parse(recvBuf)
    {
      hide FromLittleEndian, Crc32.Crc;
      if |recvBuf| < HEADER_SIZE {
        return NeedMore;
      }
      if FromLittleEndian(recvBuf[0..2]) != PROTOCOL_MAGIC {
        return BadMagic;
      }
      var len := FromLittleEndian(recvBuf[7..11]);
      if len > MAX_PAYLOAD {
        return TooLong;
      }
      var body := HEADER_SIZE + len;
      var total := body + CRC_SIZE;
      if |recvBuf| < total {
        return NeedMore;
      }
      var crc := Crc32.ComputeCRC32(table, recvBuf[..body]);
      if FromLittleEndian(recvBuf[body..total]) != crc {
        return BadCrc(recvBuf[total..]);
      }
      return Got(Message(recvBuf[2], recvBuf[HEADER_SIZE..body]), recvBuf[total..]);
    }

    /** Receives one message; bytes of incomplete frames stay buffered across calls. */
    method RecvMsg(schedule: seq<Read>) returns (status: Status)
      requires Valid()
      modifies this`recvBuf, this`inbound
      ensures Valid()
      ensures var (s, c) := Receive(old(Channel(recvBuf, inbound)), schedule);
              status == s && recvBuf == c.buffer && inbound == c.wire
    {
      var i := 0;
      while true
        invariant 0 <= i <= |schedule|
        invariant Receive(Channel(recvBuf, inbound), schedule[i..])
                  == Receive(old(Channel(recvBuf, inbound)), schedule)
        decreases |schedule| - i
      {
        var p := ParseBuffer();
        match p {
          case Got(msg, rest) =>
            recvBuf := rest;
            return GotMsg(msg);
          case BadCrc(rest) =>
            recvBuf := rest;
            return Timeout;
          case BadMagic =>
            recvBuf := [];
            return Timeout;
          case TooLong =>
            recvBuf := [];
            return Timeout;
          case NeedMore =>
        }
        if i == |schedule| {
          return Timeout;
        }
        assert schedule[i..][0] == schedule[i] && schedule[i..][1..] == schedule[i + 1..];
        match schedule[i] {
          case Interrupted =>
          case WouldBlock => return Timeout;
          case Shutdown => return Closed;
          case Broken => return Closed;
          case Ready(count) =>
            var n := Min(count, Min(READ_SIZE, |inbound|));
            if n == 0 {
              return Timeout;
            }
            recvBuf := recvBuf + inbound[..n];
            inbound := inbound[n..];
        }
        i := i + 1;
      }
    }
  }
}
