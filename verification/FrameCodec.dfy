/** The bytes of a frame and reading them back; reassembly of packets; streaming. */
module FrameCodec {
  import opened Options
  import opened Rlp
  import opened Frames

  // ---------- Writing a frame ----------

  /** What the header and the body of a frame can carry. */
  predicate Encodes(f: Frame) {
    && f.pid < 0x1_0000 && f.sid < 0x1_0000 && f.cmd < 256
    && (f.total.Some? ==> f.total.value < 0x1_0000_0000)
    && BodySize(f) < 0x100_0000
  }

  function SizeBytes(n: nat): (s: seq<Byte>)
    requires n < 0x100_0000
    ensures |s| == 3
  {
    [n / 0x1_0000, n / 0x100 % 0x100, n % 0x100]
  }

  function HeaderFields(f: Frame): seq<nat> {
    [f.pid, f.sid] + if f.total.Some? then [f.total.value] else []
  }

  /** Any header data fits behind the three size bytes of a 16-byte header. */
  lemma HeaderFits(f: Frame)
    requires Encodes(f)
    ensures Encodable(HeaderFields(f)) && |EncodeInts(HeaderFields(f))| <= 11
  {
    EncodeIntLength(f.pid, 2);
    EncodeIntLength(f.sid, 2);
    var tail := if f.total.Some? then [f.total.value] else [];
    if f.total.Some? {
      EncodeIntLength(f.total.value, 4);
      IntsPrepend(f.total.value, []);
      assert tail == [f.total.value] + [];
    }
    IntsPrepend(f.sid, tail);
    IntsPrepend(f.pid, [f.sid] + tail);
    assert HeaderFields(f) == [f.pid] + ([f.sid] + tail);
  }

  lemma IntsPrepend(n: nat, ns: seq<nat>)
    requires Encodable([n] + ns) && Encodable(ns)
    ensures EncodeInts([n] + ns) == EncodeInt(n) + EncodeInts(ns)
  {
    assert ([n] + ns)[1..] == ns;
  }

  function Header(f: Frame): (s: seq<Byte>)
    requires Encodes(f)
    ensures |s| == HEADER_SIZE
  {
    HeaderFits(f);
    var data := SizeBytes(BodySize(f)) + EncodeList(HeaderFields(f));
    data + Zeros(HEADER_SIZE - |data|)
  }

  function Body(f: Frame): (s: seq<Byte>)
    ensures |s| == Ceil16(BodySize(f))
  {
    EncodedCmd(f) + f.payload + Zeros(Ceil16(BodySize(f)) - BodySize(f))
  }

  function FrameBytes(f: Frame): (s: seq<Byte>)
    requires Encodes(f)
    ensures |s| == FrameSize(f)
  {
    Header(f) + Zeros(MAC_SIZE) + Body(f) + Zeros(MAC_SIZE)
  }

  // ---------- Reading a frame ----------

  const PREFIX := HEADER_SIZE + MAC_SIZE

  function SizeIn(header: seq<Byte>): nat
    requires |header| >= 3
  {
    (header[0] as int) * 0x1_0000 + (header[1] as int) * 0x100 + header[2] as int
  }

  function RequiredLength(buffer: seq<Byte>): (n: nat)
    requires |buffer| >= PREFIX
    ensures n >= PREFIX + MAC_SIZE
  {
    PREFIX + Ceil16(SizeIn(buffer[..HEADER_SIZE])) + MAC_SIZE
  }

  predicate HasFrame(buffer: seq<Byte>) {
    |buffer| >= PREFIX && |buffer| >= RequiredLength(buffer)
  }

  /** The header fields and the body of a frame as read from the wire. */
  datatype Parsed = Parsed(pid: nat, sid: Option<nat>, total: Option<nat>, body: seq<Byte>)

  function ParseFrame(buffer: seq<Byte>): Option<Parsed>
    requires HasFrame(buffer)
  {
    var header := buffer[..HEADER_SIZE];
    match DecodeList(header[3..])
    case None => None
    case Some(fields) =>
      if |fields| == 0 || fields[0] >= 0x1_0000 then None
      else if |fields| > 1 && fields[1] >= 0x1_0000 then None
      else if |fields| > 2 && fields[2] >= 0x1_0000_0000 then None
      else
        Some(Parsed(fields[0],
                    if |fields| > 1 then Some(fields[1]) else None,
                    if |fields| > 2 then Some(fields[2]) else None,
                    buffer[PREFIX..PREFIX + SizeIn(header)]))
  }

  function ParsedFrame(f: Frame): Parsed {
    Parsed(f.pid, Some(f.sid), f.total, EncodedCmd(f) + f.payload)
  }

  lemma SizeRoundTrip(n: nat, rest: seq<Byte>)
    requires n < 0x100_0000
    ensures SizeIn(SizeBytes(n) + rest) == n
  {
  }

  /** A frame read back from the start of a buffer: all header fields and the body, and its length. */
  lemma FrameRoundTrip(f: Frame, rest: seq<Byte>)
    requires Encodes(f)
    ensures var buffer := FrameBytes(f) + rest;
            HasFrame(buffer) && RequiredLength(buffer) == FrameSize(f) && ParseFrame(buffer) == Some(ParsedFrame(f))
  {
    var buffer := FrameBytes(f) + rest;
    var header := Header(f);
    assert buffer[..HEADER_SIZE] == header;
    HeaderRoundTrip(f);
    var body := EncodedCmd(f) + f.payload;
    assert Body(f)[..BodySize(f)] == body;
    assert buffer[PREFIX..PREFIX + BodySize(f)] == body;
  }

  lemma HeaderRoundTrip(f: Frame)
    requires Encodes(f)
    ensures SizeIn(Header(f)) == BodySize(f) && DecodeList(Header(f)[3..]) == Some(HeaderFields(f))
  {
    HeaderFits(f);
    var size, data := SizeBytes(BodySize(f)), EncodeList(HeaderFields(f));
    var pad := Zeros(HEADER_SIZE - |size + data|);
    assert Header(f) == size + (data + pad);
    assert Header(f)[3..] == data + pad;
    SizeRoundTrip(BodySize(f), data + pad);
    ListRoundTrip(HeaderFields(f), pad);
  }

  // ---------- Reassembly ----------

  /** A packet whose frames are still coming in. */
  datatype Partial = Partial(cmd: nat, payload: seq<Byte>, total: nat)

  /** Per protocol, the packets being reassembled, by sequence id. */
  type Buffers = map<nat, map<nat, Partial>>

  datatype Outcome = Fault | Done(bufs: Buffers, packet: Option<Packet>)

  /** A frame for a packet that is being reassembled. */
  function Extend(bufs: Buffers, f: Parsed, sid: nat): Outcome
    requires f.pid in bufs && sid in bufs[f.pid]
  {
    var partial := bufs[f.pid][sid];
    var payload := partial.payload + f.body;
    if f.total.Some? || |payload| > partial.total then Fault
    else if |payload| == partial.total then
      Done(bufs[f.pid := bufs[f.pid] - {sid}], Some(Packet(f.pid, partial.cmd, payload)))
    else
      var slots: map<nat, Partial> := bufs[f.pid][sid := partial.(payload := payload)];
      Done(bufs[f.pid := slots], None)
  }

  /** A whole packet, or the first frame of one. */
  function Begin(bufs: Buffers, f: Parsed): Outcome
    requires f.pid in bufs
  {
    match ConsumeInt(f.body)
    case None => Fault
    case Some((cmd, end)) =>
      var payload := f.body[end..];
      if f.total == None then Done(bufs, Some(Packet(f.pid, cmd, payload)))
      else if f.total.value < end + |payload| then Fault
      else if f.total.value == end + |payload| then Done(bufs, Some(Packet(f.pid, cmd, payload)))
      else if f.sid == None then Fault
      else
        var slots: map<nat, Partial> := bufs[f.pid][f.sid.value := Partial(cmd, payload, f.total.value - end)];
        Done(bufs[f.pid := slots], None)
  }

  function Reassemble(bufs: Buffers, f: Parsed): Outcome {
    if f.pid !in bufs then Fault
    else if f.sid.Some? && f.sid.value in bufs[f.pid] then Extend(bufs, f, f.sid.value)
    else Begin(bufs, f)
  }

  // ---------- Streaming ----------

  /**
   * Packets decoded, the reassembly buffers and the bytes left; or a fault at the first bytes left.
   * The packets decoded before a fault are not returned: the exception discards them.
   */
  datatype Decoded = Decoded(packets: seq<Packet>, bufs: Buffers, rest: seq<Byte>, fault: bool)

  /** Packets without payload are dropped on the way to the protocol. */
  function Emitted(packet: Option<Packet>): seq<Packet> {
    if packet.Some? && packet.value.payload != [] then [packet.value] else []
  }

  function Decode(bufs: Buffers, buffer: seq<Byte>): Decoded
    decreases |buffer|
  {
    if !HasFrame(buffer) then Decoded([], bufs, buffer, false)
    else
      match ParseFrame(buffer)
      case None => Decoded([], bufs, buffer, true)
      case Some(f) =>
        match Reassemble(bufs, f)
        case Fault => Decoded([], bufs, buffer, true)
        case Done(bufs', packet) =>
          var r := Decode(bufs', buffer[RequiredLength(buffer)..]);
          r.(packets := Emitted(packet) + r.packets)
  }

  /** More bytes behind a complete frame change nothing about the frame. */
  lemma FrameIsLocal(x: seq<Byte>, y: seq<Byte>)
    requires HasFrame(x)
    ensures HasFrame(x + y) && RequiredLength(x + y) == RequiredLength(x) && ParseFrame(x + y) == ParseFrame(x)
    ensures (x + y)[RequiredLength(x)..] == x[RequiredLength(x)..] + y
  {
    assert (x + y)[..HEADER_SIZE] == x[..HEADER_SIZE];
    var n := SizeIn(x[..HEADER_SIZE]);
    assert (x + y)[PREFIX..PREFIX + n] == x[PREFIX..PREFIX + n];
  }

  /** `whole` is what comes of going on from `first` with the bytes `y`. */
  ghost predicate Continues(first: Decoded, y: seq<Byte>, whole: Decoded) {
    if first.fault then whole.fault && whole.packets == first.packets && whole.bufs == first.bufs
    else
      var second := Decode(first.bufs, first.rest + y);
      whole == second.(packets := first.packets + second.packets)
  }

  lemma RegroupPackets(a: seq<Packet>, b: seq<Packet>, c: seq<Packet>)
    ensures a + (b + c) == (a + b) + c
  {
  }

  lemma {:induction false} ContinuesAfter(packets: seq<Packet>, first: Decoded, y: seq<Byte>, whole: Decoded)
    requires Continues(first, y, whole)
    ensures Continues(first.(packets := packets + first.packets), y, whole.(packets := packets + whole.packets))
  {
    if !first.fault {
      var second := Decode(first.bufs, first.rest + y);
      RegroupPackets(packets, first.packets, second.packets);
    }
  }

  /** Decoding a prefix and then the rest is decoding the whole: packets decoded, buffers, leftover, faults. */
  lemma {:induction false} DecodeInPieces(bufs: Buffers, x: seq<Byte>, y: seq<Byte>)
    ensures Continues(Decode(bufs, x), y, Decode(bufs, x + y))
    decreases |x|
  {
    if !HasFrame(x) {
      assert [] + Decode(bufs, x + y).packets == Decode(bufs, x + y).packets;
    } else {
      FrameIsLocal(x, y);
      if ParseFrame(x).Some? {
        var o := Reassemble(bufs, ParseFrame(x).value);
        if o.Done? {
          var tail := x[RequiredLength(x)..];
          DecodeInPieces(o.bufs, tail, y);
          DecodeStep(bufs, x, o);
          DecodeStep(bufs, x + y, o);
          ContinuesAfter(Emitted(o.packet), Decode(o.bufs, tail), y, Decode(o.bufs, tail + y));
        }
      }
    }
  }

  lemma DecodeStep(bufs: Buffers, buffer: seq<Byte>, o: Outcome)
    requires HasFrame(buffer) && ParseFrame(buffer).Some?
    requires o == Reassemble(bufs, ParseFrame(buffer).value) && o.Done?
    ensures var r := Decode(o.bufs, buffer[RequiredLength(buffer)..]);
            Decode(bufs, buffer) == r.(packets := Emitted(o.packet) + r.packets)
  {
  }

  function Join(fragments: seq<seq<Byte>>): seq<Byte> {
    if fragments == [] then [] else fragments[0] + Join(fragments[1..])
  }

  /** What a call returns to its caller. */
  function Returned(d: Decoded): seq<Packet> {
    if d.fault then [] else d.packets
  }

  /** The packets that calls with one fragment each return, up to the call that faults. */
  function ReturnedByCalls(bufs: Buffers, buffer: seq<Byte>, fragments: seq<seq<Byte>>): seq<Packet>
    decreases |fragments|
  {
    if fragments == [] then []
    else
      var r := Decode(bufs, buffer + fragments[0]);
      if r.fault then [] else r.packets + ReturnedByCalls(r.bufs, r.rest, fragments[1..])
  }

  /** Feeding fragments one after the other, stopping at a fault: everything that is decoded. */
  function Feed(bufs: Buffers, buffer: seq<Byte>, fragments: seq<seq<Byte>>): Decoded
    decreases |fragments|
  {
    if fragments == [] then Decoded([], bufs, buffer, false)
    else
      var r := Decode(bufs, buffer + fragments[0]);
      if r.fault then r
      else
        var r' := Feed(r.bufs, r.rest, fragments[1..]);
        r'.(packets := r.packets + r'.packets)
  }

  /** Any fragmentation of a stream decodes, buffers and leaves over what the whole stream does at once. */
  lemma {:induction false} FeedingIsDecoding(bufs: Buffers, buffer: seq<Byte>, fragments: seq<seq<Byte>>)
    requires !HasFrame(buffer)
    ensures var fed, whole := Feed(bufs, buffer, fragments), Decode(bufs, buffer + Join(fragments));
            fed.fault == whole.fault && fed.packets == whole.packets && fed.bufs == whole.bufs
            && (!fed.fault ==> fed.rest == whole.rest)
    decreases |fragments|
  {
    if fragments == [] {
      assert buffer + [] == buffer;
    } else {
      var x := buffer + fragments[0];
      assert buffer + Join(fragments) == x + Join(fragments[1..]);
      DecodeInPieces(bufs, x, Join(fragments[1..]));
      var r := Decode(bufs, x);
      if !r.fault {
        LeftoverIsIncomplete(bufs, x);
        FeedingIsDecoding(r.bufs, r.rest, fragments[1..]);
      }
    }
  }

  lemma {:induction false} CallsReturnAll(bufs: Buffers, buffer: seq<Byte>, fragments: seq<seq<Byte>>)
    ensures !Feed(bufs, buffer, fragments).fault ==>
              ReturnedByCalls(bufs, buffer, fragments) == Feed(bufs, buffer, fragments).packets
    decreases |fragments|
  {
    if fragments != [] {
      var r := Decode(bufs, buffer + fragments[0]);
      if !r.fault {
        CallsReturnAll(r.bufs, r.rest, fragments[1..]);
      }
    }
  }

  /**
   * For a stream without a fault any fragmentation returns the packets, and leaves the reassembly
   * buffers and the leftover bytes, that one call with the whole stream does; and a stream faults
   * in fragments exactly when it does as a whole.
   */
  lemma FragmentationIsInvisible(bufs: Buffers, buffer: seq<Byte>, fragments: seq<seq<Byte>>)
    requires !HasFrame(buffer)
    ensures var fed, whole := Feed(bufs, buffer, fragments), Decode(bufs, buffer + Join(fragments));
            && fed.fault == whole.fault
            && (!whole.fault ==> ReturnedByCalls(bufs, buffer, fragments) == Returned(whole)
                                 && fed.bufs == whole.bufs && fed.rest == whole.rest)
  {
    FeedingIsDecoding(bufs, buffer, fragments);
    CallsReturnAll(bufs, buffer, fragments);
  }

  /** The first `k` fragments decode without a fault and complete a packet with payload. */
  ghost predicate CompletesEarly(bufs: Buffers, buffer: seq<Byte>, fragments: seq<seq<Byte>>, k: nat)
    requires k <= |fragments|
  {
    var d := Decode(bufs, buffer + Join(fragments[..k]));
    !d.fault && d.packets != []
  }

  /** Fragments from the second on, fed after the first. */
  lemma CompletesLater(bufs: Buffers, buffer: seq<Byte>, fragments: seq<seq<Byte>>, k: nat)
    requires !HasFrame(buffer) && 0 < k <= |fragments| && !Decode(bufs, buffer + fragments[0]).fault
    ensures var r := Decode(bufs, buffer + fragments[0]);
            CompletesEarly(bufs, buffer, fragments, k) <==>
              var d := Decode(r.bufs, r.rest + Join(fragments[1..][..k - 1]));
              !d.fault && r.packets + d.packets != []
  {
    var x, y := buffer + fragments[0], Join(fragments[1..][..k - 1]);
    JoinSplits(fragments, k);
    assert buffer + (fragments[0] + y) == x + y;
    DecodeInPieces(bufs, x, y);
  }

  lemma JoinSplits(fragments: seq<seq<Byte>>, k: nat)
    requires 0 < k <= |fragments|
    ensures Join(fragments[..k]) == fragments[0] + Join(fragments[1..][..k - 1])
  {
    assert fragments[..k][0] == fragments[0] && fragments[..k][1..] == fragments[1..][..k - 1];
  }

  lemma FaultStays(bufs: Buffers, buffer: seq<Byte>, fragments: seq<seq<Byte>>, k: nat)
    requires 0 < k <= |fragments| && Decode(bufs, buffer + fragments[0]).fault
    ensures !CompletesEarly(bufs, buffer, fragments, k)
  {
    var x, y := buffer + fragments[0], Join(fragments[..k][1..]);
    assert buffer + Join(fragments[..k]) == x + y;
    DecodeInPieces(bufs, x, y);
  }

  lemma NothingAtFirst(bufs: Buffers, buffer: seq<Byte>, fragments: seq<seq<Byte>>)
    requires !HasFrame(buffer)
    ensures !CompletesEarly(bufs, buffer, fragments, 0)
  {
    assert buffer + Join(fragments[..0]) == buffer;
  }

  /** When the calls return a packet, some fragments before the fault complete one. */
  lemma {:induction false} EarlyFragment(bufs: Buffers, buffer: seq<Byte>, fragments: seq<seq<Byte>>) returns (k: nat)
    requires !HasFrame(buffer) && ReturnedByCalls(bufs, buffer, fragments) != []
    ensures k <= |fragments| && CompletesEarly(bufs, buffer, fragments, k)
    decreases |fragments|
  {
    var r := Decode(bufs, buffer + fragments[0]);
    LeftoverIsIncomplete(bufs, buffer + fragments[0]);
    if r.packets != [] {
      k := 1;
      assert r.rest + Join(fragments[1..][..0]) == r.rest;
    } else {
      k := EarlyFragment(r.bufs, r.rest, fragments[1..]);
      k := k + 1;
    }
    CompletesLater(bufs, buffer, fragments, k);
  }

  lemma {:induction false} EarlyReturns(bufs: Buffers, buffer: seq<Byte>, fragments: seq<seq<Byte>>, k: nat)
    requires !HasFrame(buffer) && k <= |fragments| && CompletesEarly(bufs, buffer, fragments, k)
    ensures ReturnedByCalls(bufs, buffer, fragments) != []
    decreases |fragments|
  {
    NothingAtFirst(bufs, buffer, fragments);
    var r := Decode(bufs, buffer + fragments[0]);
    if r.fault {
      FaultStays(bufs, buffer, fragments, k);
    } else if r.packets == [] {
      LeftoverIsIncomplete(bufs, buffer + fragments[0]);
      CompletesLater(bufs, buffer, fragments, k);
      EarlyReturns(r.bufs, r.rest, fragments[1..], k - 1);
    }
  }

  /**
   * The packets returned depend on the fragmentation exactly when the stream faults and some
   * fragments before the fault complete a packet: one call with everything loses that packet.
   */
  lemma FragmentationVisibleIff(bufs: Buffers, buffer: seq<Byte>, fragments: seq<seq<Byte>>)
    requires !HasFrame(buffer)
    ensures ReturnedByCalls(bufs, buffer, fragments) != Returned(Decode(bufs, buffer + Join(fragments)))
       <==> Decode(bufs, buffer + Join(fragments)).fault && exists k :: 0 <= k <= |fragments| && CompletesEarly(bufs, buffer, fragments, k)
  {
    FragmentationIsInvisible(bufs, buffer, fragments);
    if ReturnedByCalls(bufs, buffer, fragments) != [] {
      var k := EarlyFragment(bufs, buffer, fragments);
    }
    if k :| 0 <= k <= |fragments| && CompletesEarly(bufs, buffer, fragments, k) {
      EarlyReturns(bufs, buffer, fragments, k);
    }
  }

  /** A frame for a protocol that is registered, and one for a protocol that is not. */
  lemma FragmentationShows(good: Frame, bad: Frame)
    requires good == Frame(1, 5, [7], 0, false, None) && bad == Frame(2, 5, [7], 0, false, None)
    ensures Encodes(good) && Encodes(bad)
    ensures var bufs, fragments := map[1 := map[]], [FrameBytes(good), FrameBytes(bad)];
            && Returned(Decode(bufs, Join(fragments))) == []
            && ReturnedByCalls(bufs, [], fragments) == [Packet(1, 5, [7])]
  {
    var bufs: Buffers := map[1 := map[]];
    EncodedCmdLength(good);
    EncodedCmdLength(bad);
    var x, y := FrameBytes(good), FrameBytes(bad);
    GoodFrameDecodes(good, bufs);
    FrameRoundTrip(bad, []);
    assert y + [] == y;
    assert Decode(bufs, y).fault;
    JoinTwo(x, y);
    DecodeInPieces(bufs, x, y);
    assert [] + x == x && [] + y == y && [x, y][1..] == [y];
  }

  lemma JoinTwo(x: seq<Byte>, y: seq<Byte>)
    ensures Join([x, y]) == x + y
  {
    assert [x, y][1..] == [y] && Join([y]) == y + Join([y][1..]);
  }

  lemma GoodFrameDecodes(good: Frame, bufs: Buffers)
    requires good == Frame(1, 5, [7], 0, false, None) && bufs == map[1 := map[]] && Encodes(good)
    ensures Decode(bufs, FrameBytes(good)) == Decoded([Packet(1, 5, [7])], bufs, [], false)
  {
    FrameRoundTrip(good, []);
    assert FrameBytes(good) + [] == FrameBytes(good);
    GoodFrameArrives(good, bufs);
    DecodeStep(bufs, FrameBytes(good), Done(bufs, Some(Packet(1, 5, [7]))));
  }

  lemma GoodFrameArrives(good: Frame, bufs: Buffers)
    requires good == Frame(1, 5, [7], 0, false, None) && bufs == map[1 := map[]]
    ensures Reassemble(bufs, ParsedFrame(good)) == Done(bufs, Some(Packet(1, 5, [7])))
  {
    IntRoundTrip(5, [7]);
    EncodedCmdLength(good);
    assert (EncodedCmd(good) + [7])[|EncodedCmd(good)|..] == [7];
  }

  lemma {:induction false} LeftoverIsIncomplete(bufs: Buffers, buffer: seq<Byte>)
    ensures !Decode(bufs, buffer).fault ==> !HasFrame(Decode(bufs, buffer).rest)
    decreases |buffer|
  {
    if HasFrame(buffer) && ParseFrame(buffer).Some? {
      var o := Reassemble(bufs, ParseFrame(buffer).value);
      if o.Done? {
        LeftoverIsIncomplete(o.bufs, buffer[RequiredLength(buffer)..]);
      }
    }
  }

  /** What is left at a fault begins with the frame that is at fault. */
  lemma {:induction false} FaultLeaves(bufs: Buffers, buffer: seq<Byte>)
    requires Decode(bufs, buffer).fault
    ensures var d := Decode(bufs, buffer);
            && HasFrame(d.rest) && |d.rest| <= |buffer| && d.rest == buffer[|buffer| - |d.rest|..]
            && (ParseFrame(d.rest).Some? ==> Reassemble(d.bufs, ParseFrame(d.rest).value).Fault?)
    decreases |buffer|
  {
    if ParseFrame(buffer).Some? && Reassemble(bufs, ParseFrame(buffer).value).Done? {
      var o := Reassemble(bufs, ParseFrame(buffer).value);
      FaultLeaves(o.bufs, buffer[RequiredLength(buffer)..]);
      DecodeStep(bufs, buffer, o);
    }
  }

  /** A fault is final: the frame at fault stays in front, and every later call is a fault that changes nothing. */
  lemma FaultIsFinal(bufs: Buffers, buffer: seq<Byte>, more: seq<Byte>)
    requires Decode(bufs, buffer).fault
    ensures var d := Decode(bufs, buffer);
            Decode(d.bufs, d.rest + more) == Decoded([], d.bufs, d.rest + more, true)
  {
    FaultLeaves(bufs, buffer);
    FrameIsLocal(Decode(bufs, buffer).rest, more);
  }
}
