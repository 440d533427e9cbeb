/**
 * The bytes on the wire: where the parts of a frame lie, the few forms of RLP a header uses, which
 * headers are accepted and when reassembly is a fault.
 */
module FrameLayout {
  import opened Options
  import opened Rlp
  import opened Frames
  import opened FrameCodec

  // ---------- Writing ----------

  ghost predicate AllZero(s: seq<Byte>) {
    forall i :: 0 <= i < |s| ==> s[i] == 0
  }

  /** The header fields a frame announces. */
  function Announced(f: Frame): seq<nat> {
    if f.total.Some? then [f.pid, f.sid, f.total.value] else [f.pid, f.sid]
  }

  lemma AnnouncedFits(f: Frame)
    requires Encodes(f)
    ensures Announced(f) == HeaderFields(f) && Encodable(Announced(f)) && |EncodeInts(Announced(f))| <= 11
  {
    HeaderFits(f);
  }

  /** The header: three bytes of body size, the list of fields, and zeros up to 16 bytes. */
  lemma HeaderLayout(f: Frame)
    requires Encodes(f)
    ensures Encodable(Announced(f)) && |EncodeInts(Announced(f))| <= 11
    ensures var h, ints := Header(f), EncodeInts(Announced(f));
            && |h| == 16 && 65536 * h[0] as int + 256 * h[1] as int + h[2] as int == |EncodedCmd(f)| + |f.payload|
            && h[3] == 192 + |ints| && h[4..4 + |ints|] == ints && AllZero(h[4 + |ints|..])
  {
    AnnouncedFits(f);
    var ints := EncodeInts(Announced(f));
    var size, list := SizeBytes(BodySize(f)), [192 + |ints|] + ints;
    assert EncodeList(HeaderFields(f)) == list;
    assert Header(f) == size + list + Zeros(16 - |size + list|);
    assert Header(f)[3..4 + |ints|] == list;
  }

  /** A frame: the header, sixteen zeros, the body filled up with zeros, and sixteen zeros. */
  lemma FrameBytesLayout(f: Frame)
    requires Encodes(f)
    ensures var s, n := FrameBytes(f), |EncodedCmd(f)| + |f.payload|;
            && |s| == 48 + Ceil16(n) && s[..16] == Header(f) && AllZero(s[16..32])
            && s[32..32 + n] == EncodedCmd(f) + f.payload && AllZero(s[32 + n..])
  {
    var s, n := FrameBytes(f), |EncodedCmd(f)| + |f.payload|;
    assert Body(f)[..n] == EncodedCmd(f) + f.payload && AllZero(Body(f)[n..]);
    assert s[32..32 + n] == Body(f)[..n];
    forall i | 32 + n <= i < |s| ensures s[i] == 0 {
      if i < 32 + |Body(f)| {
        assert s[i] == Body(f)[i - 32] == Body(f)[n..][i - 32 - n];
      }
    }
  }

  /** The packet type of a frame that is not a continuation, in one byte or two. */
  lemma CmdLayout(f: Frame)
    requires f.cmd < 256 && !f.continuation
    ensures EncodedCmd(f) == if f.cmd == 0 then [128] else if f.cmd < 128 then [f.cmd] else [129, f.cmd]
  {
    IntBytesLength(f.cmd, 1);
    assert IntBytes(0) == [];
    if f.cmd > 0 {
      assert f.cmd / 256 == 0;
      assert IntBytes(f.cmd) == IntBytes(0) + [f.cmd] == [f.cmd];
    }
  }

  lemma {:induction false} OneByte(n: nat)
    requires 0 < n < 256
    ensures IntBytes(n) == [n]
  {
    assert n / 256 == 0 && n % 256 == n;
    assert IntBytes(0) == [] && [] + [n] == [n];
  }

  lemma {:induction false} TwoBytes(n: nat)
    requires 256 <= n < 65536
    ensures IntBytes(n) == [n / 256, n % 256]
  {
    OneByte(n / 256);
    assert [n / 256] + [n % 256] == [n / 256, n % 256];
  }

  /** Numbers of one and of two bytes. */
  lemma {:induction false} TwoByteInts(n: nat)
    requires n < 65536
    ensures |IntBytes(n)| <= SHORT
    ensures EncodeInt(n) == if n == 0 then [128] else if n < 128 then [n] else if n < 256 then [129, n] else [130, n / 256, n % 256]
  {
    if n == 0 {
      assert IntBytes(0) == [] && [128] + [] == [128];
    } else if n < 256 {
      OneByte(n);
      assert [129] + [n] == [129, n];
    } else {
      TwoBytes(n);
      assert [130] + [n / 256, n % 256] == [130, n / 256, n % 256];
    }
  }

  // ---------- Reading ----------

  /** The item read is the one that was written, whoever wrote it: there is one form for each. */
  lemma StringReadBack(data: seq<Byte>)
    requires ConsumeString(data).Some?
    ensures var (s, end) := ConsumeString(data).value; |s| <= 55 && data[..end] == EncodeString(s)
  {
  }

  lemma {:induction false} BytesIntBack(s: seq<Byte>)
    requires s == [] || s[0] != 0
    ensures IntBytes(BytesInt(s)) == s
    decreases |s|
  {
    if |s| == 1 {
      assert s[..0] == [];
      assert IntBytes(0) == [];
      assert s == [] + [s[0]];
    } else if s != [] {
      var front := s[..|s| - 1];
      BytesIntBack(front);
      assert s == front + [s[|s| - 1]];
      LastDigit(BytesInt(front), s[|s| - 1]);
      assert BytesInt(front) > 0;
    }
  }

  lemma LastDigit(n: nat, b: Byte)
    ensures (256 * n + b) / 256 == n && (256 * n + b) % 256 == b
  {
  }

  lemma IntReadBack(data: seq<Byte>)
    requires ConsumeInt(data).Some?
    ensures var (n, end) := ConsumeInt(data).value; |IntBytes(n)| <= SHORT && data[..end] == EncodeInt(n)
  {
    StringReadBack(data);
    BytesIntBack(ConsumeString(data).value.0);
  }

  /** Which headers are accepted: one field at least, ids of 16 and a total of 32 bits. */
  lemma HeaderAcceptedIff(buffer: seq<Byte>, fields: seq<nat>)
    requires HasFrame(buffer) && DecodeList(buffer[..16][3..]) == Some(fields)
    ensures ParseFrame(buffer).Some?
       <==> fields != [] && fields[0] < 65536 && (|fields| > 1 ==> fields[1] < 65536) && (|fields| > 2 ==> fields[2] < 4294967296)
    ensures ParseFrame(buffer).Some? ==>
              var f, n := ParseFrame(buffer).value, 65536 * buffer[0] as int + 256 * buffer[1] as int + buffer[2] as int;
              && f.pid == fields[0] && f.sid == (if |fields| > 1 then Some(fields[1]) else None)
              && f.total == (if |fields| > 2 then Some(fields[2]) else None) && f.body == buffer[32..32 + n]
  {
  }

  /** A complete frame is in the buffer when it holds the header, the body in whole blocks, and two times 16 bytes. */
  lemma CompleteIff(buffer: seq<Byte>)
    ensures HasFrame(buffer)
       <==> |buffer| >= 32 && |buffer| >= 48 + Ceil16(65536 * buffer[0] as int + 256 * buffer[1] as int + buffer[2] as int)
  {
  }

  // ---------- Reassembly ----------

  /** A frame for an open buffer is a fault if it announces a total or is too long. */
  lemma ExtendingFaultIff(bufs: Buffers, f: Parsed)
    requires f.pid in bufs && f.sid.Some? && f.sid.value in bufs[f.pid]
    ensures var partial := bufs[f.pid][f.sid.value];
            Reassemble(bufs, f).Fault? <==> f.total.Some? || |partial.payload| + |f.body| > partial.total
  {
  }

  /** What such a frame does otherwise: it completes the packet exactly when the payload has the length announced. */
  lemma ExtendingIs(bufs: Buffers, f: Parsed)
    requires f.pid in bufs && f.sid.Some? && f.sid.value in bufs[f.pid] && Reassemble(bufs, f).Done?
    ensures var partial, o := bufs[f.pid][f.sid.value], Reassemble(bufs, f);
            && o.bufs.Keys == bufs.Keys && (forall pid :: pid in bufs && pid != f.pid ==> o.bufs[pid] == bufs[pid])
            && (forall sid :: sid in bufs[f.pid] && sid != f.sid.value ==> sid in o.bufs[f.pid] && o.bufs[f.pid][sid] == bufs[f.pid][sid])
            && if |partial.payload| + |f.body| == partial.total
               then o.packet == Some(Packet(f.pid, partial.cmd, partial.payload + f.body)) && f.sid.value !in o.bufs[f.pid]
               else o.packet == None && f.sid.value in o.bufs[f.pid]
                    && o.bufs[f.pid][f.sid.value] == Partial(partial.cmd, partial.payload + f.body, partial.total)
  {
  }

  /** A frame that begins a packet: its type has to be readable, and the total announced at least what there is. */
  lemma BeginningFaultIff(bufs: Buffers, f: Parsed)
    requires f.pid in bufs && (f.sid.Some? ==> f.sid.value !in bufs[f.pid])
    ensures Reassemble(bufs, f).Fault?
       <==> ConsumeInt(f.body).None? || (f.total.Some? && (f.total.value < |f.body| || (f.total.value > |f.body| && f.sid.None?)))
  {
  }

  /** A frame for a protocol that is not registered is a fault. */
  lemma UnknownProtocolFaults(bufs: Buffers, f: Parsed)
    requires f.pid !in bufs
    ensures Reassemble(bufs, f).Fault?
  {
  }
}
