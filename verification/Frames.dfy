/**
 * Frames of the RLPx transport: how a packet is cut into frames no larger than a window, and
 * the bytes of a frame (without a cipher).
 */
module Frames {
  import opened Options
  import opened Rlp

  const HEADER_SIZE := 16
  const MAC_SIZE := 16
  const PADDING := 16

  function Ceil16(x: nat): (c: nat)
    ensures x <= c < x + 16 && c % 16 == 0
  {
    if x % 16 == 0 then x else x + 16 - x % 16
  }

  function Zeros(n: nat): (s: seq<Byte>)
    ensures |s| == n
  {
    seq(n, _ => 0)
  }

  datatype Packet = Packet(pid: nat, cmd: nat, payload: seq<Byte>)

  /** One frame; `total` is set on the first frame of a packet cut into several. */
  datatype Frame = Frame(pid: nat, cmd: nat, payload: seq<Byte>, sid: nat, continuation: bool, total: Option<nat>)

  /** The packet type, in front of the payload of every frame that is not a continuation. */
  function EncodedCmd(f: Frame): (s: seq<Byte>)
    ensures !f.continuation && f.cmd < 256 ==> 1 <= |s| <= 2
    ensures f.continuation ==> s == []
  {
    if f.continuation || f.cmd >= 256 then []
    else
      IntBytesLength(f.cmd, 1);
      EncodeInt(f.cmd)
  }

  function BodySize(f: Frame): nat {
    |EncodedCmd(f)| + |f.payload|
  }

  function FrameSize(f: Frame): (n: nat)
    ensures n % 16 == 0 && n >= 48
  {
    HEADER_SIZE + MAC_SIZE + Ceil16(BodySize(f)) + MAC_SIZE
  }

  // ---------- Cutting a packet into frames ----------

  /** How much payload the frame keeps so that the frame fits the window. */
  function Kept(f: Frame, window: nat): nat
    requires FrameSize(f) > window
  {
    if FrameSize(f) - window >= |f.payload| then 0 else |f.payload| - (FrameSize(f) - window)
  }

  /** The frames for the rest of a packet whose first frame has been cut off. */
  function ContinuationFrames(pid: nat, cmd: nat, payload: seq<Byte>, sid: nat, window: nat): (fs: seq<Frame>)
    requires window >= 64 && window % PADDING == 0
    decreases |payload|
  {
    var f := Frame(pid, cmd, payload, sid, true, None);
    if FrameSize(f) <= window then [f]
    else
      var keep := Kept(f, window);
      [f.(payload := payload[..keep])] + ContinuationFrames(pid, cmd, payload[keep..], sid, window)
  }

  function WholeFrame(p: Packet, sid: nat): Frame {
    Frame(p.pid, p.cmd, p.payload, sid, false, None)
  }

  /** The first frame of a packet that does not fit the window; it announces the total size. */
  function FirstFrame(p: Packet, sid: nat, window: nat): Frame
    requires FrameSize(WholeFrame(p, sid)) > window
  {
    var f := WholeFrame(p, sid);
    f.(payload := p.payload[..Kept(f, window)], total := Some(BodySize(f)))
  }

  /** What is cut off the first frame of a packet. */
  function Remainder(p: Packet, sid: nat, window: nat): seq<Byte>
    requires FrameSize(WholeFrame(p, sid)) > window
  {
    p.payload[Kept(WholeFrame(p, sid), window)..]
  }

  /** The frames of a packet, or None when even a minimal frame exceeds the window. */
  function PacketFrames(p: Packet, sid: nat, window: nat): (r: Option<seq<Frame>>)
    requires window % PADDING == 0
  {
    if p.cmd >= 256 || p.pid >= 0x1_0000 || sid >= 0x1_0000 then None
    else if FrameSize(WholeFrame(p, sid)) <= window then Some([WholeFrame(p, sid)])
    else if FrameSize(FirstFrame(p, sid, window)) > window then None
    else Some([FirstFrame(p, sid, window)] + ContinuationFrames(p.pid, p.cmd, Remainder(p, sid, window), sid, window))
  }

  function JoinPayloads(fs: seq<Frame>): seq<Byte> {
    if fs == [] then [] else fs[0].payload + JoinPayloads(fs[1..])
  }

  /** `a` divided by `b`, rounded up. */
  function CeilDiv(a: nat, b: nat): nat
    requires b > 0
  {
    if a % b == 0 then a / b else a / b + 1
  }

  /** Each continuation frame takes up the whole window, except the last. */
  ghost predicate FillsWindow(fs: seq<Frame>, window: nat) {
    && fs != []
    && (forall i :: 0 <= i < |fs| ==> FrameSize(fs[i]) <= window)
    && (forall i :: 0 <= i < |fs| - 1 ==> FrameSize(fs[i]) == window)
  }

  ghost predicate AreContinuations(fs: seq<Frame>, pid: nat, cmd: nat, sid: nat) {
    forall f :: f in fs ==> f.pid == pid && f.cmd == cmd && f.sid == sid && f.continuation && f.total == None && f.payload != []
  }

  /** What is cut off a continuation frame fills the window and makes the rest shorter. */
  lemma CutContinuation(f: Frame, window: nat)
    requires window >= 64 && window % 16 == 0 && f.continuation && FrameSize(f) > window
    ensures 0 < Kept(f, window) < |f.payload|
    ensures FrameSize(f.(payload := f.payload[..Kept(f, window)])) == window
    ensures Ceil16(|f.payload| - Kept(f, window)) == Ceil16(|f.payload|) - (window - 48)
  {
    assert BodySize(f) == |f.payload|;
    ContinuationArithmetic(|f.payload|, window, Kept(f, window));
    var g := f.(payload := f.payload[..Kept(f, window)]);
    assert BodySize(g) == Kept(f, window);
  }

  lemma ContinuationArithmetic(l: nat, window: nat, keep: nat)
    requires window >= 64 && window % 16 == 0 && 48 + Ceil16(l) > window
    requires keep == if 48 + Ceil16(l) - window >= l then 0 else l - (48 + Ceil16(l) - window)
    ensures 0 < keep < l && 48 + Ceil16(keep) == window
    ensures Ceil16(l - keep) == Ceil16(l) - (window - 48)
  {
  }

  lemma FillOneMore(f: Frame, rest: seq<Frame>, window: nat)
    requires FillsWindow(rest, window) && FrameSize(f) == window
    ensures FillsWindow([f] + rest, window)
  {
    var fs := [f] + rest;
    forall i | 0 <= i < |fs| ensures FrameSize(fs[i]) <= window && (i < |fs| - 1 ==> FrameSize(fs[i]) == window) {
      if i > 0 {
        assert fs[i] == rest[i - 1];
      }
    }
  }

  lemma {:induction false} ContinuationsCover(pid: nat, cmd: nat, payload: seq<Byte>, sid: nat, window: nat)
    requires window >= 64 && window % PADDING == 0 && payload != []
    ensures var fs := ContinuationFrames(pid, cmd, payload, sid, window);
            && JoinPayloads(fs) == payload && FillsWindow(fs, window)
            && AreContinuations(fs, pid, cmd, sid)
    decreases |payload|
  {
    var f := Frame(pid, cmd, payload, sid, true, None);
    var fs := ContinuationFrames(pid, cmd, payload, sid, window);
    if FrameSize(f) <= window {
      assert fs[1..] == [];
    } else {
      CutContinuation(f, window);
      var keep := Kept(f, window);
      var first := f.(payload := payload[..keep]);
      var rest := ContinuationFrames(pid, cmd, payload[keep..], sid, window);
      ContinuationsCover(pid, cmd, payload[keep..], sid, window);
      assert fs == [first] + rest && fs[1..] == rest;
      assert payload == payload[..keep] + payload[keep..];
      FillOneMore(first, rest, window);
    }
  }

  lemma DivisionStep(a: nat, b: nat)
    requires 0 < b <= a
    ensures a / b == (a - b) / b + 1 && a % b == (a - b) % b
  {
    var q, r := (a - b) / b, (a - b) % b;
    assert a == b * q + r + b;
    assert b * (q + 1) == b * q + b;
    UniqueQuotient(a, b, q + 1, r);
  }

  lemma UniqueQuotient(a: nat, b: nat, q: nat, r: nat)
    requires b > 0 && a == b * q + r && r < b
    ensures a / b == q && a % b == r
  {
    var q', r' := a / b, a % b;
    assert a == b * q' + r';
    assert b * (q - q') == r' - r;
    NoSmallMultiple(b, q - q');
  }

  lemma NoSmallMultiple(b: int, k: int)
    requires -b < b * k < b
    ensures k == 0
  {
  }

  lemma {:induction false} ContinuationCount(pid: nat, cmd: nat, payload: seq<Byte>, sid: nat, window: nat)
    requires window >= 64 && window % PADDING == 0 && payload != []
    ensures |ContinuationFrames(pid, cmd, payload, sid, window)| == CeilDiv(Ceil16(|payload|), window - 48)
    decreases |payload|
  {
    var f := Frame(pid, cmd, payload, sid, true, None);
    var a, b := Ceil16(|payload|), window - 48;
    if FrameSize(f) <= window {
      if a == b {
        UniqueQuotient(a, b, 1, 0);
      } else {
        UniqueQuotient(a, b, 0, a);
      }
    } else {
      CutContinuation(f, window);
      ContinuationCount(pid, cmd, payload[Kept(f, window)..], sid, window);
      DivisionStep(a, b);
    }
  }

  // ---------- What cutting a packet keeps ----------

  ghost predicate PacketOk(p: Packet, sid: nat) {
    p.cmd < 256 && p.pid < 0x1_0000 && sid < 0x1_0000
  }

  /** The arithmetic of cutting: `e` bytes of packet type and `l` of payload. */
  lemma CutArithmetic(e: nat, l: nat, window: nat, keep: nat)
    requires 1 <= e <= 2 && window % 16 == 0 && 48 + Ceil16(e + l) > window
    requires keep == if 48 + Ceil16(e + l) - window >= l then 0 else l - (48 + Ceil16(e + l) - window)
    ensures 48 + Ceil16(e + keep) > window <==> window < 64
    ensures window >= 64 ==> 48 + Ceil16(e + keep) == window
    ensures window >= 64 ==> keep < l && Ceil16(l - keep) == 48 + Ceil16(e + l) - window
  {
    if keep == 0 {
      NothingKept(e, l, window);
    } else {
      SomethingKept(e, l, window, keep);
    }
  }

  lemma NothingKept(e: nat, l: nat, window: nat)
    requires 1 <= e <= 2 && window % 16 == 0 && 48 + Ceil16(e + l) > window && 48 + Ceil16(e + l) - window >= l
    ensures Ceil16(e) == 16 && (window >= 64 ==> window == 64 && l > 0 && Ceil16(l) == 48 + Ceil16(e + l) - window)
  {
  }

  lemma SomethingKept(e: nat, l: nat, window: nat, keep: nat)
    requires 1 <= e <= 2 && window % 16 == 0 && 48 + Ceil16(e + l) > window
    requires keep > 0 && keep == l - (48 + Ceil16(e + l) - window)
    ensures window >= 64 && 48 + Ceil16(e + keep) == window
    ensures Ceil16(l - keep) == 48 + Ceil16(e + l) - window
  {
  }

  lemma CutFirst(p: Packet, sid: nat, window: nat)
    requires PacketOk(p, sid) && window % PADDING == 0 && FrameSize(WholeFrame(p, sid)) > window
    ensures FrameSize(FirstFrame(p, sid, window)) > window <==> window < 64
    ensures window >= 64 ==> FrameSize(FirstFrame(p, sid, window)) == window
    ensures window >= 64 ==> Remainder(p, sid, window) != []
    ensures window >= 64 ==> Ceil16(|Remainder(p, sid, window)|) == FrameSize(WholeFrame(p, sid)) - window
  {
    var f := WholeFrame(p, sid);
    assert EncodedCmd(FirstFrame(p, sid, window)) == EncodedCmd(f);
    CutArithmetic(|EncodedCmd(f)|, |p.payload|, window, Kept(f, window));
  }

  /** The frames of one packet, in order: one whole frame, or a first frame and continuations. */
  ghost predicate FramesOf(p: Packet, sid: nat, fs: seq<Frame>) {
    && fs != []
    && JoinPayloads(fs) == p.payload
    && if |fs| == 1 then fs[0] == WholeFrame(p, sid)
       else
         && fs[0] == WholeFrame(p, sid).(payload := fs[0].payload, total := Some(BodySize(WholeFrame(p, sid))))
         && fs[0].payload <= p.payload
         && AreContinuations(fs[1..], p.pid, p.cmd, sid)
  }

  lemma CutPacket(p: Packet, sid: nat, window: nat)
    requires window % PADDING == 0 && window >= 64 && PacketOk(p, sid) && FrameSize(WholeFrame(p, sid)) > window
    ensures PacketFrames(p, sid, window).Some?
    ensures var fs := PacketFrames(p, sid, window).value; FramesOf(p, sid, fs) && FillsWindow(fs, window)
  {
    CutFirst(p, sid, window);
    var first, rest := FirstFrame(p, sid, window), Remainder(p, sid, window);
    var more := ContinuationFrames(p.pid, p.cmd, rest, sid, window);
    ContinuationsCover(p.pid, p.cmd, rest, sid, window);
    FillOneMore(first, more, window);
    CutIsFramesOf(p, sid, window, more);
  }

  lemma CutIsFramesOf(p: Packet, sid: nat, window: nat, more: seq<Frame>)
    requires FrameSize(WholeFrame(p, sid)) > window && more != []
    requires AreContinuations(more, p.pid, p.cmd, sid) && JoinPayloads(more) == Remainder(p, sid, window)
    ensures FramesOf(p, sid, [FirstFrame(p, sid, window)] + more)
  {
    var fs := [FirstFrame(p, sid, window)] + more;
    assert fs[1..] == more;
    assert p.payload == fs[0].payload + Remainder(p, sid, window);
  }

  /**
   * Cutting a packet works exactly when the window is at least 64 bytes and the fields are in
   * range; the pieces join up to the payload and every frame but the last fills the window.
   */
  lemma CuttingCoversPacket(p: Packet, sid: nat, window: nat)
    requires window % PADDING == 0
    ensures PacketFrames(p, sid, window).Some? <==> PacketOk(p, sid) && window >= 64
    ensures PacketFrames(p, sid, window).Some? ==>
              var fs := PacketFrames(p, sid, window).value;
              FramesOf(p, sid, fs) && FillsWindow(fs, window)
  {
    var f := WholeFrame(p, sid);
    if PacketOk(p, sid) {
      if FrameSize(f) <= window {
        assert [f][1..] == [];
        assert FrameSize(f) >= 64;
      } else {
        CutFirst(p, sid, window);
        if window >= 64 {
          CutPacket(p, sid, window);
        }
      }
    }
  }

  /** How many frames a packet takes: one, or one and as many windows as the excess fills. */
  lemma FrameCount(p: Packet, sid: nat, window: nat)
    requires PacketOk(p, sid) && window >= 64 && window % PADDING == 0
    ensures var size := FrameSize(WholeFrame(p, sid));
            var fs := PacketFrames(p, sid, window);
            fs.Some? && |fs.value| == if size <= window then 1 else 1 + CeilDiv(size - window, window - 48)
  {
    if FrameSize(WholeFrame(p, sid)) > window {
      CutFirst(p, sid, window);
      ContinuationCount(p.pid, p.cmd, Remainder(p, sid, window), sid, window);
    }
  }

  /**
   * The data left for the continuation frames is a multiple of the padding in every case but
   * one: the smallest window, a two-byte packet type and a payload one byte short of a multiple.
   */
  lemma RemainderIsPadded(p: Packet, sid: nat, window: nat)
    requires PacketOk(p, sid) && window >= 64 && window % PADDING == 0 && FrameSize(WholeFrame(p, sid)) > window
    ensures |Remainder(p, sid, window)| % PADDING == 0
       <==> !(window == 64 && p.cmd >= 128 && |p.payload| % PADDING == PADDING - 1)
  {
    EncodedCmdLength(WholeFrame(p, sid));
  }

  ghost predicate PaddedPayloads(fs: seq<Frame>) {
    forall f :: f in fs ==> |f.payload| % PADDING == 0
  }

  /** Every continuation frame is padded exactly when what is cut up is. */
  lemma {:induction false} ContinuationsPaddedIff(pid: nat, cmd: nat, payload: seq<Byte>, sid: nat, window: nat)
    requires window >= 64 && window % PADDING == 0
    ensures PaddedPayloads(ContinuationFrames(pid, cmd, payload, sid, window)) <==> |payload| % PADDING == 0
    decreases |payload|
  {
    var f := Frame(pid, cmd, payload, sid, true, None);
    var fs := ContinuationFrames(pid, cmd, payload, sid, window);
    assert fs[0] in fs;
    if FrameSize(f) > window {
      CutContinuation(f, window);
      var keep := Kept(f, window);
      var rest := ContinuationFrames(pid, cmd, payload[keep..], sid, window);
      ContinuationsPaddedIff(pid, cmd, payload[keep..], sid, window);
      assert forall g :: g in fs <==> g == fs[0] || g in rest;
      CutStaysPadded(|payload|, keep, window);
    }
  }

  /** How much a continuation frame keeps, of `l` bytes. */
  lemma CutStaysPadded(l: nat, keep: nat, window: nat)
    requires window % 16 == 0 && keep < l && keep == l - (48 + Ceil16(l) - window)
    ensures l % 16 == 0 ==> keep % 16 == 0
    ensures keep % 16 == 0 ==> (l - keep) % 16 == l % 16
    ensures (l - keep) % 16 == 0
  {
  }

  /** So all continuation frames of a packet are padded in every case but the one above. */
  lemma PacketPaddedIff(p: Packet, sid: nat, window: nat)
    requires PacketOk(p, sid) && window >= 64 && window % PADDING == 0 && FrameSize(WholeFrame(p, sid)) > window
    ensures PacketFrames(p, sid, window).Some? && |PacketFrames(p, sid, window).value| > 1
    ensures PaddedPayloads(PacketFrames(p, sid, window).value[1..])
       <==> !(window == 64 && p.cmd >= 128 && |p.payload| % PADDING == PADDING - 1)
  {
    CutFirst(p, sid, window);
    RemainderIsPadded(p, sid, window);
    ContinuationsPaddedIff(p.pid, p.cmd, Remainder(p, sid, window), sid, window);
    var more := ContinuationFrames(p.pid, p.cmd, Remainder(p, sid, window), sid, window);
    assert ([FirstFrame(p, sid, window)] + more)[1..] == more;
  }

  /** A payload of 15 bytes for which that case holds. */
  lemma RemainderNotPadded(p: Packet, sid: nat)
    requires p == Packet(1, 200, Zeros(15)) && sid < 0x1_0000
    ensures FrameSize(WholeFrame(p, sid)) > 64 && |Remainder(p, sid, 64)| == 15
  {
    EncodedCmdLength(WholeFrame(p, sid));
    assert BodySize(WholeFrame(p, sid)) == 17;
  }

  lemma EncodedCmdLength(f: Frame)
    requires f.cmd < 256 && !f.continuation
    ensures |EncodedCmd(f)| == if f.cmd == 0 then 1 else if f.cmd < 128 then 1 else 2
  {
    IntBytesLength(f.cmd, 1);
    if f.cmd > 0 {
      assert f.cmd / 256 == 0;
      assert IntBytes(f.cmd) == IntBytes(0) + [f.cmd];
    }
  }
}
