/**
 * Recursive Length Prefix coding (Ethereum Yellow Paper, Appendix B) of the items a frame header
 * and a packet type need: integers, and short lists of integers.
 */
module Rlp {
  import opened Options

  type Byte = b: int | 0 <= b < 256 witness 0

  /** Big-endian digits in base 256, without leading zeros. */
  function IntBytes(n: nat): (s: seq<Byte>)
    ensures s == [] <==> n == 0
    ensures n > 0 ==> s[0] != 0
  {
    if n == 0 then [] else IntBytes(n / 256) + [n % 256]
  }

  function BytesInt(s: seq<Byte>): nat {
    if s == [] then 0 else 256 * BytesInt(s[..|s| - 1]) + s[|s| - 1]
  }

  lemma {:induction false} IntBytesRoundTrip(n: nat)
    ensures BytesInt(IntBytes(n)) == n
  {
    if n > 0 {
      IntBytesRoundTrip(n / 256);
      var s := IntBytes(n);
      assert s[..|s| - 1] == IntBytes(n / 256);
    }
  }

  function Pow256(k: nat): (p: nat)
    ensures p > 0
  {
    if k == 0 then 1 else 256 * Pow256(k - 1)
  }

  lemma {:induction false} IntBytesLength(n: nat, k: nat)
    requires n < Pow256(k)
    ensures |IntBytes(n)| <= k
    decreases k
  {
    if n > 0 {
      IntBytesLength(n / 256, k - 1);
    }
  }

  // ---------- Strings of at most 55 bytes ----------

  const SHORT := 55

  function EncodeString(s: seq<Byte>): seq<Byte>
    requires |s| <= SHORT
  {
    if |s| == 1 && s[0] < 128 then s else [128 + |s|] + s
  }

  /** The first item of `data`, a string, and where the next item starts. */
  function ConsumeString(data: seq<Byte>): (r: Option<(seq<Byte>, nat)>)
    ensures r.Some? ==> 0 < r.value.1 <= |data|
  {
    if data == [] then None
    else if data[0] < 128 then Some((data[..1], 1))
    else
      var n := data[0] - 128;
      if n > SHORT || |data| < 1 + n then None
      else if n == 1 && data[1] < 128 then None
      else Some((data[1..1 + n], 1 + n))
  }

  lemma StringRoundTrip(s: seq<Byte>, rest: seq<Byte>)
    requires |s| <= SHORT
    ensures ConsumeString(EncodeString(s) + rest) == Some((s, |EncodeString(s)|))
  {
    var data := EncodeString(s) + rest;
    if |s| == 1 && s[0] < 128 {
      assert data[..1] == s;
    } else {
      assert data[1..1 + |s|] == s;
    }
  }

  // ---------- Integers ----------

  function EncodeInt(n: nat): seq<Byte>
    requires |IntBytes(n)| <= SHORT
  {
    EncodeString(IntBytes(n))
  }

  function ConsumeInt(data: seq<Byte>): (r: Option<(nat, nat)>)
    ensures r.Some? ==> 0 < r.value.1 <= |data|
  {
    match ConsumeString(data)
    case None => None
    case Some((s, end)) => if s != [] && s[0] == 0 then None else Some((BytesInt(s), end))
  }

  /** Reading back an integer, whatever follows it. */
  lemma IntRoundTrip(n: nat, rest: seq<Byte>)
    requires |IntBytes(n)| <= SHORT
    ensures ConsumeInt(EncodeInt(n) + rest) == Some((n, |EncodeInt(n)|))
  {
    StringRoundTrip(IntBytes(n), rest);
    IntBytesRoundTrip(n);
  }

  lemma EncodeIntLength(n: nat, k: nat)
    requires n < Pow256(k) && 0 < k <= SHORT
    ensures |IntBytes(n)| <= SHORT && 1 <= |EncodeInt(n)| <= k + 1
  {
    IntBytesLength(n, k);
  }

  // ---------- Lists of integers ----------

  ghost predicate Encodable(ns: seq<nat>) {
    forall n :: n in ns ==> |IntBytes(n)| <= SHORT
  }

  function EncodeInts(ns: seq<nat>): seq<Byte>
    requires forall n :: n in ns ==> |IntBytes(n)| <= SHORT
  {
    if ns == [] then [] else EncodeInt(ns[0]) + EncodeInts(ns[1..])
  }

  function EncodeList(ns: seq<nat>): seq<Byte>
    requires forall n :: n in ns ==> |IntBytes(n)| <= SHORT
    requires |EncodeInts(ns)| <= SHORT
  {
    [192 + |EncodeInts(ns)|] + EncodeInts(ns)
  }

  function DecodeInts(data: seq<Byte>): Option<seq<nat>>
    decreases |data|
  {
    if data == [] then Some([])
    else
      match ConsumeInt(data)
      case None => None
      case Some((n, end)) =>
        match DecodeInts(data[end..])
        case None => None
        case Some(ns) => Some([n] + ns)
  }

  /** A list of integers at the start of `data`; what follows the list is not looked at. */
  function DecodeList(data: seq<Byte>): Option<seq<nat>> {
    if data == [] || data[0] < 192 || data[0] - 192 > SHORT || |data| < 1 + (data[0] - 192) then None
    else DecodeInts(data[1..1 + (data[0] - 192)])
  }

  lemma {:induction false} IntsRoundTrip(ns: seq<nat>)
    requires Encodable(ns)
    ensures DecodeInts(EncodeInts(ns)) == Some(ns)
    decreases |ns|
  {
    if ns != [] {
      var data := EncodeInts(ns);
      IntRoundTrip(ns[0], EncodeInts(ns[1..]));
      IntsRoundTrip(ns[1..]);
      assert data[|EncodeInt(ns[0])|..] == EncodeInts(ns[1..]);
      assert [ns[0]] + ns[1..] == ns;
    }
  }

  /** Reading back a list, whatever padding follows it. */
  lemma ListRoundTrip(ns: seq<nat>, rest: seq<Byte>)
    requires Encodable(ns) && |EncodeInts(ns)| <= SHORT
    ensures DecodeList(EncodeList(ns) + rest) == Some(ns)
  {
    IntsRoundTrip(ns);
    assert (EncodeList(ns) + rest)[1..1 + |EncodeInts(ns)|] == EncodeInts(ns);
  }
}
