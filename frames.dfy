/**
 * The framing of requests and responses between the terminal program and
 * the daemon: an unsigned 64-bit length in big-endian byte order, then that
 * many payload bytes.
 */
module Frames {
  import opened Text

  /** 256 to the power `width`: one more than the largest `width`-byte number. */
  function Power256(width: nat): (r: nat)
    ensures r >= 1
  {
    if width == 0 then 1 else 256 * Power256(width - 1)
  }

  lemma U64Range()
    ensures Power256(8) == WORD_RANGE
  {
    assert Power256(4) == 0x1_0000_0000;
  }

  /** The number the bytes spell, most significant byte first. */
  function FromBigEndian(bytes: seq<Byte>): (n: nat)
    ensures n < Power256(|bytes|)
  {
    if bytes == [] then 0
    else
      var high := FromBigEndian(bytes[..|bytes| - 1]);
      assert high <= Power256(|bytes| - 1) - 1;
      high * 256 + bytes[|bytes| - 1]
  }

  /** The lowest `width` bytes of `n`, most significant first. */
  function ToBigEndian(n: nat, width: nat): (r: seq<Byte>)
    ensures |r| == width
  {
    if width == 0 then [] else ToBigEndian(n / 256, width - 1) + [n % 256]
  }

  /** Reading back the bytes of a number that fits gives the number. */
  lemma {:induction false} FromToBigEndian(n: nat, width: nat)
    requires n < Power256(width)
    ensures FromBigEndian(ToBigEndian(n, width)) == n
  {
    if width > 0 {
      var r := ToBigEndian(n, width);
      assert r[..width - 1] == ToBigEndian(n / 256, width - 1);
      FromToBigEndian(n / 256, width - 1);
    }
  }

  /** Writing the number bytes spell gives the bytes back. */
  lemma {:induction false} ToFromBigEndian(bytes: seq<Byte>)
    ensures ToBigEndian(FromBigEndian(bytes), |bytes|) == bytes
  {
    if bytes != [] {
      var front := bytes[..|bytes| - 1];
      var n := FromBigEndian(bytes);
      ModUnique(n, 256, FromBigEndian(front), bytes[|bytes| - 1]);
      assert n / 256 == FromBigEndian(front);
      ToFromBigEndian(front);
    }
  }

  /** `u64::to_be_bytes`. */
  function ToBeBytes(n: nat): (r: seq<Byte>)
    requires n < WORD_RANGE
    ensures |r| == 8
  {
    ToBigEndian(n, 8)
  }

  /** `u64::from_be_bytes`. */
  function FromBeBytes(bytes: seq<Byte>): (n: nat)
    requires |bytes| == 8
    ensures n < WORD_RANGE
  {
    U64Range();
    FromBigEndian(bytes)
  }

  /** The header decoding undoes the header encoding, both ways round. */
  lemma BeBytesRoundTrip(n: nat, bytes: seq<Byte>)
    requires n < WORD_RANGE && |bytes| == 8
    ensures FromBeBytes(ToBeBytes(n)) == n
    ensures ToBeBytes(FromBeBytes(bytes)) == bytes
  {
    U64Range();
    FromToBigEndian(n, 8);
    ToFromBigEndian(bytes);
  }

  /** A payload behind its length header. */
  function Frame(payload: seq<Byte>): (r: seq<Byte>)
    requires |payload| < WORD_RANGE
    ensures |r| == 8 + |payload| && r[8..] == payload
    ensures FromBeBytes(r[..8]) == |payload|
  {
    BeBytesRoundTrip(|payload|, ToBeBytes(|payload|));
    var r := ToBeBytes(|payload|) + payload;
    assert r[..8] == ToBeBytes(|payload|);
    r
  }

  /**
   * The payloads a reader takes from a byte stream: a header, then the
   * payload it announces, for as long as both are there in full.
   */
  function Unframed(stream: seq<Byte>): seq<seq<Byte>>
    decreases |stream|
  {
    if |stream| < 8 then []
    else
      var length := FromBeBytes(stream[..8]);
      if |stream| - 8 < length then [] else [stream[8..8 + length]] + Unframed(stream[8 + length..])
  }

  /** A frame at the front of a stream yields its payload, then whatever follows. */
  lemma UnframedFrame(payload: seq<Byte>, rest: seq<Byte>)
    requires |payload| < WORD_RANGE
    ensures Unframed(Frame(payload) + rest) == [payload] + Unframed(rest)
  {
    var s := Frame(payload) + rest;
    assert s[..8] == Frame(payload)[..8];
    assert s[8..8 + |payload|] == payload;
    assert s[8 + |payload|..] == rest;
  }

  /** The frames of the payloads, one after the other. */
  function Framed(payloads: seq<seq<Byte>>): (r: seq<Byte>)
    requires forall k :: 0 <= k < |payloads| ==> |payloads[k]| < WORD_RANGE
  {
    if payloads == [] then [] else Frame(payloads[0]) + Framed(payloads[1..])
  }

  /** Reading a stream of frames gives back exactly the payloads written. */
  lemma {:induction false} UnframedFramed(payloads: seq<seq<Byte>>)
    requires forall k :: 0 <= k < |payloads| ==> |payloads[k]| < WORD_RANGE
    ensures Unframed(Framed(payloads)) == payloads
  {
    if payloads != [] {
      UnframedFrame(payloads[0], Framed(payloads[1..]));
      UnframedFramed(payloads[1..]);
    }
  }

  /** A stream cut short inside a header or a payload yields nothing more. */
  lemma TruncatedFrame(payload: seq<Byte>, k: nat)
    requires |payload| < WORD_RANGE && k < 8 + |payload|
    ensures Unframed(Frame(payload)[..k]) == []
  {
    var s := Frame(payload)[..k];
    if k >= 8 {
      assert s[..8] == Frame(payload)[..8];
    }
  }

  /** A worked header: 258 payload bytes follow. */
  lemma HeaderExample()
    ensures ToBeBytes(258) == [0, 0, 0, 0, 0, 0, 1, 2]
  {
  }
}
