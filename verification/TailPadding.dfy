/** Random tail padding with a two-byte length trailer (`secure_core/src/tail_padding.rs`). */
module TailPadding {
  import opened Bytes

  const MIN_PAD := 16
  const MAX_PAD := 512

  /** The pad length drawn from a 32-bit random word. */
  function PadLength(draw: u32): (l: nat)
    ensures MIN_PAD <= l <= MAX_PAD
  {
    draw % (MAX_PAD - MIN_PAD + 1) + MIN_PAD
  }

  /** The lengths 16 to 512 come round in order, one draw after another. */
  lemma PadLengthCycles(draw: u32)
    ensures if draw < 497 then PadLength(draw) == 16 + draw else PadLength(draw) == PadLength(draw - 497)
  {
  }

  function Add(payload: seq<byte>, draw: u32, noise: seq<byte>): seq<byte>
    requires |noise| == PadLength(draw)
  {
    payload + noise + LE(PadLength(draw), 2)
  }

  function Strip(padded: seq<byte>): Option<seq<byte>> {
    if |padded| < 4 then None
    else
      var l := FromLE(padded[|padded| - 2..]);
      if l < MIN_PAD || l > MAX_PAD then None
      else if |padded| < 2 + l then None
      else Some(padded[..|padded| - 2 - l])
  }

  /** The padding is grown in place: the payload, zeroed space that is then filled, the trailer. */
  method AddTailPadding(payload: seq<byte>, draw: u32, noise: seq<byte>) returns (out: seq<byte>)
    requires |noise| == PadLength(draw)
    ensures out == Add(payload, draw, noise)
    ensures Strip(out) == Some(payload)
  {
    var l := PadLength(draw);
    out := payload;
    var oldLen := |out|;
    out := out + seq(l, _ => 0);
    out := out[..oldLen] + noise;
    out := out + LE(l, 2);
    StripAdd(payload, draw, noise);
  }

  /** Stripping undoes padding for every payload and every random draw. */
  lemma StripAdd(payload: seq<byte>, draw: u32, noise: seq<byte>)
    requires |noise| == PadLength(draw)
    ensures Strip(Add(payload, draw, noise)) == Some(payload)
  {
    var x := Add(payload, draw, noise);
    WordSizes();
    DecodeEncode(PadLength(draw), 2);
    assert x[|x| - 2..] == LE(PadLength(draw), 2) && x[..|payload|] == payload;
  }

  /** The string is some payload padded by some draw and some noise. */
  ghost predicate Produced(padded: seq<byte>, payload: seq<byte>, draw: u32, noise: seq<byte>) {
    |noise| == PadLength(draw) && padded == Add(payload, draw, noise)
  }

  /** Stripping accepts exactly the strings padding can produce, and returns the payload they came from. */
  lemma StripAcceptsExactly(padded: seq<byte>, payload: seq<byte>)
    ensures Strip(padded) == Some(payload) <==> exists draw: u32, noise: seq<byte> :: Produced(padded, payload, draw, noise)
  {
    if Strip(padded) == Some(payload) {
      var n, tail := |padded|, padded[|padded| - 2..];
      var l := FromLE(tail);
      EncodeDecode(tail);
      var noise := padded[n - 2 - l..n - 2];
      assert padded == payload + noise + tail;
      assert PadLength(l - MIN_PAD) == l;
      assert Produced(padded, payload, l - MIN_PAD, noise);
    }
    if draw: u32, noise: seq<byte> :| Produced(padded, payload, draw, noise) {
      StripAdd(payload, draw, noise);
    }
  }
}
