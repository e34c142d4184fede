/** Packet framing: compound messages, checksums, padding and encryption, and their undoing. */
module Packet {
  import opened Base

  const COMPOUND: byte := 7
  const USER: byte := 8
  const COMPRESS: byte := 9
  const HAS_CRC: byte := 12

  // ------------------------------------------------------------ big-endian numbers

  const UINT16_SIZE := 0x1_0000

  /** Two big-endian bytes; the number wraps. */
  function Uint16(n: nat): Bytes {
    [(n / 256 % 256) as byte, (n % 256) as byte]
  }

  function ReadUint16(hi: byte, lo: byte): nat {
    hi as int * 256 + lo as int
  }

  lemma Uint16RoundTrip(n: nat)
    ensures ReadUint16(Uint16(n)[0], Uint16(n)[1]) == n % UINT16_SIZE
  {
    var q := n / 256;
    assert n == 256 * q + n % 256 && q == 256 * (q / 256) + q % 256;
  }

  function Uint32Bytes(n: Uint32): Bytes {
    Uint16(n / UINT16_SIZE) + Uint16(n % UINT16_SIZE)
  }

  function ReadUint32(b: Bytes): nat
    requires |b| == 4
  {
    ReadUint16(b[0], b[1]) * UINT16_SIZE + ReadUint16(b[2], b[3])
  }

  lemma Uint32RoundTrip(n: Uint32)
    ensures |Uint32Bytes(n)| == 4 && ReadUint32(Uint32Bytes(n)) == n
  {
    var hi, lo := n / UINT16_SIZE, n % UINT16_SIZE;
    Uint16RoundTrip(hi);
    Uint16RoundTrip(lo);
    var b := Uint32Bytes(n);
    assert b[0] == Uint16(hi)[0] && b[1] == Uint16(hi)[1] && b[2] == Uint16(lo)[0] && b[3] == Uint16(lo)[1];
    SmallMod(hi);
  }

  lemma SmallMod(n: nat)
    requires n < UINT16_SIZE
    ensures n % UINT16_SIZE == n
  {
  }

  // ------------------------------------------------------------- compound messages

  function Lengths(msgs: seq<Bytes>): (r: Bytes)
    ensures |r| == 2 * |msgs|
  {
    if msgs == [] then [] else Uint16(|msgs[0]|) + Lengths(msgs[1..])
  }

  function Bodies(msgs: seq<Bytes>): Bytes {
    if msgs == [] then [] else msgs[0] + Bodies(msgs[1..])
  }

  function Compound(msgs: seq<Bytes>): Bytes {
    [COMPOUND, (|msgs| % 256) as byte] + Lengths(msgs) + Bodies(msgs)
  }

  lemma {:induction false} LengthsOfAppend(msgs: seq<Bytes>, m: Bytes)
    ensures Lengths(msgs + [m]) == Lengths(msgs) + Uint16(|m|)
    ensures Bodies(msgs + [m]) == Bodies(msgs) + m
  {
    if msgs == [] {
      assert msgs + [m] == [m];
    } else {
      LengthsOfAppend(msgs[1..], m);
      assert (msgs + [m])[1..] == msgs[1..] + [m];
    }
  }

  method MakeCompoundMessage(msgs: seq<Bytes>) returns (buf: Bytes)
    ensures buf == Compound(msgs)
  {
    buf := [COMPOUND];
    buf := buf + [(|msgs| % 256) as byte];
    var head := buf;
    for i := 0 to |msgs|
      invariant buf == head + Lengths(msgs[..i])
    {
      LengthsOfAppend(msgs[..i], msgs[i]);
      assert msgs[..i + 1] == msgs[..i] + [msgs[i]];
      buf := buf + Uint16(|msgs[i]|);
    }
    assert msgs[..|msgs|] == msgs;
    head := buf;
    for i := 0 to |msgs|
      invariant buf == head + Bodies(msgs[..i])
    {
      LengthsOfAppend(msgs[..i], msgs[i]);
      assert msgs[..i + 1] == msgs[..i] + [msgs[i]];
      buf := buf + msgs[i];
    }
  }

  datatype CompoundError = MissingLength | TruncatedLengths

  /** The messages of a compound, and how many were announced but cut off. */
  datatype Parts = Parts(trunc: nat, parts: seq<Bytes>)

  function ReadLengths(n: nat, buf: Bytes): seq<nat>
    requires |buf| >= 2 * n
  {
    seq(n, i requires 0 <= i < n => ReadUint16(buf[2 * i], buf[2 * i + 1]))
  }

  /** As many whole messages as the bytes allow. */
  function Split(lengths: seq<nat>, buf: Bytes): (parts: seq<Bytes>)
    ensures |parts| <= |lengths|
  {
    if lengths == [] || |buf| < lengths[0] then []
    else [buf[..lengths[0]]] + Split(lengths[1..], buf[lengths[0]..])
  }

  function DecodeCompound(buf: Bytes): Result<Parts, CompoundError> {
    if |buf| < 1 then Err(MissingLength)
    else
      var n := buf[0] as nat;
      var rest := buf[1..];
      if |rest| < 2 * n then Err(TruncatedLengths)
      else
        var parts := Split(ReadLengths(n, rest), rest[2 * n..]);
        Ok(Parts(n - |parts|, parts))
  }

  method DecodeCompoundMessage(buf: Bytes) returns (r: Result<Parts, CompoundError>)
    ensures r == DecodeCompound(buf)
  {
    if |buf| < 1 {
      return Err(MissingLength);
    }
    var numParts := buf[0] as nat;
    var rest := buf[1..];
    if |rest| < numParts * 2 {
      return Err(TruncatedLengths);
    }
    var lengths := [];
    for i := 0 to numParts
      invariant lengths == ReadLengths(numParts, rest)[..i]
    {
      lengths := lengths + [ReadUint16(rest[i * 2], rest[i * 2 + 1])];
    }
    assert lengths == ReadLengths(numParts, rest);
    var parts := SplitMessages(lengths, rest[numParts * 2..]);
    return Ok(Parts(numParts - |parts|, parts));
  }

  /** Cut whole messages off the front until the bytes run out. */
  method SplitMessages(lengths: seq<nat>, buf: Bytes) returns (parts: seq<Bytes>)
    ensures parts == Split(lengths, buf)
  {
    parts := [];
    var rest := buf;
    for i := 0 to |lengths|
      invariant parts + Split(lengths[i..], rest) == Split(lengths, buf)
    {
      assert lengths[i..][0] == lengths[i] && lengths[i..][1..] == lengths[i + 1..];
      if |rest| < lengths[i] {
        assert Split(lengths[i..], rest) == [];
        return;
      }
      parts := parts + [rest[..lengths[i]]];
      rest := rest[lengths[i]..];
    }
  }

  /** Whatever the bytes: the parts are whole, consecutive, as announced, and the longest such prefix. */
  lemma {:induction false} SplitIsLongestPrefix(lengths: seq<nat>, buf: Bytes)
    ensures var parts := Split(lengths, buf);
      && (forall i :: 0 <= i < |parts| ==> |parts[i]| == lengths[i])
      && |Bodies(parts)| <= |buf| && Bodies(parts) == buf[..|Bodies(parts)|]
      && (|parts| < |lengths| ==> |buf| < |Bodies(parts)| + lengths[|parts|])
  {
    if lengths != [] && |buf| >= lengths[0] {
      var n := lengths[0];
      SplitIsLongestPrefix(lengths[1..], buf[n..]);
      var parts, tail := Split(lengths, buf), Split(lengths[1..], buf[n..]);
      assert parts[1..] == tail;
      assert buf[..n] + buf[n..][..|Bodies(tail)|] == buf[..n + |Bodies(tail)|];
    }
  }

  /** Sizes the format can express. */
  predicate Framable(msgs: seq<Bytes>) {
    |msgs| <= 255 && forall i :: 0 <= i < |msgs| ==> |msgs[i]| < UINT16_SIZE
  }

  function Sizes(msgs: seq<Bytes>): seq<nat> {
    seq(|msgs|, i requires 0 <= i < |msgs| => |msgs[i]| % UINT16_SIZE)
  }

  lemma ReadOneMore(size: nat, k: nat, c: Bytes, b: Bytes)
    requires |c| >= 2 * k && b == Uint16(size) + c
    ensures ReadLengths(k + 1, b) == [size % UINT16_SIZE] + ReadLengths(k, c)
  {
    Uint16RoundTrip(size);
    forall i | 0 <= i < k ensures ReadLengths(k + 1, b)[i + 1] == ReadLengths(k, c)[i] {
      assert b[2 * i + 2] == c[2 * i] && b[2 * i + 3] == c[2 * i + 1];
    }
  }

  lemma {:induction false} LengthsRoundTrip(msgs: seq<Bytes>, tail: Bytes)
    ensures ReadLengths(|msgs|, Lengths(msgs) + tail) == Sizes(msgs)
  {
    if msgs != [] {
      LengthsRoundTrip(msgs[1..], tail);
      var b, c := Lengths(msgs) + tail, Lengths(msgs[1..]) + tail;
      Associate(Uint16(|msgs[0]|), Lengths(msgs[1..]), tail);
      ReadOneMore(|msgs[0]|, |msgs| - 1, c, b);
      SizesNext(msgs);
    }
  }

  lemma SizesNext(msgs: seq<Bytes>)
    requires msgs != []
    ensures Sizes(msgs) == [|msgs[0]| % UINT16_SIZE] + Sizes(msgs[1..])
  {
  }

  /** Splitting the (possibly cut) bodies gives back the messages that are whole. */
  lemma {:induction false} SplitBodies(msgs: seq<Bytes>, k: nat)
    requires k <= |Bodies(msgs)| && forall i :: 0 <= i < |msgs| ==> |msgs[i]| < UINT16_SIZE
    ensures var parts := Split(Sizes(msgs), Bodies(msgs)[..k]);
      && parts == msgs[..|parts|]
      && (k == |Bodies(msgs)| ==> parts == msgs)
  {
    if msgs != [] {
      var m, rest := msgs[0], msgs[1..];
      assert Sizes(msgs)[1..] == Sizes(rest);
      if k >= |m| {
        assert Bodies(msgs)[..k][..|m|] == m;
        assert Bodies(msgs)[..k][|m|..] == Bodies(rest)[..k - |m|];
        SplitBodies(rest, k - |m|);
      }
    }
  }

  lemma DecodeShape(n: byte, lens: Bytes, body: Bytes)
    requires |lens| == 2 * n as int
    ensures var parts := Split(ReadLengths(n as int, lens + body), body);
      DecodeCompound([n] + (lens + body)) == Ok(Parts(n as int - |parts|, parts))
  {
    var buf := [n] + (lens + body);
    assert buf[1..] == lens + body;
    assert (lens + body)[2 * n as int..] == body;
  }

  /** A compound without its type byte, cut so that only body is left of the bodies. */
  predicate IsCut(msgs: seq<Bytes>, body: Bytes, buf: Bytes) {
    |msgs| <= 255 && buf == [|msgs| as byte] + (Lengths(msgs) + body)
  }

  lemma CompoundIsCut(msgs: seq<Bytes>, k: nat)
    requires |msgs| <= 255 && k <= |Bodies(msgs)|
    ensures IsCut(msgs, Bodies(msgs)[..k], Compound(msgs)[1..2 + 2 * |msgs| + k])
  {
    var n := |msgs| as byte;
    assert (|msgs| % 256) as byte == n;
    CutAfterHeader(COMPOUND, n, Lengths(msgs), Bodies(msgs), k, 2 + 2 * |msgs| + k, Compound(msgs));
  }

  lemma CutAfterHeader(a: byte, n: byte, lens: Bytes, body: Bytes, k: nat, end: nat, whole: Bytes)
    requires k <= |body| && end == 2 + |lens| + k && whole == [a, n] + lens + body
    ensures whole[1..end] == [n] + (lens + body[..k])
  {
    assert whole == [a, n] + (lens + body);
  }

  lemma DecodeCut(msgs: seq<Bytes>, body: Bytes, buf: Bytes)
    requires IsCut(msgs, body, buf)
    ensures var parts := Split(Sizes(msgs), body); DecodeCompound(buf) == Ok(Parts(|msgs| - |parts|, parts))
  {
    LengthsRoundTrip(msgs, body);
    DecodeShape(|msgs| as byte, Lengths(msgs), body);
  }

  /**
   * A compound cut short anywhere in its bodies yields the longest whole prefix of its
   * messages, and the parts with the truncated ones make up the announced count.
   */
  lemma TruncatedCompound(msgs: seq<Bytes>, k: nat, buf: Bytes)
    requires Framable(msgs) && k <= |Bodies(msgs)| && buf == Compound(msgs)[1..2 + 2 * |msgs| + k]
    ensures var r := DecodeCompound(buf);
      && r.Ok? && var j := |r.value.parts|;
      && r.value.trunc + j == |msgs|
      && r.value.parts == msgs[..j]
      && |Bodies(msgs[..j])| <= k
      && (j < |msgs| ==> |Bodies(msgs[..j + 1])| > k)
  {
    CompoundIsCut(msgs, k);
    WholePrefix(msgs, k, Bodies(msgs)[..k], buf);
  }

  lemma WholePrefix(msgs: seq<Bytes>, k: nat, body: Bytes, buf: Bytes)
    requires Framable(msgs) && k <= |Bodies(msgs)| && body == Bodies(msgs)[..k] && IsCut(msgs, body, buf)
    ensures var r := DecodeCompound(buf);
      && r.Ok? && var j := |r.value.parts|;
      && r.value.trunc + j == |msgs|
      && r.value.parts == msgs[..j]
      && |Bodies(msgs[..j])| <= k
      && (j < |msgs| ==> |Bodies(msgs[..j + 1])| > k)
  {
    DecodeCut(msgs, body, buf);
    SplitBodies(msgs, k);
    SplitIsLongestPrefix(Sizes(msgs), body);
    var j := |Split(Sizes(msgs), body)|;
    if j < |msgs| {
      assert msgs[..j + 1] == msgs[..j] + [msgs[j]];
      LengthsOfAppend(msgs[..j], msgs[j]);
      SmallMod(|msgs[j]|);
    }
  }

  /** With more messages than one byte counts, some are lost. */
  lemma TooManyMessages(msgs: seq<Bytes>)
    requires |msgs| > 255
    ensures DecodeCompound(Compound(msgs)[1..]) != Ok(Parts(0, msgs))
  {
    assert Compound(msgs)[1..][0] == (|msgs| % 256) as byte;
  }

  lemma WholeCompound(msgs: seq<Bytes>, buf: Bytes)
    requires IsCut(msgs, Bodies(msgs), buf)
    ensures DecodeCompound(buf) == Ok(Parts(0, msgs)) <==> Framable(msgs)
  {
    DecodeCut(msgs, Bodies(msgs), buf);
    if Framable(msgs) {
      assert Bodies(msgs)[..|Bodies(msgs)|] == Bodies(msgs);
      SplitBodies(msgs, |Bodies(msgs)|);
    } else {
      SplitIsLongestPrefix(Sizes(msgs), Bodies(msgs));
    }
  }

  /** A compound decodes to the messages that went in exactly when the format can express their sizes. */
  lemma CompoundRoundTripIff(msgs: seq<Bytes>)
    ensures DecodeCompound(Compound(msgs)[1..]) == Ok(Parts(0, msgs)) <==> Framable(msgs)
  {
    if |msgs| > 255 {
      TooManyMessages(msgs);
    } else {
      var k := |Bodies(msgs)|;
      CompoundIsCut(msgs, k);
      assert Compound(msgs)[1..2 + 2 * |msgs| + k] == Compound(msgs)[1..] && Bodies(msgs)[..k] == Bodies(msgs);
      WholeCompound(msgs, Compound(msgs)[1..]);
    }
  }
}
