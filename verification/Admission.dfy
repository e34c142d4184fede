/** Which packets reach the handlers: what a receiver opens, what it refuses, and what each message type leads to. */
module Admission {
  import opened Base
  import opened Packet
  import opened Wire

  // -------------------------------------------------------------------------- opening

  /** A version byte of at most 1, twelve bytes of nonce, and a text long enough to have been sealed. */
  predicate LooksSealed(packet: Bytes) {
    packet != [] && packet[0] <= 1 && |packet| >= if packet[0] == 0 then 45 else 29
  }

  /** The key opens the text of the packet under its nonce. */
  predicate KeyOpens(ci: Cipher, key: Bytes, packet: Bytes)
    requires LooksSealed(packet)
  {
    ci.open(key, packet[1..13], packet[13..], []).Some?
  }

  /** In version 0 the last byte says how many bytes of padding to drop; version 1 has none. */
  predicate Unpads(vsn: byte, text: Bytes, plain: Bytes) {
    if vsn == 0 then
      text != [] && text[|text| - 1] as int <= |text| && plain == text[..|text| - text[|text| - 1] as int]
    else plain == text
  }

  /** The first key that opens the packet yields plain. */
  ghost predicate Yields(ci: Cipher, keys: seq<Bytes>, packet: Bytes, i: nat, plain: Bytes) {
    && LooksSealed(packet) && i < |keys| && KeyOpens(ci, keys[i], packet)
    && (forall j :: 0 <= j < i ==> !KeyOpens(ci, keys[j], packet))
    && Unpads(packet[0], ci.open(keys[i], packet[1..13], packet[13..], []).value, plain)
  }

  ghost predicate Decrypts(ci: Cipher, keys: seq<Bytes>, packet: Bytes, plain: Bytes) {
    exists i: nat :: Yields(ci, keys, packet, i, plain)
  }

  lemma {:induction false} FirstOpenedIs(ci: Cipher, keys: seq<Bytes>, packet: Bytes, i: nat)
    requires LooksSealed(packet) && i < |keys| && KeyOpens(ci, keys[i], packet)
    requires forall j :: 0 <= j < i ==> !KeyOpens(ci, keys[j], packet)
    ensures FirstOpened(ci, keys, packet[1..13], packet[13..], []) == ci.open(keys[i], packet[1..13], packet[13..], [])
  {
    if i > 0 {
      assert !KeyOpens(ci, keys[0], packet);
      assert forall j :: 0 <= j < i - 1 ==> keys[1..][j] == keys[j + 1];
      FirstOpenedIs(ci, keys[1..], packet, i - 1);
    }
  }

  lemma {:induction false} FirstOpenedAt(ci: Cipher, keys: seq<Bytes>, packet: Bytes) returns (i: nat)
    requires LooksSealed(packet) && FirstOpened(ci, keys, packet[1..13], packet[13..], []).Some?
    ensures i < |keys| && KeyOpens(ci, keys[i], packet) && forall j :: 0 <= j < i ==> !KeyOpens(ci, keys[j], packet)
  {
    if KeyOpens(ci, keys[0], packet) {
      i := 0;
    } else {
      var k := FirstOpenedAt(ci, keys[1..], packet);
      i := k + 1;
      forall j | 0 <= j < i ensures !KeyOpens(ci, keys[j], packet) {
        assert j > 0 ==> keys[1..][j - 1] == keys[j];
      }
    }
  }

  /** Decryption succeeds exactly so. */
  lemma DecryptedIff(ci: Cipher, keys: seq<Bytes>, packet: Bytes, plain: Bytes)
    ensures Decrypted(ci, keys, packet, []) == Ok(plain) <==> Decrypts(ci, keys, packet, plain)
  {
    if Decrypted(ci, keys, packet, []) == Ok(plain) {
      var i := FirstOpenedAt(ci, keys, packet);
      FirstOpenedIs(ci, keys, packet, i);
      assert Yields(ci, keys, packet, i, plain);
    }
    if Decrypts(ci, keys, packet, plain) {
      var i: nat :| Yields(ci, keys, packet, i, plain);
      FirstOpenedIs(ci, keys, packet, i);
    }
  }

  /** And fails for the first of these reasons. */
  lemma NotDecrypted(ci: Cipher, keys: seq<Bytes>, packet: Bytes)
    ensures var r := Decrypted(ci, keys, packet, []);
      && (r == Err(EmptyPayload) <==> packet == [])
      && (r == Err(UnsupportedVersion) <==> packet != [] && packet[0] > 1)
      && (r == Err(TooSmall) <==> packet != [] && packet[0] <= 1 && !LooksSealed(packet))
      && (r == Err(NoKey) <==> LooksSealed(packet) && forall k :: k in keys ==> !KeyOpens(ci, k, packet))
  {
    if LooksSealed(packet) {
      if FirstOpened(ci, keys, packet[1..13], packet[13..], []).Some? {
        var i := FirstOpenedAt(ci, keys, packet);
        assert keys[i] in keys;
      } else {
        NoneOpens(ci, keys, packet);
      }
    }
  }

  lemma {:induction false} NoneOpens(ci: Cipher, keys: seq<Bytes>, packet: Bytes)
    requires LooksSealed(packet) && FirstOpened(ci, keys, packet[1..13], packet[13..], []).None?
    ensures forall k :: k in keys ==> !KeyOpens(ci, k, packet)
  {
    if keys != [] {
      NoneOpens(ci, keys[1..], packet);
      assert keys == [keys[0]] + keys[1..];
    }
  }

  // ------------------------------------------------------------------------ admission

  /** What a receiver takes for the content: anything without keys, what a key opens, or plaintext where it is let by. */
  ghost predicate Content(ci: Cipher, r: Receiver, packet: Bytes, plain: Bytes) {
    || (r.keys == [] && plain == packet)
    || Decrypts(ci, r.keys, packet, plain)
    || (r.keys != [] && !r.verifyIncoming && plain == packet && !exists p :: Decrypts(ci, r.keys, packet, p))
  }

  /** The four bytes of a checksum, most significant first. */
  function Checksum(plain: Bytes): int
    requires |plain| >= 5
  {
    plain[1] as int * 16777216 + plain[2] as int * 65536 + plain[3] as int * 256 + plain[4] as int
  }

  /** msg is plain without its checksum header, if it has one, and then the checksum is right. */
  predicate Intact(co: Codec, plain: Bytes, msg: Bytes) {
    if |plain| >= 5 && plain[0] == 12 then msg == plain[5..] && co.crc(msg) == Checksum(plain) else msg == plain
  }

  ghost predicate Admits(ci: Cipher, co: Codec, r: Receiver, packet: Bytes, msg: Bytes) {
    exists plain :: Content(ci, r, packet, plain) && Intact(co, plain, msg)
  }

  lemma ChecksumIsRead(plain: Bytes)
    requires |plain| >= 5
    ensures ReadUint32(plain[1..5]) == Checksum(plain)
  {
    var b := plain[1..5];
    assert b[0] == plain[1] && b[1] == plain[2] && b[2] == plain[3] && b[3] == plain[4];
  }

  lemma OpenedIff(ci: Cipher, r: Receiver, packet: Bytes, plain: Bytes)
    ensures Opened(ci, r, packet) == Some(plain) <==> Content(ci, r, packet, plain)
  {
    DecryptedIff(ci, r.keys, packet, plain);
    if Decrypted(ci, r.keys, packet, []).Ok? {
      DecryptedIff(ci, r.keys, packet, Decrypted(ci, r.keys, packet, []).value);
    }
    forall p ensures Decrypted(ci, r.keys, packet, []) == Ok(p) <==> Decrypts(ci, r.keys, packet, p) {
      DecryptedIff(ci, r.keys, packet, p);
    }
  }

  lemma VerifiedIff(co: Codec, plain: Bytes, msg: Bytes)
    ensures Verified(co, plain) == Some(msg) <==> Intact(co, plain, msg)
  {
    if |plain| >= 5 {
      ChecksumIsRead(plain);
    }
  }

  /** What is admitted goes to the handlers. */
  lemma AdmittedIsHandled(ci: Cipher, co: Codec, r: Receiver, packet: Bytes, msg: Bytes, depth: nat)
    requires Admits(ci, co, r, packet, msg)
    ensures Ingested(ci, co, r, packet, depth) == Handled(co, msg, depth)
  {
    var plain :| Content(ci, r, packet, plain) && Intact(co, plain, msg);
    OpenedIff(ci, r, packet, plain);
    VerifiedIff(co, plain, msg);
  }

  lemma HandledWasAdmitted(ci: Cipher, co: Codec, r: Receiver, packet: Bytes, depth: nat)
    requires Ingested(ci, co, r, packet, depth) != Some([])
    ensures exists msg :: Admits(ci, co, r, packet, msg)
  {
    var plain := Opened(ci, r, packet).value;
    var msg := Verified(co, plain).value;
    OpenedIff(ci, r, packet, plain);
    VerifiedIff(co, plain, msg);
    assert Admits(ci, co, r, packet, msg);
  }

  /** Over all packets: something is delivered exactly when a content is admitted from which it is. */
  lemma DeliveredIff(ci: Cipher, co: Codec, r: Receiver, packet: Bytes, depth: nat, out: seq<Delivery>)
    requires out != []
    ensures Ingested(ci, co, r, packet, depth) == Some(out)
      <==> exists msg :: Admits(ci, co, r, packet, msg) && Handled(co, msg, depth) == Some(out)
  {
    if Ingested(ci, co, r, packet, depth) == Some(out) {
      HandledWasAdmitted(ci, co, r, packet, depth);
      var msg :| Admits(ci, co, r, packet, msg);
      AdmittedIsHandled(ci, co, r, packet, msg, depth);
    }
    forall msg | Admits(ci, co, r, packet, msg) ensures Ingested(ci, co, r, packet, depth) == Handled(co, msg, depth) {
      AdmittedIsHandled(ci, co, r, packet, msg, depth);
    }
  }

  /** What a receiver that insists on encryption delivers, one of its keys has opened. */
  lemma DeliveredWasOpened(ci: Cipher, co: Codec, r: Receiver, packet: Bytes, depth: nat)
    requires r.keys != [] && r.verifyIncoming && Ingested(ci, co, r, packet, depth) != Some([])
    ensures LooksSealed(packet) && exists k :: k in r.keys && KeyOpens(ci, k, packet)
  {
    HandledWasAdmitted(ci, co, r, packet, depth);
    var msg :| Admits(ci, co, r, packet, msg);
    var plain :| Content(ci, r, packet, plain) && Intact(co, plain, msg);
    var i: nat :| Yields(ci, r.keys, packet, i, plain);
    assert r.keys[i] in r.keys;
  }

  /** So it delivers nothing from a packet that none of its keys opens. */
  lemma UnopenedIsRefused(ci: Cipher, co: Codec, r: Receiver, packet: Bytes, depth: nat)
    requires r.keys != [] && r.verifyIncoming
    requires !LooksSealed(packet) || forall k :: k in r.keys ==> !KeyOpens(ci, k, packet)
    ensures Ingested(ci, co, r, packet, depth) == Some([])
  {
    if Ingested(ci, co, r, packet, depth) != Some([]) {
      DeliveredWasOpened(ci, co, r, packet, depth);
    }
  }

  /** A wrong checksum stops the content, however it was opened. */
  lemma WrongChecksumIsRefused(ci: Cipher, co: Codec, r: Receiver, packet: Bytes, plain: Bytes, depth: nat)
    requires Content(ci, r, packet, plain) && |plain| >= 5 && plain[0] == 12 && co.crc(plain[5..]) != Checksum(plain)
    ensures Ingested(ci, co, r, packet, depth) == Some([])
  {
    OpenedIff(ci, r, packet, plain);
    ChecksumIsRead(plain);
  }

  // -------------------------------------------------------------------------- sending

  /** A packet carries the compressed message exactly where compression is on and makes it shorter. */
  lemma CompressedIfShorter(co: Codec, on: bool, msg: Bytes)
    ensures var z := co.compress(msg);
      Shrunk(co, on, msg) == if on && z.Some? && |z.value| < |msg| then z.value else msg
  {
  }

  /** In front of it goes, for a peer that takes checksums, type 12 and the checksum, most significant byte first. */
  lemma ChecksumGoesInFront(co: Codec, msg: Bytes)
    ensures var c := Checked(co, true, msg);
      |c| == |msg| + 5 && c[0] == 12 && c[5..] == msg && Checksum(c) == co.crc(msg) && Intact(co, c, msg)
  {
    Uint32RoundTrip(co.crc(msg));
    var c := Checked(co, true, msg);
    assert c[1..5] == Uint32Bytes(co.crc(msg));
    ChecksumIsRead(c);
  }

  /** Sealing adds version, nonce and tag, and in version 0 padding to whole blocks; the budgeted overhead is reached. */
  lemma SealedSize(ci: Cipher, vsn: byte, key: Bytes, nonce: Bytes, msg: Bytes, data: Bytes)
    requires Honest(ci) && |nonce| == 12 && vsn <= 1
    ensures |Encrypted(ci, vsn, key, nonce, msg, data)| == |msg| + 29 + if vsn == 0 then 16 - |msg| % 16 else 0
    ensures EncryptOverhead(vsn) == if vsn == 0 then 45 else 29
  {
    EncryptedLengthIsExact(ci, vsn, key, nonce, msg, data);
  }

  /** The version goes first, then the nonce, then what the key seals. */
  lemma SealedLayout(ci: Cipher, vsn: byte, key: Bytes, nonce: Bytes, msg: Bytes, data: Bytes)
    requires |nonce| == 12
    ensures var p := Encrypted(ci, vsn, key, nonce, msg, data);
      && |p| >= 13 && p[0] == vsn && p[1..13] == nonce
      && exists plain :: p[13..] == ci.seal(key, nonce, plain, data) && Unpads(vsn, plain, msg)
  {
    var plain := if vsn == 0 then msg + Padding(|msg|) else msg;
    var p := Encrypted(ci, vsn, key, nonce, msg, data);
    assert p == [vsn] + nonce + ci.seal(key, nonce, plain, data);
    assert p[1..13] == nonce && p[13..] == ci.seal(key, nonce, plain, data);
    PaddingRoundTrip(msg);
  }

  // -------------------------------------------------------------------------- compounds

  lemma {:induction false} LengthSlots(msgs: seq<Bytes>, i: nat)
    requires i < |msgs|
    ensures Lengths(msgs)[2 * i] as int == |msgs[i]| / 256 % 256 && Lengths(msgs)[2 * i + 1] as int == |msgs[i]| % 256
  {
    if i > 0 {
      LengthSlots(msgs[1..], i - 1);
    }
  }

  /** Type 7, the count modulo 256, every length in two bytes, most significant first, and then the bodies. */
  lemma CompoundLayout(msgs: seq<Bytes>, i: nat)
    requires i < |msgs|
    ensures var c := Compound(msgs);
      && |c| >= 2 + 2 * |msgs| && c[0] == 7 && c[1] as int == |msgs| % 256
      && c[2 + 2 * i] as int == |msgs[i]| / 256 % 256 && c[3 + 2 * i] as int == |msgs[i]| % 256
      && c[2 + 2 * |msgs|..] == Bodies(msgs)
  {
    LengthSlots(msgs, i);
    var c := Compound(msgs);
    assert c == [c[0], c[1]] + Lengths(msgs) + Bodies(msgs);
  }

  /** The length announced for the i-th part of a compound whose type byte is gone. */
  function Slot(buf: Bytes, i: nat): int
    requires 2 * i + 2 < |buf|
  {
    buf[1 + 2 * i] as int * 256 + buf[2 + 2 * i] as int
  }

  /** Whole parts of the announced lengths, in order, and how many of the n are missing. */
  ghost predicate AreParts(buf: Bytes, n: nat, p: Parts)
    requires |buf| >= 1 + 2 * n
  {
    var bodies := buf[1 + 2 * n..];
    && |p.parts| + p.trunc == n
    && (forall i :: 0 <= i < |p.parts| ==> |p.parts[i]| == Slot(buf, i))
    && |Bodies(p.parts)| <= |bodies| && Bodies(p.parts) == bodies[..|Bodies(p.parts)|]
    && (p.trunc > 0 ==> |bodies| < |Bodies(p.parts)| + Slot(buf, |p.parts|))
  }

  lemma SlotsAreRead(buf: Bytes, n: nat, i: nat)
    requires |buf| >= 1 + 2 * n && i < n
    ensures ReadLengths(n, buf[1..])[i] == Slot(buf, i)
  {
  }

  lemma SplitIntoParts(buf: Bytes, n: nat, lengths: seq<nat>, bodies: Bytes)
    requires |buf| >= 1 + 2 * n && bodies == buf[1 + 2 * n..] && |lengths| == n
    requires forall i :: 0 <= i < n ==> lengths[i] == Slot(buf, i)
    ensures AreParts(buf, n, Parts(n - |Split(lengths, bodies)|, Split(lengths, bodies)))
  {
    SplitIsLongestPrefix(lengths, bodies);
  }

  /** Any bytes: no count, not all lengths, or the parts that are there. */
  lemma DecodedParts(buf: Bytes)
    ensures buf == [] <==> DecodeCompound(buf) == Err(MissingLength)
    ensures buf != [] && |buf| < 1 + 2 * buf[0] as int <==> DecodeCompound(buf) == Err(TruncatedLengths)
    ensures DecodeCompound(buf).Ok? ==> AreParts(buf, buf[0] as int, DecodeCompound(buf).value)
  {
    if DecodeCompound(buf).Ok? {
      var n, rest := buf[0] as nat, buf[1..];
      forall i | 0 <= i < n ensures ReadLengths(n, rest)[i] == Slot(buf, i) {
        SlotsAreRead(buf, n, i);
      }
      assert rest[2 * n..] == buf[1 + 2 * n..];
      SplitIntoParts(buf, n, ReadLengths(n, rest), rest[2 * n..]);
    }
  }

  // --------------------------------------------------------------------- message types

  /** Ping, indirect ping, ack, suspect, alive, dead, user, nack and weight messages. */
  predicate HasHandler(t: byte) {
    t == 0 || t == 1 || t == 2 || t == 3 || t == 4 || t == 5 || t == 8 || t == 11 || t == 14
  }

  /** A bare message goes to the handler of its type; other types, wrappers aside, go nowhere. */
  lemma BareMessage(co: Codec, t: byte, body: Bytes, depth: nat)
    requires t != 7 && t != 9
    ensures Handled(co, [t] + body, depth) == Some(if HasHandler(t) then [Delivery(t, body)] else [])
  {
    assert ([t] + body)[1..] == body;
  }

  /** A wrapper that cannot be undone delivers nothing; a compressed message delivers what it compresses. */
  lemma Wrapped(co: Codec, body: Bytes, depth: nat)
    ensures DecodeCompound(body).Err? ==> Handled(co, [7] + body, depth + 1) == Some([])
    ensures co.decompress(body).None? ==> Handled(co, [9] + body, depth + 1) == Some([])
    ensures co.decompress(body).Some? ==> Handled(co, [9] + body, depth + 1) == Handled(co, co.decompress(body).value, depth)
  {
    assert ([7] + body)[1..] == body && ([9] + body)[1..] == body;
  }

  /** A compound delivers what its first part delivers and then what the others do. */
  lemma CompoundInTurn(co: Codec, first: Bytes, others: seq<Bytes>, depth: nat)
    requires Handled(co, first, depth).Some? && HandledAll(co, others, depth).Some?
    ensures HandledAll(co, [first] + others, depth)
      == Some(Handled(co, first, depth).value + HandledAll(co, others, depth).value)
  {
    assert ([first] + others)[1..] == others;
  }
}
