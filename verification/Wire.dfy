/**
 * What happens to a message between sendMsg and handleCommand. Sealing, compression and
 * the checksum are foreign: they appear as functions with the properties they are known for.
 */
module Wire {
  import opened Base
  import opened Packet

  // ---------------------------------------------------------------------- padding

  const BLOCK_SIZE := 16
  const VERSION_SIZE := 1
  const NONCE_SIZE := 12
  const TAG_SIZE := 16

  /** How many bytes pad n bytes to whole blocks: at least one, at most a block. */
  function PadLength(n: nat): (r: nat)
    ensures 1 <= r <= BLOCK_SIZE && (n + r) % BLOCK_SIZE == 0
  {
    BLOCK_SIZE - n % BLOCK_SIZE
  }

  function Padding(n: nat): Bytes {
    seq(PadLength(n), _ => PadLength(n) as byte)
  }

  /** Pad what follows the first ignore bytes of buf. */
  method Pkcs7Encode(buf: Bytes, ignore: nat) returns (r: Bytes)
    requires ignore <= |buf|
    ensures r == buf + Padding(|buf| - ignore)
  {
    var n := |buf| - ignore;
    var more := BLOCK_SIZE - n % BLOCK_SIZE;
    r := buf;
    for i := 0 to more
      invariant r == buf + Padding(n)[..i]
    {
      r := r + [more as byte];
    }
  }

  /** Drop as many bytes as the last one says; None where the program would fault. */
  function Pkcs7Decode(buf: Bytes): Option<Bytes> {
    if buf == [] || buf[|buf| - 1] as int > |buf| then None
    else Some(buf[..|buf| - buf[|buf| - 1] as int])
  }

  lemma PaddingRoundTrip(msg: Bytes)
    ensures Pkcs7Decode(msg + Padding(|msg|)) == Some(msg)
  {
    var buf, k := msg + Padding(|msg|), PadLength(|msg|);
    assert buf[|buf| - 1] == Padding(|msg|)[k - 1] == k as byte;
    assert buf[..|msg|] == msg;
  }

  // ------------------------------------------------------------------- encryption

  /** Authenticated encryption: key, nonce, text, additional data. */
  datatype Cipher = Cipher(
    seal: (Bytes, Bytes, Bytes, Bytes) -> Bytes,
    open: (Bytes, Bytes, Bytes, Bytes) -> Option<Bytes>)

  ghost predicate Honest(ci: Cipher) {
    forall k, n, p, d ::
      |ci.seal(k, n, p, d)| == |p| + TAG_SIZE && ci.open(k, n, ci.seal(k, n, p, d), d) == Some(p)
  }

  function EncryptedLength(vsn: byte, inp: nat): nat {
    if vsn >= 1 then VERSION_SIZE + NONCE_SIZE + inp + TAG_SIZE
    else VERSION_SIZE + NONCE_SIZE + inp + PadLength(inp) + TAG_SIZE
  }

  function EncryptOverhead(vsn: byte): nat {
    if vsn == 0 then 45 else 29
  }

  function Encrypted(ci: Cipher, vsn: byte, key: Bytes, nonce: Bytes, msg: Bytes, data: Bytes): Bytes {
    [vsn] + nonce + ci.seal(key, nonce, if vsn == 0 then msg + Padding(|msg|) else msg, data)
  }

  /** Append the encrypted message to dst, building it there. */
  method EncryptPayload(ci: Cipher, vsn: byte, key: Bytes, nonce: Bytes, msg: Bytes, data: Bytes, dst: Bytes) returns (r: Bytes)
    requires |nonce| == NONCE_SIZE
    ensures r == dst + Encrypted(ci, vsn, key, nonce, msg, data)
  {
    var offset := |dst|;
    r := dst + [vsn];
    r := r + nonce;
    var afterNonce := |r|;
    var src := msg;
    if vsn == 0 {
      var head := r;
      r := r + msg;
      r := Pkcs7Encode(r, offset + VERSION_SIZE + NONCE_SIZE);
      src := r[offset..][VERSION_SIZE + NONCE_SIZE..];
      assert r == head + (msg + Padding(|msg|));
      assert src == msg + Padding(|msg|);
      assert r[..afterNonce] == head;
    }
    var out := ci.seal(key, nonce, src, data);
    r := r[..afterNonce] + out;
  }

  datatype DecryptError = EmptyPayload | UnsupportedVersion | TooSmall | BadPadding | NoKey

  /** The plaintext of the first key that opens the message. */
  function FirstOpened(ci: Cipher, keys: seq<Bytes>, nonce: Bytes, text: Bytes, data: Bytes): Option<Bytes> {
    if keys == [] then None
    else
      var plain := ci.open(keys[0], nonce, text, data);
      if plain.Some? then plain else FirstOpened(ci, keys[1..], nonce, text, data)
  }

  function Decrypted(ci: Cipher, keys: seq<Bytes>, msg: Bytes, data: Bytes): Result<Bytes, DecryptError> {
    if msg == [] then Err(EmptyPayload)
    else if msg[0] > 1 then Err(UnsupportedVersion)
    else if |msg| < EncryptedLength(msg[0], 0) then Err(TooSmall)
    else match FirstOpened(ci, keys, msg[1..13], msg[13..], data)
      case None => Err(NoKey)
      case Some(plain) =>
        if msg[0] == 0
        then (match Pkcs7Decode(plain) case Some(p) => Ok(p) case None => Err(BadPadding))
        else Ok(plain)
  }

  method DecryptPayload(ci: Cipher, keys: seq<Bytes>, msg: Bytes, data: Bytes) returns (r: Result<Bytes, DecryptError>)
    ensures r == Decrypted(ci, keys, msg, data)
  {
    if |msg| == 0 {
      return Err(EmptyPayload);
    }
    var vsn := msg[0];
    if vsn > 1 {
      return Err(UnsupportedVersion);
    }
    if |msg| < EncryptedLength(vsn, 0) {
      return Err(TooSmall);
    }
    var nonce, text := msg[1..13], msg[13..];
    for i := 0 to |keys|
      invariant FirstOpened(ci, keys, nonce, text, data) == FirstOpened(ci, keys[i..], nonce, text, data)
    {
      assert keys[i..][0] == keys[i] && keys[i..][1..] == keys[i + 1..];
      var plain := ci.open(keys[i], nonce, text, data);
      if plain.Some? {
        if vsn == 0 {
          match Pkcs7Decode(plain.value) {
            case Some(p) => return Ok(p);
            case None => return Err(BadPadding);
          }
        } else {
          return Ok(plain.value);
        }
      }
    }
    return Err(NoKey);
  }

  /** What encryption writes is exactly as long as announced, and never more than the budgeted overhead. */
  lemma EncryptedLengthIsExact(ci: Cipher, vsn: byte, key: Bytes, nonce: Bytes, msg: Bytes, data: Bytes)
    requires Honest(ci) && |nonce| == NONCE_SIZE && vsn <= 1
    ensures |Encrypted(ci, vsn, key, nonce, msg, data)| == EncryptedLength(vsn, |msg|) <= |msg| + EncryptOverhead(vsn)
  {
  }

  /** Every installed key other than the one used refuses the message. */
  ghost predicate OthersRefuse(ci: Cipher, keys: seq<Bytes>, key: Bytes, nonce: Bytes, text: Bytes, data: Bytes) {
    forall k :: k in keys && k != key ==> ci.open(k, nonce, text, data) == None
  }

  lemma {:induction false} RightKeyOpens(ci: Cipher, keys: seq<Bytes>, key: Bytes, nonce: Bytes, text: Bytes, data: Bytes)
    requires key in keys && ci.open(key, nonce, text, data).Some? && OthersRefuse(ci, keys, key, nonce, text, data)
    ensures FirstOpened(ci, keys, nonce, text, data) == ci.open(key, nonce, text, data)
  {
    if keys[0] != key {
      assert keys[0] in keys && key in keys[1..];
      RightKeyOpens(ci, keys[1..], key, nonce, text, data);
    }
  }

  /** Decryption undoes encryption, in either version. */
  lemma DecryptUndoesEncrypt(ci: Cipher, vsn: byte, keys: seq<Bytes>, key: Bytes, nonce: Bytes, msg: Bytes, data: Bytes)
    requires Honest(ci) && |nonce| == NONCE_SIZE && vsn <= 1 && key in keys
    requires OthersRefuse(ci, keys, key, nonce, Encrypted(ci, vsn, key, nonce, msg, data)[13..], data)
    ensures Decrypted(ci, keys, Encrypted(ci, vsn, key, nonce, msg, data), data) == Ok(msg)
  {
    var plain := if vsn == 0 then msg + Padding(|msg|) else msg;
    var text := ci.seal(key, nonce, plain, data);
    var out := Encrypted(ci, vsn, key, nonce, msg, data);
    assert out[1..13] == nonce && out[13..] == text;
    RightKeyOpens(ci, keys, key, nonce, text, data);
    PaddingRoundTrip(msg);
  }

  // ---------------------------------------------------------------------- sending

  /** Compression (with its own message type in front) and the checksum. */
  datatype Codec = Codec(compress: Bytes -> Option<Bytes>, decompress: Bytes -> Option<Bytes>, crc: Bytes -> Uint32)

  ghost predicate Faithful(co: Codec) {
    forall m :: co.compress(m).Some? ==>
      var c := co.compress(m).value; c != [] && c[0] == COMPRESS && co.decompress(c[1..]) == Some(m)
  }

  datatype Secret = Secret(vsn: byte, key: Bytes, nonce: Bytes)

  datatype Sender = Sender(compression: bool, peerTakesCrc: bool, secret: Option<Secret>)

  /** Compression is used only where it shortens. */
  function Shrunk(co: Codec, on: bool, msg: Bytes): (r: Bytes)
    ensures |r| <= |msg|
  {
    if on && co.compress(msg).Some? && |co.compress(msg).value| < |msg| then co.compress(msg).value else msg
  }

  function Checked(co: Codec, on: bool, msg: Bytes): Bytes {
    if on then [HAS_CRC] + Uint32Bytes(co.crc(msg)) + msg else msg
  }

  function Sealed(ci: Cipher, secret: Option<Secret>, msg: Bytes): Bytes {
    match secret
    case None => msg
    case Some(s) => Encrypted(ci, s.vsn, s.key, s.nonce, msg, [])
  }

  function OnTheWire(ci: Cipher, co: Codec, s: Sender, msg: Bytes): Bytes {
    Sealed(ci, s.secret, Checked(co, s.peerTakesCrc, Shrunk(co, s.compression, msg)))
  }

  method RawSendMsgPacket(ci: Cipher, co: Codec, s: Sender, message: Bytes) returns (packet: Bytes)
    requires s.secret.Some? ==> |s.secret.value.nonce| == NONCE_SIZE
    ensures packet == OnTheWire(ci, co, s, message)
  {
    var msg := message;
    if s.compression {
      var buf := co.compress(msg);
      if buf.Some? && |buf.value| < |msg| {
        msg := buf.value;
      }
    }
    if s.peerTakesCrc {
      var header := [HAS_CRC] + Uint32Bytes(co.crc(msg));
      msg := header + msg;
    }
    if s.secret.Some? {
      var secret := s.secret.value;
      msg := EncryptPayload(ci, secret.vsn, secret.key, secret.nonce, msg, [], []);
    }
    packet := msg;
  }

  // -------------------------------------------------------------------- receiving

  /** A message handed to its handler: its type and the rest. */
  datatype Delivery = Delivery(kind: byte, body: Bytes)

  /** The types that have a handler of their own, as opposed to wrappers and strays. */
  predicate IsLeaf(t: byte) {
    t in {0, 1, 2, 3, 4, 5, 8, 11, 14}
  }

  /** What handling a buffer delivers; None if wrappers are nested more than depth deep. */
  function Handled(co: Codec, buf: Bytes, depth: nat): Option<seq<Delivery>>
    decreases depth, 1, 0
  {
    if buf == [] then Some([])
    else if buf[0] == COMPOUND then
      if depth == 0 then None
      else
        match DecodeCompound(buf[1..])
        case Err(_) => Some([])
        case Ok(p) => HandledAll(co, p.parts, depth - 1)
    else if buf[0] == COMPRESS then
      if depth == 0 then None
      else
        match co.decompress(buf[1..])
        case None => Some([])
        case Some(payload) => Handled(co, payload, depth - 1)
    else if IsLeaf(buf[0]) then Some([Delivery(buf[0], buf[1..])])
    else Some([])
  }

  function HandledAll(co: Codec, parts: seq<Bytes>, depth: nat): Option<seq<Delivery>>
    decreases depth, 2, |parts|
  {
    if parts == [] then Some([]) else Both(Handled(co, parts[0], depth), HandledAll(co, parts[1..], depth))
  }

  function Both(a: Option<seq<Delivery>>, b: Option<seq<Delivery>>): Option<seq<Delivery>> {
    if a.Some? && b.Some? then Some(a.value + b.value) else None
  }

  /** Looking deeper never changes an answer, so an answer is what unbounded recursion delivers. */
  lemma {:induction false} DeeperAgrees(co: Codec, buf: Bytes, depth: nat, deeper: nat)
    requires depth <= deeper && Handled(co, buf, depth).Some?
    ensures Handled(co, buf, deeper) == Handled(co, buf, depth)
    decreases depth, 1, 0
  {
    if buf != [] && buf[0] == COMPOUND {
      var decoded := DecodeCompound(buf[1..]);
      if decoded.Ok? {
        DeeperAgreesAll(co, decoded.value.parts, depth - 1, deeper - 1);
      }
    } else if buf != [] && buf[0] == COMPRESS {
      var payload := co.decompress(buf[1..]);
      if payload.Some? {
        DeeperAgrees(co, payload.value, depth - 1, deeper - 1);
      }
    }
  }

  lemma {:induction false} DeeperAgreesAll(co: Codec, parts: seq<Bytes>, depth: nat, deeper: nat)
    requires depth <= deeper && HandledAll(co, parts, depth).Some?
    ensures HandledAll(co, parts, deeper) == HandledAll(co, parts, depth)
    decreases depth, 2, |parts|
  {
    if parts != [] {
      DeeperAgrees(co, parts[0], depth, deeper);
      DeeperAgreesAll(co, parts[1..], depth, deeper);
    }
  }

  /** Unwrapping comes to an end: the code's own recursion returns. */
  least predicate Ends[nat](co: Codec, buf: Bytes) {
    if buf == [] then true
    else if buf[0] == COMPOUND then
      match DecodeCompound(buf[1..])
      case Err(_) => true
      case Ok(p) => forall i :: 0 <= i < |p.parts| ==> Ends(co, p.parts[i])
    else if buf[0] == COMPRESS then
      match co.decompress(buf[1..])
      case None => true
      case Some(payload) => Ends(co, payload)
    else true
  }

  lemma {:induction false} DeepEnough(co: Codec, buf: Bytes, k: nat)
    requires Ends#[k](co, buf)
    ensures Handled(co, buf, k).Some?
    decreases k, 0
  {
    if buf != [] && buf[0] == COMPOUND {
      var decoded := DecodeCompound(buf[1..]);
      if decoded.Ok? {
        DeepEnoughForAll(co, decoded.value.parts, k - 1);
      }
    } else if buf != [] && buf[0] == COMPRESS {
      var payload := co.decompress(buf[1..]);
      if payload.Some? {
        DeepEnough(co, payload.value, k - 1);
      }
    }
  }

  lemma {:induction false} DeepEnoughForAll(co: Codec, parts: seq<Bytes>, k: nat)
    requires forall i :: 0 <= i < |parts| ==> Ends#[k](co, parts[i])
    ensures HandledAll(co, parts, k).Some?
    decreases k, 1, |parts|
  {
    if parts != [] {
      DeepEnough(co, parts[0], k);
      DeepEnoughForAll(co, parts[1..], k);
    }
  }

  lemma {:induction false} AnswerMeansEnd(co: Codec, buf: Bytes, depth: nat)
    requires Handled(co, buf, depth).Some?
    ensures Ends(co, buf)
    decreases depth, 0
  {
    if buf != [] && buf[0] == COMPOUND {
      var decoded := DecodeCompound(buf[1..]);
      if decoded.Ok? {
        var parts := decoded.value.parts;
        forall i | 0 <= i < |parts| ensures Ends(co, parts[i]) {
          AnswerForEach(co, parts, depth - 1, i);
          AnswerMeansEnd(co, parts[i], depth - 1);
        }
      }
    } else if buf != [] && buf[0] == COMPRESS {
      var payload := co.decompress(buf[1..]);
      if payload.Some? {
        AnswerMeansEnd(co, payload.value, depth - 1);
      }
    }
  }

  lemma {:induction false} AnswerForEach(co: Codec, parts: seq<Bytes>, depth: nat, i: nat)
    requires i < |parts| && HandledAll(co, parts, depth).Some?
    ensures Handled(co, parts[i], depth).Some?
  {
    if i > 0 {
      AnswerForEach(co, parts[1..], depth, i - 1);
    }
  }

  /** Some depth gives an answer exactly when the code's recursion ends; by DeeperAgrees there is only one. */
  lemma AnsweredIffEnds(co: Codec, buf: Bytes)
    ensures (exists depth: nat :: Handled(co, buf, depth).Some?) <==> Ends(co, buf)
  {
    if Ends(co, buf) {
      var k: nat :| Ends#[k](co, buf);
      DeepEnough(co, buf, k);
    }
    forall depth: nat | Handled(co, buf, depth).Some? ensures Ends(co, buf) {
      AnswerMeansEnd(co, buf, depth);
    }
  }

  /** The keys installed (none when encryption is off) and whether plaintext is refused. */
  datatype Receiver = Receiver(keys: seq<Bytes>, verifyIncoming: bool)

  function Opened(ci: Cipher, r: Receiver, buf: Bytes): Option<Bytes> {
    if r.keys == [] then Some(buf)
    else
      match Decrypted(ci, r.keys, buf, [])
      case Ok(plain) => Some(plain)
      case Err(_) => if r.verifyIncoming then None else Some(buf)
  }

  function Verified(co: Codec, buf: Bytes): Option<Bytes> {
    if |buf| >= 5 && buf[0] == HAS_CRC then
      if co.crc(buf[5..]) == ReadUint32(buf[1..5]) then Some(buf[5..]) else None
    else Some(buf)
  }

  function Ingested(ci: Cipher, co: Codec, r: Receiver, buf: Bytes, depth: nat): Option<seq<Delivery>> {
    match Opened(ci, r, buf)
    case None => Some([])
    case Some(plain) =>
      match Verified(co, plain)
      case None => Some([])
      case Some(msg) => Handled(co, msg, depth)
  }

  /** The code recurses as deep as the wrappers go; here it gives up beyond depth. */
  method HandleCommand(co: Codec, buf: Bytes, depth: nat) returns (out: Option<seq<Delivery>>)
    ensures out == Handled(co, buf, depth)
    decreases depth, 1
  {
    if |buf| < 1 {
      return Some([]);
    }
    var msgType, rest := buf[0], buf[1..];
    if msgType == COMPOUND {
      if depth == 0 {
        return None;
      }
      var decoded := DecodeCompoundMessage(rest);
      match decoded {
        case Err(_) => return Some([]);
        case Ok(p) => out := HandleParts(co, p.parts, depth - 1);
      }
    } else if msgType == COMPRESS {
      if depth == 0 {
        return None;
      }
      var payload := co.decompress(rest);
      match payload {
        case None => return Some([]);
        case Some(p) => out := HandleCommand(co, p, depth - 1);
      }
    } else if IsLeaf(msgType) {
      out := Some([Delivery(msgType, rest)]);
    } else {
      out := Some([]);
    }
  }

  method HandleParts(co: Codec, parts: seq<Bytes>, depth: nat) returns (out: Option<seq<Delivery>>)
    ensures out == HandledAll(co, parts, depth)
    decreases depth, 2
  {
    out := Some([]);
    assert parts[0..] == parts;
    BothNothing(HandledAll(co, parts, depth));
    for i := 0 to |parts|
      invariant Both(out, HandledAll(co, parts[i..], depth)) == HandledAll(co, parts, depth)
    {
      assert parts[i..][0] == parts[i] && parts[i..][1..] == parts[i + 1..];
      var more := HandleCommand(co, parts[i], depth);
      BothAssociate(out, more, HandledAll(co, parts[i + 1..], depth));
      out := Both(out, more);
    }
    BothNothing(out);
  }

  lemma BothNothing(a: Option<seq<Delivery>>)
    ensures Both(Some([]), a) == a == Both(a, Some([]))
  {
    if a.Some? {
      assert [] + a.value == a.value == a.value + [];
    }
  }

  lemma BothAssociate(a: Option<seq<Delivery>>, b: Option<seq<Delivery>>, c: Option<seq<Delivery>>)
    ensures Both(Both(a, b), c) == Both(a, Both(b, c))
  {
    if a.Some? && b.Some? && c.Some? {
      Associate(a.value, b.value, c.value);
    }
  }

  method IngestPacket(ci: Cipher, co: Codec, r: Receiver, packet: Bytes, depth: nat) returns (out: Option<seq<Delivery>>)
    ensures out == Ingested(ci, co, r, packet, depth)
  {
    var buf := packet;
    if r.keys != [] {
      var plain := DecryptPayload(ci, r.keys, buf, []);
      if plain.Ok? {
        buf := plain.value;
      } else if r.verifyIncoming {
        return Some([]);
      }
    }
    if |buf| >= 5 && buf[0] == HAS_CRC {
      if co.crc(buf[5..]) != ReadUint32(buf[1..5]) {
        return Some([]);
      }
      buf := buf[5..];
    }
    out := HandleCommand(co, buf, depth);
  }

  // ------------------------------------------------------------------- round trip

  /** Several messages go as a compound, a single one as it is. */
  function Joined(msgs: seq<Bytes>): Bytes
    requires msgs != []
  {
    if |msgs| == 1 then msgs[0] else Compound(msgs)
  }

  ghost predicate Deliverable(msgs: seq<Bytes>) {
    && msgs != [] && Framable(msgs)
    && forall i :: 0 <= i < |msgs| ==> msgs[i] != [] && IsLeaf(msgs[i][0])
  }

  function Deliveries(msgs: seq<Bytes>): seq<Delivery>
    requires forall i :: 0 <= i < |msgs| ==> msgs[i] != []
  {
    seq(|msgs|, i requires 0 <= i < |msgs| => Delivery(msgs[i][0], msgs[i][1..]))
  }

  /** The receiver holds what it takes to open what the sender seals. */
  ghost predicate Matched(ci: Cipher, secret: Option<Secret>, r: Receiver, msg: Bytes) {
    match secret
    case None => r.keys == [] || (!r.verifyIncoming && Decrypted(ci, r.keys, msg, []).Err?)
    case Some(s) =>
      && s.vsn <= 1 && |s.nonce| == NONCE_SIZE && s.key in r.keys
      && OthersRefuse(ci, r.keys, s.key, s.nonce, Encrypted(ci, s.vsn, s.key, s.nonce, msg, [])[13..], [])
  }

  lemma SealedOpens(ci: Cipher, secret: Option<Secret>, r: Receiver, msg: Bytes)
    requires Honest(ci) && Matched(ci, secret, r, msg)
    ensures Opened(ci, r, Sealed(ci, secret, msg)) == Some(msg)
  {
    if secret.Some? {
      var s := secret.value;
      DecryptUndoesEncrypt(ci, s.vsn, r.keys, s.key, s.nonce, msg, []);
    }
  }

  lemma CheckedVerifies(co: Codec, on: bool, msg: Bytes)
    requires msg != [] && msg[0] != HAS_CRC
    ensures Verified(co, Checked(co, on, msg)) == Some(msg)
  {
    if on {
      var crc := Uint32Bytes(co.crc(msg));
      Uint32RoundTrip(co.crc(msg));
      var buf := Checked(co, on, msg);
      assert buf[1..5] == crc && buf[5..] == msg;
    }
  }

  lemma {:induction false} LeavesAreHandled(co: Codec, msgs: seq<Bytes>, depth: nat)
    requires forall i :: 0 <= i < |msgs| ==> msgs[i] != [] && IsLeaf(msgs[i][0])
    ensures HandledAll(co, msgs, depth) == Some(Deliveries(msgs))
  {
    if msgs != [] {
      LeavesAreHandled(co, msgs[1..], depth);
      assert Deliveries(msgs) == [Delivery(msgs[0][0], msgs[0][1..])] + Deliveries(msgs[1..]);
    }
  }

  lemma CompoundIsHandled(co: Codec, msgs: seq<Bytes>, buf: Bytes, depth: nat)
    requires Deliverable(msgs) && depth >= 1
    requires buf != [] && buf[0] == COMPOUND && DecodeCompound(buf[1..]) == Ok(Parts(0, msgs))
    ensures Handled(co, buf, depth) == Some(Deliveries(msgs))
  {
    LeavesAreHandled(co, msgs, depth - 1);
  }

  lemma JoinedIsHandled(co: Codec, msgs: seq<Bytes>, depth: nat)
    requires Deliverable(msgs) && depth >= 1
    ensures Handled(co, Joined(msgs), depth) == Some(Deliveries(msgs))
  {
    if |msgs| > 1 {
      CompoundRoundTripIff(msgs);
      CompoundIsHandled(co, msgs, Compound(msgs), depth);
    } else {
      assert Deliveries(msgs) == [Delivery(msgs[0][0], msgs[0][1..])];
    }
  }

  lemma ShrunkIsHandled(co: Codec, on: bool, msg: Bytes, depth: nat)
    requires Faithful(co) && depth >= 1 && msg != [] && (msg[0] == COMPOUND || IsLeaf(msg[0]))
    ensures var m := Shrunk(co, on, msg);
      m != [] && m[0] != HAS_CRC && Handled(co, m, depth) == Handled(co, msg, if m == msg then depth else depth - 1)
  {
  }

  /**
   * Whatever is switched on, the receiver's handlers get the messages that were joined into
   * the packet, in order.
   */
  lemma PacketRoundTrip(ci: Cipher, co: Codec, s: Sender, r: Receiver, msgs: seq<Bytes>, depth: nat)
    requires Honest(ci) && Faithful(co) && Deliverable(msgs) && depth >= 2
    requires Matched(ci, s.secret, r, Checked(co, s.peerTakesCrc, Shrunk(co, s.compression, Joined(msgs))))
    ensures Ingested(ci, co, r, OnTheWire(ci, co, s, Joined(msgs)), depth) == Some(Deliveries(msgs))
  {
    var msg := Joined(msgs);
    var m := Shrunk(co, s.compression, msg);
    assert msg != [] && (msg[0] == COMPOUND || IsLeaf(msg[0]));
    ShrunkIsHandled(co, s.compression, msg, depth);
    JoinedIsHandled(co, msgs, if m == msg then depth else depth - 1);
    CheckedVerifies(co, s.peerTakesCrc, m);
    SealedOpens(ci, s.secret, r, Checked(co, s.peerTakesCrc, m));
  }
}
