/**
 Snell v4 records (src/snell/record.rs): the frame format as functions on byte
 strings, then the writer and the reader that update a nonce and buffers in
 place. AEAD is a pair of functions with the open/seal law; random padding is
 an argument.
 */
module SnellRecord {
  import opened Prelude

  const NONCE_SIZE := 12
  const TAG_SIZE := 16
  const HEADER_PLAIN_SIZE := 7
  const HEADER_CIPHER_SIZE := HEADER_PLAIN_SIZE + TAG_SIZE
  const MAX_RECORD_PAYLOAD_SIZE := 16383
  const WRITE_BATCH_LIMIT := 65536

  // ----- AEAD under one key, and the key derivation -----

  datatype Cipher = Cipher(seal: (Octets, Octets) -> Octets, open: (Octets, Octets) -> Option<Octets>)

  ghost predicate Lawful(c: Cipher) {
    && (forall n: Octets, p: Octets {:trigger c.seal(n, p)} ::
          |c.seal(n, p)| == |p| + TAG_SIZE && c.open(n, c.seal(n, p)) == Some(p))
    && (forall n: Octets, x: Octets {:trigger c.open(n, x)} ::
          c.open(n, x).Some? ==> |x| == |c.open(n, x).value| + TAG_SIZE)
  }

  // ----- Nonces -----

  function Pow256(n: nat): (p: nat)
    ensures p > 0
  {
    if n == 0 then 1 else 256 * Pow256(n - 1)
  }

  function LittleEndian(n: nat, v: nat): (s: Octets)
    ensures |s| == n
  {
    if n == 0 then [] else [v % 256] + LittleEndian(n - 1, v / 256)
  }

  /** The nonce of the k-th seal or open: 96 bits, wrapping. */
  function NonceAt(k: nat): (s: Octets)
    ensures |s| == NONCE_SIZE
  {
    LittleEndian(NONCE_SIZE, k)
  }

  lemma {:induction false} LittleEndianInjective(n: nat, a: nat, b: nat)
    requires a < Pow256(n) && b < Pow256(n) && LittleEndian(n, a) == LittleEndian(n, b)
    ensures a == b
  {
    if n > 0 {
      assert LittleEndian(n, a)[1..] == LittleEndian(n - 1, a / 256);
      assert LittleEndian(n, b)[1..] == LittleEndian(n - 1, b / 256);
      assert LittleEndian(n, a)[0] == a % 256 && LittleEndian(n, b)[0] == b % 256;
      LittleEndianInjective(n - 1, a / 256, b / 256);
    }
  }

  /** No two of the first 2^96 seals share a nonce. */
  lemma NoncesDistinct(i: nat, j: nat)
    requires i < Pow256(NONCE_SIZE) && j < Pow256(NONCE_SIZE) && i != j
    ensures NonceAt(i) != NonceAt(j)
  {
    if NonceAt(i) == NonceAt(j) {
      LittleEndianInjective(NONCE_SIZE, i, j);
    }
  }

  function Increment(s: Octets): (r: Octets)
    ensures |r| == |s|
  {
    if s == [] then [] else if s[0] < 255 then [s[0] + 1] + s[1..] else [0] + Increment(s[1..])
  }

  /** Carrying byte by byte is adding one to the little-endian counter, modulo 2^96 for a nonce. */
  lemma {:induction false} IncrementCounts(n: nat, v: nat)
    ensures Increment(LittleEndian(n, v)) == LittleEndian(n, v + 1)
  {
    if n > 0 {
      var s := LittleEndian(n, v);
      assert s[1..] == LittleEndian(n - 1, v / 256);
      if v % 256 < 255 {
        assert (v + 1) / 256 == v / 256 && (v + 1) % 256 == v % 256 + 1;
      } else {
        assert (v + 1) / 256 == v / 256 + 1 && (v + 1) % 256 == 0;
        IncrementCounts(n - 1, v / 256);
      }
    }
  }

  lemma {:induction false} CarryStops(s: Octets, r: Octets, i: nat)
    requires |r| == |s| && i <= |s|
    requires forall j :: 0 <= j < i ==> s[j] == 255 && r[j] == 0
    requires i < |s| ==> s[i] < 255 && r[i] == s[i] + 1
    requires forall j :: i < j < |s| ==> r[j] == s[j]
    ensures r == Increment(s)
  {
    if i > 0 {
      CarryStops(s[1..], r[1..], i - 1);
    } else if s != [] {
      assert r == [r[0]] + r[1..];
    }
  }

  method IncrementNonce(nonce: array<byte>)
    modifies nonce
    ensures nonce[..] == Increment(old(nonce[..]))
  {
    ghost var was := nonce[..];
    var i := 0;
    while i < nonce.Length
      invariant 0 <= i <= nonce.Length
      invariant forall j :: 0 <= j < i ==> was[j] == 255 && nonce[j] == 0
      invariant forall j :: i <= j < nonce.Length ==> nonce[j] == was[j]
    {
      nonce[i] := if nonce[i] == 255 then 0 else nonce[i] + 1;
      if nonce[i] != 0 {
        CarryStops(was, nonce[..], i);
        return;
      }
      i := i + 1;
    }
    CarryStops(was, nonce[..], i);
  }

  // ----- Padding is scrambled into the ciphertext -----

  /** One side of the exchange: even positions that exist on both sides change hands. */
  function Swapped(mine: Octets, other: Octets): (s: Octets)
    ensures |s| == |mine|
  {
    seq(|mine|, i requires 0 <= i < |mine| => if i % 2 == 0 && i < |other| then other[i] else mine[i])
  }

  lemma SwapTwice(a: Octets, b: Octets)
    ensures Swapped(Swapped(a, b), Swapped(b, a)) == a
  {
  }

  method SwapPadding(padding: array<byte>, ciphertext: array<byte>)
    requires padding != ciphertext
    modifies padding, ciphertext
    ensures padding[..] == Swapped(old(padding[..]), old(ciphertext[..]))
    ensures ciphertext[..] == Swapped(old(ciphertext[..]), old(padding[..]))
  {
    var limit := if padding.Length < ciphertext.Length then padding.Length else ciphertext.Length;
    var index := 0;
    while index < limit
      invariant 0 <= index <= limit + 1 && index % 2 == 0
      invariant forall i :: 0 <= i < padding.Length ==>
        padding[i] == if i % 2 == 0 && i < index && i < limit then old(ciphertext[i]) else old(padding[i])
      invariant forall i :: 0 <= i < ciphertext.Length ==>
        ciphertext[i] == if i % 2 == 0 && i < index && i < limit then old(padding[i]) else old(ciphertext[i])
    {
      padding[index], ciphertext[index] := ciphertext[index], padding[index];
      index := index + 2;
    }
  }

  // ----- Frames -----

  datatype Frame = Frame(payload: Octets, padding: Octets)

  predicate LegalFrame(f: Frame) {
    && |f.payload| <= MAX_RECORD_PAYLOAD_SIZE && |f.padding| <= MAX_RECORD_PAYLOAD_SIZE
    && (f.payload == [] ==> f.padding == [])
  }

  /** `as u16` followed by to_be_bytes. */
  function BigEndian16(n: nat): (s: Octets)
    ensures |s| == 2
  {
    [n / 256 % 256, n % 256]
  }

  function FromBigEndian16(high: byte, low: byte): nat { 256 * high + low }

  function Header(padding: nat, payload: nat): (h: Octets)
    ensures |h| == HEADER_PLAIN_SIZE
  {
    [4, 0, 0] + BigEndian16(padding) + BigEndian16(payload)
  }

  /** AEAD seals a frame consumes: one for the header, one for a payload. */
  function Seals(f: Frame): nat { if f.payload == [] then 1 else 2 }

  function TotalSeals(fs: seq<Frame>): nat {
    if fs == [] then 0 else Seals(fs[0]) + TotalSeals(fs[1..])
  }

  /** A frame on the wire when its header is the k-th seal. */
  function FrameBytes(c: Cipher, k: nat, f: Frame): Octets
  {
    var header := c.seal(NonceAt(k), Header(|f.padding|, |f.payload|));
    if f.payload == [] then header
    else
      var ciphertext := c.seal(NonceAt(k + 1), f.payload);
      header + Swapped(f.padding, ciphertext) + Swapped(ciphertext, f.padding)
  }

  function StreamBytes(c: Cipher, k: nat, fs: seq<Frame>): Octets
    decreases |fs|
  {
    if fs == [] then [] else FrameBytes(c, k, fs[0]) + StreamBytes(c, k + Seals(fs[0]), fs[1..])
  }

  lemma FrameParts(c: Cipher, k: nat, f: Frame, header: Octets, body: Octets)
    requires |f.payload| <= MAX_RECORD_PAYLOAD_SIZE && |f.padding| <= MAX_RECORD_PAYLOAD_SIZE
    requires f.payload == [] ==> f.padding == []
    requires header == c.seal(NonceAt(k), Header(|f.padding|, |f.payload|))
    requires f.payload == [] ==> body == []
    requires f.payload != [] ==> var ciphertext := c.seal(NonceAt(k + 1), f.payload);
                                 body == Swapped(f.padding, ciphertext) + Swapped(ciphertext, f.padding)
    ensures LegalFrame(f) && FrameBytes(c, k, f) == header + body
  {
  }

  /** The bytes of a frame, position by position: a sealed header, then padding and ciphertext with every other shared byte exchanged. */
  lemma FrameOnWire(c: Cipher, k: nat, f: Frame)
    requires Lawful(c) && LegalFrame(f)
    ensures var wire := FrameBytes(c, k, f);
      var p, n := |f.padding|, |f.payload|;
      && |wire| == 23 + (if n == 0 then 0 else p + n + 16)
      && wire[..23] == c.seal(NonceAt(k), [4, 0, 0, p / 256, p % 256, n / 256, n % 256])
      && (n > 0 ==>
          var sealed := c.seal(NonceAt(k + 1), f.payload);
          && (forall i :: 0 <= i < p ==> wire[23 + i] == if i % 2 == 0 && i < n + 16 then sealed[i] else f.padding[i])
          && (forall i :: 0 <= i < n + 16 ==> wire[23 + p + i] == if i % 2 == 0 && i < p then f.padding[i] else sealed[i]))
  {
    hide NonceAt, Swapped, BigEndian16, Header;
    var p, n := |f.padding|, |f.payload|;
    var header := c.seal(NonceAt(k), Header(p, n));
    HeaderBytes(p, n);
    if n > 0 {
      var sealed := c.seal(NonceAt(k + 1), f.payload);
      BodyOnWire(header, f.padding, sealed);
    } else {
      assert header[..23] == header;
    }
  }

  lemma BodyOnWire(header: Octets, padding: Octets, sealed: Octets)
    ensures var wire := header + Swapped(padding, sealed) + Swapped(sealed, padding);
      && |wire| == |header| + |padding| + |sealed| && wire[..|header|] == header
      && (forall i :: 0 <= i < |padding| ==> wire[|header| + i] == if i % 2 == 0 && i < |sealed| then sealed[i] else padding[i])
      && (forall i :: 0 <= i < |sealed| ==> wire[|header| + |padding| + i] == if i % 2 == 0 && i < |padding| then padding[i] else sealed[i])
  {
    hide Swapped;
    SwappedBytes(padding, sealed);
    SwappedBytes(sealed, padding);
    Positions(header, Swapped(padding, sealed), Swapped(sealed, padding));
  }

  lemma HeaderBytes(p: nat, n: nat)
    requires p <= 16383 && n <= 16383
    ensures Header(p, n) == [4, 0, 0, p / 256, p % 256, n / 256, n % 256]
  {
  }

  lemma SwappedBytes(mine: Octets, other: Octets)
    ensures forall i :: 0 <= i < |mine| ==> Swapped(mine, other)[i] == if i % 2 == 0 && i < |other| then other[i] else mine[i]
  {
  }

  lemma Positions(a: Octets, b: Octets, c: Octets)
    ensures var s := a + b + c;
      && |s| == |a| + |b| + |c| && s[..|a|] == a
      && (forall i :: 0 <= i < |b| ==> s[|a| + i] == b[i]) && (forall i :: 0 <= i < |c| ==> s[|a| + |b| + i] == c[i])
  {
  }

  /** Which frames are legal, in numbers. */
  lemma LegalSizes(f: Frame)
    ensures LegalFrame(f) <==> |f.payload| <= 16383 && |f.padding| <= 16383 && (|f.payload| == 0 ==> |f.padding| == 0)
  {
  }

  /** The nonce of a seal, byte by byte: twelve bytes, least significant first. */
  lemma {:induction false} LittleEndianBytes(n: nat, v: nat, j: nat)
    requires j < n
    ensures LittleEndian(n, v)[j] == v / Pow256(j) % 256
  {
    if j > 0 {
      LittleEndianBytes(n - 1, v / 256, j - 1);
      DivideTwice(v, Pow256(j - 1));
    }
  }

  lemma DivideTwice(v: nat, b: nat)
    requires b > 0
    ensures v / 256 / b == v / (256 * b)
  {
    var q, r := v / 256, v % 256;
    var p, s := q / b, q % b;
    assert q == b * p + s;
    assert (256 * b) * p == 256 * (b * p);
    QuotientIs(v, 256 * b, p, 256 * s + r);
  }

  // ----- Reading a frame -----

  datatype Kind = Payload | Zero

  datatype ReadError = UnexpectedEof | BadHeaderTag | BadHeader | BadSize | PaddedZero | BadPayloadTag

  datatype Decoded = Decoded(kind: Kind, payload: Octets, rest: Octets, opens: nat)

  /** Reads one frame whose header is the k-th open. */
  function ReadFrame(c: Cipher, k: nat, input: Octets): Result<Decoded, ReadError> {
    if |input| < HEADER_CIPHER_SIZE then Err(UnexpectedEof)
    else
      var header := c.open(NonceAt(k), input[..HEADER_CIPHER_SIZE]);
      if header.None? || |header.value| != HEADER_PLAIN_SIZE then Err(BadHeaderTag)
      else
        var h := header.value;
        if h[0] != 4 then Err(BadHeader)
        else
          ReadBody(c, k + 1, FromBigEndian16(h[3], h[4]), FromBigEndian16(h[5], h[6]), input[HEADER_CIPHER_SIZE..])
  }

  function ReadBody(c: Cipher, k: nat, paddingLength: nat, payloadLength: nat, input: Octets): Result<Decoded, ReadError> {
    if payloadLength > MAX_RECORD_PAYLOAD_SIZE || paddingLength > MAX_RECORD_PAYLOAD_SIZE then Err(BadSize)
    else if payloadLength == 0 then
      if paddingLength != 0 then Err(PaddedZero) else Ok(Decoded(Zero, [], input, k))
    else
      var length := paddingLength + payloadLength + TAG_SIZE;
      if |input| < length then Err(UnexpectedEof)
      else
        var ciphertext := Swapped(input[paddingLength..length], input[..paddingLength]);
        var plain := c.open(NonceAt(k), ciphertext);
        if plain.None? || |plain.value| != payloadLength then Err(BadPayloadTag)
        else Ok(Decoded(Payload, plain.value, input[length..], k + 1))
  }

  function KindOf(f: Frame): Kind { if f.payload == [] then Zero else Payload }

  lemma HeaderRoundTrip(c: Cipher, k: nat, f: Frame, body: Octets)
    requires Lawful(c) && LegalFrame(f)
    ensures ReadFrame(c, k, c.seal(NonceAt(k), Header(|f.padding|, |f.payload|)) + body)
         == ReadBody(c, k + 1, |f.padding|, |f.payload|, body)
  {
    hide ReadBody;
    var h := Header(|f.padding|, |f.payload|);
    var sealed := c.seal(NonceAt(k), h);
    assert (sealed + body)[..HEADER_CIPHER_SIZE] == sealed;
    assert (sealed + body)[HEADER_CIPHER_SIZE..] == body;
    assert FromBigEndian16(h[3], h[4]) == |f.padding| && FromBigEndian16(h[5], h[6]) == |f.payload|;
  }

  /** A legal frame is read back exactly, leaving the rest of the stream and an equal nonce counter. */
  lemma FrameRoundTrip(c: Cipher, k: nat, f: Frame, rest: Octets)
    requires Lawful(c) && LegalFrame(f)
    ensures ReadFrame(c, k, FrameBytes(c, k, f) + rest) == Ok(Decoded(KindOf(f), f.payload, rest, k + Seals(f)))
  {
    var header := c.seal(NonceAt(k), Header(|f.padding|, |f.payload|));
    if f.payload == [] {
      HeaderRoundTrip(c, k, f, rest);
    } else {
      var sealed := c.seal(NonceAt(k + 1), f.payload);
      var front, back := Swapped(f.padding, sealed), Swapped(sealed, f.padding);
      var body := front + back + rest;
      assert FrameBytes(c, k, f) + rest == header + body;
      HeaderRoundTrip(c, k, f, body);
      var length := |f.padding| + |f.payload| + TAG_SIZE;
      assert body[..|f.padding|] == front && body[|f.padding|..length] == back && body[length..] == rest;
      SwapTwice(sealed, f.padding);
    }
  }

  /** What a reader reports of one frame, and its nonce counter afterwards. */
  datatype Item = Item(kind: Kind, payload: Octets, opens: nat)

  /** Reading |items| frames in a row reports `items`, and leaves `rest` unread and the nonce counter at `opens`. */
  predicate ReadsAs(c: Cipher, k: nat, input: Octets, items: seq<Item>, rest: Octets, opens: nat)
    decreases |items|
  {
    if items == [] then input == rest && k == opens
    else
      var r := ReadFrame(c, k, input);
      r.Ok? && items[0] == Item(r.value.kind, r.value.payload, r.value.opens)
      && ReadsAs(c, r.value.opens, r.value.rest, items[1..], rest, opens)
  }

  /** What was written, with the writer's nonce counter after each frame. */
  function Written(k: nat, fs: seq<Frame>): (items: seq<Item>)
    ensures |items| == |fs|
    decreases |fs|
  {
    if fs == [] then []
    else [Item(KindOf(fs[0]), fs[0].payload, k + Seals(fs[0]))] + Written(k + Seals(fs[0]), fs[1..])
  }

  lemma ReadFirst(c: Cipher, k: nat, f: Frame, stream: Octets, items: seq<Item>, rest: Octets, opens: nat)
    requires Lawful(c) && LegalFrame(f)
    requires ReadsAs(c, k + Seals(f), stream + rest, items, rest, opens)
    ensures ReadsAs(c, k, FrameBytes(c, k, f) + stream + rest, [Item(KindOf(f), f.payload, k + Seals(f))] + items, rest, opens)
  {
    FrameRoundTrip(c, k, f, stream + rest);
    Regroup(FrameBytes(c, k, f), stream, rest);
    assert ([Item(KindOf(f), f.payload, k + Seals(f))] + items)[1..] == items;
  }

  /** Any legal frames with any padding: the reader reports what was written, in step with the writer's nonces. */
  lemma {:induction false} StreamRoundTrip(c: Cipher, k: nat, fs: seq<Frame>, rest: Octets)
    requires Lawful(c) && forall i :: 0 <= i < |fs| ==> LegalFrame(fs[i])
    ensures ReadsAs(c, k, StreamBytes(c, k, fs) + rest, Written(k, fs), rest, k + TotalSeals(fs))
    decreases |fs|
  {
    hide ReadFrame, FrameBytes;
    if fs == [] {
      assert StreamBytes(c, k, fs) + rest == rest;
    } else {
      var next := k + Seals(fs[0]);
      StreamRoundTrip(c, next, fs[1..], rest);
      ReadFirst(c, k, fs[0], StreamBytes(c, next, fs[1..]), Written(next, fs[1..]), rest, next + TotalSeals(fs[1..]));
    }
  }

  // ----- The frames of one application write -----

  function DataFrames(content: Octets): (fs: seq<Frame>)
    ensures forall f :: f in fs ==> LegalFrame(f) && f.payload != [] && f.padding == []
    ensures content == [] ==> fs == []
  {
    if content == [] then []
    else if |content| <= MAX_RECORD_PAYLOAD_SIZE then [Frame(content, [])]
    else [Frame(content[..MAX_RECORD_PAYLOAD_SIZE], [])] + DataFrames(content[MAX_RECORD_PAYLOAD_SIZE..])
  }

  function Payloads(fs: seq<Frame>): Octets {
    if fs == [] then [] else fs[0].payload + Payloads(fs[1..])
  }

  /** A write of any size, even an empty one, carries exactly its bytes and no zero record. */
  lemma {:induction false} DataFramesCarryContent(content: Octets)
    ensures Payloads(DataFrames(content)) == content
    ensures forall f :: f in DataFrames(content) ==> KindOf(f) == Payload
  {
    if |content| > MAX_RECORD_PAYLOAD_SIZE {
      DataFramesCarryContent(content[MAX_RECORD_PAYLOAD_SIZE..]);
      assert DataFrames(content)[1..] == DataFrames(content[MAX_RECORD_PAYLOAD_SIZE..]);
      assert content == content[..MAX_RECORD_PAYLOAD_SIZE] + content[MAX_RECORD_PAYLOAD_SIZE..];
    }
  }

  /** Every frame of a write but the last is full, and the last is not empty. */
  lemma {:induction false} DataFrameSizes(content: Octets)
    ensures var fs := DataFrames(content);
      && (forall i :: 0 <= i < |fs| - 1 ==> |fs[i].payload| == 16383)
      && (fs != [] ==> 1 <= |fs[|fs| - 1].payload| <= 16383)
      && (fs == [] <==> content == [])
  {
    if |content| > MAX_RECORD_PAYLOAD_SIZE {
      var rest := DataFrames(content[MAX_RECORD_PAYLOAD_SIZE..]);
      DataFrameSizes(content[MAX_RECORD_PAYLOAD_SIZE..]);
      assert DataFrames(content)[1..] == rest;
    }
  }

  /** What a reader makes of any header that opens: every refusal, and what the body then has to be. */
  lemma HeaderForm(c: Cipher, k: nat, v: byte, a: byte, b: byte, p1: byte, p0: byte, n1: byte, n0: byte, body: Octets)
    requires Lawful(c)
    ensures var p, n: nat := 256 * p1 as int + p0, 256 * n1 as int + n0;
      var r := ReadFrame(c, k, c.seal(NonceAt(k), [v, a, b, p1, p0, n1, n0]) + body);
      && (v != 4 ==> r == Err(BadHeader))
      && (v == 4 && (p > 16383 || n > 16383) ==> r == Err(BadSize))
      && (v == 4 && p <= 16383 && n == 0 ==> r == if p == 0 then Ok(Decoded(Zero, [], body, k + 1)) else Err(PaddedZero))
      && (v == 4 && p <= 16383 && 0 < n <= 16383 && |body| < p + n + 16 ==> r == Err(UnexpectedEof))
  {
    var h := [v, a, b, p1, p0, n1, n0];
    var sealed := c.seal(NonceAt(k), h);
    assert (sealed + body)[..23] == sealed && (sealed + body)[23..] == body;
    assert c.open(NonceAt(k), sealed) == Some(h);
  }

  /** What does not open is refused, and so is an input too short for a header. */
  lemma UnopenedForm(c: Cipher, k: nat, input: Octets)
    ensures |input| < 23 ==> ReadFrame(c, k, input) == Err(UnexpectedEof)
    ensures |input| >= 23 && c.open(NonceAt(k), input[..23]).None? ==> ReadFrame(c, k, input) == Err(BadHeaderTag)
  {
  }

  // ----- The writer -----

  datatype WriteError = InvalidSize | PaddedZeroRecord | NoRandomness | TransportFailed

  /** Why a frame is not encoded, before any transport is involved. */
  function EncodeFault(payload: Octets, paddingLength: nat, random: Option<Octets>): Option<WriteError> {
    if |payload| > MAX_RECORD_PAYLOAD_SIZE || paddingLength > MAX_RECORD_PAYLOAD_SIZE then Some(InvalidSize)
    else if payload == [] && paddingLength != 0 then Some(PaddedZeroRecord)
    else if paddingLength != 0 && random.None? then Some(NoRandomness)
    else None
  }

  class RecordWriter {
    const cipher: Cipher
    const salt: Octets
    var wire: Octets
    var saltSent: bool
    const nonce: array<byte>
    /** Every nonce handed to the AEAD, in order. */
    ghost var sealed: seq<Octets>
    /** Whether a write to the transport has failed. */
    ghost var failed: bool

    ghost predicate Valid()
      reads this, nonce
    {
      && nonce.Length == NONCE_SIZE && nonce[..] == NonceAt(|sealed|)
      && forall i :: 0 <= i < |sealed| ==> sealed[i] == NonceAt(i)
    }

    constructor (cipher: Cipher, salt: Octets)
      ensures Valid() && fresh(nonce)
      ensures this.cipher == cipher && this.salt == salt && wire == [] && !saltSent && sealed == [] && !failed
    {
      this.cipher, this.salt, wire, saltSent, sealed, failed := cipher, salt, [], false, [], false;
      nonce := new byte[NONCE_SIZE](_ => 0);
      new;
      ZeroNonce();
      assert nonce[..] == NonceAt(0);
    }

    method MarkSaltSent()
      requires Valid()
      modifies this`saltSent
      ensures Valid() && saltSent
    {
      saltSent := true;
    }

    /** What a frame starts with: the salt, once. */
    function SaltPrefix(): Octets
      reads this`saltSent
    {
      if saltSent then [] else salt
    }

    method Seal(plain: Octets) returns (ciphertext: Octets)
      requires Valid()
      modifies this`sealed, nonce
      ensures Valid() && sealed == old(sealed) + [NonceAt(|old(sealed)|)]
      ensures ciphertext == cipher.seal(NonceAt(|old(sealed)|), plain)
    {
      ciphertext := cipher.seal(nonce[..], plain);
      IncrementCounts(NONCE_SIZE, |sealed|);
      sealed := sealed + [nonce[..]];
      IncrementNonce(nonce);
    }

    /** `random` is what the system generator gives for the padding, if it gives anything. */
    method EncodeFrameAppend(frame: Octets, payload: Octets, paddingLength: nat, random: Option<Octets>)
      returns (r: Result<Octets, WriteError>)
      requires Valid()
      requires random.Some? ==> |random.value| == paddingLength
      modifies this`saltSent, this`sealed, nonce
      ensures Valid() && |sealed| >= |old(sealed)|
      ensures r.Ok? <==> EncodeFault(payload, paddingLength, random).None?
      ensures r.Err? ==> EncodeFault(payload, paddingLength, random) == Some(r.error)
      ensures r.Ok? ==> var f := Frame(payload, if paddingLength == 0 then [] else random.value);
                        && LegalFrame(f) && saltSent && |sealed| == |old(sealed)| + Seals(f)
                        && r.value == frame + old(SaltPrefix()) + FrameBytes(cipher, |old(sealed)|, f)
      ensures r.Err? && r.error != NoRandomness ==> unchanged(this) && nonce[..] == old(nonce[..])
      ensures r.Err? && r.error == NoRandomness ==> saltSent && |sealed| == |old(sealed)| + 1
    {
      if |payload| > MAX_RECORD_PAYLOAD_SIZE || paddingLength > MAX_RECORD_PAYLOAD_SIZE {
        return Err(InvalidSize);
      }
      if payload == [] && paddingLength != 0 {
        return Err(PaddedZeroRecord);
      }
      hide FrameBytes, LegalFrame;
      var output := frame + SaltPrefix();
      saltSent := true;
      var header := Seal(Header(paddingLength, |payload|));
      if paddingLength != 0 && random.None? {
        return Err(NoRandomness);
      }
      var padding := new byte[paddingLength](i requires 0 <= i < paddingLength && random.Some? && |random.value| == paddingLength => random.value[i]);
      ghost var f := Frame(payload, if paddingLength == 0 then [] else random.value);
      assert padding[..] == f.padding;
      var body: Octets := [];
      if payload != [] {
        var sealedPayload := Seal(payload);
        var ciphertext := new byte[|sealedPayload|](i requires 0 <= i < |sealedPayload| => sealedPayload[i]);
        assert ciphertext[..] == sealedPayload;
        SwapPadding(padding, ciphertext);
        body := padding[..] + ciphertext[..];
      }
      FrameParts(cipher, |old(sealed)|, f, header, body);
      return Ok(output + (header + body));
    }

    /** The transport may stop after any part of the content. */
    method WriteAndFlush(content: Octets) returns (ok: bool)
      modifies this`wire, this`failed
      ensures failed == (old(failed) || !ok)
      ensures old(wire) <= wire <= old(wire) + content
      ensures ok ==> wire == old(wire) + content
    {
      var accepted: nat :| accepted <= |content|;
      wire := wire + content[..accepted];
      ok := *;
      if accepted < |content| {
        ok := false;
      }
      failed := failed || !ok;
    }

    method WriteFrame(payload: Octets, paddingLength: nat, random: Option<Octets>) returns (r: Result<(), WriteError>)
      requires Valid()
      requires random.Some? ==> |random.value| == paddingLength
      modifies this, nonce
      ensures Valid() && |sealed| >= |old(sealed)|
      ensures failed == (old(failed) || r == Err(TransportFailed))
      ensures EncodeFault(payload, paddingLength, random).Some? <==> r.Err? && r.error != TransportFailed
      ensures r.Err? && r.error != TransportFailed ==> EncodeFault(payload, paddingLength, random) == Some(r.error)
      ensures r.Ok? && paddingLength != 0 ==> random.Some?
      ensures r.Ok? ==> var f := Frame(payload, if paddingLength == 0 then [] else random.value);
                        && LegalFrame(f) && saltSent
                        && |sealed| == |old(sealed)| + Seals(f)
                        && wire == old(wire) + old(SaltPrefix()) + FrameBytes(cipher, |old(sealed)|, f)
      ensures r.Err? && r.error != TransportFailed ==> wire == old(wire)
    {
      hide FrameBytes;
      var encoded := EncodeFrameAppend([], payload, paddingLength, random);
      if encoded.Err? {
        return Err(encoded.error);
      }
      var ok := WriteAndFlush(encoded.value);
      return if ok then Ok(()) else Err(TransportFailed);
    }

    method AppendChunk(frame: Octets, chunk: Octets, ghost start: Octets, ghost prefix: Octets, ghost k: nat, ghost done: seq<Frame>)
      returns (output: Octets)
      requires Valid() && 0 < |chunk| <= MAX_RECORD_PAYLOAD_SIZE
      requires |sealed| == k + TotalSeals(done)
      requires if done == [] then SaltPrefix() == prefix else saltSent
      requires wire + frame == WireAfter(start, prefix, cipher, k, done)
      modifies this`saltSent, this`sealed, nonce
      ensures Valid() && saltSent && |sealed| == k + TotalSeals(done + [Frame(chunk, [])])
      ensures wire + output == WireAfter(start, prefix, cipher, k, done + [Frame(chunk, [])])
    {
      hide FrameBytes, StreamBytes;
      ghost var lead := SaltPrefix();
      var encoded := EncodeFrameAppend(frame, chunk, 0, None);
      output := encoded.value;
      WireAfterAppend(start, prefix, cipher, k, done, Frame(chunk, []));
      Regroup3(wire, frame, lead, FrameBytes(cipher, k + TotalSeals(done), Frame(chunk, [])));
    }

    /** Writes what has been batched once it is large enough. */
    method WriteFullBatch(frame: Octets) returns (ok: bool, kept: Octets)
      modifies this`wire, this`failed
      ensures failed == (old(failed) || !ok)
      ensures old(wire) <= wire <= old(wire) + frame
      ensures ok ==> wire + kept == old(wire) + frame && |kept| < WRITE_BATCH_LIMIT
    {
      ok, kept := true, frame;
      if |frame| >= WRITE_BATCH_LIMIT {
        ok := WriteAndFlush(frame);
        kept := [];
      }
    }

    /** Batches the frames of one write; what reaches the wire does not depend on the batching. */
    method WritePayload(content: Octets) returns (r: Result<(), WriteError>)
      requires Valid()
      modifies this, nonce
      ensures Valid() && |sealed| >= |old(sealed)|
      ensures var all := WireAfter(old(wire), old(SaltPrefix()), cipher, |old(sealed)|, DataFrames(content));
              old(wire) <= wire <= all && (r.Ok? ==> wire == all)
      ensures failed == (old(failed) || r.Err?) && (r.Err? ==> r.error == TransportFailed)
      ensures r.Ok? ==> |sealed| == |old(sealed)| + TotalSeals(DataFrames(content))
                        && saltSent == (old(saltSent) || content != [])
    {
      hide FrameBytes, StreamBytes, DataFrames, TotalSeals, WireAfter, NonceAt;
      ghost var k, start, prefix := |sealed|, wire, SaltPrefix();
      ghost var all := DataFrames(content);
      NothingWritten(start, prefix, cipher, k);
      ghost var done: seq<Frame> := [];
      var frame: Octets := [];
      var position := 0;
      while position < |content|
        invariant Valid() && 0 <= position <= |content| && start <= wire
        invariant all == done + DataFrames(content[position..])
        invariant |sealed| == k + TotalSeals(done)
        invariant if done == [] then position == 0 && SaltPrefix() == prefix else saltSent
        invariant saltSent == (old(saltSent) || position != 0)
        invariant wire + frame == WireAfter(start, prefix, cipher, k, done)
        invariant failed == old(failed)
        decreases |content| - position
      {
        var size := if |content| - position < MAX_RECORD_PAYLOAD_SIZE then |content| - position else MAX_RECORD_PAYLOAD_SIZE;
        var chunk := content[position..position + size];
        NextChunk(content, position, chunk);
        frame := AppendChunk(frame, chunk, start, prefix, k, done);
        Regroup(done, [Frame(chunk, [])], DataFrames(content[position + size..]));
        done := done + [Frame(chunk, [])];
        position := position + size;
        ghost var sent := WireAfter(start, prefix, cipher, k, done);
        WireAfterPrefix(start, prefix, cipher, k, done, DataFrames(content[position..]));
        var ok: bool;
        ok, frame := WriteFullBatch(frame);
        if !ok {
          PrefixOfPrefix(wire, sent, WireAfter(start, prefix, cipher, k, all));
          return Err(TransportFailed);
        }
      }
      assert DataFrames(content[position..]) == [];
      assert done == all;
      var ok := WriteAndFlush(frame);
      return if ok then Ok(()) else Err(TransportFailed);
    }
  }

  lemma PrefixOfPrefix(a: Octets, b: Octets, c: Octets)
    requires a <= b <= c
    ensures a <= c
  {
  }

  lemma Regroup3(a: Octets, b: Octets, c: Octets, d: Octets)
    ensures a + (b + c + d) == a + b + c + d
  {
  }

  /** The wire once some frames of a write have followed `start`: the salt goes out with the first of them. */
  ghost function WireAfter(start: Octets, prefix: Octets, c: Cipher, k: nat, fs: seq<Frame>): Octets
  {
    start + (if fs == [] then [] else prefix) + StreamBytes(c, k, fs)
  }

  lemma NothingWritten(start: Octets, prefix: Octets, c: Cipher, k: nat)
    ensures WireAfter(start, prefix, c, k, []) == start && TotalSeals([]) == 0
  {
  }

  lemma WireAfterAppend(start: Octets, prefix: Octets, c: Cipher, k: nat, fs: seq<Frame>, f: Frame)
    ensures WireAfter(start, prefix, c, k, fs + [f])
         == WireAfter(start, prefix, c, k, fs) + (if fs == [] then prefix else []) + FrameBytes(c, k + TotalSeals(fs), f)
    ensures TotalSeals(fs + [f]) == TotalSeals(fs) + Seals(f)
  {
    hide FrameBytes;
    StreamConcat(c, k, fs, [f]);
  }

  lemma WireAfterPrefix(start: Octets, prefix: Octets, c: Cipher, k: nat, fs: seq<Frame>, more: seq<Frame>)
    requires fs != []
    ensures WireAfter(start, prefix, c, k, fs) <= WireAfter(start, prefix, c, k, fs + more)
  {
    hide FrameBytes;
    StreamConcat(c, k, fs, more);
  }

  lemma NextChunk(content: Octets, position: nat, chunk: Octets)
    requires position < |content| && position + |chunk| <= |content| && chunk == content[position..position + |chunk|]
    requires |chunk| == if |content| - position < MAX_RECORD_PAYLOAD_SIZE then |content| - position else MAX_RECORD_PAYLOAD_SIZE
    ensures DataFrames(content[position..]) == [Frame(chunk, [])] + DataFrames(content[position + |chunk|..])
  {
    var rest := content[position..];
    assert chunk == rest[..|chunk|] && content[position + |chunk|..] == rest[|chunk|..];
    if |rest| <= MAX_RECORD_PAYLOAD_SIZE {
      assert chunk == rest && rest[|chunk|..] == [];
    }
  }

  lemma ZeroNonce()
    ensures LittleEndian(NONCE_SIZE, 0) == seq(NONCE_SIZE, _ => 0)
  {
    LittleEndianZero(NONCE_SIZE);
  }

  lemma {:induction false} LittleEndianZero(n: nat)
    ensures LittleEndian(n, 0) == seq(n, _ => 0)
  {
    if n > 0 {
      LittleEndianZero(n - 1);
    }
  }

  /** Writes may be split or batched in any way: what follows on the wire is the stream of all their frames. */
  lemma {:induction false} StreamConcat(c: Cipher, k: nat, fs: seq<Frame>, more: seq<Frame>)
    ensures StreamBytes(c, k, fs + more) == StreamBytes(c, k, fs) + StreamBytes(c, k + TotalSeals(fs), more)
    ensures TotalSeals(fs + more) == TotalSeals(fs) + TotalSeals(more)
    decreases |fs|
  {
    hide FrameBytes;
    if fs == [] {
      assert fs + more == more;
    } else {
      assert (fs + more)[1..] == fs[1..] + more;
      StreamConcat(c, k + Seals(fs[0]), fs[1..], more);
      Regroup(FrameBytes(c, k, fs[0]), StreamBytes(c, k + Seals(fs[0]), fs[1..]), StreamBytes(c, k + TotalSeals(fs), more));
    }
  }

  // ----- The reader -----

  /** Derives the cipher of a direction from its salt, the pre-shared key being fixed. */
  type KeyDerivation = Octets -> Cipher

  class RecordReader {
    const derive: KeyDerivation
    /** What the transport still holds; it ends where the peer stopped sending. */
    var input: Octets
    var aead: Option<Cipher>
    const nonce: array<byte>
    ghost var opens: nat

    ghost predicate Valid()
      reads this, nonce
    {
      nonce.Length == NONCE_SIZE && nonce[..] == NonceAt(opens)
    }

    constructor (derive: KeyDerivation, input: Octets)
      ensures Valid() && fresh(nonce)
      ensures this.derive == derive && this.input == input && aead == None && opens == 0
    {
      this.derive, this.input, aead, opens := derive, input, None, 0;
      nonce := new byte[NONCE_SIZE](_ => 0);
      new;
      ZeroNonce();
      assert nonce[..] == NonceAt(0);
    }

    constructor WithSalt(derive: KeyDerivation, salt: Octets, input: Octets)
      ensures Valid() && fresh(nonce)
      ensures this.derive == derive && this.input == input && aead == Some(derive(salt)) && opens == 0
    {
      this.derive, this.input, aead, opens := derive, input, Some(derive(salt)), 0;
      nonce := new byte[NONCE_SIZE](_ => 0);
      new;
      ZeroNonce();
      assert nonce[..] == NonceAt(0);
    }

    method Open(cipher: Cipher, ciphertext: Octets) returns (plain: Option<Octets>)
      requires Valid()
      modifies this`opens, nonce
      ensures Valid() && plain == cipher.open(NonceAt(old(opens)), ciphertext)
      ensures opens == old(opens) + if plain.Some? then 1 else 0
    {
      plain := cipher.open(nonce[..], ciphertext);
      if plain.Some? {
        IncrementCounts(NONCE_SIZE, opens);
        opens := opens + 1;
        IncrementNonce(nonce);
      }
    }

    method ReadExact(length: nat) returns (content: Option<Octets>)
      modifies this`input
      ensures |old(input)| < length ==> content == None && input == []
      ensures |old(input)| >= length ==> content == Some(old(input)[..length]) && input == old(input)[length..]
    {
      if |input| < length {
        input := [];
        return None;
      }
      content := Some(input[..length]);
      input := input[length..];
    }

    /** What the first read of a direction finds: the salt decides the cipher. */
    function Session(): Option<(Cipher, Octets)>
      reads this
    {
      if aead.Some? then Some((aead.value, input))
      else if |input| >= 16 then Some((derive(input[..16]), input[16..]))
      else None
    }

    method ReadFrameInto() returns (r: Result<Kind, ReadError>, frame: Octets)
      requires Valid()
      modifies this, nonce
      ensures Valid()
      ensures old(Session()).None? ==> r == Err(UnexpectedEof)
      ensures old(Session()).Some? ==>
        var (cipher, rest) := old(Session()).value;
        var read := ReadFrame(cipher, old(opens), rest);
        && aead == Some(cipher)
        && (read.Err? ==> r == Err(read.error))
        && (read.Ok? ==> r == Ok(read.value.kind) && frame == read.value.payload
                         && input == read.value.rest && opens == read.value.opens)
    {
      hide ReadFrame;
      frame := [];
      if aead.None? {
        var salt := ReadExact(16);
        if salt.None? {
          return Err(UnexpectedEof), [];
        }
        aead := Some(derive(salt.value));
      }
      r, frame := ReadKeyed(aead.value);
    }

    method ReadKeyed(cipher: Cipher) returns (r: Result<Kind, ReadError>, frame: Octets)
      requires Valid()
      modifies this`input, this`opens, nonce
      ensures Valid()
      ensures var read := ReadFrame(cipher, old(opens), old(input));
        && (read.Err? ==> r == Err(read.error))
        && (read.Ok? ==> r == Ok(read.value.kind) && frame == read.value.payload
                         && input == read.value.rest && opens == read.value.opens)
    {
      hide ReadBody;
      frame := [];
      var sealedHeader := ReadExact(HEADER_CIPHER_SIZE);
      if sealedHeader.None? {
        return Err(UnexpectedEof), [];
      }
      var header := Open(cipher, sealedHeader.value);
      if header.None? || |header.value| != HEADER_PLAIN_SIZE {
        return Err(BadHeaderTag), [];
      }
      if header.value[0] != 4 {
        return Err(BadHeader), [];
      }
      var paddingLength := FromBigEndian16(header.value[3], header.value[4]);
      var payloadLength := FromBigEndian16(header.value[5], header.value[6]);
      r, frame := ReadBodyInto(cipher, paddingLength, payloadLength);
    }

    method ReadBodyInto(cipher: Cipher, paddingLength: nat, payloadLength: nat)
      returns (r: Result<Kind, ReadError>, frame: Octets)
      requires Valid()
      modifies this`input, this`opens, nonce
      ensures Valid()
      ensures var read := ReadBody(cipher, old(opens), paddingLength, payloadLength, old(input));
        && (read.Err? ==> r == Err(read.error))
        && (read.Ok? ==> r == Ok(read.value.kind) && frame == read.value.payload
                         && input == read.value.rest && opens == read.value.opens)
    {
      frame := [];
      if payloadLength > MAX_RECORD_PAYLOAD_SIZE || paddingLength > MAX_RECORD_PAYLOAD_SIZE {
        return Err(BadSize), [];
      }
      if payloadLength == 0 {
        return if paddingLength != 0 then Err(PaddedZero) else Ok(Zero), [];
      }
      var content := ReadExact(paddingLength + payloadLength + TAG_SIZE);
      if content.None? {
        return Err(UnexpectedEof), [];
      }
      var front, back := content.value[..paddingLength], content.value[paddingLength..];
      var padding := new byte[|front|](i requires 0 <= i < |front| => front[i]);
      var ciphertext := new byte[|back|](i requires 0 <= i < |back| => back[i]);
      assert padding[..] == front && ciphertext[..] == back;
      SwapPadding(padding, ciphertext);
      assert front == old(input)[..paddingLength];
      assert back == old(input)[paddingLength..paddingLength + payloadLength + TAG_SIZE];
      var plain := Open(cipher, ciphertext[..]);
      if plain.None? || |plain.value| != payloadLength {
        return Err(BadPayloadTag), [];
      }
      return Ok(Payload), plain.value;
    }
  }
}
