/**
 * The framed `.kvblob` object: magic, header length, header JSON, then one AES-GCM frame for
 * every block of plaintext. AES-GCM, SHA-256 and the JSON codec are parameters with stated laws.
 */
module Kvblob {
  import opened Bytes
  import opened Blocks

  const MAGIC: bytes := [75, 86, 66, 76, 79, 66, 48, 49]
  const TAG := 16
  const NONCE_BASE := 8
  const COUNTERS: nat := 0x1_0000_0000

  datatype Header = Header(v: int, frame: pos, nonceBase: bytes, size: nat, sha256: string, mime: string,
      filename: string)

  /** What the codec uses and does not define. `seal(key, nonce, plaintext)` is ciphertext followed by its tag. */
  datatype Primitives = Primitives(
    seal: (bytes, bytes, bytes) -> bytes,
    open: (bytes, bytes, bytes) -> Option<bytes>,
    digest: bytes -> bytes,
    render: Header -> bytes,
    parse: bytes -> Option<Header>)
  {
    /**
     * AES-GCM (section 7 of NIST SP 800-38D): the tag adds 16 bytes, opening inverts sealing, and
     * the only bytes that open to `p` are the ones `p` seals to. `JSON.parse` inverts `JSON.stringify`.
     */
    ghost predicate Lawful() {
      && Tagged()
      && (forall k, n, p :: open(k, n, seal(k, n, p)) == Some(p))
      && (forall k, n, x :: open(k, n, x).Some? ==> x == seal(k, n, open(k, n, x).value))
      && (forall h :: parse(render(h)) == Some(h))
    }

    ghost predicate Tagged() { forall k, n, p :: |seal(k, n, p)| == |p| + TAG }
  }

  // ── Nonces ────────────────────────────────────────────────────────────────

  /** The 12 bytes of a frame's nonce: the 8-byte base, zero-filled when short, then the counter. */
  function NonceFor(base: bytes, counter: nat): (n: bytes)
    requires counter < COUNTERS
    ensures |n| == 12
  {
    (base + Zeros(NONCE_BASE))[..NONCE_BASE] + Be32(counter)
  }

  function Zeros(n: nat): (z: bytes)
    ensures |z| == n
  {
    seq(n, _ => 0)
  }

  /** The server's `nonceFor` fills a zeroed buffer in place. */
  method FillNonce(base: bytes, counter: nat) returns (nonce: array<byte>)
    requires counter < COUNTERS
    ensures fresh(nonce) && nonce[..] == NonceFor(base, counter)
  {
    nonce := new byte[12](_ => 0);
    var i := 0;
    while i < NONCE_BASE && i < |base|
      invariant 0 <= i <= NONCE_BASE && i <= |base|
      invariant nonce[..i] == base[..i]
      invariant forall j :: i <= j < 12 ==> nonce[j] == 0
    {
      nonce[i] := base[i];
      i := i + 1;
    }
    var word := Be32(counter);
    nonce[8], nonce[9], nonce[10], nonce[11] := word[0], word[1], word[2], word[3];
    ZeroFilled(base, nonce[..8], i);
    assert nonce[8..] == word;
  }

  lemma ZeroFilled(base: bytes, got: bytes, i: nat)
    requires |got| == NONCE_BASE && i <= NONCE_BASE && i <= |base| && (i == NONCE_BASE || i == |base|)
    requires got[..i] == base[..i] && forall j :: i <= j < NONCE_BASE ==> got[j] == 0
    ensures got == (base + Zeros(NONCE_BASE))[..NONCE_BASE]
  {
    forall j | 0 <= j < NONCE_BASE
      ensures got[j] == (base + Zeros(NONCE_BASE))[j]
    {
      if j < i {
        assert got[j] == got[..i][j];
      }
    }
  }

  method NonceBytes(base: bytes, counter: nat) returns (nonce: bytes)
    requires counter < COUNTERS
    ensures nonce == NonceFor(base, counter)
  {
    var buffer := FillNonce(base, counter);
    nonce := buffer[..];
  }

  /** No two frames of one object share a nonce, as section 8.2.1 of NIST SP 800-38D requires. */
  lemma NoncesDistinct(base: bytes, i: nat, j: nat)
    requires i < COUNTERS && j < COUNTERS && i != j
    ensures NonceFor(base, i) != NonceFor(base, j)
  {
    WordsRoundTrip(i);
    WordsRoundTrip(j);
    assert NonceFor(base, i)[NONCE_BASE..] == Be32(i);
    assert NonceFor(base, j)[NONCE_BASE..] == Be32(j);
  }

  // ── Frame arithmetic ──────────────────────────────────────────────────────

  /** The codec's own count of frames: a zero-length file still produces one. */
  function FrameCount(size: nat, frame: pos): (c: nat)
  {
    Max(1, CeilDiv(size, frame))
  }

  /** The shared contract's spelling of the same count. */
  function SharedFrameCount(size: nat, frame: pos): nat {
    if size == 0 then 1 else CeilDiv(size, frame)
  }

  function CipherBytes(size: nat, headerBytes: nat, frame: pos): nat {
    headerBytes + size + SharedFrameCount(size, frame) * TAG
  }

  datatype CipherRange = CipherRange(firstFrame: nat, lastFrame: nat, cipherStart: nat, cipherEnd: int)

  function CipherRangeOf(start: nat, end: nat, size: nat, frame: pos, headerBytes: nat): CipherRange
    requires 0 < size
  {
    var last := Min(end, size - 1);
    var firstFrame := start / frame;
    var lastFrame := last / frame;
    var stride := frame + TAG;
    var lastLen := Min(frame, size - lastFrame * frame);
    CipherRange(firstFrame, lastFrame, headerBytes + firstFrame * stride,
                headerBytes + lastFrame * stride + lastLen + TAG - 1)
  }

  lemma FrameCountBounds(size: nat, frame: pos)
    ensures 1 <= FrameCount(size, frame) == SharedFrameCount(size, frame)
    ensures (FrameCount(size, frame) - 1) * frame <= size <= FrameCount(size, frame) * frame
    ensures 0 < size ==> (FrameCount(size, frame) - 1) * frame < size
  {
    CeilDivBounds(size, frame);
  }

  // ── Frames ────────────────────────────────────────────────────────────────

  /** One sealing of a plaintext: everything its frames depend on. */
  datatype Sealing = Sealing(prim: Primitives, key: bytes, base: bytes, frame: pos, plain: bytes) {
    function Count(): nat { FrameCount(|plain|, frame) }

    /** Where frame `i` starts after the preamble. */
    function Offset(i: nat): nat { Cut(|plain|, frame, i) + TAG * i }

    function Frame(i: nat): bytes
      requires i < COUNTERS
    {
      prim.seal(key, NonceFor(base, i), Block(plain, frame, i))
    }

    /** Frames `lo..hi` laid end to end. */
    function Frames(lo: nat, hi: nat): bytes
      requires lo <= hi <= COUNTERS
      decreases hi - lo
    {
      if lo == hi then [] else Frames(lo, hi - 1) + Frame(hi - 1)
    }

    lemma {:induction false} FramesLength(lo: nat, hi: nat)
      requires prim.Tagged() && lo <= hi <= COUNTERS
      ensures |Frames(lo, hi)| == Offset(hi) - Offset(lo)
      decreases hi - lo
    {
      if lo < hi {
        FramesLength(lo, hi - 1);
        assert |Frame(hi - 1)| == |Block(plain, frame, hi - 1)| + TAG;
      }
    }

    lemma {:induction false} FramesSplit(lo: nat, mid: nat, hi: nat)
      requires lo <= mid <= hi <= COUNTERS
      ensures Frames(lo, hi) == Frames(lo, mid) + Frames(mid, hi)
      decreases hi - mid
    {
      if mid < hi {
        FramesSplit(lo, mid, hi - 1);
      }
    }

    lemma Laid(start: nat, lo: nat, hi: nat, n: nat, at: nat, to: nat)
      requires start <= lo <= hi <= n <= COUNTERS
      requires at == |Frames(start, lo)| && to == |Frames(start, hi)|
      ensures at <= to <= |Frames(start, n)| && Frames(start, n)[at..to] == Frames(lo, hi)
    {
      FramesSplit(start, lo, hi);
      FramesSplit(start, lo, n);
      FramesSplit(lo, hi, n);
      SliceMiddle(Frames(start, lo), Frames(lo, hi), Frames(hi, n));
    }

    /** Frame `i` inside a run of frames. */
    lemma FrameWithin(lo: nat, i: nat, hi: nat, at: nat, to: nat)
      requires prim.Tagged() && lo <= i < hi <= COUNTERS
      requires at == Offset(i) - Offset(lo) && to == Offset(i + 1) - Offset(lo)
      ensures at <= to <= |Frames(lo, hi)| && Frames(lo, hi)[at..to] == Frame(i)
    {
      FramesLength(lo, i);
      FramesLength(lo, i + 1);
      FrameLaid(lo, i, hi, at, to);
    }

    lemma FrameLaid(lo: nat, i: nat, hi: nat, at: nat, to: nat)
      requires lo <= i < hi <= COUNTERS && at == |Frames(lo, i)| && to == |Frames(lo, i + 1)|
      ensures at <= to <= |Frames(lo, hi)| && Frames(lo, hi)[at..to] == Frame(i)
    {
      Laid(lo, i, i + 1, hi, at, to);
      OneFrame(i);
    }

    lemma FrameAtOffset(i: nat, n: nat, at: nat, to: nat)
      requires prim.Tagged() && i < n <= COUNTERS && at == Offset(i) && to == Offset(i + 1)
      ensures at <= to <= |Frames(0, n)| && Frames(0, n)[at..to] == Frame(i)
    {
      assert Offset(0) == 0;
      FrameWithin(0, i, n, at, to);
    }

    /** Frames `lo..hi` are what the body of `n` frames holds between their offsets. */
    lemma RunWithin(lo: nat, hi: nat, n: nat)
      requires prim.Tagged() && lo <= hi <= n <= COUNTERS
      ensures Offset(lo) <= Offset(hi) <= |Frames(0, n)|
      ensures Frames(0, n)[Offset(lo)..Offset(hi)] == Frames(lo, hi)
    {
      FramesLength(0, lo);
      FramesLength(0, hi);
      Laid(0, lo, hi, n, Offset(lo), Offset(hi));
    }

    lemma OneFrame(i: nat)
      requires i < COUNTERS
      ensures Frames(i, i + 1) == Frame(i)
    {
      assert Frames(i, i) == [];
    }

    /** How much plaintext frame `i` holds. */
    function SizeAt(i: nat): nat { |Block(plain, frame, i)| }

    lemma NextOffset(i: nat)
      ensures Offset(i + 1) == Offset(i) + SizeAt(i) + TAG
    {
    }

    lemma LastCut()
      ensures Cut(|plain|, frame, Count()) == |plain|
    {
      FrameCountBounds(|plain|, frame);
      EndIsReached(|plain|, frame, Count());
    }

    /** Before the end of the plaintext, a frame's offset is a multiple of the stride. */
    lemma OffsetIsStride(i: nat)
      requires i * frame < |plain|
      ensures Cut(|plain|, frame, i) == i * frame && Offset(i) == i * (frame + TAG)
      ensures Offset(i + 1) == i * (frame + TAG) + Min(frame, |plain| - i * frame) + TAG
      ensures i < Count()
    {
      CutInside(|plain|, frame, i);
      assert i * (frame + TAG) == i * frame + TAG * i;
      FrameCountBounds(|plain|, frame);
      if Count() <= i {
        MulMonotone(Count(), i, frame);
      }
    }
  }

  /** The bytes before frame 0. */
  function Preamble(prim: Primitives, h: Header): bytes
    requires |prim.render(h)| < COUNTERS
  {
    MAGIC + Le32(|prim.render(h)|) + prim.render(h)
  }

  datatype Sealed = Sealed(blob: bytes, header: Header, headerBytes: nat)

  datatype Failure = OutOfRange | BadMagic | BadHeader | BadVersion | Truncated | NotAuthentic | HashMismatch

  function HeaderFor(prim: Primitives, plain: bytes, nonceBase: bytes, frame: pos, sha256: Option<string>, mime: string,
                     filename: string): Header {
    var digest := if sha256.Some? then sha256.value else HexEncode(prim.digest(plain));
    Header(1, frame, nonceBase, |plain|, digest, mime, filename)
  }

  /** `encryptToKvblob`, after `randomBytes` has drawn the nonce base. */
  method EncryptToKvblob(prim: Primitives, key: bytes, plain: bytes, nonceBase: bytes, frame: pos,
                         sha256: Option<string>, mime: string, filename: string)
    returns (r: Result<Sealed, Failure>)
    requires prim.Lawful() && |nonceBase| == NONCE_BASE
    ensures r.Ok? ==>
      var h := HeaderFor(prim, plain, nonceBase, frame, sha256, mime, filename);
      var s := Sealing(prim, key, nonceBase, frame, plain);
      && r.value.header == h && s.Count() <= COUNTERS && |prim.render(h)| < COUNTERS
      && r.value.headerBytes == |Preamble(prim, h)|
      && r.value.blob == Preamble(prim, h) + s.Frames(0, s.Count())
      && |r.value.blob| == CipherBytes(|plain|, r.value.headerBytes, frame)
    ensures r.Ok? <==>
      && FrameCount(|plain|, frame) <= COUNTERS
      && |prim.render(HeaderFor(prim, plain, nonceBase, frame, sha256, mime, filename))| < COUNTERS
  {
    var header := HeaderFor(prim, plain, nonceBase, frame, sha256, mime, filename);
    var headerBuf := prim.render(header);
    if |headerBuf| >= COUNTERS {
      return Err(OutOfRange);
    }
    var frames := SealFrames(prim, key, plain, nonceBase, frame);
    if frames.Err? {
      return Err(frames.error);
    }
    SealedLength(Sealing(prim, key, nonceBase, frame, plain));
    return Ok(Sealed(MAGIC + Le32(|headerBuf|) + headerBuf + frames.value, header, |MAGIC| + 4 + |headerBuf|));
  }

  lemma SealedLength(s: Sealing)
    requires s.prim.Tagged() && s.Count() <= COUNTERS
    ensures |s.Frames(0, s.Count())| == |s.plain| + SharedFrameCount(|s.plain|, s.frame) * TAG
  {
    s.FramesLength(0, s.Count());
    s.LastCut();
    FrameCountBounds(|s.plain|, s.frame);
  }

  /** One block, sealed under its own counter. */
  method SealFrame(prim: Primitives, key: bytes, plain: bytes, nonceBase: bytes, frame: pos, i: nat)
    returns (sealed: bytes)
    requires i < COUNTERS
    ensures sealed == Sealing(prim, key, nonceBase, frame, plain).Frame(i)
  {
    var slice := Clamp(plain, i * frame, (i + 1) * frame);
    BlockIsSlice(plain, frame, i);
    var nonce := NonceBytes(nonceBase, i);
    sealed := prim.seal(key, nonce, slice);
  }

  /** Each frame sealed in turn. */
  method SealFrames(prim: Primitives, key: bytes, plain: bytes, nonceBase: bytes, frame: pos)
    returns (r: Result<bytes, Failure>)
    ensures r.Ok? <==> FrameCount(|plain|, frame) <= COUNTERS
    ensures r.Ok? ==> r.value == Sealing(prim, key, nonceBase, frame, plain).Frames(0, FrameCount(|plain|, frame))
  {
    var frameCount := CountFrames(|plain|, frame);
    ghost var s := Sealing(prim, key, nonceBase, frame, plain);
    var frames: seq<bytes> := [];
    var i := 0;
    while i < frameCount
      invariant 0 <= i <= frameCount && i <= COUNTERS
      invariant Concat(frames) == s.Frames(0, i)
    {
      if i >= COUNTERS {
        return Err(OutOfRange);
      }
      var sealed := SealFrame(prim, key, plain, nonceBase, frame, i);
      ConcatAppend(frames, sealed);
      frames := frames + [sealed];
      i := i + 1;
    }
    return Ok(Concat(frames));
  }

  method CountFrames(size: nat, frame: pos) returns (c: nat)
    ensures c == FrameCount(size, frame)
  {
    CeilDivIsQuotient(size, frame);
    c := Max(1, (size + frame - 1) / frame);
  }

  // ── Reading ───────────────────────────────────────────────────────────────

  function ReadHeader(prim: Primitives, blob: bytes): (r: Result<(Header, nat), Failure>)
    ensures r.Ok? ==> r.value.0.v == 1 && 12 <= r.value.1
  {
    if Clamp(blob, 0, 8) != MAGIC then Err(BadMagic)
    else if |blob| < 12 then Err(OutOfRange)
    else
      var headerLen := ReadLe32(blob[8..12]);
      match prim.parse(Clamp(blob, 12, 12 + headerLen))
      case None => Err(BadHeader)
      case Some(h) => if h.v != 1 then Err(BadVersion) else Ok((h, 12 + headerLen))
  }

  /** `data` is what `blob` holds under `key`: same frames under the header's base, size and hash in agreement. */
  ghost predicate Holds(prim: Primitives, key: bytes, blob: bytes, data: bytes) {
    var r := ReadHeader(prim, blob);
    && r.Ok?
    && var (h, off) := r.value;
    var s := Sealing(prim, key, h.nonceBase, h.frame, data);
    && h.size == |data|
    && s.Count() <= COUNTERS
    && off <= |blob|
    && s.Frames(0, s.Count()) <= blob[off..]
    && HashesMatch(HexEncode(prim.digest(data)), h.sha256)
  }

  /** `decryptFromKvblob` answers with exactly the data the object holds, and fails when it holds none. */
  method DecryptFromKvblob(prim: Primitives, key: bytes, blob: bytes)
    returns (r: Result<(bytes, Header), Failure>)
    requires prim.Lawful()
    ensures r.Ok? ==> Holds(prim, key, blob, r.value.0) && r.value.1 == ReadHeader(prim, blob).value.0
    ensures r.Err? ==> forall data :: !Holds(prim, key, blob, data)
    ensures ReadHeader(prim, blob).Err? ==> r == Err(ReadHeader(prim, blob).error)
  {
    var read := ReadHeader(prim, blob);
    if read.Err? {
      return Err(read.error);
    }
    var (header, bodyOffset) := read.value;
    var recovered := OpenFrames(prim, key, blob, header, bodyOffset);
    if recovered.Err? {
      return Err(recovered.error);
    }
    Finish(prim, key, blob, header, bodyOffset, recovered.value);
    if !HashesMatch(HexEncode(prim.digest(recovered.value)), header.sha256) {
      return Err(HashMismatch);
    }
    return Ok((recovered.value, header));
  }

  /** Every frame opened in turn, at the running offset. */
  method OpenFrames(prim: Primitives, key: bytes, blob: bytes, header: Header, bodyOffset: nat)
    returns (r: Result<bytes, Failure>)
    requires prim.Lawful() && ReadHeader(prim, blob) == Ok((header, bodyOffset))
    ensures r.Ok? ==> FrameCount(header.size, header.frame) <= COUNTERS
    ensures r.Ok? ==> Recovered(prim, key, blob, header, bodyOffset, r.value, FrameCount(header.size, header.frame))
    ensures r.Err? ==> forall data :: !Holds(prim, key, blob, data)
  {
    var frameCount := CountFrames(header.size, header.frame);
    var out: seq<bytes> := [];
    var offset := bodyOffset;
    var i := 0;
    while i < frameCount
      invariant 0 <= i <= frameCount && i <= COUNTERS
      invariant offset == bodyOffset + |Concat(out)| + TAG * i
      invariant Recovered(prim, key, blob, header, bodyOffset, Concat(out), i)
    {
      var plainFrame := OpenNext(prim, key, blob, header, bodyOffset, offset, i, Concat(out));
      if plainFrame.Err? {
        return Err(plainFrame.error);
      }
      ConcatAppend(out, plainFrame.value);
      out := out + [plainFrame.value];
      offset := offset + |plainFrame.value| + TAG;
      i := i + 1;
    }
    return Ok(Concat(out));
  }

  /** One frame, and what opening it says about whatever the object holds. */
  method OpenNext(prim: Primitives, key: bytes, blob: bytes, header: Header, ghost bodyOffset: nat, offset: nat, i: nat,
                  ghost soFar: bytes)
    returns (r: Result<bytes, Failure>)
    requires prim.Lawful() && ReadHeader(prim, blob) == Ok((header, bodyOffset))
    requires i < FrameCount(header.size, header.frame)
    requires Recovered(prim, key, blob, header, bodyOffset, soFar, i) && offset == bodyOffset + |soFar| + TAG * i
    ensures r.Ok? ==> i < COUNTERS && Recovered(prim, key, blob, header, bodyOffset, soFar + r.value, i + 1)
    ensures r.Err? ==> forall data :: !Holds(prim, key, blob, data)
  {
    r := OpenFrame(prim, key, blob, header, offset, i);
    if r.Err? {
      NoFrameNoHolder(prim, key, blob, header, bodyOffset, soFar, i, offset);
    } else {
      Advance(prim, key, blob, header, bodyOffset, soFar, r.value, i, offset, offset + SealedLen(header, i));
    }
  }

  /** All frames opened: the data recovered is the only data the object can hold, and its hash decides. */
  lemma Finish(prim: Primitives, key: bytes, blob: bytes, h: Header, off: nat, data: bytes)
    requires prim.Lawful() && ReadHeader(prim, blob) == Ok((h, off))
    requires FrameCount(h.size, h.frame) <= COUNTERS
    requires Recovered(prim, key, blob, h, off, data, FrameCount(h.size, h.frame))
    ensures Holds(prim, key, blob, data) <==> HashesMatch(HexEncode(prim.digest(data)), h.sha256)
    ensures forall other :: Holds(prim, key, blob, other) ==> other == data
  {
    var count := FrameCount(h.size, h.frame);
    FrameCountBounds(h.size, h.frame);
    EndIsReached(h.size, h.frame, count);
    AllRecovered(prim, key, blob, h, off, data);
    forall other | Holds(prim, key, blob, other)
      ensures other == data
    {
      OnlyRecovered(prim, key, blob, h, off, data, other, count);
    }
  }

  lemma AllRecovered(prim: Primitives, key: bytes, blob: bytes, h: Header, off: nat, data: bytes)
    requires ReadHeader(prim, blob) == Ok((h, off)) && |data| == h.size && FrameCount(h.size, h.frame) <= COUNTERS
    requires FramesMatch(prim, key, blob, h, off, data, FrameCount(h.size, h.frame))
    ensures Holds(prim, key, blob, data) <==> HashesMatch(HexEncode(prim.digest(data)), h.sha256)
  {
  }

  lemma OnlyRecovered(prim: Primitives, key: bytes, blob: bytes, h: Header, off: nat, data: bytes, other: bytes, i: nat)
    requires ReadHeader(prim, blob) == Ok((h, off)) && Recovered(prim, key, blob, h, off, data, i)
    requires |data| == h.size && Holds(prim, key, blob, other)
    ensures other == data
  {
    assert data <= other && |other| == |data|;
  }

  /** The stored length of frame `i`: its plaintext, shorter at the end, and its tag. */
  function SealedLen(h: Header, i: nat): nat { Min(h.frame, Max(0, h.size - i * h.frame)) + TAG }

  /** The body of the reading loop: frame `i`, at the running offset. */
  method OpenFrame(prim: Primitives, key: bytes, blob: bytes, header: Header, offset: nat, i: nat)
    returns (r: Result<bytes, Failure>)
    ensures r.Ok? ==> i < COUNTERS && offset + SealedLen(header, i) <= |blob|
    ensures r.Ok? ==>
      prim.open(key, NonceFor(header.nonceBase, i), blob[offset..offset + SealedLen(header, i)]) == Some(r.value)
    ensures r.Err? && i < COUNTERS && offset + SealedLen(header, i) <= |blob| ==>
      prim.open(key, NonceFor(header.nonceBase, i), blob[offset..offset + SealedLen(header, i)]).None?
  {
    var plainLen := Min(header.frame, Max(0, header.size - i * header.frame));
    var cipherLen := plainLen + TAG;
    if offset + cipherLen > |blob| {
      return Err(Truncated);
    }
    if i >= COUNTERS {
      return Err(OutOfRange);
    }
    var nonce := NonceBytes(header.nonceBase, i);
    var plainFrame := prim.open(key, nonce, blob[offset..offset + cipherLen]);
    if plainFrame.None? {
      return Err(NotAuthentic);
    }
    return Ok(plainFrame.value);
  }

  /** An object whose next frame is missing or does not open holds nothing. */
  lemma NoFrameNoHolder(prim: Primitives, key: bytes, blob: bytes, h: Header, off: nat, soFar: bytes, i: nat, at: nat)
    requires prim.Lawful() && ReadHeader(prim, blob) == Ok((h, off)) && i < FrameCount(h.size, h.frame)
    requires |soFar| == Cut(h.size, h.frame, i) && at == off + |soFar| + TAG * i
    requires i < COUNTERS && at + SealedLen(h, i) <= |blob| ==>
      prim.open(key, NonceFor(h.nonceBase, i), blob[at..at + SealedLen(h, i)]).None?
    ensures forall data :: !Holds(prim, key, blob, data)
  {
    StepWidth(h.size, h.frame, i);
    HoldersGoOn(prim, key, blob, h, off, i, at, at + SealedLen(h, i));
  }

  /** Progress after `i` frames: they seal what has been recovered, and any data the object holds starts with it. */
  ghost predicate Recovered(prim: Primitives, key: bytes, blob: bytes, h: Header, off: nat, soFar: bytes, i: nat) {
    && |soFar| == Cut(h.size, h.frame, i)
    && (i > 0 ==> FramesMatch(prim, key, blob, h, off, soFar, i))
    && forall data :: Holds(prim, key, blob, data) ==> soFar <= data
  }

  ghost predicate FramesMatch(prim: Primitives, key: bytes, blob: bytes, h: Header, off: nat, soFar: bytes, i: nat) {
    var s := Sealing(prim, key, h.nonceBase, h.frame, soFar);
    i <= COUNTERS && off <= |blob| && s.Frames(0, i) <= blob[off..]
  }

  /** In an object that holds `data`, frame `i` sits where the running offset says, and opens to its block. */
  lemma HolderFrame(prim: Primitives, key: bytes, blob: bytes, data: bytes, h: Header, off: nat, i: nat, at: nat,
                    to: nat)
    requires prim.Lawful() && Holds(prim, key, blob, data) && ReadHeader(prim, blob) == Ok((h, off))
    requires i < FrameCount(|data|, h.frame)
    requires at == off + Cut(|data|, h.frame, i) + TAG * i && to == off + Cut(|data|, h.frame, i + 1) + TAG * (i + 1)
    ensures i < COUNTERS && at <= to <= |blob|
    ensures prim.open(key, NonceFor(h.nonceBase, i), blob[at..to]) == Some(Block(data, h.frame, i))
  {
    var s := Sealing(prim, key, h.nonceBase, h.frame, data);
    FrameInBody(s, s.Count(), blob, off, i, at, to);
    OpensBack(prim, key, NonceFor(h.nonceBase, i), Block(data, h.frame, i));
  }

  /** In an object whose body begins with `n` frames, each sits at its offset. */
  lemma FrameInBody(s: Sealing, n: nat, blob: bytes, off: nat, i: nat, at: nat, to: nat)
    requires s.prim.Tagged() && i < n <= COUNTERS && off <= |blob| && s.Frames(0, n) <= blob[off..]
    requires at == off + s.Offset(i) && to == off + s.Offset(i + 1)
    ensures at <= to <= |blob| && blob[at..to] == s.Frame(i)
  {
    s.FrameAtOffset(i, n, at - off, to - off);
    SliceOfPrefix(s.Frames(0, n), blob, off, at, to, s.Frame(i));
  }

  /** Whatever an object holds, its next frame is there and opens. */
  lemma HoldersGoOn(prim: Primitives, key: bytes, blob: bytes, h: Header, off: nat, i: nat, at: nat, to: nat)
    requires prim.Lawful() && ReadHeader(prim, blob) == Ok((h, off)) && i < FrameCount(h.size, h.frame)
    requires at == off + Cut(h.size, h.frame, i) + TAG * i && to == off + Cut(h.size, h.frame, i + 1) + TAG * (i + 1)
    ensures forall data :: Holds(prim, key, blob, data) ==>
      i < COUNTERS && at <= to <= |blob| && prim.open(key, NonceFor(h.nonceBase, i), blob[at..to]).Some?
  {
    forall data | Holds(prim, key, blob, data)
      ensures i < COUNTERS && at <= to <= |blob| && prim.open(key, NonceFor(h.nonceBase, i), blob[at..to]).Some?
    {
      HolderFrame(prim, key, blob, data, h, off, i, at, to);
    }
  }

  /** One more frame opened. */
  lemma Advance(prim: Primitives, key: bytes, blob: bytes, h: Header, off: nat, soFar: bytes, next: bytes, i: nat,
                at: nat, to: nat)
    requires prim.Lawful() && ReadHeader(prim, blob) == Ok((h, off)) && i < FrameCount(h.size, h.frame) && i < COUNTERS
    requires Recovered(prim, key, blob, h, off, soFar, i)
    requires at == off + |soFar| + TAG * i && to == at + SealedLen(h, i)
    requires to <= |blob| && prim.open(key, NonceFor(h.nonceBase, i), blob[at..to]) == Some(next)
    ensures Recovered(prim, key, blob, h, off, soFar + next, i + 1)
  {
    StepWidth(h.size, h.frame, i);
    Opened(prim, key, NonceFor(h.nonceBase, i), blob[at..to], next);
    ExtendMatch(prim, key, h, blob, off, soFar, next, i, at, to);
    forall data | Holds(prim, key, blob, data)
      ensures soFar + next <= data
    {
      HolderExtends(prim, key, blob, data, h, off, soFar, next, i, at, to);
    }
  }

  /** What was opened is the next block of whatever the object holds. */
  lemma HolderExtends(prim: Primitives, key: bytes, blob: bytes, data: bytes, h: Header, off: nat, soFar: bytes,
                      next: bytes, i: nat, at: nat, to: nat)
    requires prim.Lawful() && Holds(prim, key, blob, data) && ReadHeader(prim, blob) == Ok((h, off))
    requires i < FrameCount(h.size, h.frame) && i < COUNTERS && |soFar| == Cut(h.size, h.frame, i) && soFar <= data
    requires at == off + |soFar| + TAG * i && to == off + Cut(h.size, h.frame, i + 1) + TAG * (i + 1)
    requires to <= |blob| && prim.open(key, NonceFor(h.nonceBase, i), blob[at..to]) == Some(next)
    ensures soFar + next <= data
  {
    HolderFrame(prim, key, blob, data, h, off, i, at, to);
    assert next == Block(data, h.frame, i);
    PrefixGrows(data, soFar, Cut(h.size, h.frame, i), Cut(h.size, h.frame, i + 1));
  }

  lemma PrefixGrows(data: bytes, soFar: bytes, a: nat, b: nat)
    requires soFar <= data && |soFar| == a <= b <= |data|
    ensures soFar + data[a..b] <= data
  {
  }

  lemma Opened(prim: Primitives, key: bytes, nonce: bytes, sealed: bytes, p: bytes)
    requires prim.Lawful() && prim.open(key, nonce, sealed) == Some(p)
    ensures sealed == prim.seal(key, nonce, p) && |sealed| == |p| + TAG
  {
  }

  /** Sealing depends on the plaintext only through the blocks sealed. */
  lemma {:induction false} FramesAgree(a: Sealing, b: Sealing, hi: nat)
    requires a.prim == b.prim && a.key == b.key && a.base == b.base && a.frame == b.frame
    requires hi <= COUNTERS && forall i: nat | i < hi :: Block(a.plain, a.frame, i) == Block(b.plain, b.frame, i)
    ensures a.Frames(0, hi) == b.Frames(0, hi)
  {
    if 0 < hi {
      FramesAgree(a, b, hi - 1);
    }
  }

  lemma ExtendMatch(prim: Primitives, key: bytes, h: Header, blob: bytes, off: nat, soFar: bytes, next: bytes, i: nat,
                    at: nat, to: nat)
    requires prim.Tagged() && i < COUNTERS && off <= |blob| && i < FrameCount(h.size, h.frame)
    requires |soFar| == Cut(h.size, h.frame, i) && |soFar| + |next| == Cut(h.size, h.frame, i + 1)
    requires i > 0 ==> FramesMatch(prim, key, blob, h, off, soFar, i)
    requires at == off + |soFar| + TAG * i && at <= to <= |blob|
    requires blob[at..to] == prim.seal(key, NonceFor(h.nonceBase, i), next)
    ensures FramesMatch(prim, key, blob, h, off, soFar + next, i + 1)
  {
    var a := Sealing(prim, key, h.nonceBase, h.frame, soFar);
    var b := Sealing(prim, key, h.nonceBase, h.frame, soFar + next);
    SameBlocks(soFar, next, h.size, h.frame, i);
    FramesAgree(a, b, i);
    a.FramesLength(0, i);
    JoinPrefix(a.Frames(0, i), b.Frame(i), blob, off, at, to);
  }

  lemma JoinPrefix(x: bytes, y: bytes, blob: bytes, off: nat, at: nat, to: nat)
    requires off <= |blob| && x <= blob[off..] && at == off + |x| && at <= to <= |blob| && blob[at..to] == y
    ensures x + y <= blob[off..]
  {
    assert blob[off..][..|x|] == x;
    assert blob[off..][|x|..|x| + |y|] == y;
  }

  /** The blocks before `i` do not change when block `i` is appended, and block `i` is what was appended. */
  lemma SameBlocks(soFar: bytes, next: bytes, size: nat, frame: pos, i: nat)
    requires i < FrameCount(size, frame)
    requires |soFar| == Cut(size, frame, i) && |soFar| + |next| == Cut(size, frame, i + 1)
    ensures Cut(|soFar|, frame, i) == |soFar|
    ensures forall j: nat | j < i :: Block(soFar, frame, j) == Block(soFar + next, frame, j)
    ensures Block(soFar + next, frame, i) == next
  {
    FrameCountBounds(size, frame);
    MulMonotone(i, FrameCount(size, frame) - 1, frame);
    CutIsProduct(size, frame, i);
    forall j: nat | j <= i
      ensures Cut(|soFar|, frame, j) == Cut(|soFar + next|, frame, j) == j * frame
    {
      MulMonotone(j, i, frame);
      CutIsProduct(|soFar|, frame, j);
      CutIsProduct(|soFar + next|, frame, j);
    }
  }

  // ── Hex digests ───────────────────────────────────────────────────────────

  const DIGITS := "0123456789abcdef"

  function HexEncode(b: bytes): string {
    if b == [] then "" else [DIGITS[b[0] as int / 16], DIGITS[b[0] as int % 16]] + HexEncode(b[1..])
  }

  function HexValue(c: char): (v: int)
    ensures -1 <= v < 16
  {
    if '0' <= c <= '9' then c as int - '0' as int
    else if 'a' <= c <= 'f' then c as int - 'a' as int + 10
    else if 'A' <= c <= 'F' then c as int - 'A' as int + 10
    else -1
  }

  /** `Buffer.from(s, "hex")` stops at the first pair that is not hexadecimal. */
  function HexDecode(s: string): bytes {
    if |s| < 2 || HexValue(s[0]) < 0 || HexValue(s[1]) < 0 then []
    else [(HexValue(s[0]) * 16 + HexValue(s[1])) as byte] + HexDecode(s[2..])
  }

  predicate HashesMatch(a: string, b: string) { HexDecode(a) == HexDecode(b) }

  lemma NibbleRoundTrip(n: nat)
    requires n < 16
    ensures HexValue(DIGITS[n]) == n
  {
  }

  lemma {:induction false} HexRoundTrip(b: bytes)
    ensures HexDecode(HexEncode(b)) == b
  {
    if b != [] {
      var s := HexEncode(b);
      NibbleRoundTrip(b[0] as int / 16);
      NibbleRoundTrip(b[0] as int % 16);
      assert s[2..] == HexEncode(b[1..]);
      HexRoundTrip(b[1..]);
    }
  }

  // ── The laws of the format ────────────────────────────────────────────────

  lemma ReadBack(prim: Primitives, h: Header, rest: bytes)
    requires prim.Lawful() && h.v == 1 && |prim.render(h)| < COUNTERS
    ensures ReadHeader(prim, Preamble(prim, h) + rest) == Ok((h, |Preamble(prim, h)|))
  {
    var blob := Preamble(prim, h) + rest;
    var len := |prim.render(h)|;
    WordsRoundTrip(len);
    assert blob[8..12] == Le32(len);
    assert blob[..8] == MAGIC;
    assert blob[12..12 + len] == prim.render(h);
  }

  /**
   * The round trip, on every buffer and every frame size: what `EncryptToKvblob` wrote holds `data`
   * exactly when `data` is the plaintext and the hash named in the header is the plaintext's own.
   */
  lemma RoundTrip(prim: Primitives, key: bytes, plain: bytes, h: Header, data: bytes)
    requires prim.Lawful() && h.v == 1 && h.size == |plain| && |prim.render(h)| < COUNTERS
    requires FrameCount(|plain|, h.frame) <= COUNTERS
    ensures var s := Sealing(prim, key, h.nonceBase, h.frame, plain);
      Holds(prim, key, Preamble(prim, h) + s.Frames(0, s.Count()), data) <==>
        data == plain && HexDecode(h.sha256) == prim.digest(plain)
  {
    var s := Sealing(prim, key, h.nonceBase, h.frame, plain);
    var blob := Preamble(prim, h) + s.Frames(0, s.Count());
    var off := |Preamble(prim, h)|;
    ReadBack(prim, h, s.Frames(0, s.Count()));
    assert blob[off..] == s.Frames(0, s.Count());
    HexRoundTrip(prim.digest(data));
    if Holds(prim, key, blob, data) {
      HeldIsUnique(prim, key, blob, data, plain, h, off);
    }
  }

  /**
   * A document sealed and opened again: what comes out is what went in, with its type and its name, unless a hash was
   * given for it that is not its own.
   */
  method SealAndOpen(prim: Primitives, key: bytes, plain: bytes, nonceBase: bytes, frame: pos, sha256: Option<string>,
                     mime: string, filename: string)
    returns (r: Result<(bytes, string, string), Failure>)
    requires prim.Lawful() && |nonceBase| == NONCE_BASE
    ensures r.Ok? ==> r.value == (plain, mime, filename)
    ensures r.Ok? <==>
      && FrameCount(|plain|, frame) <= COUNTERS
      && |prim.render(HeaderFor(prim, plain, nonceBase, frame, sha256, mime, filename))| < COUNTERS
      && (sha256.Some? ==> HexDecode(sha256.value) == prim.digest(plain))
  {
    var sealed := EncryptToKvblob(prim, key, plain, nonceBase, frame, sha256, mime, filename);
    if sealed.Err? {
      return Err(sealed.error);
    }
    ghost var h := sealed.value.header;
    ghost var s := Sealing(prim, key, nonceBase, frame, plain);
    ReadBack(prim, h, s.Frames(0, s.Count()));
    HexRoundTrip(prim.digest(plain));
    RoundTrip(prim, key, plain, h, plain);
    var read := DecryptFromKvblob(prim, key, sealed.value.blob);
    if read.Err? {
      return Err(read.error);
    }
    RoundTrip(prim, key, plain, h, read.value.0);
    return Ok((read.value.0, read.value.1.mime, read.value.1.filename));
  }

  /** Equal frames seal equal plaintexts. */
  lemma HeldIsUnique(prim: Primitives, key: bytes, blob: bytes, data: bytes, plain: bytes, h: Header, off: nat)
    requires prim.Lawful() && Holds(prim, key, blob, data) && ReadHeader(prim, blob) == Ok((h, off))
    requires |plain| == h.size && FrameCount(|plain|, h.frame) <= COUNTERS && off <= |blob|
    requires var s := Sealing(prim, key, h.nonceBase, h.frame, plain); s.Frames(0, s.Count()) <= blob[off..]
    ensures data == plain
  {
    var a := Sealing(prim, key, h.nonceBase, h.frame, data);
    var b := Sealing(prim, key, h.nonceBase, h.frame, plain);
    BlocksFromFrames(a, b, a.Count(), blob[off..]);
    a.LastCut();
    b.LastCut();
  }

  lemma {:induction false} BlocksFromFrames(a: Sealing, b: Sealing, hi: nat, body: bytes)
    requires a.prim.Lawful() && a.prim == b.prim && a.key == b.key && a.base == b.base && a.frame == b.frame
    requires |a.plain| == |b.plain| && hi <= COUNTERS
    requires a.Frames(0, hi) <= body && b.Frames(0, hi) <= body
    ensures a.plain[..Cut(|a.plain|, a.frame, hi)] == b.plain[..Cut(|b.plain|, b.frame, hi)]
  {
    if 0 < hi {
      LastFramesAgree(a, b, hi - 1, body);
      BlocksFromFrames(a, b, hi - 1, body);
      OneBlockMore(a, b, hi - 1);
    }
  }

  lemma OneBlockMore(a: Sealing, b: Sealing, n: nat)
    requires a.prim.Lawful() && a.prim == b.prim && a.key == b.key && a.base == b.base && a.frame == b.frame
    requires |a.plain| == |b.plain| && n < COUNTERS && a.Frame(n) == b.Frame(n)
    requires a.plain[..Cut(|a.plain|, a.frame, n)] == b.plain[..Cut(|b.plain|, b.frame, n)]
    ensures a.plain[..Cut(|a.plain|, a.frame, n + 1)] == b.plain[..Cut(|b.plain|, b.frame, n + 1)]
  {
    BlockFromFrame(a, b, n);
    SamePrefix(a.plain, b.plain, Cut(|a.plain|, a.frame, n), Cut(|a.plain|, a.frame, n + 1));
  }

  lemma LastFramesAgree(a: Sealing, b: Sealing, n: nat, body: bytes)
    requires a.prim.Tagged() && a.prim == b.prim && a.frame == b.frame && |a.plain| == |b.plain| && n < COUNTERS
    requires a.Frames(0, n + 1) <= body && b.Frames(0, n + 1) <= body
    ensures a.Frames(0, n) <= body && b.Frames(0, n) <= body && a.Frame(n) == b.Frame(n)
  {
    SameSizes(a, b, n);
    SameTail(a.Frames(0, n), a.Frame(n), b.Frames(0, n), b.Frame(n), body);
  }

  lemma SameSizes(a: Sealing, b: Sealing, n: nat)
    requires a.prim.Tagged() && a.prim == b.prim && a.frame == b.frame && |a.plain| == |b.plain| && n < COUNTERS
    ensures |a.Frames(0, n)| == |b.Frames(0, n)| && |a.Frame(n)| == |b.Frame(n)|
  {
    a.FramesLength(0, n);
    b.FramesLength(0, n);
    assert |a.Frame(n)| == a.SizeAt(n) + TAG && |b.Frame(n)| == b.SizeAt(n) + TAG;
  }

  lemma BlockFromFrame(a: Sealing, b: Sealing, i: nat)
    requires a.prim.Lawful() && a.prim == b.prim && a.key == b.key && a.base == b.base && i < COUNTERS
    requires a.Frame(i) == b.Frame(i)
    ensures Block(a.plain, a.frame, i) == Block(b.plain, b.frame, i)
  {
    OpensBack(a.prim, a.key, NonceFor(a.base, i), Block(a.plain, a.frame, i));
    OpensBack(b.prim, b.key, NonceFor(b.base, i), Block(b.plain, b.frame, i));
  }

  lemma SamePrefix(x: bytes, y: bytes, a: nat, b: nat)
    requires |x| == |y| && a <= b <= |x| && x[..a] == y[..a] && x[a..b] == y[a..b]
    ensures x[..b] == y[..b]
  {
    assert x[..b] == x[..a] + x[a..b] && y[..b] == y[..a] + y[a..b];
  }

  lemma SameTail(x: bytes, y: bytes, u: bytes, v: bytes, body: bytes)
    requires x + y <= body && u + v <= body && |x| == |u| && |y| == |v|
    ensures y == v && x <= body && u <= body
  {
    assert body[..|x + y|] == x + y == u + v;
    assert (x + y)[|x|..] == y && (u + v)[|u|..] == v;
    assert body[..|x|] == (x + y)[..|x|] == x;
    assert body[..|u|] == (u + v)[..|u|] == u;
  }

  /** The shared range arithmetic names exactly the stored bytes of the frames that cover a plaintext range. */
  lemma CipherRangeCovers(s: Sealing, preamble: bytes, start: nat, end: nat)
    requires s.prim.Tagged() && start <= end && start < |s.plain| && s.Count() <= COUNTERS
    ensures var blob := preamble + s.Frames(0, s.Count());
      var r := CipherRangeOf(start, end, |s.plain|, s.frame, |preamble|);
      && r.firstFrame <= r.lastFrame < s.Count()
      && Cut(|s.plain|, s.frame, r.firstFrame) <= start
      && Min(end, |s.plain| - 1) < Cut(|s.plain|, s.frame, r.lastFrame + 1)
      && r.cipherStart <= r.cipherEnd < |blob|
      && blob[r.cipherStart..r.cipherEnd + 1] == s.Frames(r.firstFrame, r.lastFrame + 1)
  {
    var r := CipherRangeOf(start, end, |s.plain|, s.frame, |preamble|);
    RangeOffsets(s, start, end, |preamble|);
    BlobFrames(s, preamble, r.firstFrame, r.lastFrame + 1, s.Count(), r.cipherStart, r.cipherEnd + 1);
  }

  lemma BlobFrames(s: Sealing, preamble: bytes, lo: nat, hi: nat, n: nat, from: nat, to: nat)
    requires s.prim.Tagged() && lo <= hi <= n <= COUNTERS
    requires from == |preamble| + s.Offset(lo) && to == |preamble| + s.Offset(hi)
    ensures from <= to <= |preamble + s.Frames(0, n)| && (preamble + s.Frames(0, n))[from..to] == s.Frames(lo, hi)
  {
    s.RunWithin(lo, hi, n);
    SliceFrom(preamble, s.Frames(0, n), s.Offset(lo), s.Offset(hi), s.Frames(lo, hi), from, to);
  }

  /** What was sealed opens. */
  lemma OpensBack(prim: Primitives, key: bytes, nonce: bytes, p: bytes)
    requires prim.Lawful()
    ensures prim.open(key, nonce, prim.seal(key, nonce, p)) == Some(p)
  {
  }

  /** The range arithmetic agrees with the frames' own offsets. */
  lemma RangeOffsets(s: Sealing, start: nat, end: nat, headerBytes: nat)
    requires start <= end && start < |s.plain|
    ensures var r := CipherRangeOf(start, end, |s.plain|, s.frame, headerBytes);
      && r.firstFrame <= r.lastFrame < s.Count()
      && Cut(|s.plain|, s.frame, r.firstFrame) <= start
      && Min(end, |s.plain| - 1) < Cut(|s.plain|, s.frame, r.lastFrame + 1)
      && r.cipherStart == headerBytes + s.Offset(r.firstFrame)
      && r.cipherEnd + 1 == headerBytes + s.Offset(r.lastFrame + 1)
      && r.cipherStart <= r.cipherEnd
  {
    var last := Min(end, |s.plain| - 1);
    BlocksInOrder(s.frame, start, last);
    BlockOf(start, s.frame);
    BlockOf(last, s.frame);
    BlockOfPosition(|s.plain|, s.frame, start, start / s.frame);
    BlockOfPosition(|s.plain|, s.frame, last, last / s.frame);
    s.OffsetIsStride(start / s.frame);
    s.OffsetIsStride(last / s.frame);
    CutsMonotone(|s.plain|, s.frame, start / s.frame, last / s.frame);
  }
}
