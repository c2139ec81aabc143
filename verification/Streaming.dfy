/** The whole encrypted streaming path: seal, store, read back through the gateway, open and slice. */
module Streaming {
  import opened Bytes
  import opened Blocks
  import opened Ranges
  import opened Kvblob
  import opened StreamWorker
  import Gateway

  /**
   * A network that is the gateway in front of a stored object, with the failures it may add before any byte is sent.
   */
  function ThroughGateway(stored: bytes, fails: nat -> bool): Net {
    Net((n: nat, a: nat, b: nat) =>
          if fails(n) then Unreachable
          else
            match Gateway.Owed(Some(RangeHeader(a, b)), stored)
            case Sent(_, _, body) => Delivered(body)
            case Refused(status) => Failed(status),
        _ => true)
  }

  /** Every byte the gateway delivers is the byte asked for; without failures it delivers them all. */
  lemma GatewayIsHonest(stored: bytes, fails: nat -> bool)
    ensures ThroughGateway(stored, fails).Honest(stored)
    ensures (forall n :: !fails(n)) ==> ThroughGateway(stored, fails).Reliable(stored)
  {
    var net := ThroughGateway(stored, fails);
    forall n: nat, a: nat, b: nat | a <= b < |stored|
      ensures net.reply(n, a, b).Delivered? ==> net.reply(n, a, b).data == stored[a..b + 1]
      ensures !fails(n) ==> net.reply(n, a, b).Delivered?
    {
      Gateway.FetchedExactly(stored, a, b);
    }
  }

  /** What the page registers for an object, from its stored header. */
  function RegistrationFor(sealed: Sealed, key: bytes): Registration {
    var layout := Layout(sealed.header.frame, sealed.headerBytes, sealed.header.nonceBase);
    Registration(sealed.header.size, true, Some(key), Some(layout))
  }

  /**
   * Seal a document, store it, and answer any sequence of requests for it. Sealing fails exactly when
   * a frame number or the header's length would not fit in 32 bits. Whatever else fails on the way, no
   * answer ever holds a byte other than the one promised, and without failures every answer is exactly the
   * one promised: a slice of the plaintext. A refusal is the one promised, or the connection was lost.
   */
  method PlayEncrypted(prim: Primitives, key: bytes, plain: bytes, nonceBase: bytes, frame: pos, mime: string,
                       filename: string, fails: nat -> bool, headers: seq<Option<string>>)
    returns (answers: Result<seq<Response>, Failure>)
    requires prim.Lawful() && |nonceBase| == NONCE_BASE
    ensures answers.Ok? <==>
      && FrameCount(|plain|, frame) <= COUNTERS
      && |prim.render(HeaderFor(prim, plain, nonceBase, frame, None, mime, filename))| < COUNTERS
    ensures answers.Ok? ==>
      && |answers.value| == |headers|
      && forall i :: 0 <= i < |headers| ==> answers.value[i].Media? ==>
        answers.value[i].Answers(Promised(headers[i], plain))
    ensures answers.Ok? ==> forall i :: 0 <= i < |headers| ==> answers.value[i].Text? ==>
      answers.value[i] == Promised(headers[i], plain) || (answers.value[i].status == 422 && exists n :: fails(n))
    ensures answers.Ok? && (forall n :: !fails(n)) ==>
      forall i :: 0 <= i < |headers| ==> answers.value[i] == Promised(headers[i], plain)
  {
    var sealed := EncryptToKvblob(prim, key, plain, nonceBase, frame, None, mime, filename);
    if sealed.Err? {
      return Err(sealed.error);
    }
    var origin := Origin(prim, RegistrationFor(sealed.value, key), ThroughGateway(sealed.value.blob, fails));
    SealedIsPlayable(origin, sealed.value, key, plain, Preamble(prim, sealed.value.header), fails);
    var stream := new Stream(origin);
    var served := ServeAll(stream, headers, plain);
    forall i | 0 <= i < |headers| && served[i].Text?
      ensures served[i] == Promised(headers[i], plain) || (served[i].status == 422 && exists n :: fails(n))
    {
      RefusedForReason(origin, plain, Preamble(prim, sealed.value.header), fails, headers[i], served[i]);
    }
    return Ok(served);
  }

  lemma SealedIsPlayable(origin: Origin, sealed: Sealed, key: bytes, plain: bytes, preamble: bytes, fails: nat -> bool)
    requires origin == Origin(origin.prim, RegistrationFor(sealed, key), ThroughGateway(sealed.blob, fails))
    requires origin.prim.Lawful()
    requires var s := Sealing(origin.prim, key, sealed.header.nonceBase, sealed.header.frame, plain);
      && s.Count() <= COUNTERS && sealed.blob == preamble + s.Frames(0, s.Count())
      && sealed.headerBytes == |preamble| && sealed.header.size == |plain|
    ensures origin.Right(plain) && ((forall n :: !fails(n)) ==> forall header :: origin.Obtainable(header))
    ensures origin.Stored(plain, preamble) && origin.net == ThroughGateway(origin.ObjectOf(plain, preamble), fails)
  {
    GatewayIsHonest(sealed.blob, fails);
    assert origin.ObjectOf(plain, preamble) == sealed.blob;
    origin.StoredIsTrusted(plain, preamble);
    origin.TrustedIsRight(plain);
    if forall n :: !fails(n) {
      origin.HealthyIsTotal(plain, preamble);
      forall header
        ensures origin.Obtainable(header)
      {
        origin.TotalIsObtainable(header);
      }
    }
  }

  // ── An object altered in storage ──────────────────────────────────────────

  /** What an object holds where frame `i` of a document was sealed. */
  function PieceOf(s: Sealing, headerBytes: nat, stored: bytes, i: nat): bytes {
    var at := headerBytes + i * (s.frame + TAG);
    Clamp(stored, at, at + Max(0, Min(s.frame, |s.plain| - i * s.frame)) + TAG)
  }

  /**
   * Whoever wrote the stored bytes did not have the key: what stands in a frame's place opens only
   * when it is that frame. Nothing else is asked of the bytes.
   */
  ghost predicate Unforged(s: Sealing, headerBytes: nat, stored: bytes) {
    && s.Count() <= COUNTERS
    && forall i: nat | i < COUNTERS && i * s.frame < |s.plain| :: UnforgedAt(s, headerBytes, stored, i)
  }

  ghost predicate UnforgedAt(s: Sealing, headerBytes: nat, stored: bytes, i: nat)
    requires i < COUNTERS
  {
    var piece := PieceOf(s, headerBytes, stored, i);
    s.prim.open(s.key, NonceFor(s.base, i), piece).Some? ==> piece == s.Frame(i)
  }

  /** Whatever the gateway delivers for a request is what the object holds there. */
  lemma DeliveredIs(stored: bytes, fails: nat -> bool, a: nat, b: nat, data: bytes)
    requires a <= b && ThroughGateway(stored, fails).Came(a, b, data)
    ensures data == Clamp(stored, a, b + 1)
  {
    Gateway.FetchedExactly(stored, a, b);
  }

  /** Each piece of what the object holds for a run is what stands in that frame's place. */
  lemma PieceDelivered(origin: Origin, stored: bytes, plain: bytes, first: nat, last: nat, i: nat, data: bytes)
    requires origin.reg.Playable() && origin.reg.encrypted && |plain| == origin.reg.size
    requires first <= i <= last && last * origin.reg.BlockSize() < origin.reg.size
    requires data == Clamp(stored, origin.reg.StoredFrom(first), origin.reg.StoredTo(first, last) + 1)
    ensures origin.FrameAt(i, origin.PlaceOf(first, i), data) ==
      PieceOf(origin.SealingOf(plain), origin.reg.layout.value.headerBytes, stored, i)
  {
    var at := origin.PlaceOf(first, i);
    RunSpan(origin.reg, first, i, last, at);
    PieceInRun(origin.SealingOf(plain), origin.reg.layout.value.headerBytes, stored, i,
               origin.reg.StoredFrom(first), origin.reg.StoredTo(first, last) + 1, at, origin.reg.LenOf(i));
  }

  lemma PieceInRun(s: Sealing, headerBytes: nat, stored: bytes, i: nat, a: nat, b: nat, at: nat, len: nat)
    requires len == Max(0, Min(s.frame, |s.plain| - i * s.frame))
    requires a + at == headerBytes + i * (s.frame + TAG) && a + at + len + TAG <= b
    ensures Clamp(Clamp(stored, a, b), at, at + len + TAG) == PieceOf(s, headerBytes, stored, i)
  {
    var start, end := a + at, a + at + len + TAG;
    PieceIs(s, headerBytes, stored, i, start, end);
    ClampOfClamp(stored, a, b, at, at + len + TAG, start, end);
  }

  lemma PieceIs(s: Sealing, headerBytes: nat, stored: bytes, i: nat, from: nat, to: nat)
    requires from == headerBytes + i * (s.frame + TAG)
    requires to == from + Max(0, Min(s.frame, |s.plain| - i * s.frame)) + TAG
    ensures PieceOf(s, headerBytes, stored, i) == Clamp(stored, from, to)
  {
  }

  lemma RunSpan(reg: Registration, first: nat, i: nat, last: nat, at: nat)
    requires reg.Playable() && reg.encrypted && first <= i <= last && last * reg.BlockSize() < reg.size
    requires at == (i - first) * (reg.BlockSize() + TAG)
    ensures reg.StoredFrom(first) + at == reg.layout.value.headerBytes + i * (reg.BlockSize() + TAG)
    ensures reg.StoredFrom(first) <= reg.StoredTo(first, last)
    ensures reg.StoredFrom(first) + at + reg.LenOf(i) + TAG <= reg.StoredTo(first, last) + 1
  {
    var stride := reg.BlockSize() + TAG;
    assert i * stride == first * stride + at;
    MulMonotone(first, last, stride);
    if i < last {
      AddOne(i, stride);
      MulMonotone(i + 1, last, stride);
    }
  }

  /** An unforged object, altered or not, can be trusted as a whole. */
  lemma UnforgedIsTrusted(origin: Origin, stored: bytes, fails: nat -> bool, plain: bytes)
    requires origin.prim.Lawful() && origin.reg.Playable() && origin.reg.encrypted && |plain| == origin.reg.size
    requires origin.net == ThroughGateway(stored, fails)
    requires Unforged(origin.SealingOf(plain), origin.reg.layout.value.headerBytes, stored)
    ensures origin.Right(plain)
  {
    forall first: nat, last: nat, i: nat, data |
      && first <= i <= last && last * origin.reg.BlockSize() < origin.reg.size
      && origin.net.Came(origin.reg.StoredFrom(first), origin.reg.StoredTo(first, last), data)
      ensures origin.GenuinePiece(plain, first, i, data)
    {
      MulMonotone(i, last, origin.reg.BlockSize());
      origin.SealingOf(plain).OffsetIsStride(i);
      RunSpan(origin.reg, first, first, last, origin.PlaceOf(first, first));
      DeliveredIs(stored, fails, origin.reg.StoredFrom(first), origin.reg.StoredTo(first, last), data);
      PieceDelivered(origin, stored, plain, first, last, i, data);
      assert UnforgedAt(origin.SealingOf(plain), origin.reg.layout.value.headerBytes, stored, i);
    }
    origin.TrustedIsRight(plain);
  }

  /** An object cut off after any number of its frames, and followed by anything shorter than a tag, is unforged. */
  lemma CutShortIsUnforged(s: Sealing, preamble: bytes, kept: nat, rest: bytes)
    requires s.prim.Lawful() && s.Count() <= COUNTERS && kept <= s.Count() && |rest| < TAG
    ensures Unforged(s, |preamble|, preamble + s.Frames(0, kept) + rest)
  {
    forall i: nat | i < COUNTERS && i * s.frame < |s.plain|
      ensures UnforgedAt(s, |preamble|, preamble + s.Frames(0, kept) + rest, i)
    {
      CutShortAt(s, preamble, kept, rest, i);
    }
  }

  lemma CutShortAt(s: Sealing, preamble: bytes, kept: nat, rest: bytes, i: nat)
    requires s.prim.Lawful() && s.Count() <= COUNTERS && kept <= s.Count() && |rest| < TAG
    requires i < COUNTERS && i * s.frame < |s.plain|
    ensures UnforgedAt(s, |preamble|, preamble + s.Frames(0, kept) + rest, i)
  {
    s.OffsetIsStride(i);
    if i < kept {
      KeptFrame(s, preamble, kept, rest, i);
    } else {
      s.FramesLength(0, kept);
      CutsMonotone(|s.plain|, s.frame, kept, i);
      PastTheEnd(s, preamble + s.Frames(0, kept), rest, |preamble|, i);
    }
  }

  lemma KeptFrame(s: Sealing, preamble: bytes, kept: nat, rest: bytes, i: nat)
    requires s.prim.Tagged() && i < kept <= COUNTERS && i * s.frame < |s.plain|
    ensures PieceOf(s, |preamble|, preamble + s.Frames(0, kept) + rest, i) == s.Frame(i)
  {
    var at, to := |preamble| + s.Offset(i), |preamble| + s.Offset(i + 1);
    KeptSlice(s, preamble, kept, rest, i, at, to);
    PlaceOfPiece(s, |preamble|, preamble + s.Frames(0, kept) + rest, i, at, to);
  }

  /** A frame's place lies between its own offset and the next. */
  lemma PlaceOfPiece(s: Sealing, headerBytes: nat, stored: bytes, i: nat, at: nat, to: nat)
    requires i * s.frame < |s.plain| && at == headerBytes + s.Offset(i) && to == headerBytes + s.Offset(i + 1)
    ensures PieceOf(s, headerBytes, stored, i) == Clamp(stored, at, to)
  {
    s.OffsetIsStride(i);
  }

  lemma KeptSlice(s: Sealing, preamble: bytes, kept: nat, rest: bytes, i: nat, at: nat, to: nat)
    requires s.prim.Tagged() && i < kept <= COUNTERS && at == |preamble| + s.Offset(i)
    requires to == |preamble| + s.Offset(i + 1)
    ensures at <= to <= |preamble + s.Frames(0, kept) + rest|
    ensures (preamble + s.Frames(0, kept) + rest)[at..to] == s.Frame(i)
  {
    BlobFrames(s, preamble, i, i + 1, kept, at, to);
    s.OneFrame(i);
    SliceBefore(preamble + s.Frames(0, kept), rest, at, to);
  }

  /** Past the frames an object holds there are only bytes too few to open. */
  lemma PastTheEnd(s: Sealing, held: bytes, rest: bytes, headerBytes: nat, i: nat)
    requires s.prim.Lawful() && |rest| < TAG && i < COUNTERS && |held| <= headerBytes + i * (s.frame + TAG)
    ensures UnforgedAt(s, headerBytes, held + rest, i)
  {
    TooShort(s.prim, s.key, NonceFor(s.base, i), PieceOf(s, headerBytes, held + rest, i));
  }

  /** Nothing shorter than a tag opens. */
  lemma TooShort(prim: Primitives, key: bytes, nonce: bytes, x: bytes)
    requires prim.Lawful() && |x| < TAG
    ensures prim.open(key, nonce, x).None?
  {
  }

  // ── Frames put in other places ────────────────────────────────────────────

  /**
   * Nothing sealed under one nonce opens under another of the same length: the other half of what the tag
   * authenticates (section 7.2 of NIST SP 800-38D).
   */
  ghost predicate NonceBound(prim: Primitives, key: bytes) {
    forall n, n', p | |n| == |n'| == 12 && n != n' :: prim.open(key, n', prim.seal(key, n, p)).None?
  }

  /** A frame sealed for this document, under whatever number. */
  ghost predicate IsFrame(s: Sealing, x: bytes) { exists k: nat | k < COUNTERS :: x == s.Frame(k) }

  /** Parts as long as the frames whose places they take. */
  ghost predicate Fit(s: Sealing, parts: seq<bytes>) {
    forall j :: 0 <= j < |parts| ==> |parts[j]| == s.SizeAt(j) + TAG
  }

  lemma {:induction false} PartsLength(s: Sealing, parts: seq<bytes>)
    requires Fit(s, parts)
    ensures |Concat(parts)| == s.Offset(|parts|)
  {
    if parts != [] {
      PartsLength(s, parts[..|parts| - 1]);
      ConcatPrefix(parts, |parts| - 1);
      assert parts[..|parts|] == parts;
      s.NextOffset(|parts| - 1);
    }
  }

  lemma PartAt(s: Sealing, parts: seq<bytes>, i: nat, at: nat, to: nat)
    requires Fit(s, parts) && i < |parts| && at == s.Offset(i) && to == s.Offset(i + 1)
    ensures at <= to <= |Concat(parts)| && Concat(parts)[at..to] == parts[i]
  {
    PartsLength(s, parts[..i]);
    s.NextOffset(i);
    ConcatPart(parts, i, at, to);
  }

  /**
   * Frames moved, swapped, repeated or dropped are not forged: each was sealed under its own nonce, and no two
   * nonces of a document are the same.
   */
  lemma ReorderedIsUnforged(s: Sealing, preamble: bytes, parts: seq<bytes>, rest: bytes)
    requires s.prim.Lawful() && NonceBound(s.prim, s.key) && |rest| < TAG
    requires |parts| <= s.Count() <= COUNTERS && Fit(s, parts) && forall part :: part in parts ==> IsFrame(s, part)
    ensures Unforged(s, |preamble|, preamble + Concat(parts) + rest)
  {
    forall i: nat | i < COUNTERS && i * s.frame < |s.plain|
      ensures UnforgedAt(s, |preamble|, preamble + Concat(parts) + rest, i)
    {
      s.OffsetIsStride(i);
      if i < |parts| {
        PlaceOfPart(s, preamble, parts, rest, i);
        FrameIsUnforged(s, |preamble|, preamble + Concat(parts) + rest, i, parts[i]);
      } else {
        PartsLength(s, parts);
        CutsMonotone(|s.plain|, s.frame, |parts|, i);
        PastTheEnd(s, preamble + Concat(parts), rest, |preamble|, i);
      }
    }
  }

  lemma PlaceOfPart(s: Sealing, preamble: bytes, parts: seq<bytes>, rest: bytes, i: nat)
    requires Fit(s, parts) && i < |parts| && i * s.frame < |s.plain|
    ensures PieceOf(s, |preamble|, preamble + Concat(parts) + rest, i) == parts[i]
  {
    var at, to := |preamble| + s.Offset(i), |preamble| + s.Offset(i + 1);
    PartAt(s, parts, i, s.Offset(i), s.Offset(i + 1));
    SliceFrom(preamble, Concat(parts), s.Offset(i), s.Offset(i + 1), parts[i], at, to);
    SliceBefore(preamble + Concat(parts), rest, at, to);
    PlaceOfPiece(s, |preamble|, preamble + Concat(parts) + rest, i, at, to);
  }

  /** A frame in another frame's place does not open there. */
  lemma FrameIsUnforged(s: Sealing, headerBytes: nat, stored: bytes, i: nat, part: bytes)
    requires NonceBound(s.prim, s.key) && i < COUNTERS && IsFrame(s, part)
    requires PieceOf(s, headerBytes, stored, i) == part
    ensures UnforgedAt(s, headerBytes, stored, i)
  {
    var k: nat :| k < COUNTERS && part == s.Frame(k);
    if k != i {
      NoncesDistinct(s.base, k, i);
    }
  }

  // ── What an altered object still answers ──────────────────────────────────

  /** The object still holds frame `i` in its place. */
  ghost predicate StandsAt(s: Sealing, headerBytes: nat, stored: bytes, i: nat) {
    i < COUNTERS && PieceOf(s, headerBytes, stored, i) == s.Frame(i)
  }

  /** Every frame that a request reads from stands as it was sealed. */
  ghost predicate Stands(s: Sealing, headerBytes: nat, stored: bytes, header: Option<string>) {
    var wanted := Wanted(header, |s.plain|);
    wanted.Some? ==> StandsUnder(s, headerBytes, stored, wanted.value.0, wanted.value.1)
  }

  ghost predicate StandsUnder(s: Sealing, headerBytes: nat, stored: bytes, start: nat, end: nat) {
    forall i: nat | i * s.frame <= end && start < i * s.frame + s.frame :: StandsAt(s, headerBytes, stored, i)
  }

  /** Frames that stand can be fetched and opened. */
  lemma StandingRunIsFetchable(origin: Origin, stored: bytes, fails: nat -> bool, plain: bytes, first: nat, last: nat)
    requires origin.prim.Lawful() && origin.reg.Playable() && origin.reg.encrypted && |plain| == origin.reg.size
    requires origin.net == ThroughGateway(stored, fails) && forall n :: !fails(n)
    requires first <= last && last * origin.reg.BlockSize() < origin.reg.size
    requires forall i: nat | first <= i <= last ::
      StandsAt(origin.SealingOf(plain), origin.reg.layout.value.headerBytes, stored, i)
    ensures origin.Fetchable(first, last)
  {
    var a, b := origin.reg.StoredFrom(first), origin.reg.StoredTo(first, last);
    RunSpan(origin.reg, first, first, last, origin.PlaceOf(first, first));
    StandsBeforeTheEnd(origin.SealingOf(plain), origin.reg.layout.value.headerBytes, stored, first);
    AnsweredBeforeTheEnd(stored, fails, a, b);
    forall data | origin.net.Came(a, b, data)
      ensures origin.Decode(first, last, data).Ok?
    {
      DeliveredIs(stored, fails, a, b, data);
      forall k: nat | first <= k <= last
        ensures origin.AsSealed(plain, first, k, data)
      {
        PieceDelivered(origin, stored, plain, first, last, k, data);
        assert StandsAt(origin.SealingOf(plain), origin.reg.layout.value.headerBytes, stored, k);
      }
      origin.HonestRunOpens(plain, first, last, first, 0, data);
    }
  }

  lemma StandsBeforeTheEnd(s: Sealing, headerBytes: nat, stored: bytes, i: nat)
    requires s.prim.Tagged() && StandsAt(s, headerBytes, stored, i)
    ensures headerBytes + i * (s.frame + TAG) < |stored|
  {
    assert |s.Frame(i)| >= TAG;
  }

  lemma AnsweredBeforeTheEnd(stored: bytes, fails: nat -> bool, a: nat, b: nat)
    requires a <= b && a < |stored| && forall n :: !fails(n)
    ensures ThroughGateway(stored, fails).Answering(a, b)
  {
    Gateway.FetchedExactly(stored, a, b);
  }

  lemma StandingIsObtainable(origin: Origin, stored: bytes, fails: nat -> bool, plain: bytes, header: Option<string>)
    requires origin.prim.Lawful() && origin.reg.Playable() && origin.reg.encrypted && |plain| == origin.reg.size
    requires origin.net == ThroughGateway(stored, fails) && forall n :: !fails(n)
    requires Stands(origin.SealingOf(plain), origin.reg.layout.value.headerBytes, stored, header)
    ensures origin.Obtainable(header)
  {
    var s, headerBytes := origin.SealingOf(plain), origin.reg.layout.value.headerBytes;
    var wanted := Wanted(header, origin.reg.size);
    if wanted.Some? {
      var start, end := wanted.value.0, wanted.value.1;
      forall lo: nat, hi: nat, first: nat, last: nat |
        Spans(lo, hi, start, end, s.frame) && lo <= first <= last <= hi && last * s.frame < |plain|
        ensures origin.Fetchable(first, last)
      {
        SpannedStand(s, headerBytes, stored, start, end, lo, hi);
        StandingRunIsFetchable(origin, stored, fails, plain, first, last);
      }
    }
  }

  lemma SpannedStand(s: Sealing, headerBytes: nat, stored: bytes, start: nat, end: nat, lo: nat, hi: nat)
    requires StandsUnder(s, headerBytes, stored, start, end) && Spans(lo, hi, start, end, s.frame)
    ensures forall i: nat | lo <= i <= hi :: StandsAt(s, headerBytes, stored, i)
  {
    forall i: nat | lo <= i <= hi
      ensures StandsAt(s, headerBytes, stored, i)
    {
      MulMonotone(lo, i, s.frame);
      MulMonotone(i, hi, s.frame);
    }
  }

  /**
   * A sealed document whose stored bytes were replaced by others, played through the gateway: as
   * long as nobody forged a frame, no answer holds a wrong byte, and without failures a request for
   * frames that still stand is answered exactly as promised, whatever became of the others.
   */
  method PlayAltered(s: Sealing, headerBytes: nat, stored: bytes, fails: nat -> bool, headers: seq<Option<string>>)
    returns (answers: seq<Response>)
    requires s.prim.Lawful() && Unforged(s, headerBytes, stored)
    ensures |answers| == |headers|
    ensures forall i :: 0 <= i < |headers| ==> answers[i].Media? ==> answers[i].Answers(Promised(headers[i], s.plain))
    ensures (forall n :: !fails(n)) ==>
      forall i :: 0 <= i < |headers| ==> Stands(s, headerBytes, stored, headers[i]) ==>
        answers[i] == Promised(headers[i], s.plain)
  {
    var reg := Registration(|s.plain|, true, Some(s.key), Some(Layout(s.frame, headerBytes, s.base)));
    var origin := Origin(s.prim, reg, ThroughGateway(stored, fails));
    assert origin.SealingOf(s.plain) == s;
    UnforgedIsTrusted(origin, stored, fails, s.plain);
    if forall n :: !fails(n) {
      forall i | 0 <= i < |headers| && Stands(s, headerBytes, stored, headers[i])
        ensures origin.Obtainable(headers[i])
      {
        StandingIsObtainable(origin, stored, fails, s.plain, headers[i]);
      }
    }
    var stream := new Stream(origin);
    answers := ServeAll(stream, headers, s.plain);
  }

  /**
   * Behind the gateway of an object as it was stored, an answer without a body is the promised refusal, or
   * the connection was lost.
   */
  lemma RefusedForReason(origin: Origin, plain: bytes, preamble: bytes, fails: nat -> bool, header: Option<string>,
                         r: Response)
    requires origin.prim.Lawful() && origin.reg.Playable() && origin.Stored(plain, preamble)
    requires origin.net == ThroughGateway(origin.ObjectOf(plain, preamble), fails)
    requires Met(origin, plain, header, r) && r.Text?
    ensures r == Promised(header, plain) || (r.status == 422 && exists n :: fails(n))
  {
    var wanted := Wanted(header, origin.reg.size);
    if wanted.Some? {
      var made: nat :| origin.Explains(wanted, made, r);
      var first: nat, last: nat :|
        && Spans(first, last, wanted.value.0, wanted.value.1, origin.reg.BlockSize())
        && origin.FailedAt(first, last, made - 1, PlayError(r.status));
      var to: nat :| to * origin.reg.BlockSize() < origin.reg.size && first <= to
        && origin.FailedFor(first, to, made - 1, PlayError(r.status));
      OnlyLost(origin, plain, preamble, fails, first, to, made - 1, PlayError(r.status));
    }
  }

  lemma OnlyLost(origin: Origin, plain: bytes, preamble: bytes, fails: nat -> bool, first: nat, last: nat, n: nat,
                 e: PlayError)
    requires origin.prim.Lawful() && origin.reg.Playable() && origin.Stored(plain, preamble)
    requires origin.net == ThroughGateway(origin.ObjectOf(plain, preamble), fails)
    requires first <= last && last * origin.reg.BlockSize() < origin.reg.size && origin.FailedFor(first, last, n, e)
    ensures fails(n) && e.status == 422
  {
    var a, b := origin.reg.StoredFrom(first), origin.reg.StoredTo(first, last);
    var stored := origin.ObjectOf(plain, preamble);
    if origin.reg.encrypted {
      origin.RunInBounds(plain, preamble, first, last);
    } else {
      origin.PlainInBounds(plain, first, last);
    }
    if !fails(n) {
      Gateway.FetchedExactly(stored, a, b);
      var data := Clamp(stored, a, b + 1);
      assert origin.net.reply(n, a, b) == Delivered(data);
      origin.StoredRunDecodes(plain, preamble, first, last, data);
      assert false;
    }
  }

  /** A document stored as it is, through the same gateway and worker. */
  method PlayPlain(prim: Primitives, plain: bytes, fails: nat -> bool, headers: seq<Option<string>>)
    returns (answers: seq<Response>)
    requires prim.Lawful()
    ensures |answers| == |headers|
    ensures forall i :: 0 <= i < |headers| ==> answers[i].Media? ==> answers[i].Answers(Promised(headers[i], plain))
    ensures forall i :: 0 <= i < |headers| ==> answers[i].Text? ==>
      answers[i] == Promised(headers[i], plain) || (answers[i].status == 422 && exists n :: fails(n))
    ensures (forall n :: !fails(n)) ==> forall i :: 0 <= i < |headers| ==> answers[i] == Promised(headers[i], plain)
  {
    var origin := Origin(prim, Registration(|plain|, false, None, None), ThroughGateway(plain, fails));
    PlainIsPlayable(origin, plain, fails);
    var stream := new Stream(origin);
    answers := ServeAll(stream, headers, plain);
    forall i | 0 <= i < |headers| && answers[i].Text?
      ensures answers[i] == Promised(headers[i], plain) || (answers[i].status == 422 && exists n :: fails(n))
    {
      RefusedForReason(origin, plain, [], fails, headers[i], answers[i]);
    }
  }

  lemma PlainIsPlayable(origin: Origin, plain: bytes, fails: nat -> bool)
    requires origin.prim.Lawful() && !origin.reg.encrypted && origin.reg.size == |plain|
    requires origin.net == ThroughGateway(plain, fails)
    ensures origin.Right(plain) && ((forall n :: !fails(n)) ==> forall header :: origin.Obtainable(header))
    ensures origin.Stored(plain, []) && origin.ObjectOf(plain, []) == plain
  {
    GatewayIsHonest(plain, fails);
    origin.TrustedIsRight(plain);
    if forall n :: !fails(n) {
      origin.HealthyIsTotal(plain, []);
      forall header
        ensures origin.Obtainable(header)
      {
        origin.TotalIsObtainable(header);
      }
    }
  }

  /** A request met: never with a wrong byte, in full when what it reads can be fetched, and else with the reason. */
  ghost predicate Met(origin: Origin, plain: bytes, header: Option<string>, r: Response)
    requires origin.reg.Playable()
  {
    && (r.Media? ==> r.Answers(Promised(header, plain)))
    && (origin.Obtainable(header) ==> r == Promised(header, plain))
    && origin.Explained(header, r)
  }

  /** Requests served one after another from one stream, sharing its cache. */
  method ServeAll(stream: Stream, headers: seq<Option<string>>, ghost plain: bytes) returns (answers: seq<Response>)
    requires stream.Valid() && stream.origin.reg.Playable() && stream.origin.Right(plain) && stream.Faithful(plain)
    modifies stream, stream.cache
    ensures stream.Valid() && stream.Faithful(plain) && |answers| == |headers|
    ensures forall i :: 0 <= i < |headers| ==> Met(stream.origin, plain, headers[i], answers[i])
  {
    answers := [];
    for i := 0 to |headers|
      invariant stream.Valid() && stream.Faithful(plain) && |answers| == i
      invariant forall j :: 0 <= j < i ==> Met(stream.origin, plain, headers[j], answers[j])
    {
      var r := stream.Serve(headers[i], plain);
      assert stream.origin.Explains(Wanted(headers[i], stream.origin.reg.size), stream.requests, r);
      answers := answers + [r];
    }
  }
}
