/**
 * The service worker behind a media player: it turns plaintext ranges into stored bytes, opens
 * frames, keeps a bounded cache of blocks and answers with a slice of the document.
 */
module StreamWorker {
  import opened Bytes
  import opened Blocks
  import opened Ranges
  import opened Kvblob
  import opened BlockCache

  const WINDOW := 4 * 1024 * 1024
  const PLAIN_BLOCK := 256 * 1024
  const RUN := 4

  datatype Outcome = Unauthorized | Failed(status: nat) | Unreachable | Delivered(data: bytes)

  /**
   * The gateway as the worker sees it: request `n` for stored bytes `a..b`, and whether a ticket renewal after it
   * worked.
   */
  datatype Net = Net(reply: (nat, nat, nat) -> Outcome, renewed: nat -> bool) {
    /** Whatever is delivered is what was asked for. */
    ghost predicate Honest(stored: bytes) {
      forall n: nat, a: nat, b: nat :: a <= b < |stored| && reply(n, a, b).Delivered? ==>
        reply(n, a, b).data == stored[a..b + 1]
    }

    /** Some request for stored bytes `a..b` was answered with `data`. */
    ghost predicate Came(a: nat, b: nat, data: bytes) { exists n: nat :: reply(n, a, b) == Delivered(data) }

    lemma CameExactly(stored: bytes, a: nat, b: nat, data: bytes, part: bytes)
      requires Honest(stored) && Came(a, b, data)
      requires a <= b < |stored| && stored[a..b + 1] == part
      ensures data == part
    {
    }

    /** Every request that lies inside the stored object is answered. */
    ghost predicate Reliable(stored: bytes) {
      forall n: nat, a: nat, b: nat :: a <= b < |stored| ==> reply(n, a, b).Delivered?
    }

    ghost predicate Answering(a: nat, b: nat) { forall n: nat :: reply(n, a, b).Delivered? }
  }

  datatype Layout = Layout(frameBytes: pos, headerBytes: nat, nonceBase: bytes)

  /** What the page registered for a stream. */
  datatype Registration = Registration(size: nat, encrypted: bool, key: Option<bytes>, layout: Option<Layout>) {
    predicate Playable() { encrypted ==> key.Some? && layout.Some? }

    function BlockSize(): pos
      requires Playable()
    {
      if encrypted then layout.value.frameBytes else PLAIN_BLOCK
    }

    function LenOf(i: nat): nat
      requires Playable()
    {
      Max(0, Min(BlockSize(), size - i * BlockSize()))
    }

    /** The stored bytes that hold blocks `first..last`. */
    function StoredFrom(first: nat): nat
      requires Playable()
    {
      if encrypted then layout.value.headerBytes + first * (BlockSize() + TAG) else first * PLAIN_BLOCK
    }

    function StoredTo(first: nat, last: nat): nat
      requires Playable() && first <= last && last * BlockSize() < size
    {
      if encrypted then layout.value.headerBytes + last * (BlockSize() + TAG) + LenOf(last) + TAG - 1
      else first * PLAIN_BLOCK + (last - first) * PLAIN_BLOCK + LenOf(last) - 1
    }
  }

  /** A failed request, with the status it is answered with. */
  datatype PlayError = PlayError(status: nat)

  /** What the worker makes of one reply: a rejected ticket reads as expired access, a lost connection as unreadable. */
  function Verdict(reply: Outcome): Result<bytes, PlayError> {
    match reply
    case Delivered(data) => Ok(data)
    case Unauthorized => Err(PlayError(401))
    case Failed(status) => Err(PlayError(status))
    case Unreachable => Err(PlayError(422))
  }

  /** Blocks `first` to `last` are the ones a range touches. */
  ghost predicate Spans(first: nat, last: nat, start: nat, end: nat, f: pos) {
    first <= last && first * f <= start < first * f + f && last * f <= end < last * f + f
  }

  datatype Body = Body(content: bytes, complete: bool) {
    /** At least the first block's share of the range, then whole shares up to where the stream broke off. */
    ghost predicate BlocksOf(plain: bytes, f: pos, start: nat, end: nat, first: nat, last: nat)
      requires start <= end < |plain|
    {
      exists n: nat | first < n <= last + 1 :: content == UpTo(plain, f, start, end, n) && (complete <==> n == last + 1)
    }

    lemma BlocksAreSlice(plain: bytes, f: pos, start: nat, end: nat, first: nat, last: nat)
      requires start <= end < |plain| && Spans(first, last, start, end, f)
      requires BlocksOf(plain, f, start, end, first, last)
      ensures SliceOf(plain, start, end)
    {
      var n: nat :| first < n <= last + 1 && content == UpTo(plain, f, start, end, n) && (complete <==> n == last + 1);
      UpToIsPrefix(plain, f, start, end, n);
      SliceIsCovered(plain, f, start, end, first, last);
    }

    /** What has been sent is the start of the slice, and the whole of it unless the stream broke off. */
    ghost predicate SliceOf(plain: bytes, start: nat, end: nat)
      requires start <= end < |plain|
    {
      content <= plain[start..end + 1] && (complete ==> content == plain[start..end + 1])
    }
  }

  datatype Response = Text(status: nat) | Media(status: nat, contentLength: Option<nat>, range: Option<(nat, nat)>,
      body: Body) {
    /** The same answer, or the same answer cut short. */
    ghost predicate Answers(promised: Response) {
      && Media? && promised.Media?
      && (status, contentLength, range) == (promised.status, promised.contentLength, promised.range)
      && body.content <= promised.body.content
      && (body.complete ==> body.content == promised.body.content)
    }
  }

  /** What a player is owed for a plaintext: exactly the bytes asked for, cut to the 4 MiB window. */
  function Promised(header: Option<string>, plain: bytes): Response {
    if plain == [] then Media(200, None, None, Body([], true))
    else if header.None? || header.value == "" then Media(200, Some(|plain|), None, Body(plain, true))
    else PromisedPlay(PlayedRange(header.value, |plain|), plain)
  }

  function PromisedPlay(played: Played, plain: bytes): Response {
    match played
    case Play(start, end) =>
      var to := Min(end + 1, start + WINDOW);
      Media(206, Some(|Clamp(plain, start, to)|), Some((start, to - 1)), Body(Clamp(plain, start, to), true))
    case _ => Text(416)
  }

  /** The plaintext bytes an answer to this header reads, when it reads any. */
  function Wanted(header: Option<string>, size: nat): Option<(nat, nat)> {
    if size == 0 then None
    else if header.None? || header.value == "" then Some((0, size - 1))
    else Bounded(PlayedRange(header.value, size))
  }

  function Bounded(played: Played): Option<(nat, nat)> {
    if played.Play? then Some((played.start, Min(played.end, played.start + WINDOW - 1) as nat)) else None
  }

  lemma PromisedWindow(played: Played, plain: bytes, start: nat, end: nat)
    requires played.Play? && played.start <= played.end < |plain|
    requires start == played.start && end == Min(played.end, start + WINDOW - 1)
    ensures PromisedPlay(played, plain) ==
      Media(206, Some(end + 1 - start), Some((start, end)), Body(plain[start..end + 1], true))
  {
  }

  lemma NonemptyRun(s: Sealing, preamble: bytes, n: nat, first: nat, last: nat, from: nat, to: nat)
    requires s.prim.Tagged() && first <= last < n <= COUNTERS
    requires from == |preamble| + s.Offset(first) && to == |preamble| + s.Offset(last + 1)
    ensures from < to <= |preamble + s.Frames(0, n)|
    ensures (preamble + s.Frames(0, n))[from..to] == s.Frames(first, last + 1)
  {
    BlobFrames(s, preamble, first, last + 1, n, from, to);
    CutsMonotone(|s.plain|, s.frame, first, last + 1);
  }

  /** In a run as stored, the piece at the running offset is the frame. */
  lemma FrameOfRun(s: Sealing, first: nat, i: nat, last: nat, at: nat, len: nat)
    requires s.prim.Tagged() && first <= i <= last < COUNTERS && last * s.frame < |s.plain|
    requires at == (i - first) * (s.frame + TAG) && len == Max(0, Min(s.frame, |s.plain| - i * s.frame))
    ensures Clamp(s.Frames(first, last + 1), at, at + len + TAG) == s.Frame(i)
  {
    PlaceIsOffset(s, first, i, last, at, len);
    s.FrameWithin(first, i, last + 1, at, at + len + TAG);
  }

  /** The running offset is the distance between the frames' own offsets. */
  lemma PlaceIsOffset(s: Sealing, first: nat, i: nat, last: nat, at: nat, len: nat)
    requires first <= i <= last && last * s.frame < |s.plain|
    requires at == (i - first) * (s.frame + TAG) && len == Max(0, Min(s.frame, |s.plain| - i * s.frame))
    ensures at == s.Offset(i) - s.Offset(first) && at + len + TAG == s.Offset(i + 1) - s.Offset(first)
  {
    MulMonotone(first, i, s.frame);
    MulMonotone(i, last, s.frame);
    s.OffsetIsStride(first);
    s.OffsetIsStride(i);
    MulMinus(i, first, s.frame + TAG);
  }

  /** `setUint32` wraps the frame number at 32 bits. */
  function Counter(i: nat): nat { if i < COUNTERS then i else i % COUNTERS }

  // ── What a stream plays from ──────────────────────────────────────────────

  /** Everything about a stream that does not change while it is open. */
  datatype Origin = Origin(prim: Primitives, reg: Registration, net: Net) {
    /** Block `k` of a plaintext, as this stream cuts it. */
    function PlainBlock(plain: bytes, k: nat): bytes
      requires reg.Playable()
    {
      Block(plain, reg.BlockSize(), k)
    }

    ghost predicate FaithfulMap(plain: bytes, m: map<nat, bytes>)
      requires reg.Playable()
    {
      forall k :: k in m ==> m[k] == PlainBlock(plain, k)
    }

    ghost predicate FaithfulRun(plain: bytes, first: nat, run: seq<bytes>)
      requires reg.Playable()
    {
      forall k: nat :: first <= k < first + |run| ==> run[k - first] == PlainBlock(plain, k)
    }

    /** A faithful run set in a faithful cache leaves it faithful, whatever is then evicted. */
    lemma RunKeepsFaith(plain: bytes, m: map<nat, bytes>, order: seq<nat>, first: nat, run: seq<bytes>,
                        m': map<nat, bytes>, order': seq<nat>)
      requires reg.Playable() && FaithfulMap(plain, m) && FaithfulRun(plain, first, run)
      requires RunWasSet(m, order, first, run, m', order')
      ensures FaithfulMap(plain, m')
    {
    }

    function SealingOf(plain: bytes): Sealing
      requires reg.Playable() && reg.encrypted
    {
      Sealing(prim, reg.key.value, reg.layout.value.nonceBase, reg.layout.value.frameBytes, plain)
    }

    /** The stored object that holds a plaintext. */
    ghost function ObjectOf(plain: bytes, preamble: bytes): bytes
      requires reg.Playable() && (reg.encrypted ==> SealingOf(plain).Count() <= COUNTERS)
    {
      if reg.encrypted then preamble + SealingOf(plain).Frames(0, SealingOf(plain).Count()) else plain
    }

    /** The registration describes that object, and the network never alters it. */
    ghost predicate Stored(plain: bytes, preamble: bytes)
      requires reg.Playable()
    {
      && |plain| == reg.size
      && (reg.encrypted ==> |preamble| == reg.layout.value.headerBytes && SealingOf(plain).Count() <= COUNTERS)
      && net.Honest(ObjectOf(plain, preamble))
    }

    ghost predicate Healthy(plain: bytes, preamble: bytes)
      requires reg.Playable()
    {
      Stored(plain, preamble) && net.Reliable(ObjectOf(plain, preamble))
    }

    // ── From stored bytes to blocks ──

    /** The piece of a run that should be frame `i`. */
    function FrameAt(i: nat, at: nat, data: bytes): bytes
      requires reg.Playable()
    {
      Clamp(data, at, at + reg.LenOf(i) + TAG)
    }

    /** `crypto.subtle.decrypt` on that piece. */
    function OpenAt(i: nat, at: nat, data: bytes): Option<bytes>
      requires reg.Playable() && reg.encrypted
    {
      prim.open(reg.key.value, NonceFor(reg.layout.value.nonceBase, Counter(i)), FrameAt(i, at, data))
    }

    // ── Whom a stream trusts ──

    /** Where the worker looks for frame `i` of a run that starts at `first`. */
    function PlaceOf(first: nat, i: nat): nat
      requires reg.Playable() && first <= i
    {
      (i - first) * (reg.BlockSize() + TAG)
    }

    /** What it finds there is the frame that was sealed as `i`. */
    ghost predicate AsSealed(plain: bytes, first: nat, i: nat, data: bytes)
      requires reg.Playable() && reg.encrypted && first <= i
    {
      i < COUNTERS && FrameAt(i, PlaceOf(first, i), data) == SealingOf(plain).Frame(i)
    }

    /** If what it finds opens, it is that frame. */
    ghost predicate GenuinePiece(plain: bytes, first: nat, i: nat, data: bytes)
      requires reg.Playable() && reg.encrypted && first <= i
    {
      OpenAt(i, PlaceOf(first, i), data).Some? ==> AsSealed(plain, first, i, data)
    }

    /**
     * Nobody without the key made anything that was delivered: the network may send what it likes
     * for a run, but a piece opens as a frame only when it is that frame, as AES-GCM promises
     * (section 8 of NIST SP 800-38D).
     */
    ghost predicate Genuine(plain: bytes)
      requires reg.Playable() && reg.encrypted
    {
      forall first: nat, last: nat, i: nat, data | first <= i <= last && last * reg.BlockSize() < reg.size ::
        net.Came(reg.StoredFrom(first), reg.StoredTo(first, last), data) ==> GenuinePiece(plain, first, i, data)
    }

    /** An encrypted stream trusts the seal, whatever the network sends; an unencrypted one has to trust the network. */
    ghost predicate Trusted(plain: bytes)
      requires reg.Playable()
    {
      |plain| == reg.size && if reg.encrypted then Genuine(plain) else net.Honest(plain)
    }

    /** Frames `i..last` of a run, opened in turn from offset `at`. */
    function OpenRun(i: nat, last: nat, at: nat, data: bytes): Result<seq<bytes>, PlayError>
      requires reg.Playable() && reg.encrypted && i <= last + 1
      decreases last + 1 - i
    {
      if i > last then Ok([])
      else if OpenAt(i, at, data).None? then Err(PlayError(422))
      else Prepend([OpenAt(i, at, data).value], OpenRun(i + 1, last, at + reg.LenOf(i) + TAG, data))
    }

    /** Block `i` of an unencrypted run that starts at block `first`. */
    function CutPiece(first: nat, i: nat, data: bytes): bytes
      requires reg.Playable() && first <= i
    {
      Clamp(data, (i - first) * PLAIN_BLOCK, (i - first) * PLAIN_BLOCK + reg.LenOf(i))
    }

    /** Blocks `i..last` of that run. */
    function CutRun(first: nat, i: nat, last: nat, data: bytes): (run: seq<bytes>)
      requires reg.Playable() && first <= i <= last + 1
      ensures |run| == last + 1 - i
      decreases last + 1 - i
    {
      if i > last then []
      else [CutPiece(first, i, data)] + CutRun(first, i + 1, last, data)
    }

    function Decode(first: nat, last: nat, data: bytes): Result<seq<bytes>, PlayError>
      requires reg.Playable() && first <= last
    {
      if reg.encrypted then OpenRun(first, last, 0, data) else Ok(CutRun(first, first, last, data))
    }

    /** Whatever comes back for a run decodes to the right blocks, or to nothing. */
    ghost predicate Right(plain: bytes)
      requires reg.Playable()
    {
      && |plain| == reg.size
      && forall first: nat, last: nat, data | first <= last && last * reg.BlockSize() < reg.size ::
        net.Came(reg.StoredFrom(first), reg.StoredTo(first, last), data) && Decode(first, last, data).Ok? ==>
          FaithfulRun(plain, first, Decode(first, last, data).value)
    }

    /** Something always comes back for a run of blocks `lo` to `hi`, and it decodes. */
    ghost predicate TotalWithin(lo: nat, hi: nat)
      requires reg.Playable()
    {
      forall first: nat, last: nat | lo <= first <= last <= hi && last * reg.BlockSize() < reg.size ::
        Fetchable(first, last)
    }

    /** Whatever a range touches can be fetched. */
    ghost predicate Available(start: nat, end: nat)
      requires reg.Playable()
    {
      forall lo: nat, hi: nat | Spans(lo, hi, start, end, reg.BlockSize()) :: TotalWithin(lo, hi)
    }

    /** Whatever an answer to this header reads can be fetched. */
    ghost predicate Obtainable(header: Option<string>)
      requires reg.Playable()
    {
      var wanted := Wanted(header, reg.size);
      wanted.Some? ==> Available(wanted.value.0, wanted.value.1)
    }

    /** Everything can. */
    ghost predicate Total()
      requires reg.Playable()
    {
      forall first: nat, last: nat :: first <= last && last * reg.BlockSize() < reg.size ==> Fetchable(first, last)
    }

    ghost predicate Fetchable(first: nat, last: nat)
      requires reg.Playable() && first <= last && last * reg.BlockSize() < reg.size
    {
      && net.Answering(reg.StoredFrom(first), reg.StoredTo(first, last))
      && forall data :: net.Came(reg.StoredFrom(first), reg.StoredTo(first, last), data) ==>
        Decode(first, last, data).Ok?
    }

    /** What is wrong with run `first..last` when the last reply to it was reply `n`. */
    ghost predicate FailedFor(first: nat, last: nat, n: nat, e: PlayError)
      requires reg.Playable() && first <= last && last * reg.BlockSize() < reg.size
    {
      match net.reply(n, reg.StoredFrom(first), reg.StoredTo(first, last))
      case Unauthorized => e.status == 401
      case Failed(status) => e.status == status
      case Unreachable => e.status == 422
      case Delivered(data) => e.status == 422 && Decode(first, last, data).Err?
    }

    /** The same of some run that starts at block `i` and goes no further than is wanted. */
    ghost predicate FailedAt(i: nat, lastWanted: nat, n: nat, e: PlayError)
      requires reg.Playable() && lastWanted * reg.BlockSize() < reg.size
    {
      exists last: nat | i <= last <= lastWanted ::
        last * reg.BlockSize() < reg.size && last - i < RUN && FailedFor(i, last, n, e)
    }

    /** The status a request for these plaintext bytes is refused with, when its first block cannot be had. */
    ghost predicate Refuses(wanted: (nat, nat), n: nat, status: nat)
      requires reg.Playable() && wanted.1 < reg.size
    {
      exists first: nat, last: nat | Spans(first, last, wanted.0, wanted.1, reg.BlockSize()) ::
        FailedAt(first, last, n, PlayError(status))
    }

    /**
     * An answer without a body says why: 416 when no plaintext bytes are asked for, and otherwise what became of the
     * last of `made` requests.
     */
    ghost predicate Explains(wanted: Option<(nat, nat)>, made: nat, r: Response)
      requires reg.Playable() && (wanted.Some? ==> wanted.value.1 < reg.size)
    {
      r.Text? ==> if wanted.None? then r.status == 416 else made > 0 && Refuses(wanted.value, made - 1, r.status)
    }

    /** For some number of requests. */
    ghost predicate Explained(header: Option<string>, r: Response)
      requires reg.Playable()
    {
      exists made: nat :: Explains(Wanted(header, reg.size), made, r)
    }

    /** Every failure to open a run is the integrity check's. */
    lemma {:induction false} OpenFailsOneWay(i: nat, last: nat, at: nat, data: bytes)
      requires reg.Playable() && reg.encrypted && i <= last + 1
      ensures OpenRun(i, last, at, data).Err? ==> OpenRun(i, last, at, data) == Err(PlayError(422))
      decreases last + 1 - i
    {
      if i <= last && OpenAt(i, at, data).Some? {
        OpenFailsOneWay(i + 1, last, at + reg.LenOf(i) + TAG, data);
      }
    }

    ghost predicate OpensTo(plain: bytes, i: nat, n: nat, r: Result<seq<bytes>, PlayError>)
      requires reg.Playable()
    {
      r.Ok? && |r.value| == n && FaithfulRun(plain, i, r.value)
    }

    lemma OpensStep(plain: bytes, i: nat, last: nat, at: nat, len: nat, data: bytes)
      requires reg.Playable() && reg.encrypted && i <= last && OpenAt(i, at, data) == Some(PlainBlock(plain, i))
      requires len == reg.LenOf(i)
      requires OpensTo(plain, i + 1, last - i, OpenRun(i + 1, last, at + len + TAG, data))
      ensures OpensTo(plain, i, last + 1 - i, OpenRun(i, last, at, data))
    {
    }

    /** A frame as sealed opens to the block that was sealed. */
    lemma SealedOpens(plain: bytes, first: nat, i: nat, data: bytes)
      requires prim.Lawful() && reg.Playable() && reg.encrypted && first <= i && AsSealed(plain, first, i, data)
      ensures OpenAt(i, PlaceOf(first, i), data) == Some(PlainBlock(plain, i))
    {
      OpensBack(prim, reg.key.value, NonceFor(reg.layout.value.nonceBase, i), PlainBlock(plain, i));
    }

    /** Frames before the last of a run are whole, so the running offset is a multiple of the stride. */
    lemma NextPlace(first: nat, i: nat, last: nat)
      requires reg.Playable() && reg.encrypted && first <= i < last && last * reg.BlockSize() < reg.size
      ensures PlaceOf(first, i + 1) == PlaceOf(first, i) + reg.LenOf(i) + TAG
    {
      MulMonotone(i + 1, last, reg.BlockSize());
      AddOne(i, reg.BlockSize());
      AddOne(i - first, reg.BlockSize() + TAG);
    }

    /** A run of frames as sealed opens, to its blocks. */
    lemma {:induction false} HonestRunOpens(plain: bytes, first: nat, last: nat, i: nat, at: nat, data: bytes)
      requires prim.Lawful() && reg.Playable() && reg.encrypted && first <= i <= last + 1
      requires last * reg.BlockSize() < reg.size
      requires forall k: nat | first <= k <= last :: AsSealed(plain, first, k, data)
      requires i <= last ==> at == PlaceOf(first, i)
      ensures OpensTo(plain, i, last + 1 - i, OpenRun(i, last, at, data))
      decreases last + 1 - i
    {
      if i <= last {
        SealedOpens(plain, first, i, data);
        if i < last {
          NextPlace(first, i, last);
        }
        HonestRunOpens(plain, first, last, i + 1, at + reg.LenOf(i) + TAG, data);
        OpensStep(plain, i, last, at, reg.LenOf(i), data);
      }
    }

    /** Of a run whose pieces are genuine, whatever opens is right, whatever was sent. */
    lemma {:induction false} GenuineRunOpens(plain: bytes, first: nat, last: nat, i: nat, at: nat, data: bytes)
      requires prim.Lawful() && reg.Playable() && reg.encrypted && first <= i <= last + 1
      requires last * reg.BlockSize() < reg.size
      requires forall k: nat | first <= k <= last :: GenuinePiece(plain, first, k, data)
      requires i <= last ==> at == PlaceOf(first, i)
      ensures OpenRun(i, last, at, data).Ok? ==> FaithfulRun(plain, i, OpenRun(i, last, at, data).value)
      decreases last + 1 - i
    {
      if i <= last {
        GenuineOpens(plain, first, i, data);
        if i < last {
          NextPlace(first, i, last);
        }
        GenuineRunOpens(plain, first, last, i + 1, at + reg.LenOf(i) + TAG, data);
        GenuineStep(plain, i, last, at, reg.LenOf(i), data);
      }
    }

    lemma GenuineOpens(plain: bytes, first: nat, i: nat, data: bytes)
      requires prim.Lawful() && reg.Playable() && reg.encrypted && first <= i && GenuinePiece(plain, first, i, data)
      ensures OpenAt(i, PlaceOf(first, i), data) in {None, Some(PlainBlock(plain, i))}
    {
      if OpenAt(i, PlaceOf(first, i), data).Some? {
        SealedOpens(plain, first, i, data);
      }
    }

    lemma GenuineStep(plain: bytes, i: nat, last: nat, at: nat, len: nat, data: bytes)
      requires reg.Playable() && reg.encrypted && i <= last && len == reg.LenOf(i)
      requires OpenAt(i, at, data) in {None, Some(PlainBlock(plain, i))}
      requires OpenRun(i + 1, last, at + len + TAG, data).Ok? ==>
        FaithfulRun(plain, i + 1, OpenRun(i + 1, last, at + len + TAG, data).value)
      ensures OpenRun(i, last, at, data).Ok? ==> FaithfulRun(plain, i, OpenRun(i, last, at, data).value)
    {
      if OpenRun(i, last, at, data).Ok? {
        FaithfulPrepend(plain, i, PlainBlock(plain, i), OpenRun(i + 1, last, at + len + TAG, data).value);
      }
    }

    lemma FaithfulPrepend(plain: bytes, i: nat, head: bytes, rest: seq<bytes>)
      requires reg.Playable() && head == PlainBlock(plain, i) && FaithfulRun(plain, i + 1, rest)
      ensures FaithfulRun(plain, i, [head] + rest)
    {
    }

    /** An encrypted run's request lies inside the stored object and names exactly its frames. */
    lemma RunInBounds(plain: bytes, preamble: bytes, first: nat, last: nat)
      requires prim.Tagged() && reg.Playable() && reg.encrypted && first <= last && last * reg.BlockSize() < reg.size
      requires Stored(plain, preamble)
      ensures last < COUNTERS && reg.StoredFrom(first) <= reg.StoredTo(first, last) < |ObjectOf(plain, preamble)|
      ensures ObjectOf(plain, preamble)[reg.StoredFrom(first)..reg.StoredTo(first, last) + 1] ==
        SealingOf(plain).Frames(first, last + 1)
    {
      var s := SealingOf(plain);
      MulMonotone(first, last, s.frame);
      s.OffsetIsStride(first);
      s.OffsetIsStride(last);
      NonemptyRun(s, preamble, s.Count(), first, last, reg.StoredFrom(first), reg.StoredTo(first, last) + 1);
    }

    /** An unencrypted run's request lies inside the document and names exactly its blocks. */
    lemma PlainInBounds(plain: bytes, first: nat, last: nat)
      requires !reg.encrypted && first <= last && last * PLAIN_BLOCK < reg.size && |plain| == reg.size
      ensures reg.StoredFrom(first) <= reg.StoredTo(first, last) < |plain|
      ensures Cut(|plain|, PLAIN_BLOCK, first) == reg.StoredFrom(first)
      ensures Cut(|plain|, PLAIN_BLOCK, last + 1) == reg.StoredTo(first, last) + 1
    {
      CutInside(|plain|, PLAIN_BLOCK, first);
      CutInside(|plain|, PLAIN_BLOCK, last);
    }

    lemma {:induction false} PlainRun(plain: bytes, first: nat, i: nat, last: nat, data: bytes)
      requires !reg.encrypted && first <= i <= last + 1 && last * PLAIN_BLOCK < reg.size && |plain| == reg.size
      requires Cut(|plain|, PLAIN_BLOCK, first) <= Cut(|plain|, PLAIN_BLOCK, last + 1)
      requires data == plain[Cut(|plain|, PLAIN_BLOCK, first)..Cut(|plain|, PLAIN_BLOCK, last + 1)]
      ensures FaithfulRun(plain, i, CutRun(first, i, last, data))
      decreases last + 1 - i
    {
      if i <= last {
        PlainPiece(plain, first, last, i, data, (i - first) * PLAIN_BLOCK, reg.LenOf(i));
        PlainRun(plain, first, i + 1, last, data);
        FaithfulPrepend(plain, i, PlainBlock(plain, i), CutRun(first, i + 1, last, data));
      }
    }

    lemma PlainPiece(plain: bytes, first: nat, last: nat, k: nat, data: bytes, at: nat, len: nat)
      requires !reg.encrypted && first <= k <= last && last * PLAIN_BLOCK < reg.size && |plain| == reg.size
      requires Cut(|plain|, PLAIN_BLOCK, first) <= Cut(|plain|, PLAIN_BLOCK, last + 1)
      requires data == plain[Cut(|plain|, PLAIN_BLOCK, first)..Cut(|plain|, PLAIN_BLOCK, last + 1)]
      requires at == (k - first) * PLAIN_BLOCK && len == reg.LenOf(k)
      ensures Clamp(data, at, at + len) == PlainBlock(plain, k)
    {
      CutInside(|plain|, PLAIN_BLOCK, first);
      CutInside(|plain|, PLAIN_BLOCK, k);
      BlockOfRun(plain, PLAIN_BLOCK, first, last, k, data, at, at + len);
    }

    /** What a network that never alters the object delivers for a run are its frames, each in its place. */
    lemma StoredRun(plain: bytes, preamble: bytes, first: nat, last: nat, data: bytes)
      requires prim.Lawful() && reg.Playable() && reg.encrypted && Stored(plain, preamble)
      requires first <= last && last * reg.BlockSize() < reg.size
      requires net.Came(reg.StoredFrom(first), reg.StoredTo(first, last), data)
      ensures forall k: nat | first <= k <= last :: AsSealed(plain, first, k, data)
    {
      RunInBounds(plain, preamble, first, last);
      net.CameExactly(ObjectOf(plain, preamble), reg.StoredFrom(first), reg.StoredTo(first, last), data,
          SealingOf(plain).Frames(first, last + 1));
      forall k: nat | first <= k <= last
        ensures AsSealed(plain, first, k, data)
      {
        FramesAsSealed(plain, first, k, last, data);
      }
    }

    lemma FramesAsSealed(plain: bytes, first: nat, k: nat, last: nat, data: bytes)
      requires prim.Tagged() && reg.Playable() && reg.encrypted && |plain| == reg.size
      requires first <= k <= last < COUNTERS && last * reg.BlockSize() < reg.size
      requires data == SealingOf(plain).Frames(first, last + 1)
      ensures AsSealed(plain, first, k, data)
    {
      FrameOfRun(SealingOf(plain), first, k, last, PlaceOf(first, k), reg.LenOf(k));
    }

    /** One run of a stored document: what comes back decodes, and to the right blocks. */
    lemma StoredRunDecodes(plain: bytes, preamble: bytes, first: nat, last: nat, data: bytes)
      requires prim.Lawful() && reg.Playable() && Stored(plain, preamble) && first <= last
      requires last * reg.BlockSize() < reg.size
      requires net.Came(reg.StoredFrom(first), reg.StoredTo(first, last), data)
      ensures Decode(first, last, data).Ok? && FaithfulRun(plain, first, Decode(first, last, data).value)
    {
      var a, b := reg.StoredFrom(first), reg.StoredTo(first, last);
      if reg.encrypted {
        StoredRun(plain, preamble, first, last, data);
        HonestRunOpens(plain, first, last, first, 0, data);
      } else {
        PlainInBounds(plain, first, last);
        net.CameExactly(plain, a, b, data, plain[a..b + 1]);
        PlainRun(plain, first, first, last, data);
      }
    }

    /** Trust in the seal, or in the network where there is none, is trust in every block. */
    lemma TrustedIsRight(plain: bytes)
      requires prim.Lawful() && reg.Playable() && Trusted(plain)
      ensures Right(plain)
    {
      forall first: nat, last: nat, data |
        && first <= last && last * reg.BlockSize() < reg.size
        && net.Came(reg.StoredFrom(first), reg.StoredTo(first, last), data) && Decode(first, last, data).Ok?
        ensures FaithfulRun(plain, first, Decode(first, last, data).value)
      {
        if reg.encrypted {
          GenuineRunOpens(plain, first, last, first, 0, data);
        } else {
          StoredRunDecodes(plain, [], first, last, data);
        }
      }
    }

    /** A network that never alters the object delivers only genuine pieces. */
    lemma StoredIsTrusted(plain: bytes, preamble: bytes)
      requires prim.Lawful() && reg.Playable() && Stored(plain, preamble)
      ensures Trusted(plain)
    {
      if reg.encrypted {
        forall first: nat, last: nat, i: nat, data |
          && first <= i <= last && last * reg.BlockSize() < reg.size
          && net.Came(reg.StoredFrom(first), reg.StoredTo(first, last), data)
          ensures GenuinePiece(plain, first, i, data)
        {
          StoredRun(plain, preamble, first, last, data);
        }
      }
    }

    /** When everything can be fetched, so can whatever is asked for. */
    lemma TotalIsObtainable(header: Option<string>)
      requires reg.Playable() && Total()
      ensures Obtainable(header)
    {
    }

    lemma HealthyIsTotal(plain: bytes, preamble: bytes)
      requires prim.Lawful() && reg.Playable() && Healthy(plain, preamble)
      ensures Right(plain) && Total()
    {
      StoredIsTrusted(plain, preamble);
      TrustedIsRight(plain);
      forall first: nat, last: nat | first <= last && last * reg.BlockSize() < reg.size
        ensures Fetchable(first, last)
      {
        if reg.encrypted {
          RunInBounds(plain, preamble, first, last);
        } else {
          PlainInBounds(plain, first, last);
        }
        forall data | net.Came(reg.StoredFrom(first), reg.StoredTo(first, last), data)
          ensures Decode(first, last, data).Ok?
        {
          StoredRunDecodes(plain, preamble, first, last, data);
        }
      }
    }
  }

  function Prepend(head: seq<bytes>, rest: Result<seq<bytes>, PlayError>): Result<seq<bytes>, PlayError> {
    if rest.Err? then rest else Ok(head + rest.value)
  }

  // ── Streams ───────────────────────────────────────────────────────────────

  class Stream {
    const origin: Origin

    const cache: Cache<bytes>
    /** Requests made so far. */
    var requests: nat

    constructor (origin: Origin)
      requires origin.prim.Lawful()
      ensures Valid() && fresh(cache) && this.origin == origin && cache.entries == map[]
    {
      this.origin := origin;
      cache := new Cache<bytes>();
      requests := 0;
    }

    ghost predicate Valid()
      reads this, cache
    {
      origin.prim.Lawful() && cache.Valid()
    }

    /** Every cached entry is the plaintext block of its key. */
    ghost predicate Faithful(plain: bytes)
      reads cache
      requires origin.reg.Playable()
    {
      origin.FaithfulMap(plain, cache.entries)
    }

    /** Stored bytes `a..b` through the gateway, renewing an expired ticket once. */
    method Upstream(a: nat, b: nat) returns (r: Result<bytes, PlayError>)
      modifies `requests
      ensures r.Ok? ==> origin.net.Came(a, b, r.value)
      ensures origin.net.Answering(a, b) ==> r.Ok?
      ensures
        var again := origin.net.reply(old(requests), a, b).Unauthorized? && origin.net.renewed(old(requests));
        && requests == old(requests) + (if again then 2 else 1)
        && r == Verdict(origin.net.reply(requests - 1, a, b))
    {
      var attempt := 0;
      while attempt < 2
        invariant 0 <= attempt <= 2 && requests == old(requests) + attempt
        invariant attempt > 0 ==>
          origin.net.reply(old(requests), a, b).Unauthorized? && origin.net.renewed(old(requests))
        invariant attempt < 2
        invariant origin.net.Answering(a, b) ==> attempt == 0
      {
        var n := requests;
        requests := requests + 1;
        var res := origin.net.reply(n, a, b);
        match res {
          case Delivered(data) => return Ok(data);
          case Unauthorized =>
            if attempt == 0 {
              if !origin.net.renewed(n) {
                break;
              }
            } else {
              return Err(PlayError(401));
            }
          case Failed(status) => return Err(PlayError(status));
          case Unreachable => return Err(PlayError(422));
        }
        attempt := attempt + 1;
      }
      return Err(PlayError(401));
    }

    /** Blocks `first..last`, as plaintext, from one request. */
    method FetchBlocks(first: nat, last: nat, ghost plain: bytes) returns (r: Result<seq<bytes>, PlayError>)
      requires origin.reg.Playable() && first <= last && last * origin.reg.BlockSize() < origin.reg.size
      modifies `requests
      ensures r.Ok? ==> |r.value| == last - first + 1
      ensures r.Ok? && origin.Right(plain) ==> origin.FaithfulRun(plain, first, r.value)
      ensures origin.Fetchable(first, last) ==> r.Ok?
      ensures r.Err? ==> requests > 0 && origin.FailedFor(first, last, requests - 1, r.error)
    {
      var fetched := Upstream(origin.reg.StoredFrom(first), origin.reg.StoredTo(first, last));
      if fetched.Err? {
        return Err(fetched.error);
      }
      if origin.reg.encrypted {
        r := DecryptRun(origin, first, last, fetched.value);
        origin.OpenFailsOneWay(first, last, 0, fetched.value);
      } else {
        r := SliceRun(origin, first, last, fetched.value);
      }
    }

    /** How far a run starting at an uncached block goes. */
    method RunEnd(i: nat, lastWanted: nat) returns (last: nat)
      requires i <= lastWanted && i !in cache.entries
      ensures i <= last <= lastWanted && last - i < RUN
      ensures forall k :: i <= k <= last ==> k !in cache.entries
      ensures last == lastWanted || last - i + 1 == RUN || last + 1 in cache.entries
    {
      last := i;
      while last < lastWanted && last - i + 1 < RUN && last + 1 !in cache.entries
        invariant i <= last <= lastWanted && last - i < RUN
        invariant forall k :: i <= k <= last ==> k !in cache.entries
      {
        last := last + 1;
      }
    }

    /**
     * One block, from the cache or fetched with up to three after it. Trust in what is fetched is
     * trust in what is cached.
     */
    method GetBlock(i: nat, lastWanted: nat, ghost plain: bytes)
      returns (r: Result<bytes, PlayError>, ghost run: seq<bytes>)
      requires Valid() && origin.reg.Playable() && i <= lastWanted
      requires lastWanted * origin.reg.BlockSize() < origin.reg.size
      modifies this, cache
      ensures Valid()
      ensures origin.Right(plain) && old(Faithful(plain)) ==>
        Faithful(plain) && (r.Ok? ==> r.value == origin.PlainBlock(plain, i))
      ensures old(i in cache.entries) ==>
        && r == Ok(old(cache.entries)[i]) && requests == old(requests)
        && cache.entries == old(cache.entries) && cache.order == Without(old(cache.order), i) + [i]
      ensures old(i !in cache.entries) && r.Ok? ==>
        && 1 <= |run| <= RUN && i + |run| - 1 <= lastWanted && r.value == run[0]
        && RunWasSet(old(cache.entries), old(cache.order), i, run, cache.entries, cache.order)
      ensures r.Ok? ==> i in cache.entries && cache.entries[i] == r.value
      ensures r.Err? ==> i !in old(cache.entries) && i !in cache.entries
      ensures origin.TotalWithin(i, lastWanted) ==> r.Ok?
      ensures r.Err? ==> requests > 0 && origin.FailedAt(i, lastWanted, requests - 1, r.error)
    {
      if i in cache.entries {
        cache.Touch(i);
        return Ok(cache.entries[i]), [];
      }
      r, run := GetMissing(i, lastWanted, plain);
    }

    /** A block that is not cached: the run it starts is fetched and cached, unless that fails. */
    method GetMissing(i: nat, lastWanted: nat, ghost plain: bytes)
      returns (r: Result<bytes, PlayError>, ghost run: seq<bytes>)
      requires Valid() && origin.reg.Playable() && i <= lastWanted
      requires lastWanted * origin.reg.BlockSize() < origin.reg.size
      requires i !in cache.entries
      modifies this, cache
      ensures Valid()
      ensures origin.Right(plain) && old(Faithful(plain)) ==>
        Faithful(plain) && (r.Ok? ==> r.value == origin.PlainBlock(plain, i))
      ensures r.Ok? ==>
        && 1 <= |run| <= RUN && i + |run| - 1 <= lastWanted && r.value == run[0]
        && RunWasSet(old(cache.entries), old(cache.order), i, run, cache.entries, cache.order)
      ensures r.Ok? ==> i in cache.entries && cache.entries[i] == r.value
      ensures r.Err? ==> i !in old(cache.entries) && i !in cache.entries
      ensures origin.TotalWithin(i, lastWanted) ==> r.Ok?
      ensures r.Err? ==> requests > 0 && origin.FailedAt(i, lastWanted, requests - 1, r.error)
    {
      var last := RunEnd(i, lastWanted);
      assert last * origin.reg.BlockSize() < origin.reg.size by {
        MulMonotone(last, lastWanted, origin.reg.BlockSize());
      }
      var fetched := FetchBlocks(i, last, plain);
      if fetched.Err? {
        cache.PutFailed(i, Pending(last - i + 1));
        return Err(fetched.error), [];
      }
      run := fetched.value;
      ghost var entries, order := cache.entries, cache.order;
      cache.PutRun(i, fetched.value);
      AskedForStays(entries, order, i, run, cache.entries, cache.order);
      if origin.Right(plain) && origin.FaithfulMap(plain, entries) {
        origin.RunKeepsFaith(plain, entries, order, i, run, cache.entries, cache.order);
      }
      return Ok(cache.entries[i]), run;
    }

    /** The piece of block `i` that lies in `[start, end]`. */
    method Piece(i: nat, first: nat, last: nat, start: nat, end: nat, ghost plain: bytes)
      returns (r: Result<bytes, PlayError>)
      requires Valid() && origin.reg.Playable() && first <= i <= last && start <= end < origin.reg.size
      requires Spans(first, last, start, end, origin.reg.BlockSize())
      modifies this, cache
      ensures Valid()
      ensures origin.Right(plain) && old(Faithful(plain)) ==>
        && Faithful(plain)
        && var f := origin.reg.BlockSize();
        (r.Ok? ==> UpTo(plain, f, start, end, i + 1) == UpTo(plain, f, start, end, i) + r.value)
      ensures r.Err? ==> i !in old(cache.entries) && i !in cache.entries
      ensures origin.TotalWithin(first, last) ==> r.Ok?
      ensures r.Err? ==> requests > 0 && origin.FailedAt(i, last, requests - 1, r.error)
    {
      var f := origin.reg.BlockSize();
      var b, _ := GetBlock(i, last, plain);
      if b.Err? {
        return b;
      }
      assert i == last ==> i * f <= end;
      var from := if i == first then start - i * f else 0;
      var to := if i == last then end - i * f + 1 else |b.value|;
      if origin.Right(plain) && old(Faithful(plain)) {
        PieceExtends(plain, f, start, end, first, last, i, from, to);
      }
      return Ok(Clamp(b.value, from, to));
    }

    /**
     * The plaintext bytes `[start, end]`, block by block; the first is read before answering. It is an error
     * only when the first block cannot be had; a later one only cuts the body, after the last block read.
     */
    method RangeBody(start: nat, end: nat, ghost plain: bytes)
      returns (r: Result<Body, PlayError>, ghost first: nat, ghost last: nat)
      requires Valid() && origin.reg.Playable() && start <= end < origin.reg.size
      modifies this, cache
      ensures Valid() && Spans(first, last, start, end, origin.reg.BlockSize())
      ensures origin.Right(plain) && old(Faithful(plain)) ==>
        && Faithful(plain)
        && (r.Ok? ==> r.value.SliceOf(plain, start, end))
        && (r.Ok? ==> r.value.BlocksOf(plain, origin.reg.BlockSize(), start, end, first, last))
      ensures r.Err? ==> first !in old(cache.entries) && first !in cache.entries
      ensures origin.Available(start, end) ==> r.Ok? && r.value.complete
      ensures r.Err? ==> requests > 0 && origin.FailedAt(first, last, requests - 1, r.error)
    {
      var firstBlock, lastBlock := Spanned(start, end, origin.reg.BlockSize());
      first, last := firstBlock, lastBlock;
      r := ReadBlocks(firstBlock, lastBlock, start, end, plain);
      if r.Ok? && origin.Right(plain) && old(Faithful(plain)) {
        r.value.BlocksAreSlice(plain, origin.reg.BlockSize(), start, end, first, last);
      }
    }

    method ReadBlocks(first: nat, last: nat, start: nat, end: nat, ghost plain: bytes)
      returns (r: Result<Body, PlayError>)
      requires Valid() && origin.reg.Playable() && start <= end < origin.reg.size
      requires Spans(first, last, start, end, origin.reg.BlockSize())
      modifies this, cache
      ensures Valid()
      ensures origin.Right(plain) && old(Faithful(plain)) ==>
        Faithful(plain) && (r.Ok? ==> r.value.BlocksOf(plain, origin.reg.BlockSize(), start, end, first, last))
      ensures r.Err? ==> first !in old(cache.entries) && first !in cache.entries
      ensures origin.TotalWithin(first, last) ==> r.Ok? && r.value.complete
      ensures r.Err? ==> requests > 0 && origin.FailedAt(first, last, requests - 1, r.error)
    {
      if origin.Right(plain) && Faithful(plain) {
        SliceIsCovered(plain, origin.reg.BlockSize(), start, end, first, last);
      }
      var head := Piece(first, first, last, start, end, plain);
      if head.Err? {
        return Err(head.error);
      }
      r := ReadOn(head.value, first, last, start, end, plain);
    }

    /** The blocks after the first; a failure ends the answer early. */
    method ReadOn(head: bytes, first: nat, last: nat, start: nat, end: nat, ghost plain: bytes)
      returns (r: Result<Body, PlayError>)
      requires Valid() && origin.reg.Playable() && start <= end < origin.reg.size
      requires Spans(first, last, start, end, origin.reg.BlockSize())
      modifies this, cache
      ensures Valid() && r.Ok?
      ensures origin.Right(plain) && old(Faithful(plain)) ==>
        head == UpTo(plain, origin.reg.BlockSize(), start, end, first + 1) ==>
        Faithful(plain) && r.value.BlocksOf(plain, origin.reg.BlockSize(), start, end, first, last)
      ensures origin.TotalWithin(first, last) ==> r.value.complete
    {
      ghost var f := origin.reg.BlockSize();
      ghost var trusted := origin.Right(plain) && Faithful(plain) && head == UpTo(plain, f, start, end, first + 1);
      var content: bytes := head;
      var next := first + 1;
      while next <= last
        invariant first < next <= last + 1 && Valid()
        invariant trusted ==> Faithful(plain) && content == UpTo(plain, f, start, end, next)
      {
        var piece := Piece(next, first, last, start, end, plain);
        if piece.Err? {
          return Ok(Body(content, false));
        }
        content := content + piece.value;
        next := next + 1;
      }
      return Ok(Body(content, true));
    }

    /** The worker's answer to one request for the stream. */
    method Serve(header: Option<string>, ghost plain: bytes) returns (r: Response)
      requires Valid()
      modifies this, cache
      ensures Valid()
      ensures !origin.reg.Playable() ==> r == Text(422)
      ensures origin.reg.Playable() && origin.Right(plain) && old(Faithful(plain)) ==>
        Faithful(plain) && (r.Media? ==> r.Answers(Promised(header, plain)))
      ensures origin.reg.Playable() && origin.Right(plain) && origin.Obtainable(header) && old(Faithful(plain)) ==>
        r == Promised(header, plain)
      ensures origin.reg.Playable() ==> origin.Explains(Wanted(header, origin.reg.size), requests, r)
    {
      if origin.reg.encrypted && (origin.reg.key.None? || origin.reg.layout.None?) {
        return Text(422);
      }
      var size := origin.reg.size;
      if size == 0 {
        return Media(200, None, None, Body([], true));
      }
      if header.None? || header.value == "" {
        r := Answer(200, None, 0, size - 1, plain);
        assert origin.Right(plain) ==> plain[0..size] == plain;
        return;
      }
      r := ServePlayed(PlayedRange(header.value, size), plain);
    }

    /** The plaintext bytes `[start, end]` with these headers, or why not. */
    method Answer(status: nat, range: Option<(nat, nat)>, start: nat, end: nat, ghost plain: bytes)
      returns (r: Response)
      requires Valid() && origin.reg.Playable() && start <= end < origin.reg.size
      modifies this, cache
      ensures Valid()
      ensures origin.Right(plain) && old(Faithful(plain)) ==>
        && Faithful(plain)
        && var promised := Media(status, Some(end + 1 - start), range, Body(plain[start..end + 1], true));
        (r.Media? ==> r.Answers(promised)) && (origin.Available(start, end) ==> r == promised)
      ensures origin.Explains(Some((start, end)), requests, r)
    {
      var body, _, _ := RangeBody(start, end, plain);
      if body.Err? {
        return Text(body.error.status);
      }
      return Media(status, Some(end - start + 1), range, body.value);
    }

    /** A readable range, answered with a bounded window. */
    method ServePlayed(played: Played, ghost plain: bytes) returns (r: Response)
      requires Valid() && origin.reg.Playable() && (played.Play? ==> played.start <= played.end < origin.reg.size)
      modifies this, cache
      ensures Valid()
      ensures origin.Right(plain) && old(Faithful(plain)) ==>
        Faithful(plain) && (r.Media? ==> r.Answers(PromisedPlay(played, plain)))
      ensures origin.Right(plain) && old(Faithful(plain)) ==>
        (Bounded(played).Some? ==> origin.Available(Bounded(played).value.0, Bounded(played).value.1)) ==>
        r == PromisedPlay(played, plain)
      ensures origin.Explains(Bounded(played), requests, r)
    {
      if !played.Play? {
        return Text(416);
      }
      var start := played.start;
      var end := Min(played.end, start + WINDOW - 1);
      if origin.Right(plain) {
        PromisedWindow(played, plain, start, end);
      }
      r := Answer(206, Some((start, end)), start, end, plain);
    }
  }

  /** The first and last block a range touches. */
  method Spanned(start: nat, end: nat, f: pos) returns (first: nat, last: nat)
    requires start <= end
    ensures Spans(first, last, start, end, f)
  {
    first, last := start / f, end / f;
    BlockOf(start, f);
    BlockOf(end, f);
    BlocksInOrder(f, start, end);
  }

  /** Placeholders for a run still being fetched. */
  function Pending(n: nat): (p: seq<bytes>)
    ensures |p| == n
  {
    seq(n, _ => [])
  }

  /** An unencrypted run cut into its blocks. */
  method SliceRun(origin: Origin, first: nat, last: nat, data: bytes) returns (r: Result<seq<bytes>, PlayError>)
    requires origin.reg.Playable() && !origin.reg.encrypted && first <= last
    ensures r == origin.Decode(first, last, data) && r.Ok? && |r.value| == last - first + 1
  {
    var out: seq<bytes> := [];
    var i := first;
    ghost var all := origin.CutRun(first, first, last, data);
    while i <= last
      invariant first <= i <= last + 1 && out + origin.CutRun(first, i, last, data) == all
    {
      SliceStep(origin, first, i, last, data, out);
      out := out + [origin.CutPiece(first, i, data)];
      i := i + 1;
    }
    assert out + [] == out;
    return Ok(out);
  }

  /** One more block cut leaves one fewer to cut. */
  lemma SliceStep(origin: Origin, first: nat, i: nat, last: nat, data: bytes, out: seq<bytes>)
    requires origin.reg.Playable() && first <= i <= last
    ensures out + origin.CutRun(first, i, last, data) ==
      out + [origin.CutPiece(first, i, data)] + origin.CutRun(first, i + 1, last, data)
  {
  }

  /** Each frame of an encrypted run opened in turn. */
  method DecryptRun(origin: Origin, first: nat, last: nat, data: bytes) returns (r: Result<seq<bytes>, PlayError>)
    requires origin.reg.Playable() && origin.reg.encrypted && first <= last
    ensures r == origin.Decode(first, last, data) && (r.Ok? ==> |r.value| == last - first + 1)
  {
    var out: seq<bytes> := [];
    var at := 0;
    var i := first;
    PrependNothing(origin.OpenRun(first, last, 0, data));
    while i <= last
      invariant first <= i <= last + 1 && |out| == i - first && 0 <= at
      invariant origin.OpenRun(first, last, 0, data) == Prepend(out, origin.OpenRun(i, last, at, data))
    {
      var plainFrame := origin.OpenAt(i, at, data);
      if plainFrame.None? {
        return Err(PlayError(422));
      }
      PrependTwice(out, plainFrame.value, origin.OpenRun(i + 1, last, at + origin.reg.LenOf(i) + TAG, data));
      out := out + [plainFrame.value];
      at := at + origin.reg.LenOf(i) + TAG;
      i := i + 1;
    }
    assert out + [] == out;
    return Ok(out);
  }

  lemma PrependNothing(rest: Result<seq<bytes>, PlayError>)
    ensures Prepend([], rest) == rest
  {
    if rest.Ok? {
      assert [] + rest.value == rest.value;
    }
  }

  lemma PrependTwice(out: seq<bytes>, head: bytes, rest: Result<seq<bytes>, PlayError>)
    ensures Prepend(out, Prepend([head], rest)) == Prepend(out + [head], rest)
  {
    if rest.Ok? {
      assert out + ([head] + rest.value) == out + [head] + rest.value;
    }
  }
}
