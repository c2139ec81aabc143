/** Reads through the streaming gateway: a window cut from whatever Drive sends. */
module Gateway {
  import opened Bytes
  import opened Ranges

  /** The `window` transform: of everything fed, pass on bytes `[skip, skip + take)`. */
  class Window {
    const skip: nat
    const take: nat
    var seen: nat
    ghost var fed: bytes

    ghost predicate Valid()
      reads this
    {
      seen == |fed|
    }

    constructor (skip: nat, take: nat)
      ensures Valid() && fed == [] && this.skip == skip && this.take == take
    {
      this.skip, this.take, seen, fed := skip, take, 0, [];
    }

    method Transform(chunk: bytes) returns (piece: bytes)
      requires Valid()
      modifies this
      ensures Valid() && fed == old(fed) + chunk
      ensures Clamp(fed, skip, skip + take) == Clamp(old(fed), skip, skip + take) + piece
    {
      ClampAppend(fed, chunk, skip, skip + take);
      var from := Max(0, skip - seen);
      var to := Min(|chunk|, skip + take - seen);
      seen := seen + |chunk|;
      fed := fed + chunk;
      piece := if from < to then chunk[from..to] else [];
    }
  }

  /** Drive's answer, however its body is split: the range asked for, or the whole file regardless. */
  datatype DriveReply = Honoured(chunks: seq<bytes>) | Ignored(chunks: seq<bytes>)

  predicate Answers(drive: DriveReply, stored: bytes, asked: Asked) {
    match asked
    case Range(start, end) =>
      start <= end < |stored| && Concat(drive.chunks) == if drive.Honoured? then stored[start..end + 1] else stored
    case _ => Concat(drive.chunks) == stored
  }

  datatype Reply = Refused(status: nat) | Sent(status: nat, contentLength: nat, body: bytes)

  /** What a reader is owed: the bytes asked for, the status, and a Content-Length that matches. */
  function Owed(header: Option<string>, stored: bytes): Reply {
    match ParseRange(header, |stored|)
    case Bad => Refused(416)
    case Whole => Sent(200, |stored|, stored)
    case Range(start, end) =>
      if start <= end < |stored| then Sent(206, end - start + 1, stored[start..end + 1]) else Refused(416)
  }

  /** The positions of an object that a readable header asks for. */
  ghost predicate AsksFor(header: string, total: nat, p: nat) {
    p < total && Groups(header).Some? && Wants(Groups(header).value.0, Groups(header).value.1, total, p)
  }

  /** Those are positions `start` to `end`, and they are what is sent. */
  ghost predicate OwedSlice(header: string, stored: bytes, start: nat, end: nat) {
    && start <= end < |stored|
    && (forall p: nat :: AsksFor(header, |stored|, p) <==> start <= p <= end)
    && Owed(Some(header), stored) == Sent(206, end + 1 - start, stored[start..end + 1])
  }

  /**
   * Without a header the whole object; otherwise exactly the bytes at the positions the header asks for, with status
   * 206, and 416 when it cannot be read or asks for none.
   */
  lemma OwedExactly(header: Option<string>, stored: bytes)
    ensures header.None? || header.value == "" ==> Owed(header, stored) == Sent(200, |stored|, stored)
    ensures header.Some? && header.value != "" ==>
      if exists p :: AsksFor(header.value, |stored|, p) then
        exists start: nat, end: nat :: OwedSlice(header.value, stored, start, end)
      else Owed(header, stored) == Refused(416)
  {
    if header.Some? && header.value != "" {
      ParseRangeExact(header.value, |stored|);
      var asked := ParseRange(header, |stored|);
      if asked.Range? {
        assert AsksFor(header.value, |stored|, asked.start);
        assert OwedSlice(header.value, stored, asked.start, asked.end);
      }
    }
  }

  /** The read route, once the ticket and the budget have let it through; `counted` is what the budget records. */
  method Read(header: Option<string>, stored: bytes, drive: DriveReply) returns (reply: Reply, counted: nat)
    requires Answers(drive, stored, ParseRange(header, |stored|))
    ensures reply == Owed(header, stored)
    ensures reply.Sent? ==> counted == reply.contentLength == |reply.body|
    ensures reply.Refused? ==> counted == 0
  {
    var total := |stored|;
    var range := ParseRange(header, total);
    if range.Bad? {
      return Refused(416), 0;
    }
    var start := if range.Range? then range.start else 0;
    var end := if range.Range? then range.end else total - 1;
    var length := end - start + 1;
    var body;
    body, counted := Pipe(drive, range.Range? && drive.Ignored?, start, length);
    reply := Sent(if range.Range? then 206 else 200, length, body);
  }

  /** The response body piped through the window, when one is needed, and through the byte counter. */
  method Pipe(drive: DriveReply, sliced: bool, start: nat, length: nat) returns (body: bytes, counted: nat)
    ensures counted == |body|
    ensures body == if sliced then Clamp(Concat(drive.chunks), start, start + length) else Concat(drive.chunks)
  {
    var window := new Window(start, length);
    body, counted := [], 0;
    ghost var fed: bytes := [];
    var i := 0;
    while i < |drive.chunks|
      invariant 0 <= i <= |drive.chunks| && fed == Concat(drive.chunks[..i])
      invariant window.Valid() && fresh(window) && (sliced ==> window.fed == fed)
      invariant counted == |body| && body == if sliced then Clamp(fed, start, start + length) else fed
    {
      ConcatPrefix(drive.chunks, i);
      var piece := drive.chunks[i];
      if sliced {
        piece := window.Transform(piece);
      }
      fed := fed + drive.chunks[i];
      body, counted := body + piece, counted + |piece|;
      i := i + 1;
    }
    assert drive.chunks[..i] == drive.chunks;
  }

  /** The worker's request for stored bytes `a` to `b` brings back exactly those bytes, as far as the object goes. */
  lemma FetchedExactly(stored: bytes, a: nat, b: nat)
    requires a <= b
    ensures Owed(Some(RangeHeader(a, b)), stored) ==
      if a < |stored| then Sent(206, |Clamp(stored, a, b + 1)|, Clamp(stored, a, b + 1)) else Refused(416)
  {
    HeaderUnderstood(a, b, |stored|);
  }
}
