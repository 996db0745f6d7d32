/** Resumable downloads into the model cache (packages/hub/src/download.ts:316-413, 520-565) as functions
    of what the network, the disk and the caller's abort signal do.

    The server is an adversary: it may answer with any status and any bytes, stop anywhere, or ignore
    the range that was asked for (section 14.2 of RFC 9110). Status 206 continues the range (section
    15.3.7 of RFC 9110), status 200 sends the whole file (section 15.3.1 of RFC 9110). */
module DownloadModel {
  import opened Wrappers
  import opened RepoPaths
  import opened RegistryGc

  /** The hash functions, of which nothing is assumed, and the header that git hashes before a blob. */
  datatype Hashes = Hashes(sha256: Bytes -> string, sha1: Bytes -> string, header: nat -> Bytes)

  /** The digest that is compared with a blob id: sha256 for large files, git's blob hash for others.
      A sha256 has 64 digits, a sha1 has 40. */
  function Digest(h: Hashes, id: string, size: nat, bytes: Bytes): string {
    if |id| == 64 then h.sha256(bytes) else h.sha1(h.header(size) + bytes)
  }

  /** Does the id name these bytes? One of 64 digits is their sha256; any other is the sha1 of git's header
      and the bytes. */
  predicate Authentic(h: Hashes, id: string, bytes: Bytes) {
    if |id| == 64 then h.sha256(bytes) == id else h.sha1(h.header(|bytes|) + bytes) == id
  }

  datatype Expected = Expected(id: string, size: nat)

  /** One read of a response body: bytes, after which the signal may have fired; a read that fails or
      is aborted; or bytes of which only some reach the disk before the write fails. */
  datatype Chunk = Data(bytes: Bytes, aborts: bool) | Broken | Torn(written: Bytes)

  datatype Reply = NoReply | Reply(status: nat, chunks: seq<Chunk>)

  /** One request: whether the signal has fired before it, the reply, and whether the signal has fired
      by the time a reply that ignores the range was discarded. */
  datatype Exchange = Exchange(aborted: bool, reply: Reply, abortedAfter: bool)

  function Length(part: Option<Bytes>): nat {
    match part case None => 0 case Some(bytes) => |bytes|
  }

  function Contents(part: Option<Bytes>): Bytes {
    match part case None => [] case Some(bytes) => bytes
  }

  /** A partial file that is longer than the blob is junk. */
  function Usable(part: Option<Bytes>, size: nat): Option<Bytes> {
    if Length(part) > size then None else part
  }

  /** The partial file after the chunks of a body were appended, and whether the body ended normally. */
  function Receive(part: Bytes, chunks: seq<Chunk>): (Bytes, bool)
    decreases |chunks|
  {
    if chunks == [] then (part, true)
    else
      match chunks[0]
      case Data(bytes, aborts) => if aborts then (part + bytes, false) else Receive(part + bytes, chunks[1..])
      case Broken => (part, false)
      case Torn(written) => (part + written, false)
  }

  /** The network half of an attempt: the partial file it leaves, and whether it came to its end. */
  function Fill(e: Expected, part: Option<Bytes>, exchanges: seq<Exchange>): (Option<Bytes>, bool)
    decreases |exchanges|
  {
    var p := Usable(part, e.size);
    if Length(p) >= e.size then (p, true)
    else if exchanges == [] || exchanges[0].aborted || exchanges[0].reply.NoReply? then (p, false)
    else
      var status := exchanges[0].reply.status;
      if status == 200 && Length(p) > 0 then
        if exchanges[0].abortedAfter then (p, false) else Fill(e, None, exchanges[1..])
      else if status != 200 && status != 206 then (p, false)
      else
        var (bytes, ended) := Receive(Contents(p), exchanges[0].reply.chunks);
        (Some(bytes), ended)
  }

  /** What an attempt leaves: the partial file, and the bytes it published, if it did. */
  datatype Result = Result(part: Option<Bytes>, published: Option<Bytes>)

  /** What becomes of a partial file that needs no more bytes: it is published if it has the size and the
      digest that were expected, kept if it is too short, and removed if the digest differs. */
  function Settle(h: Hashes, e: Expected, part: Option<Bytes>, abortedAtEnd: bool): Result {
    if abortedAtEnd then Result(part, None)
    else
      var p := if e.size == 0 && part.None? then Some([]) else part;
      if Length(p) != e.size then Result(p, None)
      else if Digest(h, e.id, e.size, Contents(p)) != e.id then Result(None, None)
      else Result(None, Some(Contents(p)))
  }

  /** One call of downloadOneLocked. `abortedAtEnd` is the last look at the signal before publishing. */
  function Attempt(h: Hashes, e: Expected, part: Option<Bytes>, exchanges: seq<Exchange>, abortedAtEnd: bool): Result {
    var (filled, ended) := Fill(e, part, exchanges);
    if ended then Settle(h, e, filled, abortedAtEnd) else Result(filled, None)
  }

  // ---- Soundness ------------------------------------------------------------------------------

  /** Whatever the server sends and whatever partial file was there: bytes are published only if there
      are as many as expected and the id is their hash, the sha256 of the bytes alone or the sha1 of the header
      and the bytes; the partial file is gone then. Nothing is published once the signal was seen to have
      fired. */
  lemma AttemptIsSound(h: Hashes, e: Expected, part: Option<Bytes>, exchanges: seq<Exchange>, abortedAtEnd: bool)
    ensures var r := Attempt(h, e, part, exchanges, abortedAtEnd);
            r.published.Some? ==>
              && |r.published.value| == e.size && r.part.None? && !abortedAtEnd
              && Authentic(h, e.id, r.published.value)
              && (if |e.id| == 64 then h.sha256(r.published.value) == e.id
                  else h.sha1(h.header(e.size) + r.published.value) == e.id)
  {
  }

  /** The restart after an ignored range happens at most once: no attempt makes a third request, and
      none that starts from nothing makes a second. */
  lemma RestartsAtMostOnce(h: Hashes, e: Expected, part: Option<Bytes>, exchanges: seq<Exchange>, abortedAtEnd: bool)
    ensures |exchanges| > 2 ==>
              Attempt(h, e, part, exchanges, abortedAtEnd) == Attempt(h, e, part, exchanges[..2], abortedAtEnd)
    ensures |exchanges| > 1 && Length(Usable(part, e.size)) == 0 ==>
              Attempt(h, e, part, exchanges, abortedAtEnd) == Attempt(h, e, part, exchanges[..1], abortedAtEnd)
  {
    if |exchanges| > 1 {
      FillsFromNothing(e, exchanges[1..]);
      FillsFromNothing(e, exchanges);
      assert exchanges[..2][1..] == exchanges[1..][..1];
    }
  }

  lemma FillsFromNothing(e: Expected, exchanges: seq<Exchange>)
    requires exchanges != []
    ensures Fill(e, None, exchanges) == Fill(e, None, exchanges[..1])
    ensures forall part :: Length(Usable(part, e.size)) == 0 ==> Fill(e, part, exchanges) == Fill(e, part, exchanges[..1])
  {
  }

  /** Once the signal was seen to have fired before a request, nothing more is received. */
  lemma NoRequestAfterAbort(h: Hashes, e: Expected, part: Option<Bytes>, exchanges: seq<Exchange>, abortedAtEnd: bool)
    requires exchanges != [] && exchanges[0].aborted && Length(Usable(part, e.size)) < e.size
    ensures Attempt(h, e, part, exchanges, abortedAtEnd) == Result(Usable(part, e.size), None)
    ensures Attempt(h, e, part, exchanges, abortedAtEnd) == Attempt(h, e, part, [], abortedAtEnd)
  {
  }

  /** A range that is ignored after the signal has fired, and any status but 200 and 206, leave the partial
      file as it was. */
  lemma RefusedRequestKeepsThePart(h: Hashes, e: Expected, part: Option<Bytes>, exchanges: seq<Exchange>, abortedAtEnd: bool)
    requires exchanges != [] && !exchanges[0].aborted && exchanges[0].reply.Reply? && Length(Usable(part, e.size)) < e.size
    requires var status := exchanges[0].reply.status;
             (status == 200 && Length(Usable(part, e.size)) > 0 && exchanges[0].abortedAfter) || (status != 200 && status != 206)
    ensures Attempt(h, e, part, exchanges, abortedAtEnd) == Result(Usable(part, e.size), None)
  {
  }

  /** The bytes of a body that reach the disk: all before the read, the write or the signal that ends it,
      and what such a write still wrote. */
  function Arrived(chunks: seq<Chunk>): Bytes {
    if chunks == [] then []
    else
      match chunks[0]
      case Data(bytes, aborts) => bytes + if aborts then [] else Arrived(chunks[1..])
      case Broken => []
      case Torn(written) => written
  }

  /** A body ends normally exactly if no read or write of it fails and the signal does not fire; whatever
      happens, what arrived is behind what was there. */
  lemma {:induction false} ReceiveExactly(part: Bytes, chunks: seq<Chunk>)
    ensures Receive(part, chunks) ==
              (part + Arrived(chunks), forall k :: 0 <= k < |chunks| ==> chunks[k].Data? && !chunks[k].aborts)
    decreases |chunks|
  {
    if chunks == [] {
      assert part + [] == part;
    } else if chunks[0].Data? && !chunks[0].aborts {
      ReceiveExactly(part + chunks[0].bytes, chunks[1..]);
      assert part + chunks[0].bytes + Arrived(chunks[1..]) == part + (chunks[0].bytes + Arrived(chunks[1..]));
      assert forall k :: 0 < k < |chunks| ==> chunks[k] == chunks[1..][k - 1];
    } else {
      assert part + [] == part;
      if chunks[0].Data? {
        assert chunks[0].bytes + [] == chunks[0].bytes;
      }
    }
  }

  // ---- Resuming -------------------------------------------------------------------------------

  lemma {:induction false} ReceiveAppends(part: Bytes, chunks: seq<Chunk>)
    ensures part <= Receive(part, chunks).0
    decreases |chunks|
  {
    if chunks != [] && chunks[0].Data? && !chunks[0].aborts {
      ReceiveAppends(part + chunks[0].bytes, chunks[1..]);
    }
  }

  /** An attempt that fails keeps what was there before it, unless that was junk, the server ignored the
      range, or the digest of a complete file was wrong: so work is lost only for those three reasons. */
  lemma FailureKeepsThePrefix(h: Hashes, e: Expected, part: Option<Bytes>, exchanges: seq<Exchange>, abortedAtEnd: bool)
    requires part.Some? && |part.value| <= e.size
    requires exchanges != [] && exchanges[0].reply.Reply? ==> exchanges[0].reply.status != 200
    requires Attempt(h, e, part, exchanges, abortedAtEnd).published.None?
    ensures var r := Attempt(h, e, part, exchanges, abortedAtEnd);
            || (r.part.Some? && part.value <= r.part.value)
            || (r.part.None? && Fill(e, part, exchanges).1 && Length(Fill(e, part, exchanges).0) == e.size
                && !Authentic(h, e.id, Contents(Fill(e, part, exchanges).0)))
  {
    if exchanges != [] && exchanges[0].reply.Reply? {
      ReceiveAppends(part.value, exchanges[0].reply.chunks);
    }
  }

  // ---- An honest server -----------------------------------------------------------------------

  /** All the bytes of a body, if nothing goes wrong with it. */
  function Body(chunks: seq<Chunk>): Option<Bytes> {
    if chunks == [] then Some([])
    else if chunks[0].Data? && !chunks[0].aborts && Body(chunks[1..]).Some? then Some(chunks[0].bytes + Body(chunks[1..]).value)
    else None
  }

  lemma {:induction false} ReceiveBody(part: Bytes, chunks: seq<Chunk>)
    requires Body(chunks).Some?
    ensures Receive(part, chunks) == (part + Body(chunks).value, true)
    decreases |chunks|
  {
    if chunks != [] {
      ReceiveBody(part + chunks[0].bytes, chunks[1..]);
      assert part + chunks[0].bytes + Body(chunks[1..]).value == part + (chunks[0].bytes + Body(chunks[1..]).value);
    } else {
      assert part + [] == part;
    }
  }

  /** The reply serves this content from this offset, or all of it. */
  predicate Serves(x: Exchange, content: Bytes, offset: nat)
    requires offset <= |content|
  {
    && !x.aborted && !x.abortedAfter && x.reply.Reply?
    && (x.reply.status == 206 || x.reply.status == 200)
    && Body(x.reply.chunks) == Some(if x.reply.status == 206 then content[offset..] else content)
  }

  /** Two requests to an honest server: the second is only made if the first ignored the range, and then
      asks for everything. */
  predicate Honest(exchanges: seq<Exchange>, content: Bytes, offset: nat)
    requires offset <= |content|
  {
    && |exchanges| >= 2 && Serves(exchanges[0], content, offset)
    && (exchanges[0].reply.status == 200 ==> Serves(exchanges[1], content, 0))
  }

  /** Against an honest server an attempt that is not aborted completes the file from any usable partial
      file; it is the file itself if the partial file was a prefix of it, or had to be given up. */
  lemma HonestFill(e: Expected, content: Bytes, part: Option<Bytes>, exchanges: seq<Exchange>)
    requires |content| == e.size && Honest(exchanges, content, Length(Usable(part, e.size)))
    ensures var (filled, ended) := Fill(e, part, exchanges);
            && ended && Length(filled) == e.size
            && (Contents(Usable(part, e.size)) <= content ==> Contents(filled) == content)
  {
    var p := Usable(part, e.size);
    if Length(p) < e.size {
      if exchanges[0].reply.status == 200 && Length(p) > 0 {
        HonestReply(e, content, None, exchanges[1..]);
      } else {
        HonestReply(e, content, part, exchanges);
      }
    }
  }

  /** A reply that continues the partial file, or starts the file when there is none. */
  lemma HonestReply(e: Expected, content: Bytes, part: Option<Bytes>, exchanges: seq<Exchange>)
    requires |content| == e.size && Length(Usable(part, e.size)) < e.size
    requires exchanges != [] && Serves(exchanges[0], content, Length(Usable(part, e.size)))
    requires exchanges[0].reply.status == 200 ==> Length(Usable(part, e.size)) == 0
    ensures var p := Usable(part, e.size);
            Fill(e, part, exchanges) == (Some(Contents(p) + content[Length(p)..]), true)
  {
    var p := Usable(part, e.size);
    ReceiveBody(Contents(p), exchanges[0].reply.chunks);
    assert Length(p) == 0 ==> content[Length(p)..] == content;
  }

  /** A prefix of the file is completed to the file, which is published under its hash. */
  lemma HonestAttemptPublishes(h: Hashes, e: Expected, content: Bytes, part: Option<Bytes>, exchanges: seq<Exchange>)
    requires |content| == e.size
    requires if |e.id| == 64 then h.sha256(content) == e.id else h.sha1(h.header(|content|) + content) == e.id
    requires Contents(Usable(part, e.size)) <= content && Honest(exchanges, content, Length(Usable(part, e.size)))
    ensures Attempt(h, e, part, exchanges, false) == Result(None, Some(content))
  {
    HonestFill(e, content, part, exchanges);
  }

  /** No partial file is a trap: whatever is on disk, however it got there, after one attempt against an
      honest server either the blob has been published or the next such attempt publishes the file. */
  lemma TwoHonestAttemptsHeal(h: Hashes, e: Expected, content: Bytes, part: Option<Bytes>, first: seq<Exchange>, second: seq<Exchange>)
    requires |content| == e.size
    requires if |e.id| == 64 then h.sha256(content) == e.id else h.sha1(h.header(|content|) + content) == e.id
    requires Honest(first, content, Length(Usable(part, e.size))) && Honest(second, content, 0)
    ensures var r := Attempt(h, e, part, first, false);
            r.published.Some? || (r.part.None? && Attempt(h, e, r.part, second, false) == Result(None, Some(content)))
  {
    HonestFill(e, content, part, first);
    HonestAttemptPublishes(h, e, content, None, second);
  }
}
