/** The disk-space preflight of a download (packages/hub/src/download.ts:60-104, 476-496): what it counts,
    and when that is exactly what the download goes on to receive. */
module DownloadSpace {
  import opened Wrappers
  import opened RepoPaths
  import opened RegistryGc
  import opened DownloadModel
  import opened ModelCache
  import opened ModelCacheTheorems

  datatype SpacePlan = SpacePlan(remainingBytes: nat, remainingFiles: nat, completeFiles: nat, resumableBytes: nat)

  function Missing(blobs: map<string, Bytes>, files: seq<RepoFile>): nat {
    if files == [] then 0 else (if HasBlob(blobs, files[0]) then 0 else 1) + Missing(blobs, files[1..])
  }

  function MissingSizes(blobs: map<string, Bytes>, files: seq<RepoFile>): nat {
    if files == [] then 0 else (if HasBlob(blobs, files[0]) then 0 else files[0].size) + MissingSizes(blobs, files[1..])
  }

  /** Every file is either complete or counted as remaining; of the bytes of the latter, those in usable
      partial files are credited and the rest remain. */
  method PlanDownloadSpace(blobs: map<string, Bytes>, files: seq<RepoFile>) returns (plan: SpacePlan)
    ensures plan.remainingBytes == Remaining(blobs, files)
    ensures plan.remainingBytes + plan.resumableBytes == MissingSizes(blobs, files)
    ensures plan.remainingFiles == Missing(blobs, files) && plan.remainingFiles + plan.completeFiles == |files|
  {
    var remainingBytes: nat, remainingFiles: nat, completeFiles: nat, resumableBytes: nat := 0, 0, 0, 0;
    for i := 0 to |files|
      invariant remainingBytes + Remaining(blobs, files[i..]) == Remaining(blobs, files)
      invariant remainingBytes + resumableBytes + MissingSizes(blobs, files[i..]) == MissingSizes(blobs, files)
      invariant remainingFiles + Missing(blobs, files[i..]) == Missing(blobs, files)
      invariant remainingFiles + completeFiles == i
    {
      var f := files[i];
      assert files[i..][0] == f && files[i..][1..] == files[i + 1..];
      if f.id in blobs && |blobs[f.id]| == f.size {
        completeFiles := completeFiles + 1;
        continue;
      }
      var partBytes := if PartName(f.id) in blobs then |blobs[PartName(f.id)]| else 0;
      var credited := if partBytes <= f.size then partBytes else 0;
      resumableBytes := resumableBytes + credited;
      remainingBytes := remainingBytes + (f.size - credited);
      remainingFiles := remainingFiles + 1;
    }
    plan := SpacePlan(remainingBytes, remainingFiles, completeFiles, resumableBytes);
  }

  // ---- What a step that succeeds does to the blobs --------------------------------------------

  /** A blob of the listed size is left alone; otherwise the blob gets that size and its partial file goes. */
  predicate Handles(blobs: map<string, Bytes>, blobs': map<string, Bytes>, f: RepoFile) {
    if HasBlob(blobs, f) then blobs' == blobs
    else OnlyTouches(blobs, blobs', f.id) && HasBlob(blobs', f) && PartName(f.id) !in blobs'
  }

  lemma StepHandlesBlobs(h: Hashes, r: Repo, commit: string, f: RepoFile, v: Visit)
    requires FileStep(h, r, commit, f, v).1 && IsBlobId(f.id)
    ensures Handles(r.blobs, FileStep(h, r, commit, f, v).0.blobs, f)
  {
    FetchIsSound(h, r.blobs, f, v);
    PartNameIsNoId(f.id, f.id);
  }

  predicate Ids(files: seq<RepoFile>) {
    forall k :: 0 <= k < |files| ==> IsBlobId(files[k].id)
  }

  /** The files of a list that name the same blob as f give it the same size. */
  predicate SameSize(f: RepoFile, files: seq<RepoFile>) {
    forall k :: 0 <= k < |files| && files[k].id == f.id ==> files[k].size == f.size
  }

  lemma HandlesApart(blobs: map<string, Bytes>, blobs': map<string, Bytes>, f: RepoFile, g: RepoFile)
    requires Handles(blobs, blobs', f) && IsBlobId(f.id) && IsBlobId(g.id) && f.id != g.id
    ensures PartOf(blobs', g.id) == PartOf(blobs, g.id) && (g.id in blobs' <==> g.id in blobs)
    ensures g.id in blobs ==> blobs'[g.id] == blobs[g.id]
  {
    PartNameIsNoId(f.id, g.id);
    PartNameIsNoId(g.id, f.id);
    PartNamesDiffer(f.id, g.id);
  }

  /** After f was fetched, a file that names the same blob needs nothing, and others need what they did. */
  lemma LeftAfter(blobs: map<string, Bytes>, blobs': map<string, Bytes>, f: RepoFile, g: RepoFile)
    requires Handles(blobs, blobs', f) && !HasBlob(blobs, f) && IsBlobId(f.id) && IsBlobId(g.id)
    requires f.id == g.id ==> f.size == g.size
    ensures Left(blobs', g) == if f.id == g.id then 0 else Left(blobs, g)
  {
    if f.id != g.id {
      HandlesApart(blobs, blobs', f, g);
    }
  }

  // ---- Bytes that are counted twice -----------------------------------------------------------

  predicate NotNeeded(blobs: map<string, Bytes>, files: seq<RepoFile>, id: string) {
    forall k :: 0 <= k < |files| && files[k].id == id ==> Left(blobs, files[k]) == 0
  }

  /** No blob that is to be fetched for one file is counted again for a later one. */
  predicate NothingTwice(blobs: map<string, Bytes>, files: seq<RepoFile>) {
    forall j, k :: 0 <= j < k < |files| && files[j].id == files[k].id && !HasBlob(blobs, files[j]) ==> Left(blobs, files[k]) == 0
  }

  lemma {:induction false} RemainingAfter(blobs: map<string, Bytes>, blobs': map<string, Bytes>, f: RepoFile, files: seq<RepoFile>)
    requires Handles(blobs, blobs', f) && !HasBlob(blobs, f) && IsBlobId(f.id) && Ids(files) && SameSize(f, files)
    ensures Remaining(blobs', files) <= Remaining(blobs, files)
    ensures Remaining(blobs', files) == Remaining(blobs, files) <==> NotNeeded(blobs, files, f.id)
  {
    if files != [] {
      var rest := files[1..];
      LeftAfter(blobs, blobs', f, files[0]);
      forall k | 0 <= k < |rest| ensures rest[k] == files[k + 1] {
      }
      RemainingAfter(blobs, blobs', f, rest);
      NotNeededFrom(blobs, files, f.id);
    }
  }

  lemma NotNeededFrom(blobs: map<string, Bytes>, files: seq<RepoFile>, id: string)
    requires files != []
    ensures NotNeeded(blobs, files, id) <==> (files[0].id == id ==> Left(blobs, files[0]) == 0) && NotNeeded(blobs, files[1..], id)
  {
    forall k | 0 < k < |files| ensures files[k] == files[1..][k - 1] {
    }
  }

  lemma TwiceFrom(blobs: map<string, Bytes>, files: seq<RepoFile>)
    requires files != []
    ensures NothingTwice(blobs, files) <==>
            (HasBlob(blobs, files[0]) || NotNeeded(blobs, files[1..], files[0].id)) && NothingTwice(blobs, files[1..])
  {
    var rest := files[1..];
    if (HasBlob(blobs, files[0]) || NotNeeded(blobs, rest, files[0].id)) && NothingTwice(blobs, rest) {
      forall j, k | 0 <= j < k < |files| && files[j].id == files[k].id && !HasBlob(blobs, files[j]) ensures Left(blobs, files[k]) == 0 {
        assert files[k] == rest[k - 1];
        if j > 0 {
          assert files[j] == rest[j - 1];
        }
      }
    }
    if NothingTwice(blobs, files) {
      forall j, k | 0 <= j < k < |rest| && rest[j].id == rest[k].id && !HasBlob(blobs, rest[j]) ensures Left(blobs, rest[k]) == 0 {
        assert files[j + 1] == rest[j] && files[k + 1] == rest[k];
      }
      forall k | 0 <= k < |rest| && rest[k].id == files[0].id && !HasBlob(blobs, files[0]) ensures Left(blobs, rest[k]) == 0 {
        assert files[k + 1] == rest[k];
      }
    }
  }

  lemma TwiceAfter(blobs: map<string, Bytes>, blobs': map<string, Bytes>, f: RepoFile, files: seq<RepoFile>)
    requires Handles(blobs, blobs', f) && !HasBlob(blobs, f) && IsBlobId(f.id) && Ids(files) && SameSize(f, files)
    requires NotNeeded(blobs, files, f.id)
    ensures NothingTwice(blobs', files) <==> NothingTwice(blobs, files)
  {
    forall k | 0 <= k < |files|
      ensures Left(blobs', files[k]) == Left(blobs, files[k])
      ensures files[k].id != f.id ==> (HasBlob(blobs', files[k]) <==> HasBlob(blobs, files[k]))
    {
      LeftAfter(blobs, blobs', f, files[k]);
      if files[k].id != f.id {
        HandlesApart(blobs, blobs', f, files[k]);
      }
    }
  }

  // ---- Listings that give one blob two sizes --------------------------------------------------

  /** The listing gives one blob id two sizes, and it is the digest of contents of both: a collision. */
  ghost predicate Collision(h: Hashes, files: seq<RepoFile>) {
    exists j, k :: 0 <= j < |files| && 0 <= k < |files| && files[j].id == files[k].id && files[j].size != files[k].size
                   && Fits(h, files[j].id, files[j].size) && Fits(h, files[k].id, files[k].size)
  }

  lemma CollisionLater(h: Hashes, files: seq<RepoFile>)
    requires files != [] && Collision(h, files[1..])
    ensures Collision(h, files)
  {
    var rest := files[1..];
    var j, k :| 0 <= j < |rest| && 0 <= k < |rest| && rest[j].id == rest[k].id && rest[j].size != rest[k].size
                && Fits(h, rest[j].id, rest[j].size) && Fits(h, rest[k].id, rest[k].size);
    assert files[j + 1] == rest[j] && files[k + 1] == rest[k];
  }

  /** A file that a download came past had contents that fit, unless its blob was there with others. */
  lemma {:induction false} HandledFits(h: Hashes, r: Repo, commit: string, files: seq<RepoFile>, visits: seq<Visit>, k: nat)
    requires |visits| == |files| && FileLoop(h, r, commit, files, visits).1 && k < |files| && Ids(files)
    requires files[k].id in r.blobs ==> Authentic(h, files[k].id, r.blobs[files[k].id])
    ensures Fits(h, files[k].id, files[k].size)
    decreases |files|
  {
    var r1 := FileStep(h, r, commit, files[0], visits[0]).0;
    FetchIsSound(h, r.blobs, files[0], visits[0]);
    PartNameIsNoId(files[k].id, files[0].id);
    if k > 0 {
      HandledFits(h, r1, commit, files[1..], visits[1..], k - 1);
    } else {
      assert Authentic(h, files[0].id, r1.blobs[files[0].id]);
    }
  }

  /** No download comes to its end with a listing that gives one blob two sizes, unless two contents of
      those sizes have the same digest, or the blob was there with contents of another digest. */
  lemma TwoSizesNeedACollision(h: Hashes, r: Repo, commit: string, files: seq<RepoFile>, visits: seq<Visit>, j: nat, k: nat)
    requires |visits| == |files| && FileLoop(h, r, commit, files, visits).1 && Ids(files)
    requires j < |files| && k < |files| && files[j].id == files[k].id && files[j].size != files[k].size
    ensures Collision(h, files) || (files[j].id in r.blobs && !Authentic(h, files[j].id, r.blobs[files[j].id]))
  {
    if files[j].id in r.blobs ==> Authentic(h, files[j].id, r.blobs[files[j].id]) {
      HandledFits(h, r, commit, files, visits, j);
      HandledFits(h, r, commit, files, visits, k);
    }
  }

  /** A blob that was fetched for one file has the right size for the later ones that name it. */
  lemma FetchedForAll(h: Hashes, r: Repo, commit: string, files: seq<RepoFile>, visits: seq<Visit>)
    requires |visits| == |files| > 0 && FileLoop(h, r, commit, files, visits).1 && Ids(files) && !Collision(h, files)
    requires !HasBlob(r.blobs, files[0])
    ensures SameSize(files[0], files[1..])
  {
    var f, rest, r1 := files[0], files[1..], FileStep(h, r, commit, files[0], visits[0]).0;
    FetchIsSound(h, r.blobs, f, visits[0]);
    assert Authentic(h, f.id, r1.blobs[f.id]) && |r1.blobs[f.id]| == f.size;
    forall k | 0 <= k < |rest| && rest[k].id == f.id ensures rest[k].size == f.size {
      HandledFits(h, r1, commit, rest, visits[1..], k);
      assert files[k + 1] == rest[k] && Fits(h, f.id, f.size);
    }
  }

  // ---- What is received -----------------------------------------------------------------------

  /** The server ignores the range of a resume and the file is started over. */
  predicate Restarts(blobs: map<string, Bytes>, f: RepoFile, v: Visit) {
    var part := Usable(PartOf(blobs, f.id), f.size);
    !HasBlob(blobs, f) && 0 < Length(part) < f.size && |v.exchanges| > 1 && v.exchanges[0].reply.Reply? && v.exchanges[0].reply.status == 200
  }

  /** The bytes of the reply that is appended to the partial file. */
  function ReceivedFor(blobs: map<string, Bytes>, f: RepoFile, v: Visit): int {
    var part := Usable(PartOf(blobs, f.id), f.size);
    if HasBlob(blobs, f) || Length(part) == f.size || v.exchanges == [] || v.exchanges[0].reply.NoReply? then 0
    else if Restarts(blobs, f, v) then
      if v.exchanges[1].reply.NoReply? then 0 else |Receive([], v.exchanges[1].reply.chunks).0|
    else |Receive(Contents(part), v.exchanges[0].reply.chunks).0| - Length(part)
  }

  /** The bytes that were there and are received again because of a restart. */
  function ResentFor(blobs: map<string, Bytes>, f: RepoFile, v: Visit): nat {
    if Restarts(blobs, f, v) then Length(Usable(PartOf(blobs, f.id), f.size)) else 0
  }

  function Received(h: Hashes, r: Repo, commit: string, files: seq<RepoFile>, visits: seq<Visit>): int
    requires |visits| == |files|
    decreases |files|
  {
    if files == [] then 0
    else ReceivedFor(r.blobs, files[0], visits[0])
         + Received(h, FileStep(h, r, commit, files[0], visits[0]).0, commit, files[1..], visits[1..])
  }

  function Resent(h: Hashes, r: Repo, commit: string, files: seq<RepoFile>, visits: seq<Visit>): nat
    requires |visits| == |files|
    decreases |files|
  {
    if files == [] then 0
    else ResentFor(r.blobs, files[0], visits[0])
         + Resent(h, FileStep(h, r, commit, files[0], visits[0]).0, commit, files[1..], visits[1..])
  }

  /** A step that succeeds receives what its file needed, and what a restart threw away once more, whatever
      the server sent. */
  lemma StepReceivesLeft(h: Hashes, r: Repo, commit: string, f: RepoFile, v: Visit)
    requires FileStep(h, r, commit, f, v).1
    ensures ReceivedFor(r.blobs, f, v) == Left(r.blobs, f) + ResentFor(r.blobs, f, v)
  {
    if !HasBlob(r.blobs, f) {
      FillReceives(r.blobs, f, v);
    }
  }

  /** When the network half of an attempt came to its end with a whole file, these bytes were received. */
  lemma FillReceives(blobs: map<string, Bytes>, f: RepoFile, v: Visit)
    requires !HasBlob(blobs, f)
    requires var (filled, ended) := Fill(Expected(f.id, f.size), PartOf(blobs, f.id), v.exchanges);
             ended && Length(filled) == f.size
    ensures ReceivedFor(blobs, f, v) == Left(blobs, f) + ResentFor(blobs, f, v)
  {
    var e, part, xs := Expected(f.id, f.size), PartOf(blobs, f.id), v.exchanges;
    var p := Usable(part, f.size);
    if 0 < Length(p) < f.size && xs[0].reply.status == 200 {
      assert Fill(e, part, xs) == Fill(e, None, xs[1..]);
      NeedsAReply(e);
      assert xs[1..] != [] && xs[1..][0] == xs[1];
      assert Fill(e, None, xs[1..]).0 == Some(Receive([], xs[1].reply.chunks).0);
    }
  }

  lemma NeedsAReply(e: Expected)
    requires e.size > 0
    ensures !Fill(e, None, []).1
  {
  }

  /** A download that succeeds receives, apart from what restarts threw away, at most the bytes that the
      preflight counted, whatever the server sends; and exactly those if and only if it counted none twice. */
  lemma {:induction false} ReceivedIsCounted(h: Hashes, r: Repo, commit: string, files: seq<RepoFile>, visits: seq<Visit>)
    requires |visits| == |files| && FileLoop(h, r, commit, files, visits).1 && Ids(files) && !Collision(h, files)
    ensures var received := Received(h, r, commit, files, visits) - Resent(h, r, commit, files, visits);
            && received <= Remaining(r.blobs, files)
            && (received == Remaining(r.blobs, files) <==> NothingTwice(r.blobs, files))
    decreases |files|
  {
    if files != [] {
      var f, rest := files[0], files[1..];
      var r1 := FileStep(h, r, commit, f, visits[0]).0;
      StepReceivesLeft(h, r, commit, f, visits[0]);
      if Collision(h, rest) {
        CollisionLater(h, files);
      }
      ReceivedIsCounted(h, r1, commit, rest, visits[1..]);
      StepHandlesBlobs(h, r, commit, f, visits[0]);
      TwiceFrom(r.blobs, files);
      if !HasBlob(r.blobs, f) {
        FetchedForAll(h, r, commit, files, visits);
        RemainingAfter(r.blobs, r1.blobs, f, rest);
        if NotNeeded(r.blobs, rest, f.id) {
          TwiceAfter(r.blobs, r1.blobs, f, rest);
        }
      }
    }
  }
}
