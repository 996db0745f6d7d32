/** The downloader and the garbage collector as they run on the directories of one repository
    (packages/hub/src/download.ts:316-413, 448-567; packages/hub/src/registry.ts:487-569). */
module RepoStores {
  import opened Wrappers
  import opened RepoPaths
  import opened RegistryGc
  import opened DownloadModel
  import opened ModelCache
  import opened DownloadSpace

  const REHASH_BUFFER: nat := 8 * 0x10_0000

  /** Feeds the first `offset` bytes of a file to the hashes, by reads that may each return less than was
      asked for, and nothing at the end of the file. */
  method Rehash(file: Bytes, offset: nat) returns (hashed: Bytes)
    ensures hashed == file[..if offset <= |file| then offset else |file|]
  {
    hashed := [];
    var pos: nat := 0;
    while pos < offset
      invariant pos <= offset && pos <= |file| && hashed == file[..pos]
    {
      var n: nat :| n <= REHASH_BUFFER && n <= offset - pos && n <= |file| - pos && (n == 0 ==> pos == |file|);
      if n == 0 {
        break;
      }
      hashed := hashed + file[pos..pos + n];
      pos := pos + n;
    }
  }

  class RepoStore {
    const h: Hashes
    const home: Path
    var blobs: map<string, Bytes>
    var snapshots: map<string, Snapshot>
    var refs: map<string, string>

    constructor (h: Hashes, home: Path)
      ensures this.h == h && State() == Empty(home)
    {
      this.h, this.home := h, home;
      blobs, snapshots, refs := map[], map[], map[];
    }

    function State(): Repo
      reads this
    {
      Repo(home, blobs, snapshots, refs)
    }

    /** Appends a body to the partial file, and every byte of it to what has been hashed. When the body
        ends normally the two agree. */
    method ReceiveBody(name: string, chunks: seq<Chunk>, hashed0: Bytes) returns (hashed: Bytes, ended: bool)
      requires name in blobs && blobs[name] == hashed0
      modifies `blobs
      ensures name in blobs && blobs == old(blobs)[name := blobs[name]]
      ensures (blobs[name], ended) == Receive(hashed0, chunks)
      ensures ended ==> hashed == blobs[name]
    {
      hashed, ended := hashed0, true;
      for i := 0 to |chunks|
        invariant name in blobs && blobs == old(blobs)[name := blobs[name]] && hashed == blobs[name] && ended
        invariant Receive(hashed0, chunks) == Receive(hashed, chunks[i..])
      {
        assert chunks[i..][0] == chunks[i] && chunks[i..][1..] == chunks[i + 1..];
        match chunks[i]
        case Broken =>
          ended := false;
          return;
        case Torn(written) =>
          blobs := blobs[name := blobs[name] + written];
          ended := false;
          return;
        case Data(bytes, aborts) =>
          hashed := hashed + bytes;
          blobs := blobs[name := blobs[name] + bytes];
          if aborts {
            ended := false;
            return;
          }
      }
    }

    /** The end of an attempt, given what was hashed of the partial file: publish it or not. */
    method Publish(e: Expected, offset: nat, hashed: Bytes, abortedAtEnd: bool) returns (ok: bool)
      requires offset == Length(PartOf(blobs, e.id)) && hashed == Contents(PartOf(blobs, e.id))
      modifies `blobs
      ensures var r := Settle(h, e, old(PartOf(blobs, e.id)), abortedAtEnd);
              && ok == r.published.Some?
              && blobs == if ok then WithPart(old(blobs), e.id, None)[e.id := r.published.value] else WithPart(old(blobs), e.id, r.part)
    {
      var name := PartName(e.id);
      ok := false;
      if abortedAtEnd {
        return;
      }
      if e.size == 0 && name !in blobs {
        blobs := blobs[name := []];
      }
      if offset != e.size {
        return;
      }
      var digest := if |e.id| == 64 then h.sha256(hashed) else h.sha1(h.header(e.size) + hashed);
      if digest != e.id {
        blobs := blobs - {name};
        return;
      }
      blobs := (blobs - {name})[e.id := blobs[name]];
      assert blobs == WithPart(old(blobs), e.id, None)[e.id := hashed];
      ok := true;
    }

    /** One attempt at a blob. What decides is the digest of the bytes that were hashed, in however many
        reads; the result is that of the bytes on disk. */
    method DownloadOneLocked(e: Expected, exchanges: seq<Exchange>, abortedAtEnd: bool) returns (ok: bool)
      modifies `blobs
      ensures (blobs, ok) == Fetch(h, old(blobs), e, exchanges, abortedAtEnd)
      decreases |exchanges|
    {
      var name := PartName(e.id);
      ghost var before := blobs;
      var offset := if name in blobs then |blobs[name]| else 0;
      if offset > e.size {
        blobs := blobs - {name};
        offset := 0;
      }
      ghost var p := Usable(PartOf(before, e.id), e.size);
      assert blobs == WithPart(before, e.id, p);
      var hashed: Bytes := [];
      if offset > 0 {
        hashed := Rehash(blobs[name], offset);
      }
      ok := false;
      if offset < e.size {
        if exchanges == [] || exchanges[0].aborted || exchanges[0].reply.NoReply? {
          return;
        }
        var x := exchanges[0];
        if x.reply.status == 200 && offset > 0 {
          if x.abortedAfter {
            return;
          }
          blobs := blobs - {name};
          assert PartOf(blobs, e.id) == None;
          ok := DownloadOneLocked(e, exchanges[1..], abortedAtEnd);
          RestartForgets(before, e, exchanges, abortedAtEnd);
          return;
        }
        if x.reply.status != 200 && x.reply.status != 206 {
          return;
        }
        if offset == 0 {
          blobs := blobs[name := []];
        }
        var ended;
        hashed, ended := ReceiveBody(name, x.reply.chunks, hashed);
        assert blobs == WithPart(before, e.id, Fill(e, PartOf(before, e.id), exchanges).0);
        if !ended {
          return;
        }
        offset := |blobs[name]|;
      }
      ghost var filled := Fill(e, PartOf(before, e.id), exchanges).0;
      assert blobs == WithPart(before, e.id, filled);
      ghost var settled := Settle(h, e, filled, abortedAtEnd);
      ReplacePart(before, e.id, filled, settled.part);
      ok := Publish(e, offset, hashed, abortedAtEnd);
    }

    lemma ReplacePart(before: map<string, Bytes>, id: string, part: Option<Bytes>, later: Option<Bytes>)
      ensures PartOf(WithPart(before, id, part), id) == part
      ensures WithPart(WithPart(before, id, part), id, later) == WithPart(before, id, later)
      ensures WithPart(WithPart(before, id, part), id, None) == WithPart(before, id, None)
    {
    }

    lemma RestartForgets(before: map<string, Bytes>, e: Expected, exchanges: seq<Exchange>, abortedAtEnd: bool)
      requires var p := Usable(PartOf(before, e.id), e.size);
               && 0 < Length(p) < e.size && exchanges != []
               && !exchanges[0].aborted && !exchanges[0].abortedAfter && exchanges[0].reply.Reply? && exchanges[0].reply.status == 200
      ensures Fetch(h, before, e, exchanges, abortedAtEnd) == Fetch(h, before - {PartName(e.id)}, e, exchanges[1..], abortedAtEnd)
    {
      var without := before - {PartName(e.id)};
      assert PartOf(without, e.id) == None;
      assert forall part :: WithPart(without, e.id, part) == WithPart(before, e.id, part);
    }

    /** Creates the directories of a file's entry and, unless there is an entry already, its link. */
    method LinkUp(commit: string, f: RepoFile, v: Visit) returns (ok: bool)
      modifies `snapshots
      ensures (State(), ok) == ModelCache.LinkUp(old(State()), commit, f, v)
    {
      var path := Split(f.name);
      var s := SnapshotOf(State(), commit);
      if v.disk.NoDirectory? || Blocked(s, path) {
        return false;
      }
      snapshots := snapshots[commit := WithParents(s, path)];
      if path in snapshots[commit] {
        return Exists(State(), commit, path, v.elsewhere);
      }
      if v.disk.NoLink? {
        return false;
      }
      snapshots := snapshots[commit := snapshots[commit][path := Link(LinkTarget(f.name, f.id))]];
      assert snapshots == old(snapshots)[commit := WithParents(s, path)[path := Link(LinkTarget(f.name, f.id))]];
      ok := true;
    }

    method HandleFile(commit: string, f: RepoFile, v: Visit) returns (ok: bool)
      modifies `blobs, `snapshots
      ensures (State(), ok) == FileStep(h, old(State()), commit, f, v)
    {
      if v.aborted {
        return false;
      }
      if !(f.id in blobs && |blobs[f.id]| == f.size) {
        if !v.lockFree {
          return false;
        }
        var fetched := DownloadOneLocked(Expected(f.id, f.size), v.exchanges, v.abortedAtEnd);
        if !fetched {
          return false;
        }
      }
      ok := LinkUp(commit, f, v);
    }

    /** The whole download: the ref comes last, and only if every file was handled and the signal has not
        fired. */
    method DownloadModel(listing: Listing, revision: string, available: nat, visits: seq<Visit>, abortedAtEnd: bool)
      returns (ok: bool)
      requires |visits| == |listing.files|
      modifies this
      ensures (State(), ok) == Download(h, old(State()), listing, revision, available, visits, abortedAtEnd)
    {
      var files := listing.files;
      for i := 0 to |files|
        invariant forall k :: 0 <= k < i ==> IsBlobId(files[k].id) && IsSafeRepoFilename(files[k].name)
      {
        if !IsBlobId(files[i].id) || !IsSafeRepoFilename(files[i].name) {
          return false;
        }
      }
      var space := PlanDownloadSpace(blobs, files);
      if space.remainingBytes > 0 && space.remainingBytes + DISK_RESERVE > available {
        return false;
      }
      for i := 0 to |files|
        invariant refs == old(refs)
        invariant FileLoop(h, old(State()), listing.sha, files, visits) == FileLoop(h, State(), listing.sha, files[i..], visits[i..])
      {
        assert files[i..][0] == files[i] && files[i..][1..] == files[i + 1..];
        assert visits[i..][0] == visits[i] && visits[i..][1..] == visits[i + 1..];
        var done := HandleFile(listing.sha, files[i], visits[i]);
        if !done {
          return false;
        }
      }
      if abortedAtEnd {
        return false;
      }
      refs := refs[revision := listing.sha];
      ok := true;
    }

    /** Executes a plan: the snapshots first, then the blobs. It deletes what was planned, and reclaims as
        many bytes as were promised. */
    method ExecuteGc(plan: GcPlan, ghost force: bool) returns (snapshotCount: nat, blobCount: nat, reclaimedBytes: nat)
      requires Lists(plan.prune, Pruned(State(), force)) && Lists(plan.dead, Dead(State(), force))
      modifies `snapshots, `blobs
      ensures State() == Collected(old(State()), force)
      ensures snapshotCount == |plan.prune| && blobCount == |plan.dead|
      ensures reclaimedBytes == Sizes(old(blobs), plan.dead)
    {
      ghost var r := State();
      snapshotCount, blobCount, reclaimedBytes := 0, 0, 0;
      ghost var gone: set<string> := {};
      for i := 0 to |plan.prune|
        invariant gone == set k | 0 <= k < i :: plan.prune[k]
        invariant snapshots == r.snapshots - gone && blobs == r.blobs && snapshotCount == i
      {
        snapshots := snapshots - {plan.prune[i]};
        snapshotCount := snapshotCount + 1;
        gone := gone + {plan.prune[i]};
      }
      assert gone == Pruned(r, force);
      gone := {};
      for i := 0 to |plan.dead|
        invariant gone == set k | 0 <= k < i :: plan.dead[k]
        invariant blobs == r.blobs - gone && snapshots == r.snapshots - Pruned(r, force) && blobCount == i
        invariant reclaimedBytes == Sizes(r.blobs, plan.dead[..i])
      {
        var b := plan.dead[i];
        assert b in blobs;
        var size := |blobs[b]|;
        blobs := blobs - {b};
        blobCount := blobCount + 1;
        reclaimedBytes := reclaimedBytes + size;
        assert plan.dead[..i + 1][..i] == plan.dead[..i];
        gone := gone + {b};
      }
      assert gone == Dead(r, force);
      assert plan.dead[..|plan.dead|] == plan.dead;
    }

    /** Garbage collection of this repository, in whatever order its directories are read. */
    method CollectGarbage(snapNames: seq<string>, blobNames: seq<string>, force: bool) returns (plan: GcPlan, reclaimedBytes: nat)
      requires Lists(snapNames, snapshots.Keys) && Lists(blobNames, blobs.Keys)
      modifies `snapshots, `blobs
      ensures State() == Collected(old(State()), force) && reclaimedBytes == plan.reclaimBytes
    {
      plan := PlanRepoGc(State(), snapNames, blobNames, force);
      var snapshotCount, blobCount;
      snapshotCount, blobCount, reclaimedBytes := ExecuteGc(plan, force);
    }
  }
}
