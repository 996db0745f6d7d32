/** What a download does to the space that the blob directory takes, and what the preflight
    (packages/hub/src/download.ts:476-496) therefore promises of the disk. */
module DiskUse {
  import opened Counting
  import opened Wrappers
  import opened RepoPaths
  import opened RegistryGc
  import opened DownloadModel
  import opened ModelCache
  import opened ModelCacheTheorems
  import opened DownloadSpace

  // ---- The bytes in a directory ---------------------------------------------------------------

  ghost function Total(blobs: map<string, Bytes>): nat
    decreases |blobs|
  {
    if blobs == map[] then 0
    else
      var b :| b in blobs;
      |blobs[b]| + Total(blobs - {b})
  }

  lemma {:induction false} TotalWithout(blobs: map<string, Bytes>, b: string)
    requires b in blobs
    ensures Total(blobs) == |blobs[b]| + Total(blobs - {b})
    decreases |blobs|
  {
    var x :| x in blobs && Total(blobs) == |blobs[x]| + Total(blobs - {x});
    if x != b {
      TotalWithout(blobs - {x}, b);
      TotalWithout(blobs - {b}, x);
      assert blobs - {x} - {b} == blobs - {b} - {x};
    }
  }

  /** The bytes of the entry of this name, if there is one. */
  function SizeOf(blobs: map<string, Bytes>, b: string): nat {
    if b in blobs then |blobs[b]| else 0
  }

  /** The bytes that a blob and its partial file take together. */
  function Held(blobs: map<string, Bytes>, id: string): nat {
    SizeOf(blobs, id) + SizeOf(blobs, PartName(id))
  }

  lemma TotalRemoved(blobs: map<string, Bytes>, b: string)
    ensures Total(blobs) == SizeOf(blobs, b) + Total(blobs - {b})
  {
    if b in blobs {
      TotalWithout(blobs, b);
    } else {
      assert blobs - {b} == blobs;
    }
  }

  /** What changes only a blob and its partial file changes the total by what they take. */
  lemma TotalChanges(blobs: map<string, Bytes>, blobs': map<string, Bytes>, id: string)
    requires OnlyTouches(blobs, blobs', id) && IsBlobId(id)
    ensures Total(blobs') - Total(blobs) == Held(blobs', id) - Held(blobs, id)
  {
    TotalApart(blobs, id);
    TotalApart(blobs', id);
    SameApart(blobs, blobs', id);
  }

  lemma TotalApart(blobs: map<string, Bytes>, id: string)
    requires IsBlobId(id)
    ensures Total(blobs) == Held(blobs, id) + Total(blobs - {id} - {PartName(id)})
  {
    PartNameIsNoId(id, id);
    TotalRemoved(blobs, id);
    TotalRemoved(blobs - {id}, PartName(id));
  }

  lemma SameApart(blobs: map<string, Bytes>, blobs': map<string, Bytes>, id: string)
    requires OnlyTouches(blobs, blobs', id)
    ensures blobs - {id} - {PartName(id)} == blobs' - {id} - {PartName(id)}
  {
  }

  function Elements(names: seq<string>): set<string> { set k | 0 <= k < |names| :: names[k] }

  lemma {:induction false} SizesAddUp(blobs: map<string, Bytes>, names: seq<string>)
    requires forall j, k :: 0 <= j < k < |names| ==> names[j] != names[k]
    ensures Total(blobs) == Total(blobs - Elements(names)) + Sizes(blobs, names)
  {
    if names == [] {
      assert blobs - Elements(names) == blobs;
    } else {
      var n := |names| - 1;
      var before := Elements(names[..n]);
      SizesAddUp(blobs, names[..n]);
      TotalRemoved(blobs - before, names[n]);
      assert forall k :: 0 <= k < n ==> names[..n][k] == names[k];
      assert Elements(names) == before + {names[n]};
      assert blobs - before - {names[n]} == blobs - Elements(names);
      assert names[n] !in before;
    }
  }

  /** A collection frees exactly the bytes that its plan promises, in whatever order it lists the blobs. */
  lemma ReclaimsExactly(r: Repo, force: bool, dead: seq<string>)
    requires RegistryGc.Lists(dead, Dead(r, force))
    ensures Total(r.blobs) == Total(Collected(r, force).blobs) + Sizes(r.blobs, dead)
  {
    assert Elements(dead) == Dead(r, force);
    SizesAddUp(r.blobs, dead);
  }

  // ---- Growth ---------------------------------------------------------------------------------

  /** Nothing is in the way of a fetch: no blob of another size, and no partial file that is too long. */
  predicate Clear(blobs: map<string, Bytes>, f: RepoFile) {
    SizeOf(blobs, f.id) == 0 && SizeOf(blobs, PartName(f.id)) <= f.size
  }

  predicate AllClear(blobs: map<string, Bytes>, files: seq<RepoFile>) {
    forall k :: 0 <= k < |files| && !HasBlob(blobs, files[k]) ==> Clear(blobs, files[k])
  }

  /** A step that succeeds grows the directory by at most what its file needed, and by less exactly if it
      also removed something: an old blob of another size, or a partial file that was too long. */
  lemma StepGrowth(h: Hashes, r: Repo, commit: string, f: RepoFile, v: Visit)
    requires FileStep(h, r, commit, f, v).1 && IsBlobId(f.id)
    ensures var growth := Total(FileStep(h, r, commit, f, v).0.blobs) - Total(r.blobs);
            && growth == (if HasBlob(r.blobs, f) then 0 else f.size - Held(r.blobs, f.id))
            && growth <= Left(r.blobs, f)
            && (growth == Left(r.blobs, f) <==> HasBlob(r.blobs, f) || Clear(r.blobs, f))
  {
    StepHandlesBlobs(h, r, commit, f, v);
    if !HasBlob(r.blobs, f) {
      TotalChanges(r.blobs, FileStep(h, r, commit, f, v).0.blobs, f.id);
    }
  }

  lemma ClearFrom(blobs: map<string, Bytes>, files: seq<RepoFile>)
    requires files != []
    ensures AllClear(blobs, files) <==> (HasBlob(blobs, files[0]) || Clear(blobs, files[0])) && AllClear(blobs, files[1..])
  {
    forall k | 0 < k < |files| ensures files[k] == files[1..][k - 1] {
    }
  }

  lemma ClearAfter(blobs: map<string, Bytes>, blobs': map<string, Bytes>, f: RepoFile, files: seq<RepoFile>)
    requires Handles(blobs, blobs', f) && !HasBlob(blobs, f) && IsBlobId(f.id) && Ids(files) && SameSize(f, files)
    requires Clear(blobs, f)
    ensures AllClear(blobs', files) <==> AllClear(blobs, files)
  {
    forall k | 0 <= k < |files|
      ensures HasBlob(blobs', files[k]) || Clear(blobs', files[k]) <==> HasBlob(blobs, files[k]) || Clear(blobs, files[k])
    {
      if files[k].id != f.id {
        HandlesApart(blobs, blobs', f, files[k]);
      }
    }
  }

  /** What the preflight counts is what the download adds to the disk, for every download that succeeds,
      whatever the server sends, restarts included, and whatever was in the cache: never more; and exactly
      that if and only if no needed bytes are listed twice and nothing that is in the way of a fetch goes.
      A caller can look all of that up before the call. */
  lemma {:induction false} PreflightIsExact(h: Hashes, r: Repo, commit: string, files: seq<RepoFile>, visits: seq<Visit>)
    requires |visits| == |files| && FileLoop(h, r, commit, files, visits).1 && Ids(files) && !Collision(h, files)
    ensures var growth := Total(FileLoop(h, r, commit, files, visits).0.blobs) - Total(r.blobs);
            && growth <= Remaining(r.blobs, files)
            && (growth == Remaining(r.blobs, files) <==> NothingTwice(r.blobs, files) && AllClear(r.blobs, files))
    decreases |files|
  {
    if files != [] {
      var f, rest := files[0], files[1..];
      var r1 := FileStep(h, r, commit, f, visits[0]).0;
      if Collision(h, rest) {
        CollisionLater(h, files);
      }
      StepGrowth(h, r, commit, f, visits[0]);
      StepHandlesBlobs(h, r, commit, f, visits[0]);
      PreflightIsExact(h, r1, commit, rest, visits[1..]);
      TwiceFrom(r.blobs, files);
      ClearFrom(r.blobs, files);
      if !HasBlob(r.blobs, f) {
        FetchedForAll(h, r, commit, files, visits);
        RemainingAfter(r.blobs, r1.blobs, f, rest);
        if NotNeeded(r.blobs, rest, f.id) && Clear(r.blobs, f) {
          TwiceAfter(r.blobs, r1.blobs, f, rest);
          ClearAfter(r.blobs, r1.blobs, f, rest);
        }
      }
    }
  }

  // ---- The peak -------------------------------------------------------------------------------

  /** The blob directory when all bytes of a file have arrived: an old blob stays until the rename. */
  function AtRename(blobs: map<string, Bytes>, f: RepoFile, v: Visit): map<string, Bytes> {
    WithPart(blobs, f.id, Fill(Expected(f.id, f.size), PartOf(blobs, f.id), v.exchanges).0)
  }

  /** Before that a partial file is only shorter: chunks are appended. */
  lemma {:induction false} PartialsGrow(part: Bytes, chunks: seq<Chunk>, n: nat)
    requires n <= |chunks|
    ensures Receive(part, chunks[..n]).0 <= Receive(part, chunks).0
    decreases |chunks|
  {
    if n == 0 {
      ReceiveAppends(part, chunks);
    } else {
      assert chunks[..n][1..] == chunks[1..][..n - 1];
      if chunks[0].Data? && !chunks[0].aborts {
        PartialsGrow(part + chunks[0].bytes, chunks[1..], n - 1);
      }
    }
  }

  /** The most bytes that the blob directory takes at any time of a download that succeeds. */
  ghost function Peak(h: Hashes, r: Repo, commit: string, files: seq<RepoFile>, visits: seq<Visit>): nat
    requires |visits| == |files|
    decreases |files|
  {
    if files == [] then Total(r.blobs)
    else
      var during := if HasBlob(r.blobs, files[0]) then 0 else Total(AtRename(r.blobs, files[0], visits[0]));
      Max(Max(Total(r.blobs), during), Peak(h, FileStep(h, r, commit, files[0], visits[0]).0, commit, files[1..], visits[1..]))
  }

  lemma TotalAtRename(h: Hashes, r: Repo, commit: string, f: RepoFile, v: Visit)
    requires FileStep(h, r, commit, f, v).1 && IsBlobId(f.id) && !HasBlob(r.blobs, f)
    ensures Total(AtRename(r.blobs, f, v)) - Total(r.blobs) == f.size - SizeOf(r.blobs, PartName(f.id))
  {
    PartNameIsNoId(f.id, f.id);
    TotalChanges(r.blobs, AtRename(r.blobs, f, v), f.id);
  }

  /** As long as bytes are still to come, no file finds a partial file that is too long, nor, if bytes are
      needed after it, an old blob of another size. */
  predicate ClearWhileNeeded(blobs: map<string, Bytes>, files: seq<RepoFile>) {
    files != [] ==>
      && (!HasBlob(blobs, files[0]) && Remaining(blobs, files) > 0 ==>
            && SizeOf(blobs, PartName(files[0].id)) <= files[0].size
            && (Remaining(blobs, files[1..]) > 0 ==> SizeOf(blobs, files[0].id) == 0))
      && ClearWhileNeeded(blobs, files[1..])
  }

  lemma {:induction false} DoneIsClear(blobs: map<string, Bytes>, files: seq<RepoFile>)
    requires Remaining(blobs, files) == 0
    ensures ClearWhileNeeded(blobs, files) && NothingTwice(blobs, files)
    ensures forall id :: NotNeeded(blobs, files, id)
  {
    if files != [] {
      DoneIsClear(blobs, files[1..]);
      TwiceFrom(blobs, files);
      forall id ensures NotNeeded(blobs, files, id) {
        NotNeededFrom(blobs, files, id);
      }
    }
  }

  lemma {:induction false} ClearLater(blobs: map<string, Bytes>, blobs': map<string, Bytes>, f: RepoFile, files: seq<RepoFile>)
    requires Handles(blobs, blobs', f) && !HasBlob(blobs, f) && IsBlobId(f.id) && Ids(files) && SameSize(f, files)
    requires Clear(blobs, f) && NotNeeded(blobs, files, f.id)
    ensures Remaining(blobs', files) == Remaining(blobs, files)
    ensures ClearWhileNeeded(blobs', files) <==> ClearWhileNeeded(blobs, files)
  {
    if files != [] {
      var g, rest := files[0], files[1..];
      NotNeededFrom(blobs, files, f.id);
      forall k | 0 <= k < |rest| ensures rest[k] == files[k + 1] {
      }
      ClearLater(blobs, blobs', f, rest);
      LeftAfter(blobs, blobs', f, g);
      if g.id != f.id {
        HandlesApart(blobs, blobs', f, g);
      }
    }
  }

  /** The peak, on top of what the cache held. */
  ghost function Extra(h: Hashes, r: Repo, commit: string, files: seq<RepoFile>, visits: seq<Visit>): int
    requires |visits| == |files|
  {
    Peak(h, r, commit, files, visits) - Total(r.blobs)
  }

  lemma ExtraUnfolds(h: Hashes, r: Repo, commit: string, files: seq<RepoFile>, visits: seq<Visit>)
    requires |visits| == |files| > 0
    ensures var r1 := FileStep(h, r, commit, files[0], visits[0]).0;
            var during := if HasBlob(r.blobs, files[0]) then 0 else Total(AtRename(r.blobs, files[0], visits[0]));
            var later := Extra(h, r1, commit, files[1..], visits[1..]);
            && later >= 0
            && Extra(h, r, commit, files, visits) == Max(Max(0, during - Total(r.blobs)), Total(r1.blobs) - Total(r.blobs) + later)
  {
  }

  /** The most a file that is fetched takes, given what the files after it take. */
  function ExtraOf(blobs: map<string, Bytes>, f: RepoFile, later: int): int {
    Max(Max(0, f.size - SizeOf(blobs, PartName(f.id))), f.size - Held(blobs, f.id) + later)
  }

  lemma ExtraFrom(h: Hashes, r: Repo, commit: string, files: seq<RepoFile>, visits: seq<Visit>)
    requires |visits| == |files| > 0 && FileLoop(h, r, commit, files, visits).1 && Ids(files)
    ensures var later := Extra(h, FileStep(h, r, commit, files[0], visits[0]).0, commit, files[1..], visits[1..]);
            && later >= 0
            && Extra(h, r, commit, files, visits) == if HasBlob(r.blobs, files[0]) then later else ExtraOf(r.blobs, files[0], later)
  {
    ExtraUnfolds(h, r, commit, files, visits);
    StepGrowth(h, r, commit, files[0], visits[0]);
    if !HasBlob(r.blobs, files[0]) {
      TotalAtRename(h, r, commit, files[0], visits[0]);
    }
  }

  /** The steps of the proof below for a file that is fetched: no bytes are needed after it, or some are. */
  lemma ExtraOfLast(blobs: map<string, Bytes>, files: seq<RepoFile>)
    requires files != [] && !HasBlob(blobs, files[0]) && Remaining(blobs, files[1..]) == 0
    ensures ExtraOf(blobs, files[0], 0) <= Remaining(blobs, files)
    ensures ExtraOf(blobs, files[0], 0) == Remaining(blobs, files) <==> NothingTwice(blobs, files) && ClearWhileNeeded(blobs, files)
  {
    TwiceFrom(blobs, files);
    DoneIsClear(blobs, files[1..]);
  }

  lemma ExtraOfEarlier(blobs: map<string, Bytes>, blobs': map<string, Bytes>, files: seq<RepoFile>, later: int)
    requires files != [] && Ids(files) && SameSize(files[0], files[1..]) && Remaining(blobs, files[1..]) > 0
    requires Handles(blobs, blobs', files[0]) && !HasBlob(blobs, files[0])
    requires 0 <= later <= Remaining(blobs', files[1..])
    requires later == Remaining(blobs', files[1..]) <==> NothingTwice(blobs', files[1..]) && ClearWhileNeeded(blobs', files[1..])
    ensures ExtraOf(blobs, files[0], later) <= Remaining(blobs, files)
    ensures ExtraOf(blobs, files[0], later) == Remaining(blobs, files) <==> NothingTwice(blobs, files) && ClearWhileNeeded(blobs, files)
  {
    var f, rest := files[0], files[1..];
    ExtraCounts(blobs, blobs', files, later);
    ClearHead(blobs, files);
    TwiceFrom(blobs, files);
    if NotNeeded(blobs, rest, f.id) && Clear(blobs, f) {
      TwiceAfter(blobs, blobs', f, rest);
      ClearLater(blobs, blobs', f, rest);
    }
  }

  lemma ClearHead(blobs: map<string, Bytes>, files: seq<RepoFile>)
    requires files != [] && !HasBlob(blobs, files[0]) && Remaining(blobs, files[1..]) > 0
    ensures ClearWhileNeeded(blobs, files) <==> Clear(blobs, files[0]) && ClearWhileNeeded(blobs, files[1..])
  {
  }

  lemma ExtraCounts(blobs: map<string, Bytes>, blobs': map<string, Bytes>, files: seq<RepoFile>, later: int)
    requires files != [] && Ids(files) && SameSize(files[0], files[1..]) && Remaining(blobs, files[1..]) > 0
    requires Handles(blobs, blobs', files[0]) && !HasBlob(blobs, files[0])
    requires 0 <= later <= Remaining(blobs', files[1..])
    ensures ExtraOf(blobs, files[0], later) <= Remaining(blobs, files)
    ensures ExtraOf(blobs, files[0], later) == Remaining(blobs, files) <==>
            Clear(blobs, files[0]) && NotNeeded(blobs, files[1..], files[0].id) && later == Remaining(blobs', files[1..])
  {
    RemainingAfter(blobs, blobs', files[0], files[1..]);
  }

  /** At no time does a download that succeeds take more space, on top of what the cache held, than the
      preflight counted; and it takes that much if and only if no needed bytes are listed twice and nothing
      that goes makes room for bytes that are still to come. */
  lemma {:induction false} PeakIsCounted(h: Hashes, r: Repo, commit: string, files: seq<RepoFile>, visits: seq<Visit>)
    requires |visits| == |files| && FileLoop(h, r, commit, files, visits).1 && Ids(files) && !Collision(h, files)
    ensures var extra := Extra(h, r, commit, files, visits);
            && 0 <= extra <= Remaining(r.blobs, files)
            && (extra == Remaining(r.blobs, files) <==> NothingTwice(r.blobs, files) && ClearWhileNeeded(r.blobs, files))
    decreases |files|
  {
    if files != [] {
      var r1 := FileStep(h, r, commit, files[0], visits[0]).0;
      if Collision(h, files[1..]) {
        CollisionLater(h, files);
      }
      PeakIsCounted(h, r1, commit, files[1..], visits[1..]);
      ExtraFrom(h, r, commit, files, visits);
      StepHandlesBlobs(h, r, commit, files[0], visits[0]);
      if HasBlob(r.blobs, files[0]) {
        TwiceFrom(r.blobs, files);
      } else {
        FetchedForAll(h, r, commit, files, visits);
        RemainingAfter(r.blobs, r1.blobs, files[0], files[1..]);
        if Remaining(r.blobs, files[1..]) == 0 {
          ExtraOfLast(r.blobs, files);
        } else {
          ExtraOfEarlier(r.blobs, r1.blobs, files, Extra(h, r1, commit, files[1..], visits[1..]));
        }
      }
    }
  }

  // ---- What the preflight promises ------------------------------------------------------------

  /** A download that the preflight lets through never takes more than the free space less the reserve,
      unless it takes nothing. It refuses one that would have fitted, with some amount of free space, exactly
      if it counts bytes twice or something goes that makes room for bytes that are still to come. */
  lemma PreflightRefusesExactly(h: Hashes, r: Repo, commit: string, files: seq<RepoFile>, visits: seq<Visit>)
    requires |visits| == |files| && FileLoop(h, r, commit, files, visits).1 && Ids(files) && !Collision(h, files)
    ensures var extra := Extra(h, r, commit, files, visits);
            && (forall free: nat :: Room(r.blobs, files, free) ==> extra == 0 || extra + DISK_RESERVE <= free)
            && ((exists free: nat :: !Room(r.blobs, files, free) && extra + DISK_RESERVE <= free)
                <==> !(NothingTwice(r.blobs, files) && ClearWhileNeeded(r.blobs, files)))
  {
    PeakIsCounted(h, r, commit, files, visits);
    var extra := Extra(h, r, commit, files, visits);
    if extra < Remaining(r.blobs, files) {
      assert !Room(r.blobs, files, extra + DISK_RESERVE);
    }
  }
}
