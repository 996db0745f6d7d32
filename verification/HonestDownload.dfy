/** Downloads that succeed: with an honest server, a working disk and room on it, a download comes to its
    end with every listed file in place, whatever an earlier one left behind; and what is refused outright
    (packages/hub/src/download.ts:204-208, 448-567). */
module HonestDownloads {
  import opened Wrappers
  import opened RepoPaths
  import opened RegistryGc
  import opened DownloadModel
  import opened ModelCache
  import opened ModelCacheTheorems
  import opened DownloadSpace

  /** Nothing stops the handling of f: nobody aborts, the disk works, and the blob is there or can be had,
      by an honest server, from the partial file that is there. */
  predicate Ready(blobs: map<string, Bytes>, f: RepoFile, content: Bytes, v: Visit) {
    && !v.aborted && v.disk.Works?
    && (HasBlob(blobs, f) ||
        (v.lockFree && !v.abortedAtEnd && |content| == f.size
         && Contents(Usable(PartOf(blobs, f.id), f.size)) <= content
         && Honest(v.exchanges, content, Length(Usable(PartOf(blobs, f.id), f.size)))))
  }

  /** The id of a file is the hash of its contents. */
  predicate Truthful(h: Hashes, f: RepoFile, content: Bytes) {
    if |f.id| == 64 then h.sha256(content) == f.id else h.sha1(h.header(|content|) + content) == f.id
  }

  /** The place of f in the snapshot can be reached: only directories are on the way, and a link that is
      there already makes no detours. */
  predicate Reachable(r: Repo, commit: string, f: RepoFile) {
    var s, path := SnapshotOf(r, commit), Split(f.name);
    !Blocked(s, path) && (path in s && s[path].Link? ==> Direct(s[path].target))
  }

  lemma FetchSucceeds(h: Hashes, blobs: map<string, Bytes>, f: RepoFile, content: Bytes, v: Visit)
    requires Ready(blobs, f, content, v) && Truthful(h, f, content)
    ensures FetchIfMissing(h, blobs, f, v).1
  {
    if !HasBlob(blobs, f) {
      HonestAttemptPublishes(h, Expected(f.id, f.size), content, PartOf(blobs, f.id), v.exchanges);
    }
  }

  lemma LinkSucceeds(r: Repo, commit: string, f: RepoFile, v: Visit)
    requires Reachable(r, commit, f) && Vacant(r, commit, f) && f.id in r.blobs && v.disk.Works?
    ensures LinkUp(r, commit, f, v).1
  {
    var s, path := SnapshotOf(r, commit), Split(f.name);
    ParentsGrow(s, path);
    assert path !in Parents(path);
    if path in s {
      LinkEnds(r.home, commit, path, s[path].target, f.id);
    }
  }

  lemma StepSucceeds(h: Hashes, r: Repo, commit: string, f: RepoFile, content: Bytes, v: Visit)
    requires IsBlobId(f.id) && Ready(r.blobs, f, content, v) && Truthful(h, f, content)
    requires Reachable(r, commit, f) && Vacant(r, commit, f)
    ensures FileStep(h, r, commit, f, v).1
  {
    FetchSucceeds(h, r.blobs, f, content, v);
    FetchIsSound(h, r.blobs, f, v);
    LinkSucceeds(r.(blobs := FetchIfMissing(h, r.blobs, f, v).0), commit, f, v);
  }

  /** Handling f leaves a file that agrees with it as ready as it was, or with its blob in place. */
  lemma StaysReady(h: Hashes, r: Repo, commit: string, f: RepoFile, v: Visit, g: RepoFile, content: Bytes, w: Visit)
    requires FileStep(h, r, commit, f, v).1 && IsBlobId(f.id) && IsBlobId(g.id) && Agree(f, g)
    requires Ready(r.blobs, g, content, w)
    ensures Ready(FileStep(h, r, commit, f, v).0.blobs, g, content, w)
  {
    StepHandlesBlobs(h, r, commit, f, v);
    if f.id != g.id {
      HandlesApart(r.blobs, FileStep(h, r, commit, f, v).0.blobs, f, g);
    }
  }

  lemma StaysReachable(h: Hashes, r: Repo, commit: string, f: RepoFile, v: Visit, g: RepoFile)
    requires IsBlobId(f.id) && IsSafeRepoFilename(f.name) && Agree(f, g) && Reachable(r, commit, g)
    ensures Reachable(FileStep(h, r, commit, f, v).0, commit, g)
  {
    var r' := FileStep(h, r, commit, f, v).0;
    StepGrows(h, r, commit, f, v);
    WrittenLinkLeadsToItsBlob(r.home, commit, f.name, f.id);
    forall p | p in Parents(Split(g.name)) && p in SnapshotOf(r', commit) ensures SnapshotOf(r', commit)[p].Dir? {
      if p !in SnapshotOf(r, commit) {
        assert NewEntry(r'.blobs, f, p, r'.snapshots[commit][p]);
      }
    }
    var path := Split(g.name);
    if path in SnapshotOf(r', commit) && path !in SnapshotOf(r, commit) {
      assert NewEntry(r'.blobs, f, path, r'.snapshots[commit][path]);
    }
  }

  /** Everything that a download needs, from the cache, the server and its caller. */
  ghost predicate Favourable(h: Hashes, r: Repo, commit: string, files: seq<RepoFile>, contents: seq<Bytes>, visits: seq<Visit>) {
    && |files| == |contents| == |visits| && Fit(files) && Clean(r, commit, files)
    && forall k :: 0 <= k < |files| ==>
         Truthful(h, files[k], contents[k]) && Ready(r.blobs, files[k], contents[k], visits[k]) && Reachable(r, commit, files[k])
  }

  lemma StaysFavourable(h: Hashes, r: Repo, commit: string, files: seq<RepoFile>, contents: seq<Bytes>, visits: seq<Visit>)
    requires files != [] && Favourable(h, r, commit, files, contents, visits)
    requires FileStep(h, r, commit, files[0], visits[0]).1
    ensures Favourable(h, FileStep(h, r, commit, files[0], visits[0]).0, commit, files[1..], contents[1..], visits[1..])
  {
    var r' := FileStep(h, r, commit, files[0], visits[0]).0;
    forall k | 0 <= k < |files[1..]|
      ensures Truthful(h, files[1..][k], contents[1..][k]) && Ready(r'.blobs, files[1..][k], contents[1..][k], visits[1..][k])
      ensures Reachable(r', commit, files[1..][k]) && Vacant(r', commit, files[1..][k])
    {
      var f, g := files[0], files[k + 1];
      assert Agree(f, g) && Agree(g, f) && Vacant(r, commit, g);
      StaysReady(h, r, commit, f, visits[0], g, contents[k + 1], visits[k + 1]);
      StaysReachable(h, r, commit, f, visits[0], g);
      StaysVacant(h, r, commit, f, visits[0], g);
    }
    forall j, k | 0 <= j < |files[1..]| && 0 <= k < |files[1..]| ensures Agree(files[1..][j], files[1..][k]) {
      assert Agree(files[j + 1], files[k + 1]);
    }
  }

  lemma {:induction false} LoopSucceeds(h: Hashes, r: Repo, commit: string, files: seq<RepoFile>, contents: seq<Bytes>, visits: seq<Visit>)
    requires Favourable(h, r, commit, files, contents, visits)
    ensures FileLoop(h, r, commit, files, visits).1
    decreases |files|
  {
    if files != [] {
      StepSucceeds(h, r, commit, files[0], contents[0], visits[0]);
      StaysFavourable(h, r, commit, files, contents, visits);
      LoopSucceeds(h, FileStep(h, r, commit, files[0], visits[0]).0, commit, files[1..], contents[1..], visits[1..]);
    }
  }

  // ---- What stops a download ------------------------------------------------------------------

  /** A signal, or another process that fetches the same blob, stops a download at this file before
      anything of it was done. */
  lemma StopsAtOnce(h: Hashes, r: Repo, commit: string, f: RepoFile, v: Visit)
    requires v.aborted || (!HasBlob(r.blobs, f) && !v.lockFree)
    ensures FileStep(h, r, commit, f, v) == (r, false)
  {
  }

  /** A link in the way that leads to nothing, or takes a way that does not exist. */
  ghost predicate Dangles(r: Repo, commit: string, f: RepoFile, elsewhere: bool) {
    var s, path := SnapshotOf(r, commit), Split(f.name);
    && path in s && s[path].Link? && !elsewhere
    && (!Direct(s[path].target) || forall b :: LeadsTo(r.home, commit, path, s[path].target, b) ==> b !in r.blobs)
  }

  /** A directory or a link that the disk refuses, an entry on the way that is no directory, and a link in
      the way that leads to nothing, each stop it too; the ref is not written then. */
  lemma StopsAtTheLink(h: Hashes, r: Repo, commit: string, f: RepoFile, v: Visit)
    requires IsBlobId(f.id) && HasBlob(r.blobs, f)
    requires || v.disk.NoDirectory? || Blocked(SnapshotOf(r, commit), Split(f.name))
             || (v.disk.NoLink? && Split(f.name) !in SnapshotOf(r, commit))
             || Dangles(r, commit, f, v.elsewhere)
    ensures !FileStep(h, r, commit, f, v).1 && FileStep(h, r, commit, f, v).0.blobs == r.blobs
  {
    var s, path := SnapshotOf(r, commit), Split(f.name);
    ParentsGrow(s, path);
    assert path !in Parents(path);
  }

  // ---- Which listings are accepted ------------------------------------------------------------

  /** An id of 40 or 64 lower-case hexadecimal digits. */
  predicate IsDigits(id: string) {
    (|id| == 40 || |id| == 64) && forall k :: 0 <= k < |id| ==> id[k] in "0123456789abcdef"
  }

  lemma HexDigits(c: char)
    ensures IsHex(c) <==> c in "0123456789abcdef"
  {
    var digits := "0123456789abcdef";
    assert forall k :: 0 <= k < 10 ==> digits[k] == '0' + k as char;
    assert forall k :: 10 <= k < 16 ==> digits[k] == 'a' + (k - 10) as char;
    if '0' <= c <= '9' {
      assert digits[c as int - '0' as int] == c;
    }
    if 'a' <= c <= 'f' {
      assert digits[10 + c as int - 'a' as int] == c;
    }
  }

  /** Names of directory entries joined by slashes, without a zero character. */
  ghost predicate LeadsDown(name: string) {
    '\0' !in name && exists parts: Path :: parts != [] && (forall k :: 0 <= k < |parts| ==> IsName(parts[k])) && name == Join(parts)
  }

  lemma FitExactly(files: seq<RepoFile>)
    ensures Fit(files) <==> forall k :: 0 <= k < |files| ==> IsDigits(files[k].id) && LeadsDown(files[k].name)
  {
    forall k | 0 <= k < |files|
      ensures IsDigits(files[k].id) <==> IsBlobId(files[k].id)
      ensures LeadsDown(files[k].name) <==> IsSafeRepoFilename(files[k].name)
    {
      SafeNamesExactly(files[k].name);
      forall c ensures IsHex(c) <==> c in "0123456789abcdef" {
        HexDigits(c);
      }
    }
  }

  /** A listing with a malformed id, or with a name that is absolute, leads up or out, or is not a path at
      all, is refused, as is one that does not fit on the disk; then nothing changes. */
  lemma RefusalChangesNothing(h: Hashes, r: Repo, listing: Listing, revision: string, available: nat, visits: seq<Visit>, abortedAtEnd: bool)
    requires |visits| == |listing.files|
    requires || (exists k :: 0 <= k < |listing.files| && !(IsDigits(listing.files[k].id) && LeadsDown(listing.files[k].name)))
             || (Remaining(r.blobs, listing.files) > 0 && available < Remaining(r.blobs, listing.files) + 1024 * 1024 * 1024)
    ensures Download(h, r, listing, revision, available, visits, abortedAtEnd) == (r, false)
  {
    FitExactly(listing.files);
  }

  /** What is asked of a listed file: a well-formed name and id, contents with that hash, a blob that can be
      had or is there with them, and a place in the snapshot that can be reached. */
  ghost predicate Obtainable(h: Hashes, r: Repo, commit: string, f: RepoFile, content: Bytes, v: Visit) {
    && IsDigits(f.id) && LeadsDown(f.name) && Truthful(h, f, content)
    && TrustedBlob(h, r.blobs, f) && Ready(r.blobs, f, content, v) && Reachable(r, commit, f)
  }

  /** All that is asked for a download. */
  ghost predicate Promising(h: Hashes, r: Repo, listing: Listing, available: nat, contents: seq<Bytes>, visits: seq<Visit>) {
    && |visits| == |listing.files| == |contents| && Clean(r, listing.sha, listing.files)
    && (Remaining(r.blobs, listing.files) > 0 ==> Remaining(r.blobs, listing.files) + 1024 * 1024 * 1024 <= available)
    && forall k :: 0 <= k < |listing.files| ==> Obtainable(h, r, listing.sha, listing.files[k], contents[k], visits[k])
  }

  lemma PromisingMeans(h: Hashes, r: Repo, listing: Listing, available: nat, contents: seq<Bytes>, visits: seq<Visit>)
    requires Promising(h, r, listing, available, contents, visits)
    ensures Favourable(h, r, listing.sha, listing.files, contents, visits) && Trusted(h, r.blobs, listing.files)
    ensures Acceptable(listing) && Room(r.blobs, listing.files, available)
  {
    forall k | 0 <= k < |listing.files|
      ensures IsDigits(listing.files[k].id) && LeadsDown(listing.files[k].name) && TrustedBlob(h, r.blobs, listing.files[k])
      ensures Truthful(h, listing.files[k], contents[k]) && Ready(r.blobs, listing.files[k], contents[k], visits[k])
      ensures Reachable(r, listing.sha, listing.files[k])
    {
      assert Obtainable(h, r, listing.sha, listing.files[k], contents[k], visits[k]);
    }
    FitExactly(listing.files);
  }

  /** A download of well-formed names and ids, from an honest server, to a working disk with a gibibyte to
      spare, and over a cache in which nothing is in its way, comes to its end: the ref is written, and
      every listed file is linked to a blob with the listed size and hash. Partial files may be there, of
      a prefix of their file or too long. */
  lemma HonestDownloadSucceeds(h: Hashes, r: Repo, listing: Listing, revision: string, available: nat,
                               contents: seq<Bytes>, visits: seq<Visit>)
    requires Promising(h, r, listing, available, contents, visits)
    ensures var (r', done) := Download(h, r, listing, revision, available, visits, false);
            && done && revision in r'.refs && r'.refs[revision] == listing.sha
            && forall k :: 0 <= k < |listing.files| ==> Served(h, r', listing.sha, listing.files[k])
  {
    PromisingMeans(h, r, listing, available, contents, visits);
    LoopSucceeds(h, r, listing.sha, listing.files, contents, visits);
    RefMeansCompleteExactly(h, r, listing, revision, available, visits, false);
  }

  // ---- Such a download ------------------------------------------------------------------------

  /** The whole file, in one reply. */
  function Sent(content: Bytes): Visit {
    var x := Exchange(false, Reply(200, [Data(content, false)]), false);
    Visit(false, true, [x, x], false, Works, false)
  }

  lemma SentIsHonest(content: Bytes)
    ensures Honest(Sent(content).exchanges, content, 0)
  {
    var chunks := [Data(content, false)];
    assert chunks[1..] == [] && content + [] == content;
    assert Body(chunks) == Some(content);
  }

  lemma OneFileIsClean(r: Repo, f: RepoFile, commit: string)
    requires Split(f.name) == [f.name] && commit !in r.snapshots
    ensures Clean(r, commit, [f]) && Reachable(r, commit, f)
  {
    assert Parents([f.name]) == {};
  }

  lemma PlainNameLeadsDown(name: string)
    requires IsName(name) && '\0' !in name
    ensures LeadsDown(name)
  {
    var parts := [name];
    assert Join(parts) == name && forall k :: 0 <= k < |parts| ==> IsName(parts[k]);
  }

  lemma FirstIsObtainable(h: Hashes, home: Path, commit: string, f: RepoFile, content: Bytes)
    requires IsName(f.name) && '\0' !in f.name && IsDigits(f.id) && |content| == f.size && Truthful(h, f, content)
    ensures Obtainable(h, Empty(home), commit, f, content, Sent(content)) && Clean(Empty(home), commit, [f])
  {
    SplitWord(f.name);
    PlainNameLeadsDown(f.name);
    SentIsHonest(content);
    OneFileIsClean(Empty(home), f, commit);
  }

  lemma RemainingOfOne(blobs: map<string, Bytes>, f: RepoFile)
    ensures Remaining(blobs, [f]) == Left(blobs, f)
  {
    assert [f][1..] == [];
  }

  /** The first file of a new cache: for any contents and their hash all of that is met. */
  lemma FirstDownloadSucceeds(h: Hashes, home: Path, commit: string, revision: string, f: RepoFile, content: Bytes, available: nat)
    requires IsName(f.name) && '\0' !in f.name && IsDigits(f.id) && |content| == f.size && Truthful(h, f, content)
    requires f.size + 1024 * 1024 * 1024 <= available
    ensures var (r, done) := Download(h, Empty(home), Listing(commit, [f]), revision, available, [Sent(content)], false);
            done && revision in r.refs && r.refs[revision] == commit && Served(h, r, commit, f)
  {
    var r, listing, visits := Empty(home), Listing(commit, [f]), [Sent(content)];
    FirstIsObtainable(h, home, commit, f, content);
    RemainingOfOne(r.blobs, f);
    assert Promising(h, r, listing, available, [content], visits);
    HonestDownloadSucceeds(h, r, listing, revision, available, [content], visits);
    assert Served(h, Download(h, r, listing, revision, available, visits, false).0, commit, listing.files[0]);
  }
}
