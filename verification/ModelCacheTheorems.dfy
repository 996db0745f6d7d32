/** What the model cache keeps over every sequence of downloads and garbage collections, however they
    are aborted, and when exactly a revision's ref means a complete snapshot
    (packages/hub/src/download.ts:316-413, 448-567; packages/hub/src/registry.ts:487-569). */
module ModelCacheTheorems {
  import opened Wrappers
  import opened RepoPaths
  import opened RegistryGc
  import opened DownloadModel
  import opened ModelCache

  // ---- The store invariant --------------------------------------------------------------------

  /** A blob that a link of this snapshot leads to. */
  predicate LinkWorks(r: Repo, commit: string, path: Path, target: string) {
    && path != []
    && var b := Split(target)[|Split(target)| - 1];
       IsBlobId(b) && LeadsTo(r.home, commit, path, target, b) && Direct(target) && b in r.blobs
  }

  ghost predicate AllAuthentic(h: Hashes, blobs: map<string, Bytes>) {
    forall b :: b in blobs && IsBlobId(b) ==> Authentic(h, b, blobs[b])
  }

  /** Every blob has the digest that its name claims, every link of every snapshot leads to a blob, and
      every entry of a snapshot lies in directories of it. */
  ghost predicate Store(h: Hashes, r: Repo) {
    && AllAuthentic(h, r.blobs)
    && (forall c | c in r.snapshots :: Tree(r.snapshots[c]))
    && (forall c | c in r.snapshots :: forall p | p in r.snapshots[c] && r.snapshots[c][p].Link? ::
          LinkWorks(r, c, p, r.snapshots[c][p].target))
  }

  predicate InDirectories(s: Snapshot, path: Path) {
    path != [] && forall p | p in Parents(path) :: p in s && s[p] == Dir
  }

  predicate Tree(s: Snapshot) {
    forall p | p in s :: InDirectories(s, p)
  }

  lemma FetchKeepsBlobs(h: Hashes, blobs: map<string, Bytes>, f: RepoFile, v: Visit)
    requires IsBlobId(f.id) && AllAuthentic(h, blobs)
    ensures var blobs' := FetchIfMissing(h, blobs, f, v).0;
            AllAuthentic(h, blobs') && forall b :: b in blobs && IsBlobId(b) ==> b in blobs'
  {
    FetchIsSound(h, blobs, f, v);
    var blobs' := FetchIfMissing(h, blobs, f, v).0;
    forall b | (b in blobs || b in blobs') && IsBlobId(b) ensures b in blobs' && Authentic(h, b, blobs'[b]) {
      PartNameIsNoId(b, f.id);
    }
  }

  lemma StepKeepsBlobs(h: Hashes, r: Repo, commit: string, f: RepoFile, v: Visit)
    requires IsBlobId(f.id) && AllAuthentic(h, r.blobs)
    ensures var blobs' := FileStep(h, r, commit, f, v).0.blobs;
            AllAuthentic(h, blobs') && forall b :: b in r.blobs && IsBlobId(b) ==> b in blobs'
  {
    FetchKeepsBlobs(h, r.blobs, f, v);
  }

  lemma ParentsOfParents(path: Path, p: Path)
    requires p in Parents(path)
    ensures p != [] && Parents(p) <= Parents(path)
  {
    var k :| 0 < k < |path| && p == path[..k];
    forall q | q in Parents(p) ensures q in Parents(path) {
      var j :| 0 < j < |p| && q == p[..j];
      assert q == path[..j];
    }
  }

  lemma ParentsFit(s: Snapshot, path: Path)
    requires Tree(s) && !Blocked(s, path)
    ensures Tree(WithParents(s, path))
  {
    var s' := WithParents(s, path);
    forall p | p in s' ensures InDirectories(s', p) {
      if p !in s {
        ParentsOfParents(path, p);
      } else {
        assert InDirectories(s, p);
      }
    }
  }

  lemma LeafFits(s: Snapshot, path: Path, node: Node)
    requires Tree(s) && InDirectories(s, path) && path !in s
    ensures Tree(s[path := node])
  {
    var s' := s[path := node];
    forall p | p in s' ensures InDirectories(s', p) {
      assert InDirectories(s, p);
    }
  }

  lemma StepKeepsTrees(h: Hashes, r: Repo, commit: string, f: RepoFile, v: Visit, c: string)
    requires forall d | d in r.snapshots :: Tree(r.snapshots[d])
    requires c in FileStep(h, r, commit, f, v).0.snapshots
    ensures Tree(FileStep(h, r, commit, f, v).0.snapshots[c])
  {
    var s, path := SnapshotOf(r, commit), Split(f.name);
    if !Blocked(s, path) {
      ParentsFit(s, path);
      if path !in WithParents(s, path) {
        LeafFits(WithParents(s, path), path, Link(LinkTarget(f.name, f.id)));
      }
    }
  }

  lemma StepKeepsLinks(h: Hashes, r: Repo, commit: string, f: RepoFile, v: Visit, c: string, p: Path)
    requires IsBlobId(f.id) && IsSafeRepoFilename(f.name) && Store(h, r)
    requires c in FileStep(h, r, commit, f, v).0.snapshots && p in FileStep(h, r, commit, f, v).0.snapshots[c]
    requires FileStep(h, r, commit, f, v).0.snapshots[c][p].Link?
    ensures var r' := FileStep(h, r, commit, f, v).0; LinkWorks(r', c, p, r'.snapshots[c][p].target)
  {
    StepGrows(h, r, commit, f, v);
    StepKeepsBlobs(h, r, commit, f, v);
    if p !in SnapshotOf(r, c) {
      WrittenLinkLeadsToItsBlob(r.home, commit, f.name, f.id);
      SplitClimb(|Split(f.name)| + 1, f.id);
    }
  }

  lemma StepKeepsStore(h: Hashes, r: Repo, commit: string, f: RepoFile, v: Visit)
    requires IsBlobId(f.id) && IsSafeRepoFilename(f.name) && Store(h, r)
    ensures Store(h, FileStep(h, r, commit, f, v).0)
  {
    var r' := FileStep(h, r, commit, f, v).0;
    StepKeepsBlobs(h, r, commit, f, v);
    forall c | c in r'.snapshots ensures Tree(r'.snapshots[c]) {
      StepKeepsTrees(h, r, commit, f, v, c);
    }
    forall c, p | c in r'.snapshots && p in r'.snapshots[c] && r'.snapshots[c][p].Link?
      ensures LinkWorks(r', c, p, r'.snapshots[c][p].target)
    {
      StepKeepsLinks(h, r, commit, f, v, c, p);
    }
  }

  predicate Fit(files: seq<RepoFile>) {
    forall k :: 0 <= k < |files| ==> IsBlobId(files[k].id) && IsSafeRepoFilename(files[k].name)
  }

  lemma {:induction false} LoopKeepsStore(h: Hashes, r: Repo, commit: string, files: seq<RepoFile>, visits: seq<Visit>)
    requires |visits| == |files| && Fit(files) && Store(h, r)
    ensures Store(h, FileLoop(h, r, commit, files, visits).0)
    decreases |files|
  {
    if files != [] {
      StepKeepsStore(h, r, commit, files[0], visits[0]);
      if FileStep(h, r, commit, files[0], visits[0]).1 {
        LoopKeepsStore(h, FileStep(h, r, commit, files[0], visits[0]).0, commit, files[1..], visits[1..]);
      }
    }
  }

  lemma GcKeepsStore(h: Hashes, r: Repo, force: bool)
    requires Store(h, r)
    ensures Store(h, Collected(r, force))
  {
    var r' := Collected(r, force);
    forall c, p | c in r'.snapshots && p in r'.snapshots[c] && r'.snapshots[c][p].Link?
      ensures LinkWorks(r', c, p, r'.snapshots[c][p].target)
    {
      var target := r.snapshots[c][p].target;
      SurvivingLinksResolve(r, force, c, p, Split(target)[|Split(target)| - 1]);
    }
  }

  /** What happens to a repository over its life; a download that is never finished is one that aborts. */
  datatype Action =
    | Get(listing: Listing, revision: string, available: nat, visits: seq<Visit>, abortedAtEnd: bool)
    | Gc(force: bool)

  predicate Possible(a: Action) {
    a.Get? ==> |a.visits| == |a.listing.files|
  }

  function Do(h: Hashes, r: Repo, a: Action): Repo
    requires Possible(a)
  {
    match a
    case Get(listing, revision, available, visits, abortedAtEnd) =>
      Download(h, r, listing, revision, available, visits, abortedAtEnd).0
    case Gc(force) => Collected(r, force)
  }

  predicate AllPossible(actions: seq<Action>) {
    forall k :: 0 <= k < |actions| ==> Possible(actions[k])
  }

  function After(h: Hashes, r: Repo, actions: seq<Action>): Repo
    requires AllPossible(actions)
  {
    if actions == [] then r else Do(h, After(h, r, actions[..|actions| - 1]), actions[|actions| - 1])
  }

  lemma ActionKeepsStore(h: Hashes, r: Repo, a: Action)
    requires Possible(a) && Store(h, r)
    ensures Store(h, Do(h, r, a))
  {
    match a
    case Get(listing, _, _, visits, _) =>
      if Acceptable(listing) {
        LoopKeepsStore(h, r, listing.sha, listing.files, visits);
      }
    case Gc(force) => GcKeepsStore(h, r, force);
  }

  /** Over every sequence of downloads, aborted anywhere, from any server, and of garbage collections:
      every blob has the hash that is its name and every link of every snapshot leads to a blob. */
  lemma {:induction false} RunKeepsStore(h: Hashes, home: Path, actions: seq<Action>)
    requires AllPossible(actions)
    ensures var r := After(h, Empty(home), actions);
            && Store(h, r)
            && forall b :: b in r.blobs && IsBlobId(b) ==>
                 if |b| == 64 then h.sha256(r.blobs[b]) == b else h.sha1(h.header(|r.blobs[b]|) + r.blobs[b]) == b
  {
    if actions != [] {
      RunKeepsStore(h, home, actions[..|actions| - 1]);
      ActionKeepsStore(h, After(h, Empty(home), actions[..|actions| - 1]), actions[|actions| - 1]);
    }
  }

  /** What a download has left unfinished survives a collection: the next one can go on from it. */
  lemma PartialsSurvive(r: Repo, force: bool, id: string)
    requires PartName(id) in r.blobs
    ensures PartOf(Collected(r, force).blobs, id) == PartOf(r.blobs, id)
  {
    BlobsThatSurvive(r, force, PartName(id));
    assert PartName(id) == id + ".incomplete";
  }

  // ---- What a ref promises --------------------------------------------------------------------

  /** The file's entry is a link to a blob of the right size, whose digest is its id. */
  predicate Served(h: Hashes, r: Repo, commit: string, f: RepoFile) {
    var path := Split(f.name);
    && commit in r.snapshots && path in r.snapshots[commit] && r.snapshots[commit][path].Link?
    && LeadsTo(r.home, commit, path, r.snapshots[commit][path].target, f.id)
    && HasBlob(r.blobs, f) && Authentic(h, f.id, r.blobs[f.id])
  }

  /** An entry that is there already is a link to this blob. */
  predicate Vacant(r: Repo, commit: string, f: RepoFile) {
    var path := Split(f.name);
    path in SnapshotOf(r, commit) ==>
      SnapshotOf(r, commit)[path].Link? && LeadsTo(r.home, commit, path, SnapshotOf(r, commit)[path].target, f.id)
  }

  /** Two files of a listing do not get into each other's way. */
  predicate Agree(f: RepoFile, g: RepoFile) {
    && (Split(f.name) == Split(g.name) ==> f.id == g.id)
    && (f.id == g.id ==> f.size == g.size)
    && Split(f.name) !in Parents(Split(g.name))
  }

  predicate Clean(r: Repo, commit: string, files: seq<RepoFile>) {
    && (forall j :: 0 <= j < |files| ==> Vacant(r, commit, files[j]))
    && (forall j, k :: 0 <= j < |files| && 0 <= k < |files| ==> Agree(files[j], files[k]))
  }

  /** What a handled file gets. */
  predicate Handled(r: Repo, commit: string, f: RepoFile) {
    && commit in r.snapshots && Split(f.name) in r.snapshots[commit]
    && (forall p | p in Parents(Split(f.name)) :: p in r.snapshots[commit] && r.snapshots[commit][p] == Dir)
  }

  lemma StepHandles(h: Hashes, r: Repo, commit: string, f: RepoFile, v: Visit)
    requires FileStep(h, r, commit, f, v).1
    ensures Handled(FileStep(h, r, commit, f, v).0, commit, f)
  {
    LinkUpLinks(r.(blobs := FetchIfMissing(h, r.blobs, f, v).0), commit, f, v);
  }

  /** Blobs that a download takes for finished, by their size, have the digest that their name claims. */
  ghost predicate Trusted(h: Hashes, blobs: map<string, Bytes>, files: seq<RepoFile>) {
    forall k :: 0 <= k < |files| ==> TrustedBlob(h, blobs, files[k])
  }

  predicate TrustedBlob(h: Hashes, blobs: map<string, Bytes>, f: RepoFile) {
    HasBlob(blobs, f) ==> Authentic(h, f.id, blobs[f.id])
  }

  lemma StepServes(h: Hashes, r: Repo, commit: string, f: RepoFile, v: Visit)
    requires IsBlobId(f.id) && IsSafeRepoFilename(f.name) && TrustedBlob(h, r.blobs, f) && FileStep(h, r, commit, f, v).1
    requires Vacant(r, commit, f)
    ensures Served(h, FileStep(h, r, commit, f, v).0, commit, f)
  {
    FetchIsSound(h, r.blobs, f, v);
    StepHandles(h, r, commit, f, v);
    StepGrows(h, r, commit, f, v);
    WrittenLinkLeadsToItsBlob(r.home, commit, f.name, f.id);
    var path := Split(f.name);
    if path !in SnapshotOf(r, commit) {
      assert path !in Parents(path);
    }
  }

  /** Handling a file leaves trust in the blobs of others, and of other names for the same blob. */
  lemma StepKeepsTrust(h: Hashes, r: Repo, commit: string, f: RepoFile, v: Visit, g: RepoFile)
    requires IsBlobId(f.id) && IsBlobId(g.id) && TrustedBlob(h, r.blobs, g) && (f.id == g.id ==> f.size == g.size)
    ensures TrustedBlob(h, FileStep(h, r, commit, f, v).0.blobs, g)
  {
    FetchIsSound(h, r.blobs, f, v);
    PartNameIsNoId(g.id, f.id);
  }

  /** Contents of this size with the digest that the id names. */
  ghost predicate Fits(h: Hashes, id: string, size: nat) {
    exists content: Bytes :: |content| == size && Authentic(h, id, content)
  }

  /** File f cannot replace the blob of g: if it gives that blob another size, no contents fit. */
  ghost predicate Harmless(h: Hashes, f: RepoFile, g: RepoFile) {
    f.id == g.id && f.size != g.size ==> !Fits(h, f.id, f.size)
  }

  /** Handling another file takes nothing away from a served one. */
  lemma StepKeepsServed(h: Hashes, r: Repo, commit: string, f: RepoFile, v: Visit, c: string, g: RepoFile)
    requires IsBlobId(f.id) && IsBlobId(g.id) && Harmless(h, f, g)
    requires Served(h, r, c, g)
    ensures Served(h, FileStep(h, r, commit, f, v).0, c, g)
  {
    StepGrows(h, r, commit, f, v);
    FetchIsSound(h, r.blobs, f, v);
    PartNameIsNoId(g.id, f.id);
  }

  lemma {:induction false} LoopKeepsServed(h: Hashes, r: Repo, commit: string, files: seq<RepoFile>, visits: seq<Visit>, c: string, g: RepoFile)
    requires |visits| == |files| && Fit(files) && IsBlobId(g.id) && Served(h, r, c, g)
    requires forall k :: 0 <= k < |files| ==> Harmless(h, files[k], g)
    ensures Served(h, FileLoop(h, r, commit, files, visits).0, c, g)
    decreases |files|
  {
    if files != [] {
      StepKeepsServed(h, r, commit, files[0], visits[0], c, g);
      if FileStep(h, r, commit, files[0], visits[0]).1 {
        LoopKeepsServed(h, FileStep(h, r, commit, files[0], visits[0]).0, commit, files[1..], visits[1..], c, g);
      }
    }
  }

  lemma {:induction false} LoopGrows(h: Hashes, r: Repo, commit: string, files: seq<RepoFile>, visits: seq<Visit>)
    requires |visits| == |files| && Fit(files)
    ensures Grows(r, FileLoop(h, r, commit, files, visits).0)
    decreases |files|
  {
    if files != [] {
      StepGrows(h, r, commit, files[0], visits[0]);
      if FileStep(h, r, commit, files[0], visits[0]).1 {
        LoopGrows(h, FileStep(h, r, commit, files[0], visits[0]).0, commit, files[1..], visits[1..]);
      }
    }
  }

  /** A file that agrees with the one just handled is as vacant as it was. */
  lemma StaysVacant(h: Hashes, r: Repo, commit: string, f: RepoFile, v: Visit, g: RepoFile)
    requires IsBlobId(f.id) && IsSafeRepoFilename(f.name) && Vacant(r, commit, g) && Agree(f, g) && Agree(g, f)
    ensures Vacant(FileStep(h, r, commit, f, v).0, commit, g)
  {
    StepGrows(h, r, commit, f, v);
    WrittenLinkLeadsToItsBlob(r.home, commit, f.name, f.id);
    var r' := FileStep(h, r, commit, f, v).0;
    var path := Split(g.name);
    if path in SnapshotOf(r', commit) && path !in SnapshotOf(r, commit) {
      assert path == Split(f.name);
    }
  }

  lemma RestIsClean(h: Hashes, r: Repo, commit: string, files: seq<RepoFile>, v: Visit)
    requires files != [] && Fit(files) && Clean(r, commit, files) && Trusted(h, r.blobs, files)
    ensures var r' := FileStep(h, r, commit, files[0], v).0;
            Fit(files[1..]) && Clean(r', commit, files[1..]) && Trusted(h, r'.blobs, files[1..])
    ensures forall k :: 0 <= k < |files[1..]| && files[1..][k].id == files[0].id ==> files[1..][k].size == files[0].size
  {
    forall k | 0 <= k < |files[1..]|
      ensures Vacant(FileStep(h, r, commit, files[0], v).0, commit, files[1..][k])
      ensures TrustedBlob(h, FileStep(h, r, commit, files[0], v).0.blobs, files[1..][k])
      ensures files[1..][k].id == files[0].id ==> files[1..][k].size == files[0].size
    {
      assert Vacant(r, commit, files[k + 1]) && Agree(files[k + 1], files[0]) && Agree(files[0], files[k + 1]);
      StaysVacant(h, r, commit, files[0], v, files[1..][k]);
      StepKeepsTrust(h, r, commit, files[0], v, files[k + 1]);
    }
    forall j, k | 0 <= j < |files[1..]| && 0 <= k < |files[1..]| ensures Agree(files[1..][j], files[1..][k]) {
      assert Agree(files[j + 1], files[k + 1]);
    }
  }

  lemma {:induction false} CleanLoopServes(h: Hashes, r: Repo, commit: string, files: seq<RepoFile>, visits: seq<Visit>)
    requires |visits| == |files| && Fit(files) && Clean(r, commit, files) && Trusted(h, r.blobs, files)
    requires FileLoop(h, r, commit, files, visits).1
    ensures forall k :: 0 <= k < |files| ==> Served(h, FileLoop(h, r, commit, files, visits).0, commit, files[k])
    decreases |files|
  {
    if files != [] {
      var r1 := FileStep(h, r, commit, files[0], visits[0]).0;
      StepServes(h, r, commit, files[0], visits[0]);
      RestIsClean(h, r, commit, files, visits[0]);
      CleanLoopServes(h, r1, commit, files[1..], visits[1..]);
      forall k | 0 <= k < |files[1..]| ensures Harmless(h, files[1..][k], files[0]) {
        assert Agree(files[k + 1], files[0]);
      }
      LoopKeepsServed(h, r1, commit, files[1..], visits[1..], commit, files[0]);
    }
  }

  lemma HandledStays(r: Repo, r': Repo, commit: string, f: RepoFile)
    requires Handled(r, commit, f) && Grows(r, r')
    ensures Handled(r', commit, f)
  {
  }

  lemma {:induction false} LoopHandles(h: Hashes, r: Repo, commit: string, files: seq<RepoFile>, visits: seq<Visit>, k: nat)
    requires |visits| == |files| && Fit(files) && k < |files|
    requires FileLoop(h, r, commit, files, visits).1
    ensures Handled(FileLoop(h, r, commit, files, visits).0, commit, files[k])
    decreases |files|
  {
    var r1 := FileStep(h, r, commit, files[0], visits[0]).0;
    if k > 0 {
      LoopHandles(h, r1, commit, files[1..], visits[1..], k - 1);
    } else {
      StepHandles(h, r, commit, files[0], visits[0]);
      LoopGrows(h, r1, commit, files[1..], visits[1..]);
      HandledStays(r1, FileLoop(h, r1, commit, files[1..], visits[1..]).0, commit, files[0]);
    }
  }

  /** Two files that are both served in one snapshot were never in each other's way. */
  lemma BothServed(h: Hashes, r: Repo, commit: string, f: RepoFile, g: RepoFile)
    requires Served(h, r, commit, f) && Served(h, r, commit, g) && Handled(r, commit, g)
    ensures Agree(f, g)
  {
    var s := r.snapshots[commit];
    LinkEnds(r.home, commit, Split(f.name), s[Split(f.name)].target, f.id);
    LinkEnds(r.home, commit, Split(g.name), s[Split(g.name)].target, g.id);
  }

  /** A blob of the listed size is not touched by a download whose listing agrees with itself. */
  lemma {:induction false} LoopSparesBlob(h: Hashes, r: Repo, commit: string, files: seq<RepoFile>, visits: seq<Visit>, g: RepoFile)
    requires |visits| == |files| && Fit(files) && IsBlobId(g.id) && HasBlob(r.blobs, g)
    requires forall k :: 0 <= k < |files| && files[k].id == g.id ==> files[k].size == g.size
    ensures var blobs' := FileLoop(h, r, commit, files, visits).0.blobs; g.id in blobs' && blobs'[g.id] == r.blobs[g.id]
    decreases |files|
  {
    if files != [] {
      FetchIsSound(h, r.blobs, files[0], visits[0]);
      PartNameIsNoId(g.id, files[0].id);
      if FileStep(h, r, commit, files[0], visits[0]).1 {
        LoopSparesBlob(h, FileStep(h, r, commit, files[0], visits[0]).0, commit, files[1..], visits[1..], g);
      }
    }
  }

  lemma ServedMeansClean(h: Hashes, r: Repo, commit: string, files: seq<RepoFile>, visits: seq<Visit>)
    requires |visits| == |files| && Fit(files) && FileLoop(h, r, commit, files, visits).1
    requires forall k :: 0 <= k < |files| ==> Served(h, FileLoop(h, r, commit, files, visits).0, commit, files[k])
    ensures Clean(r, commit, files) && Trusted(h, r.blobs, files)
  {
    var r' := FileLoop(h, r, commit, files, visits).0;
    LoopGrows(h, r, commit, files, visits);
    forall j, k | 0 <= j < |files| && 0 <= k < |files| ensures Agree(files[j], files[k]) {
      LoopHandles(h, r, commit, files, visits, k);
      BothServed(h, r', commit, files[j], files[k]);
    }
    forall j | 0 <= j < |files| ensures Vacant(r, commit, files[j]) && TrustedBlob(h, r.blobs, files[j]) {
      assert Served(h, r', commit, files[j]);
      if HasBlob(r.blobs, files[j]) {
        forall k | 0 <= k < |files| && files[k].id == files[j].id ensures files[k].size == files[j].size {
          assert Agree(files[k], files[j]);
        }
        LoopSparesBlob(h, r, commit, files, visits, files[j]);
      }
    }
  }

  /** The ref of a revision is written only by a download that came to its end; and when it is written,
      whatever was in the cache before, every listed file is linked to an authentic blob of its size if and
      only if, before the call, no entry of the snapshot held one of the names without leading to the listed
      blob, the listing agrees with itself, and no blob had a listed size but other contents. The downloader
      checks none of the three: it takes a blob for finished by its size. */
  lemma RefMeansCompleteExactly(h: Hashes, r: Repo, listing: Listing, revision: string, available: nat, visits: seq<Visit>, abortedAtEnd: bool)
    requires |visits| == |listing.files|
    ensures var (r', done) := Download(h, r, listing, revision, available, visits, abortedAtEnd);
            && r'.refs == (if done then r.refs[revision := listing.sha] else r.refs)
            && (done ==> ((forall k :: 0 <= k < |listing.files| ==> Served(h, r', listing.sha, listing.files[k]))
                          <==> Clean(r, listing.sha, listing.files) && Trusted(h, r.blobs, listing.files)))
  {
    if Acceptable(listing) {
      var files := listing.files;
      var (r1, ok) := FileLoop(h, r, listing.sha, files, visits);
      LoopGrows(h, r, listing.sha, files, visits);
      if ok && !abortedAtEnd && Room(r.blobs, files, available) {
        var r' := Download(h, r, listing, revision, available, visits, abortedAtEnd).0;
        assert forall f :: Served(h, r', listing.sha, f) == Served(h, r1, listing.sha, f);
        if Clean(r, listing.sha, files) && Trusted(h, r.blobs, files) {
          CleanLoopServes(h, r, listing.sha, files, visits);
        }
        if forall k :: 0 <= k < |files| ==> Served(h, r', listing.sha, files[k]) {
          forall k | 0 <= k < |files| ensures Served(h, r1, listing.sha, files[k]) {
            assert Served(h, r', listing.sha, files[k]);
          }
          ServedMeansClean(h, r, listing.sha, files, visits);
        }
      }
    }
  }

  // ---- Running a download again ---------------------------------------------------------------

  lemma StepOnServed(h: Hashes, r: Repo, commit: string, f: RepoFile, v: Visit)
    requires Served(h, r, commit, f) && Tree(r.snapshots[commit]) && !v.aborted && v.disk.Works?
    requires LinkWorks(r, commit, Split(f.name), r.snapshots[commit][Split(f.name)].target)
    ensures FileStep(h, r, commit, f, v) == (r, true)
  {
    var s, path := r.snapshots[commit], Split(f.name);
    assert InDirectories(s, path);
    assert WithParents(s, path) == s;
    assert r.snapshots[commit := s] == r.snapshots;
    var target := s[path].target;
    LinkEnds(r.home, commit, path, target, f.id);
  }

  /** A download of files that are all there changes nothing and needs no reply from any server, not even
      the lock of a blob. */
  lemma {:induction false} RerunNeedsNoNetwork(h: Hashes, r: Repo, commit: string, files: seq<RepoFile>, visits: seq<Visit>)
    requires |visits| == |files| && Store(h, r)
    requires forall k :: 0 <= k < |files| ==> Served(h, r, commit, files[k]) && !visits[k].aborted && visits[k].disk.Works?
    ensures FileLoop(h, r, commit, files, visits) == (r, true)
    decreases |files|
  {
    if files != [] {
      StepOnServed(h, r, commit, files[0], visits[0]);
      RerunNeedsNoNetwork(h, r, commit, files[1..], visits[1..]);
    }
  }

  // ---- A ref protects its snapshot ------------------------------------------------------------

  /** Nobody moves the ref of the revision, or lists the blob with a size of which other contents fit. */
  ghost predicate Safe(h: Hashes, a: Action, revision: string, commit: string, f: RepoFile) {
    a.Get? ==>
      && (a.revision == revision ==> a.listing.sha == commit)
      && forall k :: 0 <= k < |a.listing.files| ==> Harmless(h, a.listing.files[k], f)
  }

  lemma GcKeepsServed(h: Hashes, r: Repo, force: bool, revision: string, commit: string, f: RepoFile)
    requires NoSlash(revision) && revision in r.refs && r.refs[revision] == commit && Served(h, r, commit, f)
    ensures Served(h, Collected(r, force), commit, f)
  {
    assert commit in Kept(r);
    SurvivingLinksResolve(r, force, commit, Split(f.name), f.id);
  }

  lemma ActionKeepsServed(h: Hashes, r: Repo, a: Action, revision: string, commit: string, f: RepoFile)
    requires Possible(a) && Safe(h, a, revision, commit, f) && IsBlobId(f.id)
    requires NoSlash(revision) && revision in r.refs && r.refs[revision] == commit && Served(h, r, commit, f)
    ensures var r' := Do(h, r, a); revision in r'.refs && r'.refs[revision] == commit && Served(h, r', commit, f)
  {
    match a
    case Get(listing, _, _, visits, _) =>
      if Acceptable(listing) {
        LoopGrows(h, r, listing.sha, listing.files, visits);
        LoopKeepsServed(h, r, listing.sha, listing.files, visits, commit, f);
      }
    case Gc(force) => GcKeepsServed(h, r, force, revision, commit, f);
  }

  /** A file of a downloaded revision stays served through every sequence of garbage collections, forced
      or not, and of other downloads, finished or not, from any server and with any listings, for as long as
      nobody moves the revision's ref to another commit and no listing exhibits a collision with the blob.
      The revision's name has no slash. */
  lemma {:induction false} ServedForGood(h: Hashes, r: Repo, actions: seq<Action>, revision: string, commit: string, f: RepoFile)
    requires AllPossible(actions) && IsBlobId(f.id)
    requires forall k :: 0 <= k < |actions| ==> Safe(h, actions[k], revision, commit, f)
    requires NoSlash(revision) && revision in r.refs && r.refs[revision] == commit && Served(h, r, commit, f)
    ensures var r' := After(h, r, actions); revision in r'.refs && r'.refs[revision] == commit && Served(h, r', commit, f)
  {
    if actions != [] {
      ServedForGood(h, r, actions[..|actions| - 1], revision, commit, f);
      ActionKeepsServed(h, After(h, r, actions[..|actions| - 1]), actions[|actions| - 1], revision, commit, f);
    }
  }

  /** Exactly when the snapshot that a ref names survives a collection: when some ref without a slash in
      its name, this or another, names it too; when no such ref names any snapshot; or, unless forced,
      when it holds a file name that no snapshot named by such a ref has. So the ref of a revision whose
      name has a slash does not protect its snapshot by itself. */
  lemma RefProtectsExactly(r: Repo, name: string, force: bool)
    requires name in r.refs && r.refs[name] in r.snapshots
    ensures r.refs[name] in Collected(r, force).snapshots <==>
            || (exists other :: other in r.refs && NoSlash(other) && r.refs[other] == r.refs[name])
            || (forall other :: other in r.refs && NoSlash(other) ==> r.refs[other] !in r.snapshots)
            || (!force && exists path :: path in r.snapshots[r.refs[name]] && r.snapshots[r.refs[name]][path] != Dir
                                         && !HasName(r.snapshots, Kept(r), path))
  {
    var c := r.refs[name];
    forall path ensures path in KeptFiles(r) <==> HasName(r.snapshots, Kept(r), path) {
      KeptFilesAreNames(r, path);
    }
    assert c in VisibleCommits(r) <==> exists other :: other in r.refs && NoSlash(other) && r.refs[other] == c;
    if k :| k in Kept(r) {
      var other :| other in r.refs && NoSlash(other) && r.refs[other] == k;
      assert k in r.snapshots;
    } else {
      forall other | other in r.refs && NoSlash(other) ensures r.refs[other] !in r.snapshots {
        assert r.refs[other] in VisibleCommits(r) && r.refs[other] !in Kept(r);
      }
    }
  }

  /** A listing without files gets a ref that names no snapshot; any other gets one that names one. */
  lemma RefNamesASnapshotExactly(h: Hashes, r: Repo, listing: Listing, revision: string, available: nat, visits: seq<Visit>, abortedAtEnd: bool)
    requires |visits| == |listing.files|
    ensures var (r', done) := Download(h, r, listing, revision, available, visits, abortedAtEnd);
            done ==> (listing.sha in r'.snapshots <==> listing.files != [] || listing.sha in r.snapshots)
  {
    if Acceptable(listing) && FileLoop(h, r, listing.sha, listing.files, visits).1 {
      LoopGrows(h, r, listing.sha, listing.files, visits);
      if listing.files != [] {
        LoopHandles(h, r, listing.sha, listing.files, visits, 0);
      }
    }
  }
}
