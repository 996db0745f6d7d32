/** Inputs at which the promises of the model cache end: for each exact condition in ModelCacheTheorems and
    DiskUse, a case on its other side. Blob ids are the digests of the contents. */
module ModelCacheCorners {
  import opened Wrappers
  import opened RepoPaths
  import opened RegistryGc
  import opened DownloadModel
  import opened ModelCache
  import opened ModelCacheTheorems
  import opened DownloadSpace
  import opened DiskUse

  const QUIET := Visit(false, true, [], false, Works, false)

  /** The id of some contents, by either hash. */
  predicate IsIdOf(h: Hashes, id: string, content: Bytes) {
    && IsBlobId(id)
    && ((|id| == 64 && id == h.sha256(content)) || (|id| == 40 && id == h.sha1(h.header(|content|) + content)))
  }

  lemma NoParents(s: Snapshot)
    ensures Split("a") == ["a"] && Split("b") == ["b"] && Parents(["a"]) == {} && Parents(["b"]) == {}
    ensures WithParents(s, ["a"]) == s && WithParents(s, ["b"]) == s
    ensures IsSafeRepoFilename("a") && IsSafeRepoFilename("b")
  {
    SplitWord("a");
    SplitWord("b");
  }

  lemma LoopOverOne(h: Hashes, r: Repo, commit: string, f: RepoFile, v: Visit)
    ensures FileLoop(h, r, commit, [f], [v]) == FileStep(h, r, commit, f, v)
    ensures Remaining(r.blobs, [f]) == Left(r.blobs, f)
  {
    assert [f][1..] == [] && [v][1..] == [];
  }

  // ---- A ref over a stranger ------------------------------------------------------------------

  /** Anything that is in the way and exists, a directory, a regular file or a link to something else, is
      taken for the link to the blob: the ref is written although the file is not linked to its blob. */
  lemma RefMayBeWrittenOverAStranger(h: Hashes, home: Path, id: string, stranger: Node)
    requires IsIdOf(h, id, [])
    requires stranger.Link? ==> forall b :: !LeadsTo(home, "c", ["a"], stranger.target, b)
    ensures var r := Repo(home, map[id := []], map["c" := map[["a"] := stranger]], map[]);
            var listing := Listing("c", [RepoFile("a", 0, id)]);
            var (r', done) := Download(h, r, listing, "main", 0, [QUIET.(elsewhere := true)], false);
            && AllAuthentic(h, r.blobs) && done && r'.refs["main"] == "c" && !Served(h, r', "c", listing.files[0])
  {
    var r := Repo(home, map[id := []], map["c" := map[["a"] := stranger]], map[]);
    var f, v := RepoFile("a", 0, id), QUIET.(elsewhere := true);
    NoParents(r.snapshots["c"]);
    assert r.snapshots["c" := r.snapshots["c"]] == r.snapshots;
    assert FileStep(h, r, "c", f, v) == (r, true);
    LoopOverOne(h, r, "c", f, v);
  }

  /** A blob that has the listed size and other contents is taken for finished: the file is linked to it,
      and the ref is written, although the digest of the contents is not the blob's name. */
  lemma CorruptBlobIsLinked(h: Hashes, home: Path, id: string, junk: Bytes)
    requires IsBlobId(id) && !Authentic(h, id, junk)
    ensures var r := Repo(home, map[id := junk], map[], map[]);
            var listing := Listing("c", [RepoFile("a", |junk|, id)]);
            var (r', done) := Download(h, r, listing, "main", 0, [QUIET], false);
            && Clean(r, "c", listing.files) && done && r'.refs["main"] == "c"
            && r'.snapshots == map["c" := map[["a"] := Link(LinkTarget("a", id))]] && r'.blobs == r.blobs
            && !Served(h, r', "c", listing.files[0])
  {
    var r, f := Repo(home, map[id := junk], map[], map[]), RepoFile("a", |junk|, id);
    NoParents(map[]);
    assert map[][["a"] := Link(LinkTarget("a", id))] == map[["a"] := Link(LinkTarget("a", id))];
    LoopOverOne(h, r, "c", f, QUIET);
  }

  // ---- A ref that protects nothing ------------------------------------------------------------

  /** The first download of an empty file into a commit. */
  lemma FirstOfCommit(h: Hashes, r: Repo, commit: string, revision: string, id: string)
    requires IsIdOf(h, id, []) && commit !in r.snapshots && PartName(id) !in r.blobs
    requires id in r.blobs ==> r.blobs[id] == []
    ensures Download(h, r, Listing(commit, [RepoFile("a", 0, id)]), revision, 0, [QUIET], false)
            == (Repo(r.home, r.blobs[id := []], r.snapshots[commit := map[["a"] := Link(LinkTarget("a", id))]],
                     r.refs[revision := commit]), true)
  {
    var f := RepoFile("a", 0, id);
    NoParents(map[]);
    assert r.blobs - {PartName(id)} == r.blobs;
    assert id in r.blobs ==> r.blobs[id := []] == r.blobs;
    assert FetchIfMissing(h, r.blobs, f, QUIET) == (r.blobs[id := []], true);
    LoopOverOne(h, r, commit, f, QUIET);
    assert Left(r.blobs, f) == 0;
    assert map[][["a"] := Link(LinkTarget("a", id))] == map[["a"] := Link(LinkTarget("a", id))];
  }

  function OneFile(commit: string, revision: string, id: string): Action {
    Get(Listing(commit, [RepoFile("a", 0, id)]), revision, 0, [QUIET], false)
  }

  /** A run that loses a downloaded revision: two commits are downloaded, the first for a revision whose
      name has slashes, and a collection, forced or not, deletes the snapshot that its ref names. */
  lemma SlashedRefLosesItsSnapshot(h: Hashes, home: Path, id: string, force: bool)
    requires IsIdOf(h, id, [])
    ensures var actions := [OneFile("c1", "refs/pr/1", id), OneFile("c2", "main", id), Gc(force)];
            && AllPossible(actions)
            && var r := After(h, Empty(home), actions);
               r.refs == map["refs/pr/1" := "c1", "main" := "c2"] && r.snapshots.Keys == {"c2"}
  {
    var first, second := OneFile("c1", "refs/pr/1", id), OneFile("c2", "main", id);
    PartNameIsNoId(id, id);
    FirstOfCommit(h, Empty(home), "c1", "refs/pr/1", id);
    var r1 := Do(h, Empty(home), first);
    FirstOfCommit(h, r1, "c2", "main", id);
    var r2 := Do(h, r1, second);
    AfterThree(h, Empty(home), first, second, Gc(force));
    assert r2.refs == map["refs/pr/1" := "c1", "main" := "c2"];
    PrunesTheSlashed(r2, force);
  }

  lemma AfterThree(h: Hashes, r: Repo, a: Action, b: Action, c: Action)
    requires Possible(a) && Possible(b) && Possible(c)
    ensures AllPossible([a, b, c]) && After(h, r, [a, b, c]) == Do(h, Do(h, Do(h, r, a), b), c)
  {
    assert [a, b, c][..2] == [a, b] && [a, b][..1] == [a] && [a][..0] == [];
    assert After(h, r, [a]) == Do(h, r, a);
    assert After(h, r, [a, b]) == Do(h, Do(h, r, a), b);
  }

  lemma PrunesTheSlashed(r: Repo, force: bool)
    requires r.refs == map["refs/pr/1" := "c1", "main" := "c2"]
    requires r.snapshots.Keys == {"c1", "c2"} && r.snapshots["c1"] == r.snapshots["c2"]
    ensures Collected(r, force).snapshots.Keys == {"c2"} && Collected(r, force).refs == r.refs
  {
    assert "refs/pr/1"[4] == '/';
    assert VisibleCommits(r) == {"c2"} by {
      assert "main" in r.refs && NoSlash("main") && r.refs["main"] == "c2";
    }
    assert Kept(r) == {"c2"};
    assert Files(r.snapshots["c1"]) <= KeptFiles(r) by {
      forall path | path in Files(r.snapshots["c1"]) ensures path in KeptFiles(r) {
        assert "c2" in Kept(r) && path in Files(r.snapshots["c2"]);
      }
    }
    assert Pruned(r, force) == {"c1"};
  }

  /** A download of an empty listing comes to its end and writes a ref to a snapshot that does not exist. */
  lemma EmptyListingGetsADanglingRef(h: Hashes, home: Path, sha: string, revision: string, available: nat)
    ensures var (r, done) := Download(h, Empty(home), Listing(sha, []), revision, available, [], false);
            done && revision in r.refs && r.refs[revision] == sha && sha !in r.snapshots
  {
  }

  // ---- A preflight that counts twice ----------------------------------------------------------

  /** A server's whole reply. */
  function Sends(content: Bytes): Visit {
    QUIET.(exchanges := [Exchange(false, Reply(200, [Data(content, false)]), false)])
  }

  lemma ReceivesAll(content: Bytes)
    ensures Receive([], [Data(content, false)]) == (content, true)
  {
    assert [Data(content, false)][1..] == [];
    assert [] + content == content;
  }

  /** The blob of a file that is missing altogether arrives. */
  lemma FetchesAll(h: Hashes, home: Path, id: string, content: Bytes)
    requires IsIdOf(h, id, content) && content != []
    ensures FetchIfMissing(h, map[], RepoFile("a", |content|, id), Sends(content)) == (map[id := content], true)
    ensures ReceivedFor(map[], RepoFile("a", |content|, id), Sends(content)) == |content|
  {
    ReceivesAll(content);
    var e, xs := Expected(id, |content|), Sends(content).exchanges;
    assert Fill(e, None, xs) == (Some(content), true);
    assert Attempt(h, e, None, xs, false) == Result(None, Some(content));
    var empty: map<string, Bytes> := map[];
    assert empty - {PartName(id)} == empty;
    assert empty[id := content] == map[id := content];
  }

  lemma FirstName(h: Hashes, home: Path, id: string, content: Bytes)
    requires IsIdOf(h, id, content) && content != []
    ensures FileStep(h, Empty(home), "c", RepoFile("a", |content|, id), Sends(content))
            == (Repo(home, map[id := content], map["c" := map[["a"] := Link(LinkTarget("a", id))]], map[]), true)
  {
    NoParents(map[]);
    FetchesAll(h, home, id, content);
    assert map[][["a"] := Link(LinkTarget("a", id))] == map[["a"] := Link(LinkTarget("a", id))];
  }

  lemma SecondName(h: Hashes, r: Repo, id: string, content: Bytes)
    requires r.blobs == map[id := content] && r.snapshots == map["c" := map[["a"] := Link(LinkTarget("a", id))]]
    ensures FileStep(h, r, "c", RepoFile("b", |content|, id), QUIET).1
    ensures Received(h, r, "c", [RepoFile("b", |content|, id)], [QUIET]) == 0
  {
    NoParents(r.snapshots["c"]);
    assert [QUIET][1..] == [] && [RepoFile("b", |content|, id)][1..] == [];
  }

  lemma CountedTwice(id: string, content: Bytes)
    requires content != []
    ensures Remaining(map[], [RepoFile("a", |content|, id), RepoFile("b", |content|, id)]) == 2 * |content|
  {
    var f, g := RepoFile("a", |content|, id), RepoFile("b", |content|, id);
    assert [f, g][1..] == [g] && [g][1..] == [];
    assert Remaining(map[], [g]) == Left(map[], g) + Remaining(map[], [g][1..]);
  }

  /** Two names for one missing blob: the download needs its bytes once, the preflight counts them twice,
      and refuses the download on a disk that would have had room for it. */
  lemma PreflightMayCountTwice(h: Hashes, home: Path, id: string, content: Bytes)
    requires IsIdOf(h, id, content) && content != []
    ensures var files := [RepoFile("a", |content|, id), RepoFile("b", |content|, id)];
            var visits := [Sends(content), QUIET];
            && FileLoop(h, Empty(home), "c", files, visits).1
            && Received(h, Empty(home), "c", files, visits) == |content|
            && Remaining(Empty(home).blobs, files) == 2 * |content|
            && !Download(h, Empty(home), Listing("c", files), "main", |content| + DISK_RESERVE, visits, false).1
  {
    var f, g, v := RepoFile("a", |content|, id), RepoFile("b", |content|, id), Sends(content);
    assert [f, g][1..] == [g] && [v, QUIET][1..] == [QUIET];
    FetchesAll(h, home, id, content);
    FirstName(h, home, id, content);
    var r1 := FileStep(h, Empty(home), "c", f, v).0;
    SecondName(h, r1, id, content);
    LoopOverOne(h, r1, "c", g, QUIET);
    CountedTwice(id, content);
  }

  // ---- A preflight that does not see what goes ------------------------------------------------

  lemma TotalOfOne(b: string, content: Bytes)
    ensures Total(map[b := content]) == |content|
  {
    TotalRemoved(map[b := content], b);
    assert map[b := content] - {b} == map[];
  }

  /** The whole reply to a request for a range, and again to the request without one. */
  function SendsTwice(content: Bytes): Visit {
    Sends(content).(exchanges := Sends(content).exchanges + Sends(content).exchanges)
  }

  /** What an attempt against a server that sends the whole file makes of a partial file. */
  lemma ReplacesPart(h: Hashes, id: string, content: Bytes, part: Bytes, v: Visit)
    requires IsIdOf(h, id, content) && content != []
    requires if |part| > |content| then v == Sends(content) else 0 < |part| < |content| && v == SendsTwice(content)
    ensures FetchIfMissing(h, map[PartName(id) := part], RepoFile("a", |content|, id), v) == (map[id := content], true)
    ensures ReceivedFor(map[PartName(id) := part], RepoFile("a", |content|, id), v) == |content|
  {
    ReceivesAll(content);
    PartNameIsNoId(id, id);
    var e, xs, blobs := Expected(id, |content|), v.exchanges, map[PartName(id) := part];
    if |part| < |content| {
      assert xs[1..] == Sends(content).exchanges && xs[0] == Sends(content).exchanges[0];
      assert Fill(e, Some(part), xs) == Fill(e, None, xs[1..]);
    }
    assert Fill(e, None, Sends(content).exchanges) == (Some(content), true);
    assert Attempt(h, e, Some(part), xs, false) == Result(None, Some(content));
    assert (blobs - {PartName(id)})[id := content] == map[id := content];
  }

  /** A partial file that is too long goes before its file arrives: the directory shrinks and never takes
      more than it did, but the preflight counts the whole file and refuses a disk with only the reserve free. */
  lemma OversizePartialMakesRoom(h: Hashes, home: Path, id: string, content: Bytes, junk: Bytes)
    requires IsIdOf(h, id, content) && content != [] && |junk| > |content|
    ensures var r := Repo(home, map[PartName(id) := junk], map[], map[]);
            var files, visits := [RepoFile("a", |content|, id)], [Sends(content)];
            && FileLoop(h, r, "c", files, visits).1 && NothingTwice(r.blobs, files)
            && Total(FileLoop(h, r, "c", files, visits).0.blobs) == |content| < |junk| == Total(r.blobs)
            && Extra(h, r, "c", files, visits) == 0 && Remaining(r.blobs, files) == |content|
            && !Download(h, r, Listing("c", files), "main", DISK_RESERVE, visits, false).1
  {
    var r, f, v := Repo(home, map[PartName(id) := junk], map[], map[]), RepoFile("a", |content|, id), Sends(content);
    NoParents(map[]);
    PartNameIsNoId(id, id);
    ReplacesPart(h, id, content, junk, v);
    LoopOverOne(h, r, "c", f, v);
    TotalOfOne(PartName(id), junk);
    TotalOfOne(id, content);
    assert [f][1..] == [] && [v][1..] == [];
    ExtraFrom(h, r, "c", [f], [v]);
  }

  /** A server that ignores the range of a resume sends the whole file: more is received than was counted,
      but what is added to the disk is what was counted. */
  lemma RestartReceivesMore(h: Hashes, home: Path, id: string, content: Bytes, part: Bytes)
    requires IsIdOf(h, id, content) && 0 < |part| < |content|
    ensures var r := Repo(home, map[PartName(id) := part], map[], map[]);
            var files, visits := [RepoFile("a", |content|, id)], [SendsTwice(content)];
            && FileLoop(h, r, "c", files, visits).1
            && Remaining(r.blobs, files) == |content| - |part| < |content| == Received(h, r, "c", files, visits)
            && Total(FileLoop(h, r, "c", files, visits).0.blobs) - Total(r.blobs) == Remaining(r.blobs, files)
  {
    var r, f := Repo(home, map[PartName(id) := part], map[], map[]), RepoFile("a", |content|, id);
    var v := SendsTwice(content);
    NoParents(map[]);
    PartNameIsNoId(id, id);
    ReplacesPart(h, id, content, part, v);
    LoopOverOne(h, r, "c", f, v);
    TotalOfOne(PartName(id), part);
    TotalOfOne(id, content);
    assert [f][1..] == [] && [v][1..] == [];
    assert Received(h, FileStep(h, r, "c", f, v).0, "c", [], []) == 0;
  }
}
