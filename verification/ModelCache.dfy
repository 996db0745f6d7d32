/** Downloading a model into its repository of the cache (packages/hub/src/download.ts:80-104 and
    448-567): fetch what is missing, link it into the snapshot, and write the ref last. Every call may be
    aborted, lose the network or meet a failing disk at any point. */
module ModelCache {
  import opened Wrappers
  import opened RepoPaths
  import opened RegistryGc
  import opened DownloadModel

  /** A file of a listing; its id is the sha256 of a large file, the git sha1 of any other. */
  datatype RepoFile = RepoFile(name: string, size: nat, id: string)

  datatype Listing = Listing(sha: string, files: seq<RepoFile>)

  datatype Disk = Works | NoDirectory | NoLink

  /** What happens while one file is handled: whether the signal has fired at its start, whether the
      blob's lock is free, the network, the last look at the signal, whether the disk takes the
      directories and the link, and whether a link that leads out of `blobs` leads to something. */
  datatype Visit = Visit(aborted: bool, lockFree: bool, exchanges: seq<Exchange>, abortedAtEnd: bool,
                         disk: Disk, elsewhere: bool)

  // ---- Blobs ----------------------------------------------------------------------------------

  function PartName(id: string): string { id + ".incomplete" }

  function PartOf(blobs: map<string, Bytes>, id: string): Option<Bytes> {
    if PartName(id) in blobs then Some(blobs[PartName(id)]) else None
  }

  function WithPart(blobs: map<string, Bytes>, id: string, part: Option<Bytes>): map<string, Bytes> {
    match part case None => blobs - {PartName(id)} case Some(bytes) => blobs[PartName(id) := bytes]
  }

  predicate HasBlob(blobs: map<string, Bytes>, f: RepoFile) {
    f.id in blobs && |blobs[f.id]| == f.size
  }

  /** The blob directory after one call of downloadOneLocked, and whether the blob was published. */
  function Fetch(h: Hashes, blobs: map<string, Bytes>, e: Expected, exchanges: seq<Exchange>, abortedAtEnd: bool): (map<string, Bytes>, bool) {
    var a := Attempt(h, e, PartOf(blobs, e.id), exchanges, abortedAtEnd);
    var kept := WithPart(blobs, e.id, a.part);
    match a.published case None => (kept, false) case Some(bytes) => (kept[e.id := bytes], true)
  }

  function FetchIfMissing(h: Hashes, blobs: map<string, Bytes>, f: RepoFile, v: Visit): (map<string, Bytes>, bool) {
    if HasBlob(blobs, f) then (blobs, true)
    else if !v.lockFree then (blobs, false)
    else Fetch(h, blobs, Expected(f.id, f.size), v.exchanges, v.abortedAtEnd)
  }

  // ---- Links ----------------------------------------------------------------------------------

  function SnapshotOf(r: Repo, commit: string): Snapshot {
    if commit in r.snapshots then r.snapshots[commit] else map[]
  }

  /** The directories a path goes through. */
  function Parents(path: Path): set<Path> {
    set k | 0 < k < |path| :: path[..k]
  }

  predicate Blocked(s: Snapshot, path: Path) {
    exists p | p in Parents(path) :: p in s && !s[p].Dir?
  }

  /** mkdir with its parents. */
  function WithParents(s: Snapshot, path: Path): Snapshot {
    s + map p | p in Parents(path) :: Dir
  }

  /** What existsSync says about an entry: a link exists if what it leads to does. If it leads to a blob
      of this repository by a detour through other directories, those have to exist too; whether they do,
      and whether what lies elsewhere exists, is `elsewhere`. */
  predicate Exists(r: Repo, commit: string, path: Path, elsewhere: bool)
    requires path != [] && path in SnapshotOf(r, commit)
  {
    match SnapshotOf(r, commit)[path]
    case Dir => true
    case File => true
    case Link(target) =>
      var b := Split(target)[|Split(target)| - 1];
      if LeadsTo(r.home, commit, path, target, b) then b in r.blobs && (Direct(target) || elsewhere) else elsewhere
  }

  /** Linking a file into the snapshot, unless an entry of that name exists. */
  function LinkUp(r: Repo, commit: string, f: RepoFile, v: Visit): (Repo, bool) {
    var path := Split(f.name);
    var s := SnapshotOf(r, commit);
    if v.disk.NoDirectory? || Blocked(s, path) then (r, false)
    else
      var s' := WithParents(s, path);
      var r' := r.(snapshots := r.snapshots[commit := s']);
      if path in s' then (r', Exists(r', commit, path, v.elsewhere))
      else if v.disk.NoLink? then (r', false)
      else (r.(snapshots := r.snapshots[commit := s'[path := Link(LinkTarget(f.name, f.id))]]), true)
  }

  // ---- The whole download ---------------------------------------------------------------------

  /** One turn of the file loop. */
  function FileStep(h: Hashes, r: Repo, commit: string, f: RepoFile, v: Visit): (Repo, bool) {
    if v.aborted then (r, false)
    else
      var (blobs, fetched) := FetchIfMissing(h, r.blobs, f, v);
      var r' := r.(blobs := blobs);
      if fetched then LinkUp(r', commit, f, v) else (r', false)
  }

  function FileLoop(h: Hashes, r: Repo, commit: string, files: seq<RepoFile>, visits: seq<Visit>): (Repo, bool)
    requires |visits| == |files|
    decreases |files|
  {
    if files == [] then (r, true)
    else
      var (r', ok) := FileStep(h, r, commit, files[0], visits[0]);
      if ok then FileLoop(h, r', commit, files[1..], visits[1..]) else (r', false)
  }

  /** One GiB. */
  const DISK_RESERVE: nat := 0x4000_0000

  /** The bytes a file still needs, after crediting its blob or a usable partial file. */
  function Left(blobs: map<string, Bytes>, f: RepoFile): nat {
    if HasBlob(blobs, f) then 0 else f.size - Length(Usable(PartOf(blobs, f.id), f.size))
  }

  function Remaining(blobs: map<string, Bytes>, files: seq<RepoFile>): nat {
    if files == [] then 0 else Left(blobs, files[0]) + Remaining(blobs, files[1..])
  }

  predicate Room(blobs: map<string, Bytes>, files: seq<RepoFile>, available: nat) {
    Remaining(blobs, files) == 0 || Remaining(blobs, files) + DISK_RESERVE <= available
  }

  /** Listings with a malformed id are refused when they are read, those with an unsafe name next. */
  predicate Acceptable(listing: Listing) {
    forall k :: 0 <= k < |listing.files| ==> IsBlobId(listing.files[k].id) && IsSafeRepoFilename(listing.files[k].name)
  }

  function Download(h: Hashes, r: Repo, listing: Listing, revision: string, available: nat,
                    visits: seq<Visit>, abortedAtEnd: bool): (Repo, bool)
    requires |visits| == |listing.files|
  {
    if !Acceptable(listing) || !Room(r.blobs, listing.files, available) then (r, false)
    else
      var (r', ok) := FileLoop(h, r, listing.sha, listing.files, visits);
      if !ok || abortedAtEnd then (r', false) else (r'.(refs := r'.refs[revision := listing.sha]), true)
  }

  // ---- What one turn of the loop changes ------------------------------------------------------

  /** Entries of snapshots are never changed or removed. */
  predicate Grows(r: Repo, r': Repo) {
    && r'.refs == r.refs && r'.home == r.home
    && forall c | c in r.snapshots ::
         c in r'.snapshots && forall p | p in r.snapshots[c] :: p in r'.snapshots[c] && r'.snapshots[c][p] == r.snapshots[c][p]
  }

  /** A directory on the way to a file, or the link to its blob, which is there. */
  predicate NewEntry(blobs: map<string, Bytes>, f: RepoFile, p: Path, node: Node) {
    || (p in Parents(Split(f.name)) && node == Dir)
    || (p == Split(f.name) && node == Link(LinkTarget(f.name, f.id)) && HasBlob(blobs, f))
  }

  predicate GrowsAt(r: Repo, r': Repo, commit: string, f: RepoFile) {
    forall c | c in r'.snapshots :: forall p | p in r'.snapshots[c] && p !in SnapshotOf(r, c) ::
      c == commit && NewEntry(r'.blobs, f, p, r'.snapshots[c][p])
  }

  predicate OnlyTouches(blobs: map<string, Bytes>, blobs': map<string, Bytes>, id: string) {
    && (forall b :: b in blobs && b != id && b != PartName(id) ==> b in blobs' && blobs'[b] == blobs[b])
    && (forall b :: b in blobs' && b != id && b != PartName(id) ==> b in blobs)
  }

  lemma PartNameIsNoId(id: string, other: string)
    requires IsBlobId(id)
    ensures id != PartName(other)
  {
    assert PartName(other)[|other|] == '.' && !IsHex(PartName(other)[|other|]);
  }

  lemma PartNamesDiffer(id: string, other: string)
    ensures PartName(id) == PartName(other) ==> id == other
  {
    if PartName(id) == PartName(other) {
      assert |id| == |other|;
      assert id == PartName(id)[..|id|] && other == PartName(other)[..|other|];
    }
  }

  /** Fetching touches the blob and its partial file only, and leaves an authentic blob of the right size
      if it leaves another blob than was there. */
  lemma FetchIsSound(h: Hashes, blobs: map<string, Bytes>, f: RepoFile, v: Visit)
    requires IsBlobId(f.id)
    ensures var (blobs', ok) := FetchIfMissing(h, blobs, f, v);
            && OnlyTouches(blobs, blobs', f.id)
            && (ok ==> HasBlob(blobs', f))
            && (f.id in blobs ==> f.id in blobs')
            && (f.id in blobs' && (f.id !in blobs || blobs[f.id] != blobs'[f.id]) ==> HasBlob(blobs', f) && Authentic(h, f.id, blobs'[f.id]))
  {
    PartNameIsNoId(f.id, f.id);
    if !HasBlob(blobs, f) {
      AttemptIsSound(h, Expected(f.id, f.size), PartOf(blobs, f.id), v.exchanges, v.abortedAtEnd);
    }
  }

  lemma LinkUpGrows(r: Repo, commit: string, f: RepoFile, v: Visit)
    ensures var (r', ok) := LinkUp(r, commit, f, v);
            Grows(r, r') && r'.blobs == r.blobs
  {
    ParentsGrow(SnapshotOf(r, commit), Split(f.name));
  }

  lemma LinkUpGrowsAt(r: Repo, commit: string, f: RepoFile, v: Visit)
    requires HasBlob(r.blobs, f)
    ensures GrowsAt(r, LinkUp(r, commit, f, v).0, commit, f)
  {
    var r' := LinkUp(r, commit, f, v).0;
    forall p | p in SnapshotOf(r', commit) && p !in SnapshotOf(r, commit)
      ensures NewEntry(r.blobs, f, p, SnapshotOf(r', commit)[p])
    {
      ParentsGrow(SnapshotOf(r, commit), Split(f.name));
    }
  }

  lemma ParentsGrow(s: Snapshot, path: Path)
    ensures forall p :: p in WithParents(s, path) <==> p in s || p in Parents(path)
    ensures forall p | p in WithParents(s, path) :: WithParents(s, path)[p] == if p in Parents(path) then Dir else s[p]
    ensures !Blocked(s, path) ==> forall p | p in s :: WithParents(s, path)[p] == s[p]
  {
  }

  lemma LinkUpLinks(r: Repo, commit: string, f: RepoFile, v: Visit)
    requires LinkUp(r, commit, f, v).1
    ensures var r' := LinkUp(r, commit, f, v).0;
            && commit in r'.snapshots && Split(f.name) in r'.snapshots[commit]
            && forall p | p in Parents(Split(f.name)) :: p in r'.snapshots[commit] && r'.snapshots[commit][p] == Dir
  {
    var s, path := SnapshotOf(r, commit), Split(f.name);
    forall p | p in Parents(path) ensures p in WithParents(s, path) && WithParents(s, path)[p] == Dir && p != path {
    }
  }

  lemma StepGrows(h: Hashes, r: Repo, commit: string, f: RepoFile, v: Visit)
    requires IsBlobId(f.id)
    ensures var (r', ok) := FileStep(h, r, commit, f, v);
            Grows(r, r') && GrowsAt(r, r', commit, f) && OnlyTouches(r.blobs, r'.blobs, f.id)
  {
    if !v.aborted {
      FetchIsSound(h, r.blobs, f, v);
      var (blobs, ok) := FetchIfMissing(h, r.blobs, f, v);
      if ok {
        LinkUpGrows(r.(blobs := blobs), commit, f, v);
        LinkUpGrowsAt(r.(blobs := blobs), commit, f, v);
      }
    }
  }
}
