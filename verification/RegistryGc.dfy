/** The state of one repository in the model cache, and its garbage collection
    (packages/hub/src/registry.ts:420-570): keep what the refs name, drop other snapshots unless that
    would lose a file name, then drop blobs that no surviving link names. */
module RegistryGc {
  import opened Wrappers
  import opened RepoPaths
  import opened Words

  type Bytes = seq<byte>

  /** An entry of a snapshot directory: a subdirectory, a regular file, or a symbolic link. */
  datatype Node = Dir | File | Link(target: string)

  /** Everything below one snapshot directory, by relative path. */
  type Snapshot = map<Path, Node>

  /** A repository: its directory, the entries of `blobs`, those of `snapshots`, and the trimmed contents
      of the files below `refs`, each by its name. */
  datatype Repo = Repo(home: Path, blobs: map<string, Bytes>, snapshots: map<string, Snapshot>, refs: map<string, string>)

  function Empty(home: Path): Repo { Repo(home, map[], map[], map[]) }

  // ---- What a snapshot holds ------------------------------------------------------------------

  /** The files and links of a snapshot. */
  function Files(s: Snapshot): set<Path> {
    set path | path in s && !s[path].Dir?
  }

  predicate Names(s: Snapshot, path: Path, b: string) {
    path in s && s[path].Link? && ReadLink(s[path].target) == Some(b)
  }

  /** The blobs that the links of a snapshot name. */
  function BlobTargets(s: Snapshot): (targets: set<string>)
    ensures forall b :: b in targets <==> exists path :: path in s && Names(s, path, b)
  {
    set path | path in s && s[path].Link? && ReadLink(s[path].target).Some? :: ReadLink(s[path].target).value
  }

  // ---- The plan -------------------------------------------------------------------------------

  /** Garbage collection reads the entries of `refs` itself; a revision whose name has a slash is kept
      in a subdirectory, which it cannot read as a file and skips. */
  function VisibleCommits(r: Repo): set<string> {
    set name | name in r.refs && NoSlash(name) :: r.refs[name]
  }

  function Kept(r: Repo): set<string> {
    set c | c in r.snapshots && c in VisibleCommits(r)
  }

  function KeptFiles(r: Repo): set<Path> {
    set c, path | c in Kept(r) && path in Files(r.snapshots[c]) :: path
  }

  function Pruned(r: Repo, force: bool): set<string> {
    if Kept(r) == {} then {}
    else set c | c in r.snapshots && c !in Kept(r) && (force || Files(r.snapshots[c]) <= KeptFiles(r))
  }

  /** Unreferenced snapshots left alone because they hold a file name that no kept snapshot has. */
  function Skipped(r: Repo, force: bool): set<string> {
    r.snapshots.Keys - Kept(r) - Pruned(r, force)
  }

  /** The blobs that some surviving snapshot names. */
  function Live(r: Repo, force: bool): set<string> {
    set c, b | c in Kept(r) + Skipped(r, force) && b in BlobTargets(r.snapshots[c]) :: b
  }

  predicate EndsWith(s: string, suffix: string) {
    |suffix| <= |s| && s[|s| - |suffix|..] == suffix
  }

  /** Partial downloads and their locks are never touched. */
  predicate IsResumeArtifact(b: string) {
    EndsWith(b, ".incomplete") || EndsWith(b, ".lock")
  }

  function Dead(r: Repo, force: bool): set<string> {
    if Kept(r) == {} then {}
    else set b | b in r.blobs && !IsResumeArtifact(b) && b !in Live(r, force)
  }

  /** The repository after the plan was executed. */
  function Collected(r: Repo, force: bool): Repo {
    r.(snapshots := r.snapshots - Pruned(r, force), blobs := r.blobs - Dead(r, force))
  }

  // ---- Safety ---------------------------------------------------------------------------------

  /** Every snapshot that was kept or skipped is still there, unchanged, and each of its links that led
      to a blob still leads to the same bytes. */
  lemma SurvivingLinksResolve(r: Repo, force: bool, c: string, path: Path, b: string)
    requires c in Kept(r) + Skipped(r, force)
    requires path != [] && path in r.snapshots[c] && r.snapshots[c][path].Link?
    requires LeadsTo(r.home, c, path, r.snapshots[c][path].target, b) && b in r.blobs
    ensures var r' := Collected(r, force);
            && c in r'.snapshots && r'.snapshots[c] == r.snapshots[c]
            && b in r'.blobs && r'.blobs[b] == r.blobs[b]
  {
    LinkToBlobIsRead(r.home, c, path, r.snapshots[c][path].target, b);
    assert Names(r.snapshots[c], path, b);
    assert b in BlobTargets(r.snapshots[c]);
    assert b in Live(r, force);
  }

  /** Exactly which blobs survive: partial downloads and locks, whatever is the last component of a link
      with "blobs" in it in a surviving snapshot, and everything when no ref names a snapshot. */
  lemma BlobsThatSurvive(r: Repo, force: bool, b: string)
    requires b in r.blobs
    ensures b in Collected(r, force).blobs <==>
            || Kept(r) == {}
            || (exists stem :: b == stem + ".incomplete" || b == stem + ".lock")
            || exists c, path :: c in Collected(r, force).snapshots && path in Collected(r, force).snapshots[c]
                 && RefersTo(Collected(r, force).snapshots[c][path], b)
  {
    HasSuffix(b, ".incomplete");
    HasSuffix(b, ".lock");
    var r' := Collected(r, force);
    if c :| c in Kept(r) + Skipped(r, force) && b in BlobTargets(r.snapshots[c]) {
      var path :| path in r.snapshots[c] && Names(r.snapshots[c], path, b);
      assert c in r'.snapshots && RefersTo(r'.snapshots[c][path], b);
    }
    if c, path :| c in r'.snapshots && path in r'.snapshots[c] && RefersTo(r'.snapshots[c][path], b) {
      assert c in Kept(r) + Skipped(r, force) && Names(r.snapshots[c], path, b);
    }
  }

  /** A link with "blobs" in its target that ends with this name. */
  predicate RefersTo(node: Node, b: string) {
    node.Link? && b != "" && Split(node.target)[|Split(node.target)| - 1] == b && Includes(node.target, "blobs")
  }

  lemma HasSuffix(s: string, suffix: string)
    ensures EndsWith(s, suffix) <==> exists stem :: s == stem + suffix
  {
    if EndsWith(s, suffix) {
      assert s == s[..|s| - |suffix|] + suffix;
    }
    if stem :| s == stem + suffix {
      assert s[|stem|..] == suffix;
    }
  }

  /** No ref is touched, and one that named a snapshot that garbage collection can see still does. */
  lemma RefsStayValid(r: Repo, force: bool, name: string)
    requires name in r.refs && NoSlash(name) && r.refs[name] in r.snapshots
    ensures var r' := Collected(r, force);
            r'.refs == r.refs && r.refs[name] in r'.snapshots && r'.snapshots[r.refs[name]] == r.snapshots[r.refs[name]]
  {
    assert r.refs[name] in VisibleCommits(r);
  }

  /** Is this the name of a file or a link in some of these snapshots? */
  predicate HasName(snapshots: map<string, Snapshot>, commits: set<string>, path: Path) {
    exists c :: c in commits && c in snapshots && path in snapshots[c] && snapshots[c][path] != Dir
  }

  lemma KeptFilesAreNames(r: Repo, path: Path)
    ensures path in KeptFiles(r) <==> HasName(r.snapshots, Kept(r), path)
  {
    if path in KeptFiles(r) {
      var c :| c in Kept(r) && path in Files(r.snapshots[c]);
      assert r.snapshots[c][path] != Dir;
    }
    if c :| c in Kept(r) && c in r.snapshots && path in r.snapshots[c] && r.snapshots[c][path] != Dir {
      assert path in Files(r.snapshots[c]);
    }
  }

  /** Without force no file name disappears from the repository; with force, and a ref that names a
      snapshot, exactly the names of the kept snapshots remain. */
  lemma NamesRemain(r: Repo, force: bool, path: Path)
    ensures HasName(Collected(r, force).snapshots, Collected(r, force).snapshots.Keys, path) <==>
            HasName(r.snapshots, if force && Kept(r) != {} then Kept(r) else r.snapshots.Keys, path)
  {
    var r' := Collected(r, force);
    KeptFilesAreNames(r, path);
    var commits := if force && Kept(r) != {} then Kept(r) else r.snapshots.Keys;
    if c :| c in commits && c in r.snapshots && path in r.snapshots[c] && r.snapshots[c][path] != Dir {
      if c in Pruned(r, force) {
        assert path in Files(r.snapshots[c]);
        var k :| k in Kept(r) && k in r.snapshots && path in r.snapshots[k] && r.snapshots[k][path] != Dir;
        assert k in r'.snapshots.Keys;
      } else {
        assert c in r'.snapshots.Keys;
      }
    }
    if c :| c in r'.snapshots && path in r'.snapshots[c] && r'.snapshots[c][path] != Dir {
      assert c in commits;
    }
  }

  lemma KeptAgain(r: Repo, force: bool)
    ensures Kept(Collected(r, force)) == Kept(r)
    ensures KeptFiles(Collected(r, force)) == KeptFiles(r)
  {
    var r' := Collected(r, force);
    assert Kept(r') == Kept(r);
    assert forall c :: c in Kept(r) ==> r'.snapshots[c] == r.snapshots[c];
  }

  /** Planning again finds nothing to delete. */
  lemma SecondPlanIsEmpty(r: Repo, force: bool)
    ensures Pruned(Collected(r, force), force) == {}
    ensures Dead(Collected(r, force), force) == {}
  {
    var r' := Collected(r, force);
    KeptAgain(r, force);
    forall c | c in r'.snapshots && c !in Kept(r') ensures !(force || Files(r'.snapshots[c]) <= KeptFiles(r')) || Kept(r) == {} {
      assert c in r.snapshots && c !in Pruned(r, force);
    }
    assert Pruned(r', force) == {};
    assert Skipped(r', force) == Skipped(r, force);
    forall b | b in Live(r, force) ensures b in Live(r', force) {
      var c :| c in Kept(r) + Skipped(r, force) && b in BlobTargets(r.snapshots[c]);
      assert c in Kept(r') + Skipped(r', force) && r'.snapshots[c] == r.snapshots[c];
    }
  }

  // ---- Planning by reading directories --------------------------------------------------------

  /** `seq` lists each element of a set once, in any order: what reading a directory returns. */
  predicate Lists<T>(names: seq<T>, s: set<T>) {
    && (forall k :: 0 <= k < |names| ==> names[k] in s)
    && (forall x :: x in s ==> x in names)
    && (forall j, k :: 0 <= j < k < |names| ==> names[j] != names[k])
  }

  /** A snapshot that is left alone, and the file names that no kept snapshot has. */
  datatype SkippedSnapshot = SkippedSnapshot(commit: string, extraFiles: set<Path>)

  function Commits(skipped: seq<SkippedSnapshot>): seq<string> {
    seq(|skipped|, k requires 0 <= k < |skipped| => skipped[k].commit)
  }

  /** Does the report on a skipped snapshot name exactly the files and links that no kept snapshot has? */
  ghost predicate ReportsLoss(r: Repo, s: SkippedSnapshot) {
    && s.commit in r.snapshots && s.extraFiles != {}
    && forall path :: path in s.extraFiles <==>
         path in r.snapshots[s.commit] && r.snapshots[s.commit][path] != Dir && !HasName(r.snapshots, Kept(r), path)
  }

  lemma LossIsReported(r: Repo, c: string)
    requires c in r.snapshots && Files(r.snapshots[c]) - KeptFiles(r) != {}
    ensures ReportsLoss(r, SkippedSnapshot(c, Files(r.snapshots[c]) - KeptFiles(r)))
  {
    forall path ensures path in KeptFiles(r) <==> HasName(r.snapshots, Kept(r), path) {
      KeptFilesAreNames(r, path);
    }
  }

  datatype GcPlan = GcPlan(keep: seq<string>, prune: seq<string>, skipped: seq<SkippedSnapshot>,
                           dead: seq<string>, reclaimBytes: nat)

  function Sizes(blobs: map<string, Bytes>, names: seq<string>): nat {
    if names == [] then 0
    else
      var n := |names| - 1;
      Sizes(blobs, names[..n]) + if names[n] in blobs then |blobs[names[n]]| else 0
  }

  lemma ListGrows(names: seq<string>, s: set<string>, x: string)
    requires Lists(names, s) && x !in s
    ensures Lists(names + [x], s + {x})
  {
    var more := names + [x];
    assert more[|names|] == x;
    forall y | y in s + {x} ensures y in more {
      if y != x {
        var k :| 0 <= k < |names| && names[k] == y;
        assert more[k] == y;
      }
    }
  }

  /** One more name seen goes to one side or the other. */
  lemma SeeOne(seen: set<string>, x: string, chosen: set<string>)
    requires x !in seen
    ensures (seen + {x}) * chosen == if x in chosen then seen * chosen + {x} else seen * chosen
    ensures (seen + {x}) - chosen == if x in chosen then seen - chosen else seen - chosen + {x}
  {
  }

  /** The first i names. */
  function FirstOf(names: seq<string>, i: nat): set<string>
    requires i <= |names|
  {
    set k | 0 <= k < i :: names[k]
  }

  lemma OneMore(names: seq<string>, s: set<string>, i: nat)
    requires Lists(names, s) && i < |names|
    ensures FirstOf(names, i + 1) == FirstOf(names, i) + {names[i]} && names[i] in s && names[i] !in FirstOf(names, i)
  {
  }

  lemma AllOfThem(names: seq<string>, s: set<string>)
    requires Lists(names, s)
    ensures FirstOf(names, |names|) == s && FirstOf(names, 0) == {}
  {
  }

  /** Sorts the snapshots into those a ref names and candidates, in directory order. */
  method SortSnapshots(r: Repo, snapNames: seq<string>, commits: set<string>) returns (keep: seq<string>, candidates: seq<string>)
    requires Lists(snapNames, r.snapshots.Keys) && commits == VisibleCommits(r)
    ensures Lists(keep, Kept(r)) && Lists(candidates, r.snapshots.Keys - Kept(r))
  {
    keep, candidates := [], [];
    ghost var seen: set<string> := {};
    AllOfThem(snapNames, r.snapshots.Keys);
    for i := 0 to |snapNames|
      invariant seen == FirstOf(snapNames, i)
      invariant Lists(keep, seen * Kept(r)) && Lists(candidates, seen - Kept(r))
    {
      var snap := snapNames[i];
      OneMore(snapNames, r.snapshots.Keys, i);
      SeeOne(seen, snap, Kept(r));
      if snap in commits {
        ListGrows(keep, seen * Kept(r), snap);
        keep := keep + [snap];
      } else {
        ListGrows(candidates, seen - Kept(r), snap);
        candidates := candidates + [snap];
      }
      seen := seen + {snap};
    }
    assert seen == r.snapshots.Keys;
    assert seen * Kept(r) == Kept(r);
  }

  /** The file names of some snapshots together. */
  method UnionOfFiles(r: Repo, names: seq<string>, ghost commits: set<string>) returns (files: set<Path>)
    requires Lists(names, commits) && commits <= r.snapshots.Keys
    ensures files == set c, path | c in commits && path in Files(r.snapshots[c]) :: path
  {
    files := {};
    for i := 0 to |names|
      invariant forall path :: path in files <==> exists k :: 0 <= k < i && path in Files(r.snapshots[names[k]])
    {
      files := files + Files(r.snapshots[names[i]]);
    }
    forall path | path in files ensures exists c :: c in commits && path in Files(r.snapshots[c]) {
      var k :| 0 <= k < |names| && path in Files(r.snapshots[names[k]]);
      assert names[k] in commits;
    }
    forall c, path | c in commits && path in Files(r.snapshots[c]) ensures path in files {
      var k :| 0 <= k < |names| && names[k] == c;
    }
  }

  /** The blobs named by some snapshots together. */
  method UnionOfTargets(r: Repo, names: seq<string>, ghost commits: set<string>) returns (live: set<string>)
    requires Lists(names, commits) && commits <= r.snapshots.Keys
    ensures live == set c, b | c in commits && b in BlobTargets(r.snapshots[c]) :: b
  {
    live := {};
    for i := 0 to |names|
      invariant forall b :: b in live <==> exists k :: 0 <= k < i && b in BlobTargets(r.snapshots[names[k]])
    {
      live := live + BlobTargets(r.snapshots[names[i]]);
    }
    forall b | b in live ensures exists c :: c in commits && b in BlobTargets(r.snapshots[c]) {
      var k :| 0 <= k < |names| && b in BlobTargets(r.snapshots[names[k]]);
      assert names[k] in commits;
    }
    forall c, b | c in commits && b in BlobTargets(r.snapshots[c]) ensures b in live {
      var k :| 0 <= k < |names| && names[k] == c;
    }
  }

  lemma NothingExtra<T>(a: set<T>, b: set<T>)
    ensures a - b == {} <==> a <= b
  {
    if a - b == {} {
      forall x | x in a ensures x in b {
        assert x !in a - b;
      }
    }
  }

  lemma SkipGrows(skipped: seq<SkippedSnapshot>, s: set<string>, x: SkippedSnapshot)
    requires Lists(Commits(skipped), s) && x.commit !in s
    ensures Lists(Commits(skipped + [x]), s + {x.commit})
  {
    ListGrows(Commits(skipped), s, x.commit);
    assert Commits(skipped + [x]) == Commits(skipped) + [x.commit];
  }

  /** Sorts the candidates into those to delete and those to leave alone. */
  method SortCandidates(r: Repo, candidates: seq<string>, keptFiles: set<Path>, force: bool)
    returns (prune: seq<string>, skipped: seq<SkippedSnapshot>)
    requires Kept(r) != {} && keptFiles == KeptFiles(r) && Lists(candidates, r.snapshots.Keys - Kept(r))
    ensures Lists(prune, Pruned(r, force)) && Lists(Commits(skipped), Skipped(r, force))
    ensures forall k :: 0 <= k < |skipped| ==> ReportsLoss(r, skipped[k])
  {
    prune, skipped := [], [];
    ghost var seen: set<string> := {};
    AllOfThem(candidates, r.snapshots.Keys - Kept(r));
    for i := 0 to |candidates|
      invariant seen == FirstOf(candidates, i)
      invariant Lists(prune, seen * Pruned(r, force)) && Lists(Commits(skipped), seen - Pruned(r, force))
      invariant forall k :: 0 <= k < |skipped| ==> ReportsLoss(r, skipped[k])
    {
      var c := candidates[i];
      OneMore(candidates, r.snapshots.Keys - Kept(r), i);
      SeeOne(seen, c, Pruned(r, force));
      var extra := Files(r.snapshots[c]) - keptFiles;
      NothingExtra(Files(r.snapshots[c]), keptFiles);
      if extra != {} && !force {
        LossIsReported(r, c);
        SkipGrows(skipped, seen - Pruned(r, force), SkippedSnapshot(c, extra));
        skipped := skipped + [SkippedSnapshot(c, extra)];
      } else {
        ListGrows(prune, seen * Pruned(r, force), c);
        prune := prune + [c];
      }
      seen := seen + {c};
    }
    assert seen == r.snapshots.Keys - Kept(r);
    assert seen * Pruned(r, force) == Pruned(r, force);
    assert seen - Pruned(r, force) == Skipped(r, force);
  }

  lemma SizesGrow(blobs: map<string, Bytes>, names: seq<string>, b: string)
    requires b in blobs
    ensures Sizes(blobs, names + [b]) == Sizes(blobs, names) + |blobs[b]|
  {
    assert (names + [b])[..|names|] == names;
  }

  /** Lists the blobs that nobody needs and adds up their sizes. */
  method ListDead(r: Repo, blobNames: seq<string>, live: set<string>, force: bool) returns (dead: seq<string>, bytes: nat)
    requires Kept(r) != {} && live == Live(r, force) && Lists(blobNames, r.blobs.Keys)
    ensures Lists(dead, Dead(r, force)) && bytes == Sizes(r.blobs, dead)
  {
    dead, bytes := [], 0;
    ghost var seen: set<string> := {};
    AllOfThem(blobNames, r.blobs.Keys);
    for i := 0 to |blobNames|
      invariant seen == FirstOf(blobNames, i)
      invariant Lists(dead, seen * Dead(r, force)) && bytes == Sizes(r.blobs, dead)
    {
      var b := blobNames[i];
      OneMore(blobNames, r.blobs.Keys, i);
      SeeOne(seen, b, Dead(r, force));
      if !IsResumeArtifact(b) && b !in live {
        ListGrows(dead, seen * Dead(r, force), b);
        SizesGrow(r.blobs, dead, b);
        dead, bytes := dead + [b], bytes + |r.blobs[b]|;
      }
      seen := seen + {b};
    }
    assert seen == r.blobs.Keys;
    assert seen * Dead(r, force) == Dead(r, force);
  }

  /** Whatever order the directories are read in, the plan holds exactly the snapshots and blobs above. */
  method PlanRepoGc(r: Repo, snapNames: seq<string>, blobNames: seq<string>, force: bool) returns (plan: GcPlan)
    requires Lists(snapNames, r.snapshots.Keys) && Lists(blobNames, r.blobs.Keys)
    ensures Lists(plan.keep, Kept(r)) && Lists(plan.prune, Pruned(r, force))
    ensures Kept(r) != {} ==> Lists(Commits(plan.skipped), Skipped(r, force))
    ensures forall k :: 0 <= k < |plan.skipped| ==> ReportsLoss(r, plan.skipped[k])
    ensures Lists(plan.dead, Dead(r, force)) && plan.reclaimBytes == Sizes(r.blobs, plan.dead)
  {
    var keep, candidates := SortSnapshots(r, snapNames, VisibleCommits(r));
    if keep == [] {
      assert Kept(r) == {};
      return GcPlan([], [], [], [], 0);
    }
    assert keep[0] in Kept(r);
    var keptFiles := UnionOfFiles(r, keep, Kept(r));
    var prune, skipped := SortCandidates(r, candidates, keptFiles, force);
    var live := UnionOfTargets(r, keep + Commits(skipped), Kept(r) + Skipped(r, force));
    var dead, bytes := ListDead(r, blobNames, live, force);
    plan := GcPlan(keep, prune, skipped, dead, bytes);
  }
}
