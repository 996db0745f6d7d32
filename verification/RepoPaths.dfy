/** File names and link targets of the model cache: what packages/hub/src/download.ts writes into a
    snapshot and what packages/hub/src/registry.ts reads out of it again. */
module RepoPaths {
  import opened Wrappers

  /** A path below some directory, as the names on the way. */
  type Path = seq<string>

  /** JavaScript's split("/"). */
  function Split(s: string): (parts: Path)
    ensures |parts| >= 1
  {
    if s == "" then [""]
    else
      var rest := Split(s[1..]);
      if s[0] == '/' then [""] + rest else [[s[0]] + rest[0]] + rest[1..]
  }

  predicate NoSlash(s: string) {
    forall k :: 0 <= k < |s| ==> s[k] != '/'
  }

  /** A component that names an entry of a directory. */
  predicate IsName(part: string) {
    part != "" && part != "." && part != ".." && NoSlash(part)
  }

  predicate IsSafeRepoFilename(name: string) {
    && name != "" && name[0] != '/' && '\0' !in name
    && forall k :: 0 <= k < |Split(name)| ==> Split(name)[k] != "" && Split(name)[k] != "." && Split(name)[k] != ".."
  }

  predicate IsHex(c: char) { '0' <= c <= '9' || 'a' <= c <= 'f' }

  /** A blob id: a sha256 or a git sha1, in lower-case hexadecimal digits. */
  predicate IsBlobId(id: string) {
    (|id| == 40 || |id| == 64) && forall k :: 0 <= k < |id| ==> IsHex(id[k])
  }

  function Up(n: nat): string { if n == 0 then "" else "../" + Up(n - 1) }

  /** The relative target that the downloader gives the link of a file, by the depth of its name. */
  function LinkTarget(name: string, id: string): string {
    Up(|Split(name)| - 1 + 2) + "blobs/" + id
  }

  /** Following a path from a directory, given from the root of the file system down: ".." goes up, and
      stays at the root there. */
  function Follow(dir: Path, parts: Path): Path
    decreases |parts|
  {
    if parts == [] then dir
    else if parts[0] == "" || parts[0] == "." then Follow(dir, parts[1..])
    else if parts[0] == ".." then Follow(if dir == [] then [] else dir[..|dir| - 1], parts[1..])
    else Follow(dir + [parts[0]], parts[1..])
  }

  /** The directory that the target of a link is followed from. */
  function Base(home: Path, commit: string, path: Path, target: string): Path
    requires path != []
  {
    if target != "" && target[0] == '/' then [] else home + ["snapshots", commit] + path[..|path| - 1]
  }

  /** Does this link of a snapshot lead to blob b of its own repository, whose directory is `home`? What is
      not a directory is reached only through its name. */
  predicate LeadsTo(home: Path, commit: string, path: Path, target: string, b: string)
    requires path != []
  {
    && target != "" && IsName(Split(target)[|Split(target)| - 1])
    && Follow(Base(home, commit, path, target), Split(target)) == home + ["blobs", b]
  }

  /** A target that does not enter directories only to leave them again; if it leads to a blob, all the
      directories on its way exist. */
  predicate Direct(target: string) {
    forall i, j :: 0 <= i < j < |Split(target)| && Split(target)[j] == ".." ==> !IsName(Split(target)[i])
  }

  predicate OccursAt(s: string, t: string, i: nat) {
    i + |t| <= |s| && s[i..i + |t|] == t
  }

  /** JavaScript's includes. */
  predicate Includes(s: string, t: string) {
    exists i :: 0 <= i <= |s| && OccursAt(s, t, i)
  }

  /** What garbage collection takes to be the blob a link refers to. */
  function ReadLink(target: string): Option<string> {
    var base := Split(target)[|Split(target)| - 1];
    if base != "" && Includes(target, "blobs") then Some(base) else None
  }

  // ---- Splitting ------------------------------------------------------------------------------

  lemma {:induction false} SplitHasNoSlash(s: string)
    ensures forall k :: 0 <= k < |Split(s)| ==> NoSlash(Split(s)[k])
  {
    if s != "" {
      SplitHasNoSlash(s[1..]);
    }
  }

  lemma {:induction false} SplitWord(s: string)
    requires NoSlash(s)
    ensures Split(s) == [s]
  {
    if s != "" {
      SplitWord(s[1..]);
      assert [s[0]] + s[1..] == s;
    }
  }

  /** A word before a slash is a component of its own. */
  lemma {:induction false} SplitAtSlash(word: string, rest: string)
    requires NoSlash(word)
    ensures Split(word + "/" + rest) == [word] + Split(rest)
  {
    var s := word + "/" + rest;
    if word == "" {
      assert s[0] == '/' && s[1..] == rest;
    } else {
      assert s[1..] == word[1..] + "/" + rest && s[0] == word[0];
      SplitAtSlash(word[1..], rest);
      assert [word[0]] + word[1..] == word;
    }
  }

  /** The first component of a path is a prefix of it. */
  lemma {:induction false} FirstPartIsPrefix(s: string)
    ensures |Split(s)[0]| <= |s| && OccursAt(s, Split(s)[0], 0)
  {
    if s != "" && s[0] != '/' {
      FirstPartIsPrefix(s[1..]);
      var first := Split(s[1..])[0];
      assert s[0..1 + |first|] == [s[0]] + s[1..][0..|first|];
    }
  }

  lemma IncludedFurther(s: string, t: string)
    requires s != "" && Includes(s[1..], t)
    ensures Includes(s, t)
  {
    var i :| 0 <= i <= |s[1..]| && OccursAt(s[1..], t, i);
    assert s[i + 1..i + 1 + |t|] == s[1..][i..i + |t|];
    assert OccursAt(s, t, i + 1);
  }

  /** Every component of a path occurs in it. */
  lemma {:induction false} PartIsIncluded(s: string, k: nat)
    requires k < |Split(s)|
    ensures Includes(s, Split(s)[k])
  {
    if k == 0 {
      FirstPartIsPrefix(s);
    } else {
      var part, k' := Split(s)[k], if s[0] == '/' then k - 1 else k;
      assert Split(s[1..])[k'] == part;
      PartIsIncluded(s[1..], k');
      IncludedFurther(s, part);
    }
  }

  /** JavaScript's join("/"). */
  function Join(parts: Path): string
    requires parts != []
  {
    if |parts| == 1 then parts[0] else parts[0] + "/" + Join(parts[1..])
  }

  lemma {:induction false} SplitJoin(parts: Path)
    requires parts != [] && forall k :: 0 <= k < |parts| ==> NoSlash(parts[k])
    ensures Split(Join(parts)) == parts
    decreases |parts|
  {
    if |parts| == 1 {
      SplitWord(parts[0]);
    } else {
      SplitAtSlash(parts[0], Join(parts[1..]));
      SplitJoin(parts[1..]);
    }
  }

  lemma {:induction false} JoinSplit(s: string)
    ensures Join(Split(s)) == s
  {
    if s != "" {
      JoinSplit(s[1..]);
      var rest := Split(s[1..]);
      if s[0] == '/' {
        assert Split(s)[1..] == rest;
        assert s == "" + "/" + s[1..];
      } else {
        assert Split(s)[1..] == rest[1..];
        assert s == [s[0]] + s[1..];
      }
    }
  }

  /** The accepted file names are exactly those made of names of directory entries, joined by slashes, that
      hold no zero character: they lead down, and never out. */
  lemma SafeNamesExactly(name: string)
    ensures IsSafeRepoFilename(name) <==>
            '\0' !in name && exists parts: Path :: parts != [] && (forall k :: 0 <= k < |parts| ==> IsName(parts[k])) && name == Join(parts)
  {
    if IsSafeRepoFilename(name) {
      SplitHasNoSlash(name);
      JoinSplit(name);
      assert forall k :: 0 <= k < |Split(name)| ==> IsName(Split(name)[k]);
    }
    if parts: Path :| parts != [] && (forall k :: 0 <= k < |parts| ==> IsName(parts[k])) && name == Join(parts) {
      SplitJoin(parts);
      assert IsName(parts[0]);
    }
  }

  // ---- Links written by the downloader --------------------------------------------------------

  lemma {:induction false} SplitUp(n: nat, rest: string)
    ensures Split(Up(n) + rest) == seq(n, _ => "..") + Split(rest)
  {
    if n == 0 {
      assert Up(0) + rest == rest;
      assert seq(0, _ => "..") == [];
    } else {
      assert Up(n) + rest == ".." + "/" + (Up(n - 1) + rest);
      SplitAtSlash("..", Up(n - 1) + rest);
      SplitUp(n - 1, rest);
      assert seq(n, _ => "..") == [".."] + seq(n - 1, _ => "..");
    }
  }

  lemma IdIsName(id: string)
    requires IsBlobId(id)
    ensures IsName(id) && Split(id) == [id]
  {
    forall k | 0 <= k < |id| ensures id[k] != '/' {
      assert IsHex(id[k]);
    }
    SplitWord(id);
    assert IsHex(id[0]);
  }

  /** Going up n times, and no further than the root. */
  lemma {:induction false} FollowUp(dir: Path, n: nat, rest: Path)
    ensures Follow(dir, seq(n, _ => "..") + rest) == Follow(dir[..if n <= |dir| then |dir| - n else 0], rest)
    decreases n
  {
    var ups := seq(n, _ => "..");
    if n == 0 {
      assert ups + rest == rest && dir[..|dir|] == dir;
    } else {
      var up := if dir == [] then [] else dir[..|dir| - 1];
      assert (ups + rest)[1..] == seq(n - 1, _ => "..") + rest;
      FollowUp(up, n - 1, rest);
      assert up[..if n - 1 <= |up| then |up| - (n - 1) else 0] == dir[..if n <= |dir| then |dir| - n else 0];
    }
  }

  lemma FollowBlob(dir: Path, id: string)
    requires IsName(id)
    ensures Follow(dir, ["blobs", id]) == dir + ["blobs", id]
  {
    assert ["blobs", id][1..] == [id];
    assert Follow(dir + ["blobs"], [id]) == Follow(dir + ["blobs"] + [id], [id][1..]);
    assert dir + ["blobs"] + [id] == dir + ["blobs", id];
  }

  /** A link target that goes up n directories and down to a blob. */
  function Climb(n: nat, id: string): string {
    Up(n) + "blobs/" + id
  }

  lemma SplitClimb(n: nat, id: string)
    requires IsBlobId(id)
    ensures Split(Climb(n, id)) == seq(n, _ => "..") + ["blobs", id]
    ensures Climb(n, id) != "" && Climb(n, id)[0] != '/'
  {
    IdIsName(id);
    assert "blobs/" + id == "blobs" + "/" + id;
    SplitAtSlash("blobs", id);
    SplitUp(n, "blobs/" + id);
    assert Climb(n, id) == Up(n) + ("blobs/" + id);
    assert Climb(n, id)[0] == if n == 0 then 'b' else '.';
  }

  /** Exactly one depth is right: for a file name with k components, only the target that goes up k + 1
      directories leads to the blob in the repository's own blob directory; one "../" less stays inside
      the snapshots, one more leaves the repository. */
  lemma OneDepthLeadsToTheBlob(home: Path, commit: string, path: Path, id: string, n: nat)
    requires home != [] && path != [] && IsBlobId(id)
    ensures LeadsTo(home, commit, path, Climb(n, id), id) <==> n == |path| + 1
  {
    SplitClimb(n, id);
    IdIsName(id);
    var dir := home + ["snapshots", commit] + path[..|path| - 1];
    var up := dir[..if n <= |dir| then |dir| - n else 0];
    FollowUp(dir, n, ["blobs", id]);
    FollowBlob(up, id);
    if n == |path| + 1 {
      assert up == home;
    } else {
      assert |up| != |home|;
      assert |up + ["blobs", id]| != |home + ["blobs", id]|;
    }
  }

  /** For every accepted file name, however deep, the link that the downloader writes leads to the blob
      in the repository's own blob directory, wherever the repository lies, and garbage collection reads
      exactly that blob id from it. */
  lemma WrittenLinkLeadsToItsBlob(home: Path, commit: string, name: string, id: string)
    requires IsSafeRepoFilename(name) && IsBlobId(id)
    ensures LeadsTo(home, commit, Split(name), LinkTarget(name, id), id) && Direct(LinkTarget(name, id))
    ensures ReadLink(LinkTarget(name, id)) == Some(id)
    ensures forall k :: 0 <= k < |Split(name)| ==> IsName(Split(name)[k])
  {
    SplitHasNoSlash(name);
    var n := |Split(name)| + 1;
    SplitClimb(n, id);
    IdIsName(id);
    var parts := Split(LinkTarget(name, id));
    var dir := home + ["snapshots", commit] + Split(name)[..|Split(name)| - 1];
    FollowUp(dir, n, ["blobs", id]);
    assert dir[..|dir| - n] == home;
    FollowBlob(home, id);
    PartIsIncluded(LinkTarget(name, id), |parts| - 2);
  }

  lemma {:induction false} FollowNames(dir: Path, names: Path)
    requires forall k :: 0 <= k < |names| ==> IsName(names[k])
    ensures Follow(dir, names) == dir + names
    decreases |names|
  {
    if names == [] {
      assert dir + names == dir;
    } else {
      FollowNames(dir + [names[0]], names[1..]);
      assert dir + [names[0]] + names[1..] == dir + names;
    }
  }

  /** A target with a slash in front is followed from the root. */
  lemma FollowAbsolute(rest: string, names: Path)
    requires Split(rest) == names && forall k :: 0 <= k < |names| ==> IsName(names[k])
    ensures Split("/" + rest) == [""] + names && Follow([], Split("/" + rest)) == names
  {
    SplitAtSlash("", rest);
    assert "/" + rest == "" + "/" + rest;
    assert ([""] + names)[1..] == names;
    FollowNames([], names);
    assert [] + names == names;
  }

  lemma BlobPathSplits(home: Path, id: string)
    requires IsBlobId(id) && forall k :: 0 <= k < |home| ==> IsName(home[k])
    ensures var names := home + ["blobs", id]; Split(Join(names)) == names && forall k :: 0 <= k < |names| ==> IsName(names[k])
  {
    IdIsName(id);
    SplitJoin(home + ["blobs", id]);
  }

  /** An absolute link to the blob leads to it too, from anywhere in a snapshot. */
  lemma AbsoluteLinkLeadsToTheBlob(home: Path, commit: string, path: Path, id: string)
    requires path != [] && IsBlobId(id) && forall k :: 0 <= k < |home| ==> IsName(home[k])
    ensures LeadsTo(home, commit, path, "/" + Join(home + ["blobs", id]), id)
  {
    BlobPathSplits(home, id);
    FollowAbsolute(Join(home + ["blobs", id]), home + ["blobs", id]);
  }

  // ---- Any link -------------------------------------------------------------------------------

  /** A path that is followed ends with its last name, and consists of names that were there or are its own. */
  lemma {:induction false} FollowEnds(dir: Path, parts: Path)
    ensures parts != [] && IsName(parts[|parts| - 1]) ==>
              Follow(dir, parts) != [] && Follow(dir, parts)[|Follow(dir, parts)| - 1] == parts[|parts| - 1]
    ensures forall k :: 0 <= k < |Follow(dir, parts)| ==>
              (k < |dir| && Follow(dir, parts)[k] == dir[k]) || Follow(dir, parts)[k] in parts
    decreases |parts|
  {
    if parts != [] {
      var next := if parts[0] == "" || parts[0] == "." then dir
                  else if parts[0] == ".." then (if dir == [] then [] else dir[..|dir| - 1])
                  else dir + [parts[0]];
      FollowEnds(next, parts[1..]);
      if |parts| == 1 {
        assert Follow(next, parts[1..]) == next;
      }
    }
  }

  /** A link leads to the blob that its target ends with. */
  lemma LinkEnds(home: Path, commit: string, path: Path, target: string, b: string)
    requires path != [] && LeadsTo(home, commit, path, target, b)
    ensures b == Split(target)[|Split(target)| - 1]
  {
    FollowEnds(Base(home, commit, path, target), Split(target));
    assert (home + ["blobs", b])[|home| + 1] == b;
  }

  /** Whoever wrote it, a link in a snapshot that leads to blob b is read as b by garbage collection. */
  lemma LinkToBlobIsRead(home: Path, commit: string, path: Path, target: string, b: string)
    requires path != [] && LeadsTo(home, commit, path, target, b)
    ensures ReadLink(target) == Some(b)
  {
    var parts := Split(target);
    var dir := Base(home, commit, path, target);
    FollowEnds(dir, parts);
    LinkEnds(home, commit, path, target, b);
    assert (home + ["blobs", b])[|home|] == "blobs";
    assert |dir| > |home| ==> dir[|home|] == "snapshots";
    var k :| 0 <= k < |parts| && parts[k] == "blobs";
    PartIsIncluded(target, k);
  }
}
