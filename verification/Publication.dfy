/** The order in which the workspace's packages are published (scripts/prepare-release.ts:24-48):
    a depth-first topological sort whose assertions refuse cycles and dependencies that cannot be
    resolved from a registry. */
module Publication {

  /** `dependencies` lists the entries of the manifest's dependency record: names with version ranges. */
  datatype Manifest = Manifest(name: string, version: string, isPrivate: bool, dependencies: seq<(string, string)>)

  datatype Failure =
    | DuplicateNames
    | Cycle(name: string)
    | Unpackaged(name: string, dependency: string)
    | Excluded(name: string, dependency: string)
    | MissingArchive(dependency: string)

  datatype Verdict = Passed | Failed(failure: Failure)

  /** What still has to be decided before a package can be published. */
  datatype Remark = IsPrivate(name: string) | IsProvisional(name: string)

  datatype Plan = Order(names: seq<string>, pending: seq<Remark>) | Refused(failure: Failure)

  const PROVISIONAL_VERSION := "0.0.0"

  const LOCAL_SCOPE := "@mlx-bun/"

  /** A range that names a path of the workspace instead of a published version. */
  predicate IsUnpackaged(range: string) {
    "workspace:" <= range || "file:" <= range || "link:" <= range
  }

  predicate DistinctNames(ms: seq<Manifest>) {
    forall i, j :: 0 <= i < j < |ms| ==> ms[i].name != ms[j].name
  }

  function Names(ms: seq<Manifest>): set<string> {
    set i | 0 <= i < |ms| :: ms[i].name
  }

  type Packages = map<string, Manifest>

  /** The packages by name, of manifests whose names differ. */
  predicate IsIndex(ms: seq<Manifest>, packages: Packages) {
    && packages.Keys == Names(ms)
    && forall i :: 0 <= i < |ms| ==> ms[i].name in packages && packages[ms[i].name] == ms[i]
  }

  predicate WellNamed(packages: Packages) {
    forall name :: name in packages ==> packages[name].name == name
  }

  // ---- What is pending ------------------------------------------------------------------------

  function RemarksOn(m: Manifest): seq<Remark> {
    (if m.isPrivate then [IsPrivate(m.name)] else [])
    + (if m.version == PROVISIONAL_VERSION then [IsProvisional(m.name)] else [])
  }

  /** The remarks on all manifests, in their order. */
  function Pending(ms: seq<Manifest>): seq<Remark> {
    if ms == [] then [] else RemarksOn(ms[0]) + Pending(ms[1..])
  }

  /** Does a manifest call for a remark? */
  predicate CallsFor(m: Manifest, remark: Remark) {
    match remark
    case IsPrivate(name) => m.name == name && m.isPrivate
    case IsProvisional(name) => m.name == name && m.version == "0.0.0"
  }

  lemma RemarksExactly(m: Manifest, remark: Remark)
    ensures remark in RemarksOn(m) <==> CallsFor(m, remark)
  {
  }

  /** Nothing is pending but what the manifests say: a private package, and a provisional version. */
  lemma {:induction false} PendingExactly(ms: seq<Manifest>, remark: Remark)
    ensures remark in Pending(ms) <==> exists i :: 0 <= i < |ms| && CallsFor(ms[i], remark)
  {
    if ms != [] {
      PendingExactly(ms[1..], remark);
      RemarksExactly(ms[0], remark);
      if i :| 0 <= i < |ms[1..]| && CallsFor(ms[1..][i], remark) {
        assert CallsFor(ms[i + 1], remark);
      }
      if i :| 0 < i < |ms| && CallsFor(ms[i], remark) {
        assert CallsFor(ms[1..][i - 1], remark);
      }
    }
  }

  // ---- What a plan has to satisfy -------------------------------------------------------------

  /** Can this entry of a manifest be published? `satisfies` compares a version with a range. */
  predicate EntryFits(packages: Packages, satisfies: (string, string) -> bool, entry: (string, string)) {
    && !IsUnpackaged(entry.1)
    && (if entry.0 in packages then satisfies(packages[entry.0].version, entry.1) else !(LOCAL_SCOPE <= entry.0))
  }

  /** An entry fits exactly if its range names no path of the workspace, a package of the workspace has a
      version in the range, and any other is not of the local scope. */
  lemma EntryFitsExactly(packages: Packages, satisfies: (string, string) -> bool, name: string, range: string)
    ensures EntryFits(packages, satisfies, (name, range)) <==>
            && (forall rest: string :: range != "workspace:" + rest && range != "file:" + rest && range != "link:" + rest)
            && (name in packages ==> satisfies(packages[name].version, range))
            && (name !in packages ==> forall rest: string :: name != "@mlx-bun/" + rest)
  {
    PrefixExactly("workspace:", range);
    PrefixExactly("file:", range);
    PrefixExactly("link:", range);
    PrefixExactly(LOCAL_SCOPE, name);
  }

  lemma PrefixExactly(prefix: string, s: string)
    ensures prefix <= s <==> exists rest :: s == prefix + rest
  {
    if prefix <= s {
      assert s == prefix + s[|prefix|..];
    }
  }

  predicate ManifestFits(packages: Packages, satisfies: (string, string) -> bool, m: Manifest) {
    forall k :: 0 <= k < |m.dependencies| ==> EntryFits(packages, satisfies, m.dependencies[k])
  }

  /** Does package a list package b, of the same workspace, as a dependency? */
  predicate DependsOn(packages: Packages, a: string, b: string) {
    && a in packages && b in packages
    && exists k :: 0 <= k < |packages[a].dependencies| && packages[a].dependencies[k].0 == b
  }

  /** A walk along dependencies. */
  predicate Walk(packages: Packages, p: seq<string>) {
    forall k :: 0 <= k < |p| - 1 ==> DependsOn(packages, p[k], p[k + 1])
  }

  ghost predicate OnCycle(packages: Packages, name: string) {
    exists p: seq<string> :: |p| >= 2 && p[0] == p[|p| - 1] == name && Walk(packages, p)
  }

  ghost predicate HasCycle(packages: Packages) {
    exists name :: OnCycle(packages, name)
  }

  /** Every listed package fits, and its dependencies are listed before it. */
  ghost predicate Settled(packages: Packages, satisfies: (string, string) -> bool, order: seq<string>) {
    && (forall i :: 0 <= i < |order| ==> order[i] in packages && ManifestFits(packages, satisfies, packages[order[i]]))
    && (forall i, j :: 0 <= i < j < |order| ==> order[i] != order[j])
    && (forall i, b :: 0 <= i < |order| && DependsOn(packages, order[i], b) ==> b in order[..i])
  }

  // ---- A topological order rules out cycles ---------------------------------------------------

  /** Along a walk the places in a settled order only go down. */
  lemma {:induction false} WalkDescends(packages: Packages, satisfies: (string, string) -> bool, order: seq<string>, p: seq<string>, i: nat)
    requires Settled(packages, satisfies, order) && Walk(packages, p) && |p| >= 2
    requires i < |order| && order[i] == p[0]
    ensures p[|p| - 1] in order[..i]
    decreases |p|
  {
    assert DependsOn(packages, p[0], p[1]);
    var j :| 0 <= j < i && order[j] == p[1];
    if |p| > 2 {
      var rest := p[1..];
      forall k | 0 <= k < |rest| - 1 ensures DependsOn(packages, rest[k], rest[k + 1]) {
        assert DependsOn(packages, p[k + 1], p[k + 2]);
      }
      WalkDescends(packages, satisfies, order, rest, j);
    }
  }

  lemma SettledMeansAcyclic(packages: Packages, satisfies: (string, string) -> bool, order: seq<string>)
    requires Settled(packages, satisfies, order) && forall name :: name in packages ==> name in order
    ensures !HasCycle(packages)
  {
    if HasCycle(packages) {
      var name :| OnCycle(packages, name);
      var p: seq<string> :| |p| >= 2 && p[0] == p[|p| - 1] == name && Walk(packages, p);
      assert DependsOn(packages, p[0], p[1]);
      var i :| 0 <= i < |order| && order[i] == p[0];
      WalkDescends(packages, satisfies, order, p, i);
      assert false;
    }
  }

  /** The part of a chain of visited packages from one that is met again is a cycle. */
  lemma ChainCloses(packages: Packages, chain: seq<string>, name: string)
    requires Walk(packages, chain + [name]) && name in chain
    ensures OnCycle(packages, name)
  {
    var i :| 0 <= i < |chain| && chain[i] == name;
    var p := (chain + [name])[i..];
    forall k | 0 <= k < |p| - 1 ensures DependsOn(packages, p[k], p[k + 1]) {
      assert DependsOn(packages, (chain + [name])[i + k], (chain + [name])[i + k + 1]);
    }
    assert |p| >= 2 && p[0] == p[|p| - 1];
  }

  /** Does package `name` list this entry? */
  predicate Lists(packages: Packages, name: string, entry: (string, string)) {
    name in packages && entry in packages[name].dependencies
  }

  /** What a refusal means: the named package is on a cycle, or the named dependency cannot be published. */
  ghost predicate Explained(packages: Packages, satisfies: (string, string) -> bool, failure: Failure) {
    match failure
    case Cycle(name) => OnCycle(packages, name)
    case DuplicateNames => false
    case Unpackaged(name, dependency) =>
      exists range :: Lists(packages, name, (dependency, range)) && IsUnpackaged(range)
    case Excluded(name, dependency) =>
      dependency in packages
      && exists range :: Lists(packages, name, (dependency, range)) && !IsUnpackaged(range) && !satisfies(packages[dependency].version, range)
    case MissingArchive(dependency) =>
      dependency !in packages && LOCAL_SCOPE <= dependency
      && exists name, range :: Lists(packages, name, (dependency, range)) && !IsUnpackaged(range)
  }

  lemma WalkOn(packages: Packages, chain: seq<string>, name: string)
    requires Walk(packages, chain) && (chain != [] ==> DependsOn(packages, chain[|chain| - 1], name))
    ensures Walk(packages, chain + [name])
  {
    forall k | 0 <= k < |chain| ensures DependsOn(packages, (chain + [name])[k], (chain + [name])[k + 1]) {
    }
  }

  lemma SettledGrows(packages: Packages, satisfies: (string, string) -> bool, order: seq<string>, m: Manifest)
    requires Settled(packages, satisfies, order) && m.name in packages && packages[m.name] == m && m.name !in order
    requires ManifestFits(packages, satisfies, m)
    requires forall k :: 0 <= k < |m.dependencies| && m.dependencies[k].0 in packages ==> m.dependencies[k].0 in order
    ensures Settled(packages, satisfies, order + [m.name])
  {
    var order' := order + [m.name];
    forall i, b | 0 <= i < |order'| && DependsOn(packages, order'[i], b) ensures b in order'[..i] {
      if i < |order| {
        assert order'[..i] == order[..i];
      } else {
        assert order'[..i] == order;
      }
    }
  }

  // ---- The sort -------------------------------------------------------------------------------

  class Planner {
    const packages: Packages
    const satisfies: (string, string) -> bool
    var order: seq<string>
    var visiting: set<string>
    ghost var chain: seq<string>

    ghost predicate Valid()
      reads this
    {
      && WellNamed(packages)
      && Settled(packages, satisfies, order)
      && (forall name :: name in visiting <==> name in chain)
      && (forall i, j :: 0 <= i < j < |chain| ==> chain[i] != chain[j])
      && (forall name :: name in visiting ==> name in packages && name !in order)
      && Walk(packages, chain)
    }

    constructor (packages: Packages, satisfies: (string, string) -> bool)
      requires WellNamed(packages)
      ensures Valid() && order == [] && visiting == {} && chain == []
      ensures this.packages == packages && this.satisfies == satisfies
    {
      this.packages, this.satisfies := packages, satisfies;
      order, visiting, chain := [], {}, [];
    }

    /** The names that are neither ordered nor being visited: each level of recursion uses one up. */
    ghost function Unseen(): set<string>
      reads this
    {
      packages.Keys - (set name | name in order) - visiting
    }

    /** Visits one entry of the manifest that is being visited last. */
    method VisitEntry(m: Manifest, i: nat) returns (v: Verdict)
      requires Valid() && m.name in packages && packages[m.name] == m && i < |m.dependencies|
      requires chain != [] && chain[|chain| - 1] == m.name
      modifies this
      ensures v.Passed? ==> Valid() && visiting == old(visiting) && chain == old(chain) && old(order) <= order
      ensures v.Passed? ==> EntryFits(packages, satisfies, m.dependencies[i])
      ensures v.Passed? && m.dependencies[i].0 in packages ==> m.dependencies[i].0 in order
      ensures v.Failed? ==> Explained(packages, satisfies, v.failure)
      decreases Unseen(), 1
    {
      var (name, range) := m.dependencies[i];
      assert Lists(packages, m.name, (name, range));
      if EntryFits(packages, satisfies, m.dependencies[i]) && name in packages {
        assert DependsOn(packages, m.name, name);
      }
      if IsUnpackaged(range) {
        return Failed(Unpackaged(m.name, name));
      }
      if name in packages {
        if !satisfies(packages[name].version, range) {
          return Failed(Excluded(m.name, name));
        }
        WalkOn(packages, chain, name);
        v := Visit(packages[name]);
      } else if LOCAL_SCOPE <= name {
        v := Failed(MissingArchive(name));
      } else {
        v := Passed;
      }
    }

    /** Orders package m after everything it needs, or finds out why that is impossible. */
    method Visit(m: Manifest) returns (v: Verdict)
      requires Valid() && m.name in packages && packages[m.name] == m
      requires Walk(packages, chain + [m.name])
      modifies this
      ensures v.Passed? ==> Valid() && visiting == old(visiting) && chain == old(chain) && old(order) <= order
      ensures v.Passed? ==> m.name in order
      ensures v.Failed? ==> Explained(packages, satisfies, v.failure)
      decreases Unseen(), 0
    {
      if m.name in order {
        return Passed;
      }
      if m.name in visiting {
        ChainCloses(packages, chain, m.name);
        return Failed(Cycle(m.name));
      }
      ghost var unseen := Unseen();
      visiting, chain := visiting + {m.name}, chain + [m.name];
      assert m.name in unseen && m.name !in Unseen();
      for i := 0 to |m.dependencies|
        invariant Valid() && visiting == old(visiting) + {m.name} && chain == old(chain) + [m.name]
        invariant old(order) <= order && Unseen() < unseen
        invariant forall k :: 0 <= k < i ==> EntryFits(packages, satisfies, m.dependencies[k])
        invariant forall k :: 0 <= k < i && m.dependencies[k].0 in packages ==> m.dependencies[k].0 in order
      {
        v := VisitEntry(m, i);
        if v.Failed? {
          return;
        }
      }
      SettledGrows(packages, satisfies, order, m);
      visiting, chain := visiting - {m.name}, old(chain);
      order := order + [m.name];
      v := Passed;
    }
  }

  /** Builds the index of the manifests by name; it is smaller than their number exactly if two names agree. */
  method Index(ms: seq<Manifest>) returns (packages: Packages)
    ensures packages.Keys == Names(ms) && WellNamed(packages)
    ensures |packages| == |ms| <==> DistinctNames(ms)
    ensures DistinctNames(ms) ==> IsIndex(ms, packages)
  {
    packages := map[];
    for i := 0 to |ms|
      invariant packages.Keys == Names(ms[..i]) && WellNamed(packages)
      invariant |packages| <= i && (|packages| == i <==> DistinctNames(ms[..i]))
      invariant DistinctNames(ms[..i]) ==> IsIndex(ms[..i], packages)
    {
      IndexGrows(ms, i, packages);
      if DistinctNames(ms[..i + 1]) {
        NamesGrow(ms, i);
        IndexHolds(ms, i, packages);
      }
      packages := packages[ms[i].name := ms[i]];
    }
    assert ms[..|ms|] == ms;
  }

  lemma IndexGrows(ms: seq<Manifest>, i: nat, packages: Packages)
    requires i < |ms| && packages.Keys == Names(ms[..i])
    requires |packages| <= i && (|packages| == i <==> DistinctNames(ms[..i]))
    ensures var grown := packages[ms[i].name := ms[i]];
            && grown.Keys == Names(ms[..i + 1])
            && |grown| <= i + 1 && (|grown| == i + 1 <==> DistinctNames(ms[..i + 1]))
  {
    NamesGrow(ms, i);
    var grown := packages[ms[i].name := ms[i]];
    assert grown.Keys == packages.Keys + {ms[i].name};
    assert |grown.Keys| == |packages.Keys| + if ms[i].name in packages.Keys then 0 else 1;
  }

  lemma IndexHolds(ms: seq<Manifest>, i: nat, packages: Packages)
    requires i < |ms| && DistinctNames(ms[..i + 1]) && IsIndex(ms[..i], packages)
    ensures IsIndex(ms[..i + 1], packages[ms[i].name := ms[i]])
  {
    NamesGrow(ms, i);
    var a, b := ms[..i], ms[..i + 1];
    assert forall k :: 0 <= k < i ==> b[k] == a[k];
    forall k | 0 <= k < i ensures b[k].name != ms[i].name {
      assert b[i] == ms[i];
    }
  }

  lemma NamesGrow(ms: seq<Manifest>, i: nat)
    requires i < |ms|
    ensures Names(ms[..i + 1]) == Names(ms[..i]) + {ms[i].name}
    ensures DistinctNames(ms[..i + 1]) <==> DistinctNames(ms[..i]) && ms[i].name !in Names(ms[..i])
  {
    var a, b := ms[..i], ms[..i + 1];
    assert b[i] == ms[i] && forall k :: 0 <= k < i ==> b[k] == a[k];
    if ms[i].name in Names(a) {
      var k :| 0 <= k < i && a[k].name == ms[i].name;
      assert b[k].name == b[i].name;
    }
  }

  /** The plan is an order exactly if the names differ, every manifest fits and no dependency cycle
      exists; the order then lists every package once, each after its dependencies. A refusal
      names a package on a cycle, or a dependency that cannot be published, for the reason it has. */
  method PublicationPlan(ms: seq<Manifest>, satisfies: (string, string) -> bool) returns (plan: Plan, packages: Packages)
    ensures packages.Keys == Names(ms) && (DistinctNames(ms) ==> IsIndex(ms, packages))
    ensures plan.Order? <==>
      DistinctNames(ms) && !HasCycle(packages) && forall i :: 0 <= i < |ms| ==> ManifestFits(packages, satisfies, ms[i])
    ensures plan.Order? ==> Settled(packages, satisfies, plan.names) && |plan.names| == |ms|
    ensures plan.Order? ==> plan.pending == Pending(ms) && forall i :: 0 <= i < |ms| ==> ms[i].name in plan.names
    ensures plan == Refused(DuplicateNames) <==> !DistinctNames(ms)
    ensures plan.Refused? && DistinctNames(ms) ==> Explained(packages, satisfies, plan.failure)
  {
    packages := Index(ms);
    if |packages| != |ms| {
      return Refused(DuplicateNames), packages;
    }
    var planner := new Planner(packages, satisfies);
    for i := 0 to |ms|
      invariant planner.Valid() && planner.visiting == {} && planner.chain == []
      invariant planner.packages == packages && planner.satisfies == satisfies
      invariant forall k :: 0 <= k < i ==> ms[k].name in planner.order
    {
      var v := planner.Visit(ms[i]);
      if v.Failed? {
        RefusalIsJust(ms, packages, satisfies, v.failure);
        return Refused(v.failure), packages;
      }
    }
    OrderIsComplete(ms, packages, satisfies, planner.order);
    plan := Order(planner.order, Pending(ms));
  }

  /** The entry that a refusal is about. */
  lemma Culprit(packages: Packages, satisfies: (string, string) -> bool, failure: Failure) returns (name: string, entry: (string, string))
    requires Explained(packages, satisfies, failure) && !failure.Cycle?
    ensures Lists(packages, name, entry) && !EntryFits(packages, satisfies, entry)
  {
    match failure
    case Unpackaged(n, dependency) =>
      var range :| Lists(packages, n, (dependency, range)) && IsUnpackaged(range);
      name, entry := n, (dependency, range);
    case Excluded(n, dependency) =>
      var range :| Lists(packages, n, (dependency, range)) && !IsUnpackaged(range) && !satisfies(packages[dependency].version, range);
      name, entry := n, (dependency, range);
    case MissingArchive(dependency) =>
      var n, range :| Lists(packages, n, (dependency, range)) && !IsUnpackaged(range);
      name, entry := n, (dependency, range);
  }

  lemma RefusalIsJust(ms: seq<Manifest>, packages: Packages, satisfies: (string, string) -> bool, failure: Failure)
    requires IsIndex(ms, packages) && Explained(packages, satisfies, failure)
    ensures HasCycle(packages) || exists i :: 0 <= i < |ms| && !ManifestFits(packages, satisfies, ms[i])
  {
    if failure.Cycle? {
      assert OnCycle(packages, failure.name);
    } else {
      var name, entry := Culprit(packages, satisfies, failure);
      var k :| 0 <= k < |packages[name].dependencies| && packages[name].dependencies[k] == entry;
      var i :| 0 <= i < |ms| && ms[i].name == name;
      assert packages[ms[i].name] == ms[i];
      assert !ManifestFits(packages, satisfies, ms[i]);
    }
  }

  lemma OrderIsComplete(ms: seq<Manifest>, packages: Packages, satisfies: (string, string) -> bool, order: seq<string>)
    requires IsIndex(ms, packages) && DistinctNames(ms) && Settled(packages, satisfies, order)
    requires forall i :: 0 <= i < |ms| ==> ms[i].name in order
    ensures |order| == |ms| && !HasCycle(packages)
    ensures forall i :: 0 <= i < |ms| ==> ManifestFits(packages, satisfies, ms[i])
  {
    forall name | name in packages ensures name in order {
      var i :| 0 <= i < |ms| && ms[i].name == name;
    }
    SettledMeansAcyclic(packages, satisfies, order);
    OrderIsAsLong(ms, packages, order);
    forall i | 0 <= i < |ms| ensures ManifestFits(packages, satisfies, ms[i]) {
      var k :| 0 <= k < |order| && order[k] == ms[i].name;
    }
  }

  lemma OrderIsAsLong(ms: seq<Manifest>, packages: Packages, order: seq<string>)
    requires IsIndex(ms, packages) && DistinctNames(ms)
    requires forall i, j :: 0 <= i < j < |order| ==> order[i] != order[j]
    requires forall i :: 0 <= i < |order| ==> order[i] in packages
    requires forall i :: 0 <= i < |ms| ==> ms[i].name in order
    ensures |order| == |ms|
  {
    var names := seq(|ms|, i requires 0 <= i < |ms| => ms[i].name);
    forall x | x in names ensures x in order {
      var i :| 0 <= i < |ms| && names[i] == x;
    }
    forall x | x in order ensures x in names {
      var i :| 0 <= i < |ms| && ms[i].name == x;
      assert names[i] == x;
    }
    SameLength(order, names);
  }

  /** Two lists without repetition that hold the same elements are equally long. */
  lemma SameLength(a: seq<string>, b: seq<string>)
    requires forall i, j :: 0 <= i < j < |a| ==> a[i] != a[j]
    requires forall i, j :: 0 <= i < j < |b| ==> b[i] != b[j]
    requires forall x :: x in a <==> x in b
    ensures |a| == |b|
  {
    SizeOf(a);
    SizeOf(b);
    assert (set x | x in a) == (set x | x in b);
  }

  lemma {:induction false} SizeOf(a: seq<string>)
    requires forall i, j :: 0 <= i < j < |a| ==> a[i] != a[j]
    ensures |(set x | x in a)| == |a|
  {
    if a != [] {
      var n := |a| - 1;
      SizeOf(a[..n]);
      assert (set x | x in a) == (set x | x in a[..n]) + {a[n]};
    }
  }
}
