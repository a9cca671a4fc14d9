/**
 The reversible installer: stage everything, replace with backups, undo in reverse
 (scripts/install_legacy_binaries.py).
 */
module Installer {
  import opened Prelude

  // ----- Paths and directory entries -----

  /** A path as its parts. */
  type Path = seq<string>

  datatype Node =
    | Dir | File(inode: nat, bytes: string) | Link(inode: nat, dest: Path, toDirectory: bool) | Special(inode: nat)

  type Nodes = map<Path, Node>

  function Look(nodes: Nodes, p: Path): Option<Node> { if p in nodes then Some(nodes[p]) else None }

  function Put(nodes: Nodes, p: Path, v: Option<Node>): (r: Nodes)
    ensures forall q :: Look(r, q) == if q == p then v else Look(nodes, q)
  {
    if v.Some? then nodes[p := v.value] else nodes - {p}
  }

  predicate IsDirectory(node: Node) { node.Dir? || (node.Link? && node.toDirectory) }

  // ----- Preflight -----

  /** A directory, a link to one, or something that is neither a file nor a link. */
  predicate Unsafe(nodes: Nodes, p: Path) { p in nodes && (IsDirectory(nodes[p]) || nodes[p].Special?) }

  predicate IsPrefix(a: Path, b: Path) { |a| <= |b| && b[..|a|] == a }

  function Folded(fold: string -> string, p: Path): (r: Path)
    ensures |r| == |p| && forall k | 0 <= k < |p| :: r[k] == fold(p[k])
  {
    seq(|p|, k requires 0 <= k < |p| => fold(p[k]))
  }

  predicate SameEntry(nodes: Nodes, p: Path, q: Path) {
    p in nodes && q in nodes && !nodes[p].Dir? && !nodes[q].Dir? && nodes[p].inode == nodes[q].inode
  }

  /** One path contains the other up to case and normalisation, or both name one directory entry. */
  predicate Overlaps(nodes: Nodes, fold: string -> string, p: Path, q: Path) {
    var (a, b) := (Folded(fold, p), Folded(fold, q));
    IsPrefix(a, b) || IsPrefix(b, a) || SameEntry(nodes, p, q)
  }

  /** The nearest existing ancestor is a directory; the root always exists. */
  predicate ParentIsDirectory(nodes: Nodes, p: Path) {
    if p == [] then true else if p in nodes then IsDirectory(nodes[p]) else ParentIsDirectory(nodes, p[..|p| - 1])
  }

  predicate AcceptedAt(nodes: Nodes, fold: string -> string, paths: seq<Path>, i: nat)
    requires i < |paths| && paths[i] != []
  {
    && !Unsafe(nodes, paths[i]) && ParentIsDirectory(nodes, paths[i][..|paths[i]| - 1])
    && forall j | 0 <= j < i :: !Overlaps(nodes, fold, paths[i], paths[j])
  }

  predicate Absolute(paths: seq<Path>) { forall i | 0 <= i < |paths| :: paths[i] != [] }

  predicate Accepted(nodes: Nodes, fold: string -> string, paths: seq<Path>)
    requires Absolute(paths)
  {
    forall i | 0 <= i < |paths| :: AcceptedAt(nodes, fold, paths, i)
  }

  method CheckTarget(nodes: Nodes, fold: string -> string, paths: seq<Path>, i: nat) returns (ok: bool)
    requires i < |paths| && paths[i] != []
    ensures ok <==> AcceptedAt(nodes, fold, paths, i)
  {
    if Unsafe(nodes, paths[i]) { return false; }
    for j := 0 to i
      invariant forall k | 0 <= k < j :: !Overlaps(nodes, fold, paths[i], paths[k])
    {
      if Overlaps(nodes, fold, paths[i], paths[j]) { return false; }
    }
    var parent := paths[i][..|paths[i]| - 1];
    while parent != [] && parent !in nodes
      invariant ParentIsDirectory(nodes, parent) == ParentIsDirectory(nodes, paths[i][..|paths[i]| - 1])
      decreases |parent|
    {
      parent := parent[..|parent| - 1];
    }
    return parent == [] || IsDirectory(nodes[parent]);
  }

  /** Accepts exactly the target lists that are safe and pairwise apart. */
  method Preflight(nodes: Nodes, fold: string -> string, paths: seq<Path>) returns (ok: bool)
    requires Absolute(paths)
    ensures ok <==> Accepted(nodes, fold, paths)
  {
    for i := 0 to |paths|
      invariant forall k | 0 <= k < i :: AcceptedAt(nodes, fold, paths, k)
    {
      var here := CheckTarget(nodes, fold, paths, i);
      if !here { return false; }
    }
    return true;
  }

  /** An entry that may be replaced: none at all, a file, or a link that leads to no directory. */
  predicate Replaceable(nodes: Nodes, p: Path) {
    p !in nodes || nodes[p].File? || (nodes[p].Link? && !nodes[p].toDirectory)
  }

  /** `p[..m]` is the nearest ancestor of `p` that exists. */
  predicate Nearest(nodes: Nodes, p: Path, m: nat) {
    0 < m < |p| && p[..m] in nodes && forall k | m < k < |p| :: p[..k] !in nodes
  }

  ghost predicate Reachable(nodes: Nodes, p: Path) {
    forall m: nat | Nearest(nodes, p, m) :: nodes[p[..m]].Dir? || (nodes[p[..m]].Link? && nodes[p[..m]].toDirectory)
  }

  /** The folded names differ at some level both paths have. */
  ghost predicate Diverge(fold: string -> string, p: Path, q: Path) {
    exists k | 0 <= k < |p| && k < |q| :: fold(p[k]) != fold(q[k])
  }

  /** The two names are links to one entry of the file system. */
  predicate OneEntry(nodes: Nodes, p: Path, q: Path) {
    && p in nodes && q in nodes && !nodes[p].Dir? && !nodes[q].Dir?
    && nodes[p].inode == nodes[q].inode
  }

  lemma PrefixAgrees(a: Path, b: Path, k: nat)
    ensures IsPrefix(a, b) && k < |a| ==> a[k] == b[k]
  {
    if IsPrefix(a, b) && k < |a| { assert b[..|a|][k] == b[k]; }
  }

  lemma DivergeMeans(fold: string -> string, p: Path, q: Path)
    ensures IsPrefix(Folded(fold, p), Folded(fold, q)) || IsPrefix(Folded(fold, q), Folded(fold, p)) <==>
            !Diverge(fold, p, q)
  {
    var (a, b) := (Folded(fold, p), Folded(fold, q));
    if !Diverge(fold, p, q) {
      if |p| <= |q| { assert b[..|a|] == a; } else { assert a[..|b|] == b; }
    }
    if Diverge(fold, p, q) {
      var k :| 0 <= k < |p| && k < |q| && fold(p[k]) != fold(q[k]);
      PrefixAgrees(a, b, k);
      PrefixAgrees(b, a, k);
    }
  }

  lemma {:induction false} ReachableMeans(nodes: Nodes, p: Path, n: nat)
    requires n < |p| && forall k | n < k < |p| :: p[..k] !in nodes
    ensures ParentIsDirectory(nodes, p[..n]) <==> Reachable(nodes, p)
  {
    if n > 0 {
      if p[..n] in nodes {
        assert Nearest(nodes, p, n);
        forall m: nat | Nearest(nodes, p, m) ensures m == n {}
      } else {
        assert p[..n][..n - 1] == p[..n - 1];
        ReachableMeans(nodes, p, n - 1);
      }
    }
  }

  /**
   What preflight accepts: targets that may be replaced, whose nearest existing ancestor is a directory, and that differ
   pairwise, up to folding, at a level both have and are not one entry.
   */
  lemma AcceptedMeans(nodes: Nodes, fold: string -> string, paths: seq<Path>)
    requires Absolute(paths)
    ensures Accepted(nodes, fold, paths) <==>
            && (forall i | 0 <= i < |paths| :: Replaceable(nodes, paths[i]) && Reachable(nodes, paths[i]))
            && (forall i, j | 0 <= j < i < |paths| ::
                  Diverge(fold, paths[i], paths[j]) && !OneEntry(nodes, paths[i], paths[j]))
  {
    forall i | 0 <= i < |paths|
      ensures AcceptedAt(nodes, fold, paths, i) <==>
              && Replaceable(nodes, paths[i]) && Reachable(nodes, paths[i])
              && forall j | 0 <= j < i :: Diverge(fold, paths[i], paths[j]) && !OneEntry(nodes, paths[i], paths[j])
    {
      TargetMeans(nodes, fold, paths, i);
    }
  }

  lemma TargetMeans(nodes: Nodes, fold: string -> string, paths: seq<Path>, i: nat)
    requires i < |paths| && paths[i] != []
    ensures AcceptedAt(nodes, fold, paths, i) <==>
            && Replaceable(nodes, paths[i]) && Reachable(nodes, paths[i])
            && forall j | 0 <= j < i :: Diverge(fold, paths[i], paths[j]) && !OneEntry(nodes, paths[i], paths[j])
  {
    ReachableMeans(nodes, paths[i], |paths[i]| - 1);
    forall j | 0 <= j < i
      ensures Overlaps(nodes, fold, paths[i], paths[j]) <==>
              !Diverge(fold, paths[i], paths[j]) || OneEntry(nodes, paths[i], paths[j])
    {
      DivergeMeans(fold, paths[i], paths[j]);
    }
  }

  /** No accepted target is, or lies above, another one, whatever folding is used. */
  lemma AcceptedTargetsApart(nodes: Nodes, fold: string -> string, paths: seq<Path>, i: nat, j: nat)
    requires Absolute(paths) && Accepted(nodes, fold, paths) && i < |paths| && j < |paths| && i != j
    ensures !IsPrefix(paths[i], paths[j])
  {
    if IsPrefix(paths[i], paths[j]) { PrefixFolds(fold, paths[i], paths[j]); }
    assert AcceptedAt(nodes, fold, paths, if i < j then j else i);
  }

  lemma PrefixFolds(fold: string -> string, p: Path, q: Path)
    requires IsPrefix(p, q)
    ensures IsPrefix(Folded(fold, p), Folded(fold, q))
  {
    var (a, b) := (Folded(fold, p), Folded(fold, q));
    assert forall k | 0 <= k < |p| :: b[k] == fold(q[k]) && q[k] == q[..|p|][k];
    assert b[..|a|] == a;
  }

  // ----- Jobs and the picture of the directory -----

  /** One target, the names its stage and backup get, and the entry to install. */
  datatype Job = Job(target: Path, stage: Path, backup: Path, payload: Node)

  datatype Role = Target | Stage | Backup

  function NameOf(job: Job, role: Role): Path {
    match role case Target => job.target case Stage => job.stage case Backup => job.backup
  }

  /** What stands under the three names of one job. */
  datatype Slot = Slot(target: Option<Node>, stage: Option<Node>, backup: Option<Node>)

  function Held(slot: Slot, role: Role): Option<Node> {
    match role case Target => slot.target case Stage => slot.stage case Backup => slot.backup
  }

  function Changed(slot: Slot, role: Role, v: Option<Node>): Slot {
    match role case Target => slot.(target := v) case Stage => slot.(stage := v) case Backup => slot.(backup := v)
  }

  /** All names are different, and none lies above a target. */
  ghost predicate Apart(jobs: seq<Job>) {
    && (forall i, j, a, b | 0 <= i < |jobs| && 0 <= j < |jobs| :: NameOf(jobs[i], a) == NameOf(jobs[j], b) ==>
        i == j && a == b)
    && (forall i, a, j | 0 <= i < |jobs| && 0 <= j < |jobs| :: !Above(NameOf(jobs[i], a), jobs[j].target))
  }

  /** `p` is a proper ancestor of `t`. */
  predicate Above(p: Path, t: Path) { |p| < |t| && t[..|p|] == p }

  ghost predicate IsName(jobs: seq<Job>, p: Path) { exists i, a | 0 <= i < |jobs| :: NameOf(jobs[i], a) == p }

  /** The directory is `base` with the names of the jobs as the slots say. */
  ghost predicate Pictures(nodes: Nodes, base: Nodes, jobs: seq<Job>, slots: seq<Slot>) {
    && |slots| == |jobs|
    && (forall i, a | 0 <= i < |jobs| :: Look(nodes, NameOf(jobs[i], a)) == Held(slots[i], a))
    && (forall p | !IsName(jobs, p) :: Look(nodes, p) == Look(base, p))
  }

  lemma PictureChange(nodes: Nodes, base: Nodes, jobs: seq<Job>, slots: seq<Slot>, i: nat, role: Role, v: Option<Node>)
    requires Apart(jobs) && i < |jobs| && Pictures(nodes, base, jobs, slots)
    ensures Pictures(Put(nodes, NameOf(jobs[i], role), v), base, jobs, slots[i := Changed(slots[i], role, v)])
  {
    var (after, now) := (Put(nodes, NameOf(jobs[i], role), v), slots[i := Changed(slots[i], role, v)]);
    forall j, a | 0 <= j < |jobs| ensures Look(after, NameOf(jobs[j], a)) == Held(now[j], a) {
      if j == i && a == role { } else { assert NameOf(jobs[j], a) != NameOf(jobs[i], role); }
    }
  }

  /** Directories were added above targets, and nothing else changed. */
  ghost predicate Grown(before: Nodes, after: Nodes, jobs: seq<Job>) {
    && (forall p | p in before :: p in after && after[p] == before[p])
    && (forall p | p in after && p !in before :: after[p] == Dir && exists j | 0 <= j < |jobs| ::
        Above(p, jobs[j].target))
  }

  lemma PictureGrow(nodes: Nodes, base: Nodes, jobs: seq<Job>, slots: seq<Slot>, j: nat, p: Path)
    requires Apart(jobs) && j < |jobs| && Above(p, jobs[j].target) && Pictures(nodes, base, jobs, slots) && p !in nodes
    ensures Pictures(nodes[p := Dir], base[p := Dir], jobs, slots) && p !in base && Grown(base, base[p := Dir], jobs)
  {
    assert !IsName(jobs, p);
    assert Look(nodes, p) == Look(base, p);
  }

  lemma GrownTwice(a: Nodes, b: Nodes, c: Nodes, jobs: seq<Job>)
    requires Grown(a, b, jobs) && Grown(b, c, jobs)
    ensures Grown(a, c, jobs)
  {
  }

  /** Every ancestor of `t` that exists is a directory, so the missing ones can be made. */
  ghost predicate ParentsFree(nodes: Nodes, t: Path) {
    forall m | 0 < m < |t| && t[..m] in nodes :: IsDirectory(nodes[t[..m]])
  }

  /** What exists lies under directories that exist. */
  ghost predicate IsTree(nodes: Nodes) {
    forall p, m | p in nodes && 0 < m < |p| :: p[..m] in nodes && IsDirectory(nodes[p[..m]])
  }

  /** In a tree, the nearest existing ancestor decides about all of them. */
  lemma {:induction false} NearestDecides(nodes: Nodes, p: Path, m: nat)
    requires IsTree(nodes) && ParentIsDirectory(nodes, p) && 0 < m <= |p| && p[..m] in nodes
    ensures IsDirectory(nodes[p[..m]])
  {
    if p in nodes {
      assert p[..|p|] == p;
    } else {
      assert p[..|p|] == p;
      assert p[..|p| - 1][..m] == p[..m];
      NearestDecides(nodes, p[..|p| - 1], m);
    }
  }

  lemma AcceptedParentsFree(nodes: Nodes, t: Path)
    requires IsTree(nodes) && t != [] && ParentIsDirectory(nodes, t[..|t| - 1])
    ensures ParentsFree(nodes, t)
  {
    forall m | 0 < m < |t| && t[..m] in nodes ensures IsDirectory(nodes[t[..m]]) {
      assert t[..|t| - 1][..m] == t[..m];
      NearestDecides(nodes, t[..|t| - 1], m);
    }
  }

  /** Staging never puts anything but directories above a target. */
  lemma StillFree(before: Nodes, nodes: Nodes, base: Nodes, jobs: seq<Job>, slots: seq<Slot>, j: nat)
    requires Apart(jobs) && j < |jobs| && Pictures(nodes, base, jobs, slots) && Grown(before, base, jobs)
    requires ParentsFree(before, jobs[j].target)
    ensures ParentsFree(nodes, jobs[j].target)
  {
    var t := jobs[j].target;
    forall m | 0 < m < |t| && t[..m] in nodes ensures IsDirectory(nodes[t[..m]]) {
      assert Above(t[..m], t);
      assert !IsName(jobs, t[..m]);
      assert Look(nodes, t[..m]) == Look(base, t[..m]);
    }
  }

  lemma {:induction false} FreeParentIsDirectory(nodes: Nodes, t: Path, m: nat)
    requires ParentsFree(nodes, t) && m < |t|
    ensures ParentIsDirectory(nodes, t[..m])
  {
    if m > 0 && t[..m] !in nodes {
      assert t[..m][..m - 1] == t[..m - 1];
      FreeParentIsDirectory(nodes, t, m - 1);
    }
  }

  /** Preflight answers the same while the targets and their ancestors are as they were. */
  lemma StillAccepted(before: Nodes, nodes: Nodes, fold: string -> string, paths: seq<Path>)
    requires Absolute(paths) && Accepted(before, fold, paths)
    requires forall i | 0 <= i < |paths| ::
             Look(nodes, paths[i]) == Look(before, paths[i]) && ParentsFree(nodes, paths[i])
    ensures Accepted(nodes, fold, paths)
  {
    forall i | 0 <= i < |paths| ensures AcceptedAt(nodes, fold, paths, i) {
      assert AcceptedAt(before, fold, paths, i);
      FreeParentIsDirectory(nodes, paths[i], |paths[i]| - 1);
      forall j | 0 <= j < i ensures !Overlaps(nodes, fold, paths[i], paths[j]) {
        assert !Overlaps(before, fold, paths[i], paths[j]);
        assert Look(nodes, paths[j]) == Look(before, paths[j]);
      }
    }
  }

  // ----- Failures -----

  datatype Point =
    | Mkdir(i: nat) | Mkstemp(i: nat) | Close(i: nat) | RecordStage(i: nat) | Copy(i: nat) | Check(i: nat)
    | Unlink(i: nat) | Symlink(i: nat) | Recheck | MoveAway(i: nat) | RecordMove(i: nat) | MoveIn(i: nat)
    | Probe(i: nat)
    | Undo(i: nat) | Sweep(i: nat)

  ghost predicate UndoWorks(faults: set<Point>) { forall i :: Undo(i) !in faults && Sweep(i) !in faults }

  /** The entries under the targets when the installation began. */
  ghost predicate Originals(nodes: Nodes, jobs: seq<Job>, orig: seq<Option<Node>>) {
    |orig| == |jobs| && forall i | 0 <= i < |jobs| :: orig[i] == Look(nodes, jobs[i].target)
  }

  function Untouched(orig: Option<Node>): Slot { Slot(orig, None, None) }

  /** What a failure leaves of one job once the undo is through: nothing, but for the two windows in which the
      installer has not yet noted what it did. */
  function LeftBy(stop: Point, i: nat, orig: Option<Node>, job: Job): Slot {
    if stop == Close(i) || stop == RecordStage(i) then Slot(orig, Some(EmptyFile(job)), None)
    else if stop == RecordMove(i) then Slot(None, None, orig)
    else Untouched(orig)
  }

  /** The steps after which the installer has done something it has not noted. */
  predicate Unnoted(p: Point) { p.Close? || p.RecordStage? || p.RecordMove? }

  /** The failure fell into such a window of job `i`, and the job had something to lose there. */
  predicate Window(stop: Point, i: nat, orig: Option<Node>) {
    stop == Close(i) || stop == RecordStage(i) || (stop == RecordMove(i) && orig.Some?)
  }

  function EmptyFile(job: Job): Node { File(if job.payload.File? then job.payload.inode else 0, "") }

  class FileSystem {
    var nodes: Nodes

    constructor (nodes: Nodes)
      ensures this.nodes == nodes
    {
      this.nodes := nodes;
    }

    /** Moves an entry, replacing whatever stood at the destination. */
    method Replace(source: Path, dest: Path)
      requires source in nodes && source != dest
      modifies this
      ensures nodes == Put(Put(old(nodes), source, None), dest, Look(old(nodes), source))
    {
      nodes := Put(Put(nodes, source, None), dest, Some(nodes[source]));
    }

    method UnlinkIfPresent(p: Path)
      modifies this
      ensures nodes == Put(old(nodes), p, None)
    {
      nodes := nodes - {p};
    }

    /** Creates the missing ancestors of a target; an ancestor that is no directory ends it. */
    method MakeParents(jobs: seq<Job>, j: nat, ghost base: Nodes, ghost slots: seq<Slot>)
      returns (ok: bool, ghost grown: Nodes)
      requires Apart(jobs) && j < |jobs| && jobs[j].target != [] && Pictures(nodes, base, jobs, slots)
      modifies this
      ensures Pictures(nodes, grown, jobs, slots) && Grown(base, grown, jobs)
      ensures ok <==> ParentsFree(old(nodes), jobs[j].target)
    {
      grown := base;
      var t := jobs[j].target;
      for m := 1 to |t|
        invariant Pictures(nodes, grown, jobs, slots) && Grown(base, grown, jobs)
        invariant forall k | m <= k < |t| :: Look(nodes, t[..k]) == Look(old(nodes), t[..k])
        invariant forall k | 0 < k < m && t[..k] in old(nodes) :: IsDirectory(old(nodes)[t[..k]])
      {
        var p := t[..m];
        if p in nodes {
          if !IsDirectory(nodes[p]) { return false, grown; }
        } else {
          assert Above(p, t);
          PictureGrow(nodes, grown, jobs, slots, j, p);
          GrownTwice(base, grown, grown[p := Dir], jobs);
          nodes := nodes[p := Dir];
          grown := grown[p := Dir];
        }
      }
      return true, grown;
    }
  }

  // ----- The installation -----

  function Targets(jobs: seq<Job>): (r: seq<Path>)
    ensures |r| == |jobs| && forall i | 0 <= i < |jobs| :: r[i] == jobs[i].target
  {
    seq(|jobs|, i requires 0 <= i < |jobs| => jobs[i].target)
  }

  /** The temporary and backup names are new: unused, unlike any other name, and never an ancestor of a target. */
  ghost predicate PrivateNames(nodes: Nodes, jobs: seq<Job>) {
    && (forall i, a | 0 <= i < |jobs| && a != Target :: NameOf(jobs[i], a) !in nodes)
    && (forall i, j, a, b | 0 <= i < |jobs| && 0 <= j < |jobs| && a != Target ::
        NameOf(jobs[i], a) == NameOf(jobs[j], b) ==> i == j && a == b)
    && (forall i, a, j | 0 <= i < |jobs| && 0 <= j < |jobs| && a != Target ::
        !Above(NameOf(jobs[i], a), jobs[j].target))
  }

  lemma NamesApart(nodes: Nodes, fold: string -> string, jobs: seq<Job>)
    requires Absolute(Targets(jobs)) && Accepted(nodes, fold, Targets(jobs)) && PrivateNames(nodes, jobs)
    ensures Apart(jobs)
  {
    forall i, j, a, b | 0 <= i < |jobs| && 0 <= j < |jobs| && NameOf(jobs[i], a) == NameOf(jobs[j], b)
      ensures i == j && a == b {
      if a == Target && b == Target && i != j { AcceptedTargetsApart(nodes, fold, Targets(jobs), i, j); }
    }
    forall i, a, j | 0 <= i < |jobs| && 0 <= j < |jobs| ensures !Above(NameOf(jobs[i], a), jobs[j].target) {
      if a == Target && i != j { AcceptedTargetsApart(nodes, fold, Targets(jobs), i, j); }
    }
  }

  /** The first `k` jobs are staged, the others untouched. */
  ghost predicate StagedTo(slots: seq<Slot>, jobs: seq<Job>, orig: seq<Option<Node>>, k: nat) {
    && |slots| == |jobs| == |orig|
    && forall i | 0 <= i < |jobs| ::
         slots[i] == if i < k then Slot(orig[i], Some(jobs[i].payload), None) else Untouched(orig[i])
  }

  /** The first `k` jobs are in place with their backups, the others staged. */
  ghost predicate ReplacedTo(slots: seq<Slot>, jobs: seq<Job>, orig: seq<Option<Node>>, k: nat) {
    && |slots| == |jobs| == |orig|
    && forall i | 0 <= i < |jobs| ::
         slots[i] == if i < k then Slot(Some(jobs[i].payload), None, orig[i])
             else Slot(orig[i], Some(jobs[i].payload), None)
  }

  /** Where the opening of a stage stops: the first of its steps that fails. */
  function OpenStop(k: nat, free: bool, faults: set<Point>): Option<Point> {
    if Mkdir(k) in faults || !free then Some(Mkdir(k))
    else if Mkstemp(k) in faults then Some(Mkstemp(k))
    else if Close(k) in faults then Some(Close(k))
    else if RecordStage(k) in faults then Some(RecordStage(k))
    else None
  }

  function FillStop(job: Job, k: nat, faults: set<Point>): Option<Point> {
    if job.payload.File? then
      (if Copy(k) in faults then Some(Copy(k)) else if Check(k) in faults then Some(Check(k)) else None)
    else if Unlink(k) in faults then Some(Unlink(k))
    else if Symlink(k) in faults then Some(Symlink(k))
    else None
  }

  function StageStop(job: Job, k: nat, free: bool, faults: set<Point>): Option<Point> {
    if OpenStop(k, free, faults).Some? then OpenStop(k, free, faults) else FillStop(job, k, faults)
  }

  function WithStage(slots: seq<Slot>, k: nat, v: Option<Node>): (r: seq<Slot>)
    requires k < |slots|
    ensures |r| == |slots|
  {
    slots[k := slots[k].(stage := v)]
  }

  /** Makes the parents and the empty temporary; it is on the list of stages exactly when nothing stopped. */
  method OpenStage(fs: FileSystem, jobs: seq<Job>, k: nat, faults: set<Point>, ghost base: Nodes,
                   ghost slots: seq<Slot>)
    returns (stop: Option<Point>, ghost grown: Nodes, ghost after: seq<Slot>)
    requires Apart(jobs) && k < |jobs| && jobs[k].target != [] && Pictures(fs.nodes, base, jobs, slots)
    modifies fs
    ensures Pictures(fs.nodes, grown, jobs, after) && Grown(base, grown, jobs)
    ensures stop == OpenStop(k, ParentsFree(old(fs.nodes), jobs[k].target), faults)
    ensures after == if stop.Some? && (stop.value.Mkdir? || stop.value.Mkstemp?) then slots
                     else WithStage(slots, k, Some(EmptyFile(jobs[k])))
  {
    after, grown := slots, base;
    if Mkdir(k) in faults { return Some(Mkdir(k)), grown, after; }
    var made;
    made, grown := fs.MakeParents(jobs, k, base, slots);
    if !made { return Some(Mkdir(k)), grown, after; }
    if Mkstemp(k) in faults { return Some(Mkstemp(k)), grown, after; }
    PictureChange(fs.nodes, grown, jobs, slots, k, Stage, Some(EmptyFile(jobs[k])));
    fs.nodes := Put(fs.nodes, jobs[k].stage, Some(EmptyFile(jobs[k])));
    after := WithStage(slots, k, Some(EmptyFile(jobs[k])));
    if Close(k) in faults { return Some(Close(k)), grown, after; }
    if RecordStage(k) in faults { return Some(RecordStage(k)), grown, after; }
    stop := None;
  }

  /** Copies the binary into the stage, or replaces the stage by the link. */
  method FillStage(fs: FileSystem, jobs: seq<Job>, k: nat, garbage: string, faults: set<Point>, ghost base: Nodes,
                   ghost slots: seq<Slot>)
    returns (stop: Option<Point>, ghost stage: Option<Node>)
    requires Apart(jobs) && k < |jobs| && Pictures(fs.nodes, base, jobs, slots)
    modifies fs
    ensures stop == FillStop(jobs[k], k, faults) && Pictures(fs.nodes, base, jobs, WithStage(slots, k, stage))
    ensures stop.None? ==> stage == Some(jobs[k].payload)
  {
    var job := jobs[k];
    stage := slots[k].stage;
    assert WithStage(slots, k, stage) == slots;
    if job.payload.File? {
      stage := if Copy(k) in faults then Some(File(0, garbage)) else Some(job.payload);
      PictureChange(fs.nodes, base, jobs, slots, k, Stage, stage);
      if Copy(k) in faults {
        fs.nodes := Put(fs.nodes, job.stage, Some(File(0, garbage)));
        return Some(Copy(k)), stage;
      }
      fs.nodes := Put(fs.nodes, job.stage, Some(job.payload));
      if Check(k) in faults { return Some(Check(k)), stage; }
    } else {
      if Unlink(k) in faults { return Some(Unlink(k)), stage; }
      stage := None;
      PictureChange(fs.nodes, base, jobs, slots, k, Stage, None);
      fs.UnlinkIfPresent(job.stage);
      if Symlink(k) in faults { return Some(Symlink(k)), stage; }
      stage := Some(job.payload);
      PictureChange(fs.nodes, base, jobs, WithStage(slots, k, None), k, Stage, stage);
      assert WithStage(WithStage(slots, k, None), k, stage) == WithStage(slots, k, stage);
      fs.nodes := Put(fs.nodes, job.stage, Some(job.payload));
    }
    stop := None;
  }

  /** Stages one job. `recorded` says whether its stage is on the list to be swept. */
  method StageOne(fs: FileSystem, jobs: seq<Job>, k: nat, garbage: string, faults: set<Point>, ghost base: Nodes,
                  ghost slots: seq<Slot>)
    returns (stop: Option<Point>, recorded: bool, ghost grown: Nodes, ghost after: seq<Slot>)
    requires Apart(jobs) && k < |jobs| && jobs[k].target != [] && Pictures(fs.nodes, base, jobs, slots)
    modifies fs
    ensures Pictures(fs.nodes, grown, jobs, after) && Grown(base, grown, jobs)
    ensures stop == StageStop(jobs[k], k, ParentsFree(old(fs.nodes), jobs[k].target), faults)
    ensures recorded <==> OpenStop(k, ParentsFree(old(fs.nodes), jobs[k].target), faults).None?
    ensures !recorded ==>
            after == if stop.value.Mkdir? || stop.value.Mkstemp? then slots
                     else WithStage(slots, k, Some(EmptyFile(jobs[k])))
    ensures recorded ==> exists v :: after == WithStage(slots, k, v)
    ensures stop.None? ==> after == WithStage(slots, k, Some(jobs[k].payload))
  {
    stop, grown, after := OpenStage(fs, jobs, k, faults, base, slots);
    recorded := stop.None?;
    if recorded {
      ghost var stage;
      stop, stage := FillStage(fs, jobs, k, garbage, faults, grown, after);
      assert WithStage(after, k, stage) == WithStage(slots, k, stage);
      after := WithStage(slots, k, stage);
    }
  }

  /** Every target has only directories above it. */
  ghost predicate AllFree(nodes: Nodes, jobs: seq<Job>) {
    forall j | 0 <= j < |jobs| :: ParentsFree(nodes, jobs[j].target)
  }

  /** Where staging from job `k` on stops, when all parents can be made. */
  function StagesStop(jobs: seq<Job>, k: nat, faults: set<Point>): Option<Point>
    requires k <= |jobs|
    decreases |jobs| - k
  {
    if k == |jobs| then None
    else if StageStop(jobs[k], k, true, faults).Some? then StageStop(jobs[k], k, true, faults)
    else StagesStop(jobs, k + 1, faults)
  }

  lemma StagedNext(slots: seq<Slot>, jobs: seq<Job>, orig: seq<Option<Node>>, k: nat)
    requires k < |jobs| && StagedTo(slots, jobs, orig, k)
    ensures StagedTo(WithStage(slots, k, Some(jobs[k].payload)), jobs, orig, k + 1)
  {
  }

  lemma StagingStops(slots: seq<Slot>, after: seq<Slot>, jobs: seq<Job>, orig: seq<Option<Node>>, k: nat, free: bool,
                     faults: set<Point>)
    requires k < |jobs| && StagedTo(slots, jobs, orig, k) && OpenStop(k, free, faults).Some?
    requires var stop := OpenStop(k, free, faults).value;
             after == if stop.Mkdir? || stop.Mkstemp? then slots else WithStage(slots, k, Some(EmptyFile(jobs[k])))
    ensures StagingStopped(after, jobs, orig, k, OpenStop(k, free, faults).value)
  {
  }

  lemma FillingStops(slots: seq<Slot>, jobs: seq<Job>, orig: seq<Option<Node>>, k: nat, v: Option<Node>,
                     faults: set<Point>)
    requires k < |jobs| && StagedTo(slots, jobs, orig, k) && FillStop(jobs[k], k, faults).Some?
    ensures StagingStopped(WithStage(slots, k, v), jobs, orig, k + 1, FillStop(jobs[k], k, faults).value)
  {
  }

  /** Staging stopped: targets and backups are untouched, and stages off the list are only those the failure left. */
  ghost predicate StagingStopped(slots: seq<Slot>, jobs: seq<Job>, orig: seq<Option<Node>>, stages: nat, stop: Point) {
    && |slots| == |jobs| == |orig| && stages <= |jobs|
    && forall i | 0 <= i < |jobs| ::
         && slots[i].target == orig[i] && slots[i].backup == None
         && LeftBy(stop, i, orig[i], jobs[i]) == if i < stages then Untouched(orig[i]) else slots[i]
  }

  method StageAll(fs: FileSystem, jobs: seq<Job>, garbage: string, faults: set<Point>, ghost base: Nodes,
                  ghost slots: seq<Slot>,
                  ghost orig: seq<Option<Node>>)
    returns (stop: Option<Point>, stages: nat, ghost grown: Nodes, ghost after: seq<Slot>)
    requires Apart(jobs) && Absolute(Targets(jobs)) && Pictures(fs.nodes, base, jobs, slots)
    requires StagedTo(slots, jobs, orig, 0)
    modifies fs
    ensures Pictures(fs.nodes, grown, jobs, after) && Grown(base, grown, jobs)
    ensures stop.None? ==> stages == |jobs| && StagedTo(after, jobs, orig, |jobs|)
    ensures stop.Some? ==> StagingStopped(after, jobs, orig, stages, stop.value)
    ensures AllFree(base, jobs) ==> stop == StagesStop(jobs, 0, faults)
  {
    stop, stages, grown, after := None, 0, base, slots;
    ghost var (free, all) := (AllFree(base, jobs), StagesStop(jobs, 0, faults));
    for k := 0 to |jobs|
      invariant stages == k && stop.None? && StagedTo(after, jobs, orig, k)
      invariant Pictures(fs.nodes, grown, jobs, after) && Grown(base, grown, jobs)
      invariant free ==> all == StagesStop(jobs, k, faults)
    {
      assert Targets(jobs)[k] == jobs[k].target;
      if free { StillFree(base, fs.nodes, grown, jobs, after, k); }
      var recorded;
      stop, recorded, grown, after := StageNext(fs, jobs, k, garbage, faults, base, grown, after, orig);
      if recorded { stages := k + 1; }
      if stop.Some? { return; }
    }
  }

  /** One turn of the staging loop. */
  method StageNext(fs: FileSystem, jobs: seq<Job>, k: nat, garbage: string, faults: set<Point>, ghost first: Nodes,
                   ghost base: Nodes,
                   ghost slots: seq<Slot>, ghost orig: seq<Option<Node>>)
    returns (stop: Option<Point>, recorded: bool, ghost grown: Nodes, ghost after: seq<Slot>)
    requires Apart(jobs) && k < |jobs| && jobs[k].target != [] && Pictures(fs.nodes, base, jobs, slots)
    requires Grown(first, base, jobs) && StagedTo(slots, jobs, orig, k)
    modifies fs
    ensures Pictures(fs.nodes, grown, jobs, after) && Grown(first, grown, jobs)
    ensures stop == StageStop(jobs[k], k, ParentsFree(old(fs.nodes), jobs[k].target), faults)
    ensures stop.None? ==> recorded && StagedTo(after, jobs, orig, k + 1)
    ensures stop.Some? ==> StagingStopped(after, jobs, orig, if recorded then k + 1 else k, stop.value)
  {
    ghost var free := ParentsFree(fs.nodes, jobs[k].target);
    stop, recorded, grown, after := StageOne(fs, jobs, k, garbage, faults, base, slots);
    GrownTwice(first, base, grown, jobs);
    if stop.None? {
      StagedNext(slots, jobs, orig, k);
    } else if recorded {
      ghost var v :| after == WithStage(slots, k, v);
      FillingStops(slots, jobs, orig, k, v, faults);
    } else {
      StagingStops(slots, after, jobs, orig, k, free, faults);
    }
  }

  /** Replacement stopped: noted jobs have their backups, the rest is untouched but for one unnoted move. */
  ghost predicate ReplacingStopped(slots: seq<Slot>, orig: seq<Option<Node>>, replaced: nat, stop: Point) {
    && |slots| == |orig| && replaced <= |orig|
    && forall i | 0 <= i < |orig| ::
         if i < replaced then slots[i].backup == orig[i] && stop != RecordMove(i)
         else if stop == RecordMove(i) then slots[i].target == None && slots[i].backup == orig[i]
         else slots[i].target == orig[i] && slots[i].backup == None
  }

  /** Which backups are noted for undoing. */
  ghost predicate Noted(replaced: seq<Option<Path>>, jobs: seq<Job>, orig: seq<Option<Node>>) {
    && |replaced| <= |jobs| == |orig|
    && forall i | 0 <= i < |replaced| :: replaced[i] == if orig[i].Some? then Some(jobs[i].backup) else None
  }

  /** Where the replacement of one target stops: the first of its steps that fails. */
  function ReplaceStop(k: nat, present: bool, faults: set<Point>): Option<Point> {
    if present && MoveAway(k) in faults then Some(MoveAway(k))
    else if RecordMove(k) in faults then Some(RecordMove(k))
    else if MoveIn(k) in faults then Some(MoveIn(k))
    else None
  }

  function ReplacesStop(orig: seq<Option<Node>>, k: nat, faults: set<Point>): Option<Point>
    requires k <= |orig|
    decreases |orig| - k
  {
    if k == |orig| then None
    else if ReplaceStop(k, orig[k].Some?, faults).Some? then ReplaceStop(k, orig[k].Some?, faults)
    else ReplacesStop(orig, k + 1, faults)
  }

  function ProbesStop(jobs: seq<Job>, k: nat, faults: set<Point>): Option<Point>
    requires k <= |jobs|
    decreases |jobs| - k
  {
    if k == |jobs| then None
    else if jobs[k].payload.File? && Probe(k) in faults then Some(Probe(k))
    else ProbesStop(jobs, k + 1, faults)
  }

  function WithSlot(slots: seq<Slot>, k: nat, slot: Slot): (r: seq<Slot>)
    requires k < |slots|
    ensures |r| == |slots|
  {
    slots[k := slot]
  }

  /** Moves an existing entry to its backup name; the target name is free afterwards. */
  method MoveAside(fs: FileSystem, jobs: seq<Job>, k: nat, ghost base: Nodes, ghost slots: seq<Slot>)
    returns (backup: Option<Path>)
    requires Apart(jobs) && k < |jobs| && Pictures(fs.nodes, base, jobs, slots) && slots[k].backup == None
    modifies fs
    ensures Pictures(fs.nodes, base, jobs, WithSlot(slots, k, Slot(None, slots[k].stage, slots[k].target)))
    ensures backup == if slots[k].target.Some? then Some(jobs[k].backup) else None
  {
    var job := jobs[k];
    assert Look(fs.nodes, NameOf(job, Target)) == Held(slots[k], Target);
    backup := None;
    ghost var aside := WithSlot(slots, k, Slot(None, slots[k].stage, slots[k].target));
    if job.target in fs.nodes {
      backup := Some(job.backup);
      assert NameOf(job, Target) != NameOf(job, Backup);
      PictureChange(fs.nodes, base, jobs, slots, k, Target, None);
      ghost var gone := WithSlot(slots, k, slots[k].(target := None));
      PictureChange(Put(fs.nodes, job.target, None), base, jobs, gone, k, Backup, slots[k].target);
      fs.Replace(job.target, job.backup);
      assert gone[k := gone[k].(backup := slots[k].target)] == aside;
    } else {
      assert aside == slots;
    }
  }

  /** Moves the stage to the target name. */
  method MoveInto(fs: FileSystem, jobs: seq<Job>, k: nat, ghost base: Nodes, ghost slots: seq<Slot>)
    requires Apart(jobs) && k < |jobs| && Pictures(fs.nodes, base, jobs, slots) && slots[k].stage.Some?
    modifies fs
    ensures Pictures(fs.nodes, base, jobs, WithSlot(slots, k, Slot(slots[k].stage, None, slots[k].backup)))
  {
    var job := jobs[k];
    assert Look(fs.nodes, NameOf(job, Stage)) == Held(slots[k], Stage) && NameOf(job, Stage) != NameOf(job, Target);
    PictureChange(fs.nodes, base, jobs, slots, k, Stage, None);
    ghost var between := WithSlot(slots, k, slots[k].(stage := None));
    PictureChange(Put(fs.nodes, job.stage, None), base, jobs, between, k, Target, slots[k].stage);
    fs.Replace(job.stage, job.target);
    assert between[k := between[k].(target := slots[k].stage)] ==
        WithSlot(slots, k, Slot(slots[k].stage, None, slots[k].backup));
  }

  /** Moves one old entry to its backup name and the stage to the target. */
  method ReplaceOne(fs: FileSystem, jobs: seq<Job>, k: nat, replaced: seq<Option<Path>>, faults: set<Point>,
                    ghost base: Nodes, ghost slots: seq<Slot>, ghost orig: seq<Option<Node>>)
    returns (stop: Option<Point>, noted: seq<Option<Path>>, ghost after: seq<Slot>)
    requires Apart(jobs) && k < |jobs| && Pictures(fs.nodes, base, jobs, slots) && ReplacedTo(slots, jobs, orig, k)
    requires |replaced| == k && Noted(replaced, jobs, orig)
    modifies fs
    ensures Pictures(fs.nodes, base, jobs, after) && Noted(noted, jobs, orig)
    ensures stop == ReplaceStop(k, orig[k].Some?, faults)
    ensures stop.None? ==> |noted| == k + 1 && ReplacedTo(after, jobs, orig, k + 1)
    ensures stop.Some? ==> ReplacingStopped(after, orig, |noted|, stop.value)
  {
    stop, noted, after := None, replaced, slots;
    assert Look(fs.nodes, NameOf(jobs[k], Target)) == Held(slots[k], Target);
    if jobs[k].target in fs.nodes && MoveAway(k) in faults { return Some(MoveAway(k)), noted, after; }
    var backup := MoveAside(fs, jobs, k, base, slots);
    after := WithSlot(slots, k, Slot(None, Some(jobs[k].payload), orig[k]));
    if RecordMove(k) in faults { return Some(RecordMove(k)), noted, after; }
    noted := replaced + [backup];
    if MoveIn(k) in faults { return Some(MoveIn(k)), noted, after; }
    MoveInto(fs, jobs, k, base, after);
    after := WithSlot(after, k, Slot(Some(jobs[k].payload), None, orig[k]));
  }

  method ReplaceAll(fs: FileSystem, jobs: seq<Job>, faults: set<Point>, ghost base: Nodes, ghost slots: seq<Slot>,
                    ghost orig: seq<Option<Node>>)
    returns (stop: Option<Point>, replaced: seq<Option<Path>>, ghost after: seq<Slot>)
    requires Apart(jobs) && Pictures(fs.nodes, base, jobs, slots) && StagedTo(slots, jobs, orig, |jobs|)
    modifies fs
    ensures Pictures(fs.nodes, base, jobs, after) && Noted(replaced, jobs, orig)
    ensures stop == if ReplacesStop(orig, 0, faults).Some? then ReplacesStop(orig, 0, faults)
            else ProbesStop(jobs, 0, faults)
    ensures stop.None? ==> ReplacedTo(after, jobs, orig, |jobs|)
    ensures stop.Some? ==>
            ReplacingStopped(after, orig, |replaced|, stop.value) && !stop.value.Close? && !stop.value.RecordStage?
  {
    stop, replaced, after := None, [], slots;
    for k := 0 to |jobs|
      invariant stop.None? && |replaced| == k && Noted(replaced, jobs, orig)
      invariant ReplacesStop(orig, 0, faults) == ReplacesStop(orig, k, faults)
      invariant Pictures(fs.nodes, base, jobs, after) && ReplacedTo(after, jobs, orig, k)
    {
      stop, replaced, after := ReplaceOne(fs, jobs, k, replaced, faults, base, after, orig);
      if stop.Some? { return; }
    }
    for k := 0 to |jobs|
      invariant stop.None? && ProbesStop(jobs, 0, faults) == ProbesStop(jobs, k, faults)
    {
      if jobs[k].payload.File? && Probe(k) in faults { return Some(Probe(k)), replaced, after; }
    }
  }

  /** Undoing puts every noted entry back, in reverse; one that cannot be put back stays under its backup name. */
  ghost predicate RolledBack(before: seq<Slot>, after: seq<Slot>, orig: seq<Option<Node>>, replaced: nat, from: nat,
                             faults: set<Point>) {
    && |before| == |after| == |orig|
    && forall i | 0 <= i < |orig| ::
         after[i] == if from <= i < replaced && Undo(i) !in faults then Slot(orig[i], before[i].stage, None)
                     else before[i]
  }

  method RollBack(fs: FileSystem, jobs: seq<Job>, replaced: seq<Option<Path>>, faults: set<Point>,
                  ghost base: Nodes, ghost slots: seq<Slot>, ghost orig: seq<Option<Node>>)
    returns (ghost after: seq<Slot>)
    requires Apart(jobs) && Pictures(fs.nodes, base, jobs, slots) && Noted(replaced, jobs, orig)
    requires forall i | 0 <= i < |replaced| :: slots[i].backup == orig[i]
    modifies fs
    ensures Pictures(fs.nodes, base, jobs, after) && RolledBack(slots, after, orig, |replaced|, 0, faults)
  {
    after := slots;
    for i := |replaced| downto 0
      invariant Pictures(fs.nodes, base, jobs, after) && RolledBack(slots, after, orig, |replaced|, i, faults)
    {
      if Undo(i) !in faults {
        var job := jobs[i];
        ghost var back := after[i := Slot(orig[i], slots[i].stage, None)];
        assert Look(fs.nodes, NameOf(job, Backup)) == Held(after[i], Backup);
        if replaced[i].Some? {
          assert NameOf(job, Target) != NameOf(job, Backup);
          PictureChange(fs.nodes, base, jobs, after, i, Backup, None);
          after := after[i := after[i].(backup := None)];
          PictureChange(Put(fs.nodes, job.backup, None), base, jobs, after, i, Target, orig[i]);
          fs.Replace(job.backup, job.target);
        } else {
          PictureChange(fs.nodes, base, jobs, after, i, Target, None);
          fs.UnlinkIfPresent(job.target);
        }
        after := back;
      }
    }
  }

  /** Removes the listed stages that are still there; the first one that cannot be removed ends it. */
  method SweepStages(fs: FileSystem, jobs: seq<Job>, stages: nat, faults: set<Point>, ghost base: Nodes,
                     ghost slots: seq<Slot>)
    returns (ghost after: seq<Slot>)
    requires Apart(jobs) && Pictures(fs.nodes, base, jobs, slots) && stages <= |jobs|
    modifies fs
    ensures Pictures(fs.nodes, base, jobs, after) && |after| == |slots|
    ensures forall i | 0 <= i < |jobs| :: after[i] == slots[i] || (i < stages && after[i] == slots[i].(stage := None))
    ensures UndoWorks(faults) || (forall i | 0 <= i < stages :: slots[i].stage == None) ==>
            forall i | 0 <= i < stages :: after[i].stage == None
    ensures forall i | 0 <= i < stages && slots[i].stage.Some? && after[i].stage.Some? ::
            exists m | 0 <= m <= i :: slots[m].stage.Some? && Sweep(m) in faults
  {
    after := slots;
    for i := 0 to stages
      invariant Pictures(fs.nodes, base, jobs, after) && |after| == |slots|
      invariant forall j | 0 <= j < |jobs| :: after[j] == if j < i then slots[j].(stage := None) else slots[j]
    {
      assert Look(fs.nodes, NameOf(jobs[i], Stage)) == Held(after[i], Stage);
      if jobs[i].stage in fs.nodes && Sweep(i) in faults { return; }
      PictureChange(fs.nodes, base, jobs, after, i, Stage, None);
      fs.UnlinkIfPresent(jobs[i].stage);
      after := after[i := after[i].(stage := None)];
    }
  }

  lemma PictureStart(nodes: Nodes, jobs: seq<Job>, orig: seq<Option<Node>>, slots: seq<Slot>)
    requires PrivateNames(nodes, jobs) && Originals(nodes, jobs, orig) && StagedTo(slots, jobs, orig, 0)
    ensures Pictures(nodes, nodes, jobs, slots)
  {
    forall i, a | 0 <= i < |jobs| ensures Look(nodes, NameOf(jobs[i], a)) == Held(slots[i], a) {
      if a != Target { assert NameOf(jobs[i], a) !in nodes; }
    }
  }

  /** Every entry that stood under a target is still there or under its backup name. */
  ghost predicate NothingLost(slots: seq<Slot>, orig: seq<Option<Node>>) {
    |slots| == |orig| && forall i | 0 <= i < |orig| && orig[i].Some? ::
        slots[i].target == orig[i] || slots[i].backup == orig[i]
  }

  /** The whole installation: complete with backups kept, or undone, whichever step fails. */
  method Install(fs: FileSystem, fold: string -> string, jobs: seq<Job>, garbage: string, faults: set<Point>)
    returns (stop: Option<Point>, ghost base: Nodes, ghost slots: seq<Slot>, ghost orig: seq<Option<Node>>)
    requires Absolute(Targets(jobs)) && Accepted(fs.nodes, fold, Targets(jobs)) && PrivateNames(fs.nodes, jobs)
    modifies fs
    ensures Originals(old(fs.nodes), jobs, orig) && Grown(old(fs.nodes), base, jobs)
    ensures Pictures(fs.nodes, base, jobs, slots)
    ensures stop.None? ==> forall i | 0 <= i < |jobs| :: slots[i] == Slot(Some(jobs[i].payload), None, orig[i])
    ensures stop.Some? && UndoWorks(faults) ==> forall i | 0 <= i < |jobs| ::
            slots[i] == LeftBy(stop.value, i, orig[i], jobs[i])
    ensures NothingLost(slots, orig)
    ensures stop.Some? && UndoWorks(faults) ==>
              (Grown(old(fs.nodes), fs.nodes, jobs) <==> forall i | 0 <= i < |jobs| :: !Window(stop.value, i, orig[i]))
    ensures IsTree(old(fs.nodes)) ==> stop == InstallStop(jobs, orig, faults)
  {
    NamesApart(fs.nodes, fold, jobs);
    if IsTree(fs.nodes) { AllParentsFree(fs.nodes, fold, jobs); }
    ghost var before := fs.nodes;
    orig := seq(|jobs|, i requires 0 <= i < |jobs| => Look(before, jobs[i].target));
    slots := seq(|jobs|, i requires 0 <= i < |jobs| => Untouched(orig[i]));
    PictureStart(fs.nodes, jobs, orig, slots);
    var stages, replaced;
    stop, stages, replaced, base, slots := StageAndReplace(fs, fold, jobs, garbage, faults, slots, orig);
    slots := Finish(fs, jobs, stop, stages, replaced, faults, base, slots, orig);
    if stop.Some? && UndoWorks(faults) { RestoredIff(before, fs.nodes, base, jobs, orig, slots, stop.value); }
  }

  /** Undoes a failed installation, and sweeps the stages in any case. */
  method Finish(fs: FileSystem, jobs: seq<Job>, stop: Option<Point>, stages: nat, replaced: seq<Option<Path>>,
                faults: set<Point>, ghost base: Nodes, ghost slots: seq<Slot>, ghost orig: seq<Option<Node>>)
    returns (ghost after: seq<Slot>)
    requires Apart(jobs) && Pictures(fs.nodes, base, jobs, slots) && Noted(replaced, jobs, orig) && stages <= |jobs|
    requires stop.None? ==> ReplacedTo(slots, jobs, orig, |jobs|)
    requires stop.Some? ==> Halted(slots, jobs, orig, stages, |replaced|, stop.value)
    modifies fs
    ensures Pictures(fs.nodes, base, jobs, after) && NothingLost(after, orig)
    ensures stop.None? ==> forall i | 0 <= i < |jobs| :: after[i] == Slot(Some(jobs[i].payload), None, orig[i])
    ensures stop.Some? && UndoWorks(faults) ==> forall i | 0 <= i < |jobs| ::
            after[i] == LeftBy(stop.value, i, orig[i], jobs[i])
  {
    after := slots;
    if stop.Some? { after := RollBack(fs, jobs, replaced, faults, base, slots, orig); }
    assert NothingLost(after, orig);
    after := SweepStages(fs, jobs, stages, faults, base, after);
  }

  /** The first step, in the order of the program, that is in `faults`. */
  function InstallStop(jobs: seq<Job>, orig: seq<Option<Node>>, faults: set<Point>): Option<Point> {
    if StagesStop(jobs, 0, faults).Some? then StagesStop(jobs, 0, faults)
    else if Recheck in faults then Some(Recheck)
    else if ReplacesStop(orig, 0, faults).Some? then ReplacesStop(orig, 0, faults)
    else ProbesStop(jobs, 0, faults)
  }

  lemma {:induction false} OnlyFaultStopsStaging(jobs: seq<Job>, k: nat, faults: set<Point>, p: Point)
    requires k <= |jobs| && faults <= {p}
    ensures p in faults && (p.Close? || p.RecordStage?) && k <= p.i < |jobs| ==> StagesStop(jobs, k, faults) == Some(p)
    ensures faults == {} || p.RecordMove? ==> StagesStop(jobs, k, faults) == None
    decreases |jobs| - k
  {
    if k < |jobs| { OnlyFaultStopsStaging(jobs, k + 1, faults, p); }
  }

  lemma {:induction false} OnlyFaultStopsReplacing(orig: seq<Option<Node>>, k: nat, faults: set<Point>, p: Point)
    requires k <= |orig| && faults <= {p}
    ensures p in faults && p.RecordMove? && k <= p.i < |orig| ==> ReplacesStop(orig, k, faults) == Some(p)
    ensures faults == {} ==> ReplacesStop(orig, k, faults) == None
    decreases |orig| - k
  {
    if k < |orig| { OnlyFaultStopsReplacing(orig, k + 1, faults, p); }
  }

  lemma {:induction false} NoFaultNoProbe(jobs: seq<Job>, k: nat)
    requires k <= |jobs|
    ensures ProbesStop(jobs, k, {}) == None
    decreases |jobs| - k
  {
    if k < |jobs| { NoFaultNoProbe(jobs, k + 1); }
  }

  /** Without faults nothing stops; each window is where an installation stops whose only fault lies there. */
  lemma WindowsAreReached(jobs: seq<Job>, orig: seq<Option<Node>>, p: Point)
    requires |orig| == |jobs|
    ensures InstallStop(jobs, orig, {}) == None
    ensures Unnoted(p) && p.i < |jobs| ==> InstallStop(jobs, orig, {p}) == Some(p)
  {
    OnlyFaultStopsStaging(jobs, 0, {}, p);
    OnlyFaultStopsReplacing(orig, 0, {}, p);
    NoFaultNoProbe(jobs, 0);
    OnlyFaultStopsStaging(jobs, 0, {p}, p);
    OnlyFaultStopsReplacing(orig, 0, {p}, p);
  }

  // ----- The order of the program -----

  /** The steps an installation of these jobs takes: a link is not copied, and only what is there is moved away. */
  predicate IsStep(jobs: seq<Job>, orig: seq<Option<Node>>, p: Point)
    requires |orig| == |jobs|
  {
    match p
    case Recheck => true
    case Mkdir(i) => i < |jobs|
    case Mkstemp(i) => i < |jobs|
    case Close(i) => i < |jobs|
    case RecordStage(i) => i < |jobs|
    case Copy(i) => i < |jobs| && jobs[i].payload.File?
    case Check(i) => i < |jobs| && jobs[i].payload.File?
    case Unlink(i) => i < |jobs| && !jobs[i].payload.File?
    case Symlink(i) => i < |jobs| && !jobs[i].payload.File?
    case MoveAway(i) => i < |jobs| && orig[i].Some?
    case RecordMove(i) => i < |jobs|
    case MoveIn(i) => i < |jobs|
    case Probe(i) => i < |jobs| && jobs[i].payload.File?
    case _ => false
  }

  /** Everything is staged, then checked once more, then replaced, then probed. */
  function Phase(p: Point): nat {
    if p.Recheck? then 1 else if p.MoveAway? || p.RecordMove? || p.MoveIn? then 2 else if p.Probe? then 3 else 0
  }

  function JobOf(p: Point): nat { if p.Recheck? then 0 else p.i }

  /** The place of a step among those of its job. */
  function Place(p: Point): nat {
    match p
    case Mkdir(_) => 0 case Mkstemp(_) => 1 case Close(_) => 2 case RecordStage(_) => 3
    case Copy(_) => 4 case Unlink(_) => 4 case Check(_) => 5 case Symlink(_) => 5
    case MoveAway(_) => 0 case RecordMove(_) => 1 case MoveIn(_) => 2
    case _ => 0
  }

  predicate Precedes(p: Point, q: Point) {
    || Phase(p) < Phase(q)
    || (Phase(p) == Phase(q) && (JobOf(p) < JobOf(q) || (JobOf(p) == JobOf(q) && Place(p) < Place(q))))
  }

  /** Step `q` of this phase, of job `k` or a later one, fails. */
  predicate FailsIn(jobs: seq<Job>, orig: seq<Option<Node>>, faults: set<Point>, phase: nat, k: nat, q: Point)
    requires |orig| == |jobs|
  {
    q in faults && IsStep(jobs, orig, q) && Phase(q) == phase && JobOf(q) >= k
  }

  /** `r` is the first of them. */
  ghost predicate FirstIn(jobs: seq<Job>, orig: seq<Option<Node>>, faults: set<Point>, phase: nat, k: nat,
                          r: Option<Point>)
    requires |orig| == |jobs|
  {
    && (r.Some? ==> FailsIn(jobs, orig, faults, phase, k, r.value))
    && forall q | q in faults && FailsIn(jobs, orig, faults, phase, k, q) ::
         r.Some? && (q == r.value || Precedes(r.value, q))
  }

  lemma OneStageFirst(jobs: seq<Job>, orig: seq<Option<Node>>, k: nat, faults: set<Point>)
    requires |orig| == |jobs| && k < |jobs|
    ensures var r := StageStop(jobs[k], k, true, faults);
            && (r.Some? ==> FailsIn(jobs, orig, faults, 0, k, r.value) && JobOf(r.value) == k)
            && forall q | q in faults && FailsIn(jobs, orig, faults, 0, k, q) && JobOf(q) == k ::
                 r.Some? && (q == r.value || Precedes(r.value, q))
  {
  }

  lemma {:induction false} StagesStopFirst(jobs: seq<Job>, orig: seq<Option<Node>>, k: nat, faults: set<Point>)
    requires |orig| == |jobs| && k <= |jobs|
    ensures FirstIn(jobs, orig, faults, 0, k, StagesStop(jobs, k, faults))
    decreases |jobs| - k
  {
    if k < |jobs| {
      OneStageFirst(jobs, orig, k, faults);
      StagesStopFirst(jobs, orig, k + 1, faults);
    }
  }

  lemma {:induction false} ReplacesStopFirst(jobs: seq<Job>, orig: seq<Option<Node>>, k: nat, faults: set<Point>)
    requires |orig| == |jobs| && k <= |jobs|
    ensures FirstIn(jobs, orig, faults, 2, k, ReplacesStop(orig, k, faults))
    decreases |jobs| - k
  {
    if k < |jobs| { ReplacesStopFirst(jobs, orig, k + 1, faults); }
  }

  lemma {:induction false} ProbesStopFirst(jobs: seq<Job>, orig: seq<Option<Node>>, k: nat, faults: set<Point>)
    requires |orig| == |jobs| && k <= |jobs|
    ensures FirstIn(jobs, orig, faults, 3, k, ProbesStop(jobs, k, faults))
    decreases |jobs| - k
  {
    if k < |jobs| { ProbesStopFirst(jobs, orig, k + 1, faults); }
  }

  /**
   An installation stops exactly at the first step of the program that fails: every one of its steps can stop it, and
   nothing else does.
   */
  lemma StopsAtFirstFault(jobs: seq<Job>, orig: seq<Option<Node>>, faults: set<Point>)
    requires |orig| == |jobs|
    ensures var r := InstallStop(jobs, orig, faults);
            && (r.Some? ==> r.value in faults && IsStep(jobs, orig, r.value))
            && forall q | q in faults && IsStep(jobs, orig, q) :: r.Some? && (q == r.value || Precedes(r.value, q))
  {
    StagesStopFirst(jobs, orig, 0, faults);
    ReplacesStopFirst(jobs, orig, 0, faults);
    ProbesStopFirst(jobs, orig, 0, faults);
    forall q | q in faults && IsStep(jobs, orig, q)
      ensures q == Recheck || FailsIn(jobs, orig, faults, Phase(q), 0, q) {}
  }

  /** The forward part stopped: each job needs at most the undo of a noted move and the sweep of a listed stage. */
  ghost predicate Halted(slots: seq<Slot>, jobs: seq<Job>, orig: seq<Option<Node>>, stages: nat, replaced: nat,
                         stop: Point) {
    && |slots| == |jobs| == |orig| && stages <= |jobs| && replaced <= |jobs|
    && forall i | 0 <= i < |jobs| ::
         var left := LeftBy(stop, i, orig[i], jobs[i]);
         && (if i < replaced then slots[i].backup == orig[i] && left == Untouched(orig[i])
             else slots[i].target == left.target && slots[i].backup == left.backup)
         && left.stage == if i < stages then None else slots[i].stage
  }

  lemma StagedStillAccepted(before: Nodes, nodes: Nodes, base: Nodes, fold: string -> string, jobs: seq<Job>,
                            start: seq<Slot>, slots: seq<Slot>, orig: seq<Option<Node>>)
    requires Apart(jobs) && Absolute(Targets(jobs)) && Accepted(before, fold, Targets(jobs))
    requires Grown(before, base, jobs)
    requires Pictures(before, before, jobs, start) && StagedTo(start, jobs, orig, 0)
    requires Pictures(nodes, base, jobs, slots) && StagedTo(slots, jobs, orig, |jobs|)
    requires AllFree(before, jobs)
    ensures Accepted(nodes, fold, Targets(jobs))
  {
    var paths := Targets(jobs);
    forall i | 0 <= i < |paths|
      ensures Look(nodes, paths[i]) == Look(before, paths[i]) && ParentsFree(nodes, paths[i]) {
      assert Look(nodes, NameOf(jobs[i], Target)) == Held(slots[i], Target);
      assert Look(before, NameOf(jobs[i], Target)) == Held(start[i], Target);
      StillFree(before, nodes, base, jobs, slots, i);
    }
    StillAccepted(before, nodes, fold, paths);
  }

  lemma AllParentsFree(nodes: Nodes, fold: string -> string, jobs: seq<Job>)
    requires IsTree(nodes) && Absolute(Targets(jobs)) && Accepted(nodes, fold, Targets(jobs))
    ensures AllFree(nodes, jobs)
  {
    forall j | 0 <= j < |jobs| ensures ParentsFree(nodes, jobs[j].target) {
      assert Targets(jobs)[j] == jobs[j].target && AcceptedAt(nodes, fold, Targets(jobs), j);
      AcceptedParentsFree(nodes, jobs[j].target);
    }
  }

  method StageAndReplace(fs: FileSystem, fold: string -> string, jobs: seq<Job>, garbage: string, faults: set<Point>,
                         ghost start: seq<Slot>, ghost orig: seq<Option<Node>>)
    returns (stop: Option<Point>, stages: nat, replaced: seq<Option<Path>>, ghost base: Nodes, ghost slots: seq<Slot>)
    requires Apart(jobs) && Absolute(Targets(jobs)) && Pictures(fs.nodes, fs.nodes, jobs, start)
    requires StagedTo(start, jobs, orig, 0)
    requires Accepted(fs.nodes, fold, Targets(jobs))
    modifies fs
    ensures Pictures(fs.nodes, base, jobs, slots) && Grown(old(fs.nodes), base, jobs) && Noted(replaced, jobs, orig)
    ensures stages <= |jobs|
    ensures stop.None? ==> ReplacedTo(slots, jobs, orig, |jobs|)
    ensures stop.Some? ==> Halted(slots, jobs, orig, stages, |replaced|, stop.value)
    ensures AllFree(old(fs.nodes), jobs) ==> stop == InstallStop(jobs, orig, faults)
  {
    replaced := [];
    stop, stages, base, slots := StageAll(fs, jobs, garbage, faults, fs.nodes, start, orig);
    if stop.Some? {
      StagingHalts(slots, jobs, orig, stages, stop.value);
      return;
    }
    if AllFree(old(fs.nodes), jobs) {
      StagedStillAccepted(old(fs.nodes), fs.nodes, base, fold, jobs, start, slots, orig);
    }
    var clear := Preflight(fs.nodes, fold, Targets(jobs));
    if Recheck in faults || !clear {
      RecheckHalts(slots, jobs, orig);
      return Some(Recheck), stages, replaced, base, slots;
    }
    stop, replaced, slots := ReplaceAll(fs, jobs, faults, base, slots, orig);
    if stop.Some? { ReplacingHalts(slots, jobs, orig, |replaced|, stop.value); }
  }

  lemma StagingHalts(slots: seq<Slot>, jobs: seq<Job>, orig: seq<Option<Node>>, stages: nat, stop: Point)
    requires StagingStopped(slots, jobs, orig, stages, stop)
    ensures Halted(slots, jobs, orig, stages, 0, stop)
  {
  }

  lemma RecheckHalts(slots: seq<Slot>, jobs: seq<Job>, orig: seq<Option<Node>>)
    requires StagedTo(slots, jobs, orig, |jobs|)
    ensures Halted(slots, jobs, orig, |jobs|, 0, Recheck)
  {
  }

  lemma ReplacingHalts(slots: seq<Slot>, jobs: seq<Job>, orig: seq<Option<Node>>, replaced: nat, stop: Point)
    requires |jobs| == |orig| && ReplacingStopped(slots, orig, replaced, stop) && !stop.Close? && !stop.RecordStage?
    ensures Halted(slots, jobs, orig, |jobs|, replaced, stop)
  {
  }

  /**
   After a failure and a working undo the directory is the initial one, created parents aside, exactly outside the
   windows.
   */
  lemma RestoredIff(before: Nodes, nodes: Nodes, base: Nodes, jobs: seq<Job>, orig: seq<Option<Node>>,
                    slots: seq<Slot>, stop: Point)
    requires Apart(jobs) && PrivateNames(before, jobs) && Originals(before, jobs, orig) && Grown(before, base, jobs)
    requires Pictures(nodes, base, jobs, slots) && forall i | 0 <= i < |jobs| ::
             slots[i] == LeftBy(stop, i, orig[i], jobs[i])
    ensures Grown(before, nodes, jobs) <==> forall i | 0 <= i < |jobs| :: !Window(stop, i, orig[i])
  {
    if forall i | 0 <= i < |jobs| :: !Window(stop, i, orig[i]) {
      UndoneMeansRestored(before, nodes, base, jobs, orig, slots);
    } else {
      var i :| 0 <= i < |jobs| && Window(stop, i, orig[i]);
      WindowShows(before, nodes, base, jobs, orig, slots, stop, i);
    }
  }

  /** What a failure in a window leaves behind can be seen: a stage nobody had, or an entry that is gone. */
  lemma WindowShows(before: Nodes, nodes: Nodes, base: Nodes, jobs: seq<Job>, orig: seq<Option<Node>>,
                    slots: seq<Slot>, stop: Point, i: nat)
    requires Apart(jobs) && PrivateNames(before, jobs) && Originals(before, jobs, orig)
    requires Pictures(nodes, base, jobs, slots)
    requires i < |jobs| && slots[i] == LeftBy(stop, i, orig[i], jobs[i]) && Window(stop, i, orig[i])
    ensures !Grown(before, nodes, jobs)
  {
    if stop.RecordMove? {
      assert Look(nodes, NameOf(jobs[i], Target)) == Held(slots[i], Target) == None;
      assert jobs[i].target in before;
    } else {
      assert Look(nodes, NameOf(jobs[i], Stage)) == Held(slots[i], Stage);
      assert NameOf(jobs[i], Stage) !in before && NameOf(jobs[i], Stage) in nodes;
      assert forall j | 0 <= j < |jobs| :: !Above(NameOf(jobs[i], Stage), jobs[j].target);
    }
  }

  /** When every job is left as it was, the directory is exactly the initial one apart from created parents. */
  lemma UndoneMeansRestored(before: Nodes, nodes: Nodes, base: Nodes, jobs: seq<Job>, orig: seq<Option<Node>>,
                            slots: seq<Slot>)
    requires Apart(jobs) && PrivateNames(before, jobs) && Originals(before, jobs, orig) && Grown(before, base, jobs)
    requires Pictures(nodes, base, jobs, slots) && forall i | 0 <= i < |jobs| :: slots[i] == Untouched(orig[i])
    ensures Grown(before, nodes, jobs)
  {
    forall p | IsName(jobs, p) ensures Look(nodes, p) == Look(before, p) {
      var i, a :| 0 <= i < |jobs| && NameOf(jobs[i], a) == p;
      assert Look(nodes, NameOf(jobs[i], a)) == Held(slots[i], a);
      if a != Target { assert NameOf(jobs[i], a) !in before; }
    }
    forall p | p in before ensures p in nodes && nodes[p] == before[p] { assert Look(before, p) == Look(nodes, p); }
    forall p | p in nodes && p !in before
      ensures nodes[p] == Dir && exists j | 0 <= j < |jobs| :: Above(p, jobs[j].target) {
      assert Look(nodes, p) == Look(base, p);
    }
  }
}
