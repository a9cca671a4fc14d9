/**
 Exclusive creation and exact removal of one directory entry, run by any number of
 concurrent callers against arbitrary other directory activity
 (crates/memcore/src/anchored_fs.rs).

 A call is a small-step program over one directory. Between any two of its steps other
 calls and the environment may act: it may rename, link, unlink and create entries, also
 from and to other directories. It leaves alone only the fresh names a call generates and
 the unpublished files under them.
 */
module AnchoredFs {
  import opened Prelude

  type Name = string
  type Inode = nat
  type Bytes = seq<bv8>
  type CallId = nat

  datatype Object = Regular(bytes: Bytes) | Symlink | Special

  datatype Fs = Fs(dir: map<Name, Inode>, objects: map<Inode, Object>)

  /** `sibling` is the freshly generated name: the temporary of a create, the capture of a remove. */
  datatype Call =
    | Create(name: Name, contents: Bytes, sibling: Name)
    | Remove(name: Name, expected: Bytes, sibling: Name)

  datatype Outcome =
    | InvalidName
    | OpenFailed
    | Created
    | CreatedUnsynced            // renamed into place, directory sync failed
    | Exists
    | WriteError(leftover: bool)
    | RenameError(leftover: bool)
    | LoserUnlinkFailed
    | NotFound
    | CaptureFailed
    | Removed
    | RemovedUnsynced
    | UnlinkFailed(ino: Inode)
    | Kept                       // differed, restored under its own name
    | KeptUnsynced
    | InspectError               // inspection failed, restored under its own name
    | Preserved(ino: Inode)      // could not be restored: stays under the captured name

  /** Program counters; each names the next action of the call. */
  datatype Pc =
    | Ready
    | Writing(ino: Inode, written: nat)
    | Abandoned(ino: Inode)                  // write failed, unlink the temporary
    | Written(ino: Inode)
    | Published(ino: Inode)
    | Lost(ino: Inode)
    | Refused(ino: Inode)
    | Captured(ino: Inode)
    | Reading(ino: Inode, observed: Bytes, left: nat)
    | Matched(ino: Inode)
    | Differs(ino: Inode)
    | Uninspected(ino: Inode)
    | Unlinked
    | Restored
    | Done(outcome: Outcome)

  /**
   What the operating system decides at one step. `bound` limits the reads of an inspection, fixed when
   the file is opened: any inspection that ends stays below some bound, and one that reaches it counts as failed.
   */
  datatype Event = Event(fault: bool, alloc: Inode, chunk: nat, bound: nat)

  predicate OrdinaryName(name: Name) {
    name != "" && name != "." && name != ".." && '/' !in name && '\0' !in name
  }

  function RenameNoReplace(dir: map<Name, Inode>, source: Name, target: Name): Option<map<Name, Inode>> {
    if source in dir && target !in dir then Some((dir - {source})[target := dir[source]]) else None
  }

  function Smaller(a: nat, b: nat): nat { if a < b then a else b }

  /** One step of a call. A finished call stays as it is. */
  function Advance(call: Call, pc: Pc, fs: Fs, ev: Event): (Pc, Fs) {
    match call
    case Create(name, contents, tmp) => AdvanceCreate(name, contents, tmp, pc, fs, ev)
    case Remove(name, expected, cap) => AdvanceRemove(name, expected, cap, pc, fs, ev)
  }

  function AdvanceCreate(name: Name, contents: Bytes, tmp: Name, pc: Pc, fs: Fs, ev: Event): (Pc, Fs) {
    match pc
    case Ready =>
      if !OrdinaryName(name) then (Done(InvalidName), fs)
      else if ev.fault || tmp in fs.dir || ev.alloc in fs.objects then (Done(OpenFailed), fs)
      else (Writing(ev.alloc, 0), Fs(fs.dir[tmp := ev.alloc], fs.objects[ev.alloc := Regular([])]))
    case Writing(ino, written) =>
      if ev.fault || written > |contents| then (Abandoned(ino), fs)
      else if written == |contents| then (Written(ino), fs)      // all bytes written: sync
      else
        var upto := Smaller(written + 1 + ev.chunk, |contents|);
        (Writing(ino, upto), fs.(objects := fs.objects[ino := Regular(contents[..upto])]))
    case Abandoned(ino) =>
      if ev.fault || tmp !in fs.dir then (Done(WriteError(tmp in fs.dir)), fs)
      else (Done(WriteError(false)), fs.(dir := fs.dir - {tmp}))
    case Written(ino) =>
      if ev.fault then (Refused(ino), fs)
      else if name in fs.dir then (Lost(ino), fs)
      else (match RenameNoReplace(fs.dir, tmp, name)
            case Some(dir) => (Published(ino), fs.(dir := dir))
            case None => (Refused(ino), fs))
    case Published(ino) => (Done(if ev.fault then CreatedUnsynced else Created), fs)
    case Lost(ino) =>
      if ev.fault || tmp !in fs.dir then (Done(LoserUnlinkFailed), fs)
      else (Done(Exists), fs.(dir := fs.dir - {tmp}))
    case Refused(ino) =>
      if ev.fault || tmp !in fs.dir then (Done(RenameError(tmp in fs.dir)), fs)
      else (Done(RenameError(false)), fs.(dir := fs.dir - {tmp}))
    case _ => (pc, fs)
  }

  /** What one read returns: at least one byte, from where the last read ended, of the file as it is now. */
  function NextBytes(fs: Fs, ino: Inode, observed: Bytes, ev: Event): Bytes
    requires ino in fs.objects && fs.objects[ino].Regular? && |observed| < |fs.objects[ino].bytes|
  {
    var bytes := fs.objects[ino].bytes;
    bytes[|observed|..Smaller(|observed| + 1 + ev.chunk, |bytes|)]
  }

  function AdvanceRemove(name: Name, expected: Bytes, cap: Name, pc: Pc, fs: Fs, ev: Event): (Pc, Fs) {
    match pc
    case Ready =>
      if !OrdinaryName(name) then (Done(InvalidName), fs)
      else if ev.fault then (Done(CaptureFailed), fs)
      else if name !in fs.dir then (Done(NotFound), fs)
      else (match RenameNoReplace(fs.dir, name, cap)
            case Some(dir) => (Captured(fs.dir[name]), fs.(dir := dir))
            case None => (Done(CaptureFailed), fs))
    case Captured(ino) =>
      if ev.fault || cap !in fs.dir || fs.dir[cap] !in fs.objects then (Uninspected(ino), fs)
      else if fs.objects[fs.dir[cap]].Regular? then (Reading(fs.dir[cap], [], ev.bound), fs)
      else (Differs(ino), fs)
    case Reading(ino, observed, left) =>
      if ev.fault || left == 0 || ino !in fs.objects || !fs.objects[ino].Regular? then (Uninspected(ino), fs)
      else if |observed| < |fs.objects[ino].bytes| then
        (Reading(ino, observed + NextBytes(fs, ino, observed, ev), left - 1), fs)
      else if observed == expected then (Matched(ino), fs)
      else (Differs(ino), fs)
    case Matched(ino) =>
      if ev.fault || cap !in fs.dir then (Done(UnlinkFailed(ino)), fs)
      else (Unlinked, fs.(dir := fs.dir - {cap}))
    case Unlinked => (Done(if ev.fault then RemovedUnsynced else Removed), fs)
    case Differs(ino) =>
      (match RenameNoReplace(fs.dir, cap, name)
       case Some(dir) => if ev.fault then (Done(Preserved(ino)), fs) else (Restored, fs.(dir := dir))
       case None => (Done(Preserved(ino)), fs))
    case Restored => (Done(if ev.fault then KeptUnsynced else Kept), fs)
    case Uninspected(ino) =>
      (match RenameNoReplace(fs.dir, cap, name)
       case Some(dir) => if ev.fault then (Done(Preserved(ino)), fs) else (Done(InspectError), fs.(dir := dir))
       case None => (Done(Preserved(ino)), fs))
    case _ => (pc, fs)
  }

  // ----- The concurrent system -----

  /** `made` and `won` are history: the inode each create allocated, and the creates whose rename succeeded. */
  datatype State = State(fs: Fs, pcs: map<CallId, Pc>, made: map<CallId, Inode>, won: set<CallId>)

  function FreshNames(calls: map<CallId, Call>): set<Name> {
    set t | t in calls :: calls[t].sibling
  }

  ghost predicate WellFormedCalls(calls: map<CallId, Call>) {
    && (forall t, u | t in calls && u in calls && t != u :: calls[t].sibling != calls[u].sibling)
    && (forall t, u | t in calls && u in calls :: calls[t].name != calls[u].sibling)
  }

  predicate Closed(fs: Fs) {
    forall n | n in fs.dir :: fs.dir[n] in fs.objects
  }

  ghost predicate Init(calls: map<CallId, Call>, s: State) {
    && WellFormedCalls(calls)
    && Closed(s.fs)
    && s.pcs.Keys == calls.Keys
    && (forall t | t in calls :: s.pcs[t] == Ready)
    && (forall t | t in calls :: calls[t].sibling !in s.fs.dir)
    && s.made == map[] && s.won == {}
  }

  /** The state after call `t` takes one step. */
  function Stepped(calls: map<CallId, Call>, s: State, t: CallId, ev: Event): State
    requires t in calls && t in s.pcs
  {
    var (pc, fs) := Advance(calls[t], s.pcs[t], s.fs, ev);
    State(fs, s.pcs[t := pc],
          if s.pcs[t].Ready? && pc.Writing? then s.made[t := pc.ino] else s.made,
          if s.pcs[t].Written? && pc.Published? then s.won + {t} else s.won)
  }

  ghost predicate CallStep(calls: map<CallId, Call>, s: State, t: CallId, ev: Event, s': State) {
    t in calls && t in s.pcs && s' == Stepped(calls, s, t, ev)
  }

  /** A file some create has made and not published: under its temporary name, or already without a name. */
  predicate Unpublished(calls: map<CallId, Call>, s: State, i: Inode) {
    HeldByTemporary(calls, s.fs, i) || exists t | t in s.made && t !in s.won :: s.made[t] == i
  }

  /**
   Anything other processes may do: any entry but a fresh name may be bound, rebound or unbound, to a new object or to
   one that exists, here or elsewhere. Fresh names are not rebound, and an unpublished file is neither linked
   nor written. With `writers` false the environment performs directory operations only; with `writers` true it may
   also rewrite files in place.
   */
  ghost predicate EnvStep(calls: map<CallId, Call>, writers: bool, s: State, s': State) {
    && s'.pcs == s.pcs && s'.made == s.made && s'.won == s.won
    && Closed(s'.fs)
    && (forall n {:trigger KeptName(s, s', n)} | n in FreshNames(calls) :: KeptName(s, s', n))
    && (forall n {:trigger MayBind(calls, s, s', n)} :: MayBind(calls, s, s', n))
    && (forall i {:trigger MayWrite(calls, writers, s, s', i)} :: MayWrite(calls, writers, s, s', i))
  }

  ghost predicate KeptName(s: State, s': State, n: Name) {
    (n in s.fs.dir <==> n in s'.fs.dir) && (n in s.fs.dir ==> s'.fs.dir[n] == s.fs.dir[n])
  }

  /** A name is as it was, or bound to anything but an unpublished file. */
  ghost predicate MayBind(calls: map<CallId, Call>, s: State, s': State, n: Name) {
    n in s'.fs.dir && n !in FreshNames(calls) ==>
      || (n in s.fs.dir && s.fs.dir[n] == s'.fs.dir[n])
      || s'.fs.dir[n] !in s.fs.objects || !Unpublished(calls, s, s'.fs.dir[n])
  }

  ghost predicate MayWrite(calls: map<CallId, Call>, writers: bool, s: State, s': State, i: Inode) {
    var (o, o') := (s.fs.objects, s'.fs.objects);
    i in o ==>
      && i in o'
      && (o'[i] == o[i] || (writers && o[i].Regular? && o'[i].Regular? && !HeldByTemporary(calls, s.fs, i)))
  }

  predicate HeldByTemporary(calls: map<CallId, Call>, fs: Fs, i: Inode) {
    exists t | t in calls && calls[t].Create? :: calls[t].sibling in fs.dir && fs.dir[calls[t].sibling] == i
  }

  ghost predicate Next(calls: map<CallId, Call>, writers: bool, s: State, s': State) {
    || EnvStep(calls, writers, s, s')
    || exists t, ev :: CallStep(calls, s, t, ev, s')
  }

  ghost predicate StepAt(calls: map<CallId, Call>, writers: bool, b: seq<State>, k: nat) {
    0 < k < |b| && Next(calls, writers, b[k - 1], b[k])
  }

  ghost predicate Run(calls: map<CallId, Call>, writers: bool, b: seq<State>) {
    && |b| > 0
    && Init(calls, b[0])
    && forall k | 0 < k < |b| :: StepAt(calls, writers, b, k)
  }

  // ----- The invariant -----

  /** `sibling` names exactly `ino`, and nothing else does. */
  ghost predicate SoleLink(fs: Fs, sibling: Name, ino: Inode) {
    && sibling in fs.dir && fs.dir[sibling] == ino
    && forall n | n in fs.dir && fs.dir[n] == ino :: n == sibling
  }

  ghost predicate Names(fs: Fs, n: Name, ino: Inode) { n in fs.dir && fs.dir[n] == ino }

  ghost predicate CallInv(call: Call, pc: Pc, fs: Fs) {
    match call
    case Create(name, contents, tmp) => (
      match pc
      case Writing(ino, k) =>
        k <= |contents| && SoleLink(fs, tmp, ino) && ino in fs.objects && fs.objects[ino] == Regular(contents[..k])
      case Written(ino) => SoleLink(fs, tmp, ino) && ino in fs.objects && fs.objects[ino] == Regular(contents)
      case Abandoned(ino) => SoleLink(fs, tmp, ino)
      case Lost(ino) => SoleLink(fs, tmp, ino)
      case Refused(ino) => SoleLink(fs, tmp, ino)
      case Done(WriteError(true)) => true
      case Done(RenameError(true)) => true
      case Done(LoserUnlinkFailed) => true
      case _ => tmp !in fs.dir
    )
    case Remove(name, expected, cap) => (
      match pc
      case Captured(ino) => Names(fs, cap, ino)
      case Reading(ino, _, _) => Names(fs, cap, ino) && ino in fs.objects && fs.objects[ino].Regular?
      case Matched(ino) => Names(fs, cap, ino)
      case Differs(ino) => Names(fs, cap, ino)
      case Uninspected(ino) => Names(fs, cap, ino)
      case Done(UnlinkFailed(ino)) => Names(fs, cap, ino)
      case Done(Preserved(ino)) => Names(fs, cap, ino)
      case _ => cap !in fs.dir
    )
  }

  ghost predicate Inv(calls: map<CallId, Call>, s: State) {
    && WellFormedCalls(calls)
    && Closed(s.fs)
    && s.pcs.Keys == calls.Keys
    && forall t {:trigger InvAt(calls, s, t)} | t in calls :: InvAt(calls, s, t)
  }

  ghost predicate InvAt(calls: map<CallId, Call>, s: State, t: CallId) {
    t in calls && t in s.pcs && CallInv(calls[t], s.pcs[t], s.fs)
  }

  lemma CreateStep(call: Call, pc: Pc, fs: Fs, ev: Event)
    requires call.Create? && Closed(fs) && CallInv(call, pc, fs) && call.name != call.sibling
    ensures var (pc', fs') := Advance(call, pc, fs, ev); Closed(fs') && CallInv(call, pc', fs')
  {
  }

  lemma RemoveStep(call: Call, pc: Pc, fs: Fs, ev: Event)
    requires call.Remove? && Closed(fs) && CallInv(call, pc, fs) && call.name != call.sibling
    ensures var (pc', fs') := Advance(call, pc, fs, ev); Closed(fs') && CallInv(call, pc', fs')
  {
  }

  /** A step of one call keeps its own invariant. */
  lemma OwnStep(call: Call, pc: Pc, fs: Fs, ev: Event)
    requires Closed(fs) && CallInv(call, pc, fs) && call.name != call.sibling
    ensures var (pc', fs') := Advance(call, pc, fs, ev); Closed(fs') && CallInv(call, pc', fs')
  {
    if call.Create? { CreateStep(call, pc, fs, ev); } else { RemoveStep(call, pc, fs, ev); }
  }

  /** What a step may touch: its two names, a new inode, and the bytes of its own temporary. */
  ghost predicate Footprint(call: Call, fs: Fs, fs': Fs) {
    && (forall n | n != call.name && n != call.sibling ::
        (n in fs.dir <==> n in fs'.dir) && (n in fs.dir ==> fs'.dir[n] == fs.dir[n]))
    && (forall n | n in fs'.dir && fs'.dir[n] in fs.objects && !(n in fs.dir && fs.dir[n] == fs'.dir[n]) ::
          Names(fs, call.name, fs'.dir[n]) || Names(fs, call.sibling, fs'.dir[n]))
    && (forall i | i in fs.objects :: i in fs'.objects)
    && (forall i | i in fs.objects ::
        fs'.objects[i] == fs.objects[i] || (call.Create? && SoleLink(fs, call.sibling, i)))
  }

  lemma CreateFootprint(call: Call, pc: Pc, fs: Fs, ev: Event)
    requires call.Create? && Closed(fs) && CallInv(call, pc, fs) && call.name != call.sibling
    ensures Footprint(call, fs, Advance(call, pc, fs, ev).1)
  {
  }

  lemma RemoveFootprint(call: Call, pc: Pc, fs: Fs, ev: Event)
    requires call.Remove? && Closed(fs) && call.name != call.sibling
    ensures Footprint(call, fs, Advance(call, pc, fs, ev).1)
  {
    assert Advance(call, pc, fs, ev).1.objects == fs.objects;
  }

  lemma StepFootprint(call: Call, pc: Pc, fs: Fs, ev: Event)
    requires Closed(fs) && CallInv(call, pc, fs) && call.name != call.sibling
    ensures Footprint(call, fs, Advance(call, pc, fs, ev).1)
  {
    if call.Create? { CreateFootprint(call, pc, fs, ev); } else { RemoveFootprint(call, pc, fs, ev); }
  }

  /** A change with the footprint of one call keeps the invariant of every other call. */
  lemma FootprintKeeps(call: Call, fs: Fs, fs': Fs, other: Call, opc: Pc)
    requires Closed(fs) && Footprint(call, fs, fs') && CallInv(other, opc, fs)
    requires call.name != call.sibling && call.sibling != other.sibling && call.name != other.sibling
    ensures CallInv(other, opc, fs')
  {
    var live := opc.Writing? || opc.Written? || opc.Abandoned? || opc.Lost? || opc.Refused?;
    if other.Create? && live { SoleLinkStays(call, fs, fs', other.sibling, opc.ino); }
  }

  lemma SoleLinkStays(call: Call, fs: Fs, fs': Fs, tmp: Name, ino: Inode)
    requires Closed(fs) && Footprint(call, fs, fs') && SoleLink(fs, tmp, ino) && tmp != call.name && tmp != call.sibling
    ensures SoleLink(fs', tmp, ino) && ino in fs'.objects && fs'.objects[ino] == fs.objects[ino]
  {
  }

  /** A step of one call keeps the invariant of every other call. */
  lemma OtherStep(call: Call, pc: Pc, fs: Fs, ev: Event, other: Call, opc: Pc)
    requires Closed(fs) && CallInv(call, pc, fs) && CallInv(other, opc, fs)
    requires call.name != call.sibling && call.sibling != other.sibling && call.name != other.sibling
    ensures CallInv(other, opc, Advance(call, pc, fs, ev).1)
  {
    StepFootprint(call, pc, fs, ev);
    FootprintKeeps(call, fs, Advance(call, pc, fs, ev).1, other, opc);
  }

  /** The environment leaves a temporary and its file alone. */
  lemma EnvKeepsTemporary(calls: map<CallId, Call>, writers: bool, s: State, s': State, t: CallId, ino: Inode)
    requires Closed(s.fs) && EnvStep(calls, writers, s, s') && t in calls && calls[t].Create?
    requires SoleLink(s.fs, calls[t].sibling, ino)
    ensures SoleLink(s'.fs, calls[t].sibling, ino) && ino in s'.fs.objects && s'.fs.objects[ino] == s.fs.objects[ino]
  {
    var tmp := calls[t].sibling;
    assert tmp in FreshNames(calls) && KeptName(s, s', tmp);
    assert HeldByTemporary(calls, s.fs, ino) && Unpublished(calls, s, ino) && MayWrite(calls, writers, s, s', ino);
    forall n | n in s'.fs.dir && s'.fs.dir[n] == ino ensures n == tmp {
      assert MayBind(calls, s, s', n);
      if n in FreshNames(calls) { assert KeptName(s, s', n); }
    }
  }

  lemma EnvKeepsCall(calls: map<CallId, Call>, writers: bool, s: State, s': State, t: CallId)
    requires Inv(calls, s) && EnvStep(calls, writers, s, s') && t in calls
    ensures InvAt(calls, s', t)
  {
    assert InvAt(calls, s, t);
    var (call, pc) := (calls[t], s.pcs[t]);
    assert call.sibling in FreshNames(calls) && KeptName(s, s', call.sibling);
    var live := pc.Writing? || pc.Written? || pc.Abandoned? || pc.Lost? || pc.Refused?;
    if call.Create? && live { EnvKeepsTemporary(calls, writers, s, s', t, pc.ino); }
    if call.Remove? && pc.Reading? { assert MayWrite(calls, writers, s, s', pc.ino); }
  }

  lemma CallKeepsInv(calls: map<CallId, Call>, s: State, t: CallId, ev: Event, s': State, u: CallId)
    requires Inv(calls, s) && CallStep(calls, s, t, ev, s') && u in calls
    ensures InvAt(calls, s', u) && Closed(s'.fs)
  {
    assert InvAt(calls, s, t) && InvAt(calls, s, u);
    OwnStep(calls[t], s.pcs[t], s.fs, ev);
    if u != t { OtherStep(calls[t], s.pcs[t], s.fs, ev, calls[u], s.pcs[u]); }
  }

  lemma NextKeepsInv(calls: map<CallId, Call>, writers: bool, s: State, s': State)
    requires Inv(calls, s) && Next(calls, writers, s, s')
    ensures Inv(calls, s')
  {
    if EnvStep(calls, writers, s, s') {
      forall t | t in calls ensures InvAt(calls, s', t) { EnvKeepsCall(calls, writers, s, s', t); }
    } else {
      var t, ev :| CallStep(calls, s, t, ev, s');
      CallKeepsInv(calls, s, t, ev, s', t);
      forall u | u in calls ensures InvAt(calls, s', u) { CallKeepsInv(calls, s, t, ev, s', u); }
    }
  }

  lemma InitInv(calls: map<CallId, Call>, s: State)
    requires Init(calls, s)
    ensures Inv(calls, s)
  {
    forall t | t in calls ensures InvAt(calls, s, t) {}
  }

  /** Every state of every run satisfies the invariant. */
  lemma {:induction false} RunInv(calls: map<CallId, Call>, writers: bool, b: seq<State>, k: nat)
    requires Run(calls, writers, b) && k < |b|
    ensures Inv(calls, b[k])
  {
    if k == 0 {
      InitInv(calls, b[0]);
    } else {
      RunInv(calls, writers, b, k - 1);
      assert StepAt(calls, writers, b, k);
      NextKeepsInv(calls, writers, b[k - 1], b[k]);
    }
  }

  /** A step of a run, with what is known before and after it. */
  lemma RunStates(calls: map<CallId, Call>, writers: bool, b: seq<State>, k: nat)
    requires Run(calls, writers, b) && 0 < k < |b|
    ensures Inv(calls, b[k - 1]) && Inv(calls, b[k]) && Next(calls, writers, b[k - 1], b[k])
  {
    RunInv(calls, writers, b, k - 1);
    RunInv(calls, writers, b, k);
    assert StepAt(calls, writers, b, k);
  }

  /** Some run ends in `s`. */
  ghost predicate Reachable(calls: map<CallId, Call>, writers: bool, s: State) {
    exists b :: Run(calls, writers, b) && b[|b| - 1] == s
  }

  lemma ReachableInv(calls: map<CallId, Call>, writers: bool, s: State)
    requires Reachable(calls, writers, s)
    ensures Inv(calls, s)
  {
    var b :| Run(calls, writers, b) && b[|b| - 1] == s;
    RunInv(calls, writers, b, |b| - 1);
  }

  // ----- Removal -----

  /** What was read so far is the beginning of the file as it is now; a file that matched is the expected one. */
  ghost predicate Faithful(call: Call, pc: Pc, fs: Fs) {
    && (pc.Reading? ==> pc.ino in fs.objects && ReadFrom(fs.objects[pc.ino], pc.observed))
    && (pc.Matched? ==> call.Remove? && pc.ino in fs.objects && fs.objects[pc.ino] == Regular(call.expected))
  }

  predicate ReadFrom(o: Object, observed: Bytes) {
    o.Regular? && |observed| <= |o.bytes| && observed == o.bytes[..|observed|]
  }

  ghost predicate Undisturbed(calls: map<CallId, Call>, s: State) {
    forall t {:trigger FreshAt(calls, s, t)} | t in calls :: FreshAt(calls, s, t)
  }

  ghost predicate FreshAt(calls: map<CallId, Call>, s: State, t: CallId) {
    t in calls && t in s.pcs && calls[t].Remove? ==> Faithful(calls[t], s.pcs[t], s.fs)
  }

  lemma ReadOn(fs: Fs, ino: Inode, observed: Bytes, ev: Event)
    requires ino in fs.objects && ReadFrom(fs.objects[ino], observed) && |observed| < |fs.objects[ino].bytes|
    ensures ReadFrom(fs.objects[ino], observed + NextBytes(fs, ino, observed, ev))
  {
  }

  lemma OwnFaithful(call: Call, pc: Pc, fs: Fs, ev: Event)
    requires call.Remove? && CallInv(call, pc, fs) && Faithful(call, pc, fs) && Closed(fs)
    ensures var (pc', fs') := Advance(call, pc, fs, ev); Faithful(call, pc', fs')
  {
    if pc.Reading? && |pc.observed| < |fs.objects[pc.ino].bytes| { ReadOn(fs, pc.ino, pc.observed, ev); }
  }

  lemma OtherFaithful(call: Call, pc: Pc, fs: Fs, ev: Event, other: Call, opc: Pc)
    requires Closed(fs) && CallInv(call, pc, fs) && other.Remove? && CallInv(other, opc, fs) && Faithful(other, opc, fs)
    requires call.name != call.sibling && call.sibling != other.sibling
    ensures Faithful(other, opc, Advance(call, pc, fs, ev).1)
  {
    StepFootprint(call, pc, fs, ev);
  }

  lemma NextUndisturbed(calls: map<CallId, Call>, s: State, s': State)
    requires Inv(calls, s) && Undisturbed(calls, s) && Next(calls, false, s, s')
    ensures Undisturbed(calls, s')
  {
    if EnvStep(calls, false, s, s') {
      forall u | u in calls ensures FreshAt(calls, s', u) {
        assert FreshAt(calls, s, u);
        var pc := s.pcs[u];
        if pc.Reading? || pc.Matched? { assert MayWrite(calls, false, s, s', pc.ino); }
      }
    } else {
      var t, ev :| CallStep(calls, s, t, ev, s');
      forall u | u in calls ensures FreshAt(calls, s', u) {
        assert FreshAt(calls, s, u) && InvAt(calls, s, t) && InvAt(calls, s, u);
        if calls[u].Remove? {
          if u == t {
            OwnFaithful(calls[t], s.pcs[t], s.fs, ev);
          } else {
            OtherFaithful(calls[t], s.pcs[t], s.fs, ev, calls[u], s.pcs[u]);
          }
        }
      }
    }
  }

  lemma {:induction false} RunUndisturbed(calls: map<CallId, Call>, b: seq<State>, k: nat, s: State)
    requires Run(calls, false, b) && k < |b| && b[k] == s
    ensures Undisturbed(calls, s)
  {
    if k > 0 {
      RunUndisturbed(calls, b, k - 1, b[k - 1]);
      RunInv(calls, false, b, k - 1);
      assert StepAt(calls, false, b, k);
      NextUndisturbed(calls, b[k - 1], s);
    }
  }

  lemma ReachableUndisturbed(calls: map<CallId, Call>, s: State)
    requires Reachable(calls, false, s)
    ensures Undisturbed(calls, s)
  {
    var b :| Run(calls, false, b) && b[|b| - 1] == s;
    RunUndisturbed(calls, b, |b| - 1, s);
  }

  /**
   How an entry may disappear by a step of a call: renamed, removed as an exact match, or its own unpublished
   temporary.
   */
  ghost predicate LawfulDisappearance(call: Call, pc: Pc, fs: Fs, fs': Fs, n: Name)
    requires n in fs.dir && fs.dir[n] in fs.objects
  {
    || (exists m | m in fs'.dir :: m !in fs.dir && fs'.dir[m] == fs.dir[n] && {m, n} == {call.name, call.sibling})
    || (call.Remove? && n == call.sibling && fs.objects[fs.dir[n]] == Regular(call.expected))
    || (call.Create? && n == call.sibling && (pc.Abandoned? || pc.Lost? || pc.Refused?) && SoleLink(fs, n, pc.ino))
  }

  lemma StepRemovesLawfully(call: Call, pc: Pc, fs: Fs, ev: Event, n: Name)
    requires Closed(fs) && CallInv(call, pc, fs) && call.name != call.sibling
    requires call.Remove? ==> Faithful(call, pc, fs)
    requires n in fs.dir && n !in Advance(call, pc, fs, ev).1.dir
    ensures LawfulDisappearance(call, pc, fs, Advance(call, pc, fs, ev).1, n)
  {
    var fs' := Advance(call, pc, fs, ev).1;
    var m := if n == call.name then call.sibling else call.name;
    if m !in fs.dir && m in fs'.dir && fs'.dir[m] == fs.dir[n] { assert {m, n} == {call.name, call.sibling}; }
  }

  /** In every interleaving with directory operations, the only foreign object a call unlinks is an exact match. */
  lemma OnlyExactFilesAreRemoved(calls: map<CallId, Call>, s: State, t: CallId, ev: Event, s': State, n: Name)
    requires Reachable(calls, false, s) && CallStep(calls, s, t, ev, s')
    requires n in s.fs.dir && n !in s'.fs.dir
    ensures s.fs.dir[n] in s.fs.objects && LawfulDisappearance(calls[t], s.pcs[t], s.fs, s'.fs, n)
  {
    ReachableInv(calls, false, s);
    ReachableUndisturbed(calls, s);
    assert FreshAt(calls, s, t) && InvAt(calls, s, t);
    StepRemovesLawfully(calls[t], s.pcs[t], s.fs, ev, n);
  }

  lemma StepRebindsNothing(call: Call, pc: Pc, fs: Fs, ev: Event, n: Name)
    requires n in fs.dir && n in Advance(call, pc, fs, ev).1.dir
    ensures Advance(call, pc, fs, ev).1.dir[n] == fs.dir[n]
  {
  }

  /** No step of any call rebinds an existing name, with in-place writers or not. */
  lemma NoCallReplacesAnEntry(calls: map<CallId, Call>, writers: bool, s: State, t: CallId, ev: Event, s': State,
                              n: Name)
    requires Reachable(calls, writers, s) && CallStep(calls, s, t, ev, s')
    requires n in s.fs.dir && n in s'.fs.dir
    ensures s'.fs.dir[n] == s.fs.dir[n]
  {
    StepRebindsNothing(calls[t], s.pcs[t], s.fs, ev, n);
  }

  // ----- In-place writers -----

  /** Step `m` changes the contents of `ino`. */
  ghost predicate Rewritten(b: seq<State>, ino: Inode, m: nat) {
    0 < m < |b| && ino in b[m].fs.objects && ino in b[m - 1].fs.objects
        && b[m].fs.objects[ino] != b[m - 1].fs.objects[ino]
  }

  /** The last change of `ino` before step `k`. */
  ghost predicate LastRewrite(b: seq<State>, ino: Inode, m: nat, k: nat) {
    m < k && Rewritten(b, ino, m) && forall j | m < j < k :: !Rewritten(b, ino, j)
  }

  /** No step between `i` and `k` changes the contents of `ino`. */
  ghost predicate Unwritten(b: seq<State>, ino: Inode, i: nat, k: nat) {
    forall m | i < m < k :: !Rewritten(b, ino, m)
  }

  /** Before step `k`, `ino` is `wanted` exactly when the last change of it after step `i`, if any, left it so. */
  ghost predicate AsLastWritten(b: seq<State>, ino: Inode, i: nat, k: nat, wanted: Object)
    requires 0 < k <= |b| && ino in b[k - 1].fs.objects
  {
    b[k - 1].fs.objects[ino] == wanted <==>
      forall m | i < m < k && LastRewrite(b, ino, m, k) :: b[m].fs.objects[ino] == wanted
  }

  /** Step `i` of call `t` opens the captured file `ino` to inspect it. */
  ghost predicate OpensAt(b: seq<State>, t: CallId, ino: Inode, i: nat) {
    && 0 < i < |b| && t in b[i - 1].pcs && t in b[i].pcs
    && b[i - 1].pcs[t].Captured? && b[i].pcs[t].Reading? && b[i].pcs[t].ino == ino
  }

  /** Step `k` of call `t` unlinks the captured file `ino`. */
  ghost predicate UnlinksAt(b: seq<State>, t: CallId, ino: Inode, k: nat) {
    && 0 < k < |b| && t in b[k - 1].pcs && t in b[k].pcs
    && b[k - 1].pcs[t] == Matched(ino) && b[k].pcs[t] == Unlinked
  }

  lemma ObjectStays(calls: map<CallId, Call>, writers: bool, s: State, s': State, ino: Inode)
    requires Inv(calls, s) && Next(calls, writers, s, s') && ino in s.fs.objects
    ensures ino in s'.fs.objects
  {
    if EnvStep(calls, writers, s, s') {
      assert MayWrite(calls, writers, s, s', ino);
    } else {
      var t, ev :| CallStep(calls, s, t, ev, s');
      assert InvAt(calls, s, t);
      StepFootprint(calls[t], s.pcs[t], s.fs, ev);
    }
  }

  lemma {:induction false} ContentsSince(calls: map<CallId, Call>, writers: bool, b: seq<State>, ino: Inode, m: nat,
                                         k: nat)
    requires Run(calls, writers, b) && m <= k < |b| && ino in b[m].fs.objects
    requires forall j | m < j <= k :: !Rewritten(b, ino, j)
    ensures ino in b[k].fs.objects && b[k].fs.objects[ino] == b[m].fs.objects[ino]
  {
    if m < k {
      ContentsSince(calls, writers, b, ino, m, k - 1);
      RunInv(calls, writers, b, k - 1);
      assert StepAt(calls, writers, b, k);
      ObjectStays(calls, writers, b[k - 1], b[k], ino);
      assert !Rewritten(b, ino, k);
    }
  }

  /** An inspection of `ino`, from its opening on, has read only what the file holds now. */
  ghost predicate Inspecting(call: Call, pc: Pc, fs: Fs, ino: Inode) {
    (pc.Reading? || pc.Matched? ==> pc.ino == ino) && Faithful(call, pc, fs)
  }

  ghost predicate Underway(pc: Pc) { !pc.Ready? && !pc.Captured? }

  lemma OwnInspecting(call: Call, pc: Pc, fs: Fs, ev: Event, ino: Inode)
    requires call.Remove? && Closed(fs) && CallInv(call, pc, fs) && Inspecting(call, pc, fs, ino) && Underway(pc)
    ensures var (pc', fs') := Advance(call, pc, fs, ev); Inspecting(call, pc', fs', ino) && Underway(pc')
  {
    OwnFaithful(call, pc, fs, ev);
  }

  lemma StepInspecting(calls: map<CallId, Call>, writers: bool, s: State, s': State, t: CallId, ino: Inode)
    requires Inv(calls, s) && Next(calls, writers, s, s') && t in calls && calls[t].Remove?
    requires Inspecting(calls[t], s.pcs[t], s.fs, ino) && Underway(s.pcs[t])
    requires ino in s.fs.objects && ino in s'.fs.objects && s'.fs.objects[ino] == s.fs.objects[ino]
    ensures t in s'.pcs && Inspecting(calls[t], s'.pcs[t], s'.fs, ino) && Underway(s'.pcs[t])
  {
    if !EnvStep(calls, writers, s, s') {
      var u, ev :| CallStep(calls, s, u, ev, s');
      assert InvAt(calls, s, t);
      if u == t { OwnInspecting(calls[t], s.pcs[t], s.fs, ev, ino); }
    }
  }

  /** While nobody writes to an opened file, the inspection stays faithful to it. */
  lemma {:induction false} InspectingSince(calls: map<CallId, Call>, b: seq<State>, t: CallId, ino: Inode, i: nat,
                                           k: nat)
    requires Run(calls, true, b) && t in calls && calls[t].Remove? && OpensAt(b, t, ino, i) && i <= k < |b|
    requires forall j | i < j <= k :: !Rewritten(b, ino, j)
    ensures t in b[k].pcs && Inspecting(calls[t], b[k].pcs[t], b[k].fs, ino) && Underway(b[k].pcs[t])
    ensures ino in b[k].fs.objects
  {
    if i == k {
      OpeningIsFaithful(calls, b, t, ino, i);
    } else {
      InspectingSince(calls, b, t, ino, i, k - 1);
      RunInv(calls, true, b, k - 1);
      assert StepAt(calls, true, b, k);
      ObjectStays(calls, true, b[k - 1], b[k], ino);
      assert !Rewritten(b, ino, k);
      StepInspecting(calls, true, b[k - 1], b[k], t, ino);
    }
  }

  lemma OpeningIsFaithful(calls: map<CallId, Call>, b: seq<State>, t: CallId, ino: Inode, i: nat)
    requires Run(calls, true, b) && t in calls && calls[t].Remove? && OpensAt(b, t, ino, i)
    ensures ino in b[i].fs.objects && Inspecting(calls[t], b[i].pcs[t], b[i].fs, ino)
  {
    RunStates(calls, true, b, i);
    OpeningStep(calls, b[i - 1], b[i], t);
  }

  lemma OpeningStep(calls: map<CallId, Call>, s: State, s': State, t: CallId)
    requires Inv(calls, s) && Next(calls, true, s, s') && t in calls && calls[t].Remove?
    requires t in s'.pcs && s.pcs[t].Captured? && s'.pcs[t].Reading?
    ensures s'.pcs[t].ino in s'.fs.objects && Inspecting(calls[t], s'.pcs[t], s'.fs, s'.pcs[t].ino)
  {
    var ev := OwnMove(calls, true, s, s', t);
    assert InvAt(calls, s, t);
    OpeningCall(calls[t], s.pcs[t], s.fs, ev);
  }

  lemma OpeningCall(call: Call, pc: Pc, fs: Fs, ev: Event)
    requires call.Remove? && pc.Captured? && Advance(call, pc, fs, ev).0.Reading?
    ensures var (pc', fs') := Advance(call, pc, fs, ev); pc'.ino in fs'.objects && Faithful(call, pc', fs')
  {
  }

  /** Only its own step moves a call. */
  lemma OwnMove(calls: map<CallId, Call>, writers: bool, s: State, s': State, t: CallId) returns (ev: Event)
    requires Next(calls, writers, s, s') && t in s.pcs && t in s'.pcs && s'.pcs[t] != s.pcs[t]
    ensures CallStep(calls, s, t, ev, s')
  {
    var u, e :| CallStep(calls, s, u, e, s');
    ev := e;
  }

  lemma {:induction false} FindLastRewrite(b: seq<State>, ino: Inode, i: nat, k: nat) returns (m: nat)
    requires i < k <= |b|
    ensures i <= m < k && (m == i || LastRewrite(b, ino, m, k)) && forall j | m < j < k :: !Rewritten(b, ino, j)
  {
    if k - 1 == i || Rewritten(b, ino, k - 1) { return k - 1; }
    m := FindLastRewrite(b, ino, i, k - 1);
  }

  /**
   With in-place writers: the unlinked file has the expected bytes exactly when nobody wrote to it from the opening of
   the inspection to the unlink, or the last one who did left exactly those bytes.
   */
  lemma UnlinkedBytes(calls: map<CallId, Call>, b: seq<State>, t: CallId, ino: Inode, i: nat, k: nat)
    requires Run(calls, true, b) && t in calls && calls[t].Remove? && i < k && OpensAt(b, t, ino, i)
    requires UnlinksAt(b, t, ino, k)
    ensures Names(b[k - 1].fs, calls[t].sibling, ino) && calls[t].sibling !in b[k].fs.dir && ino in b[k - 1].fs.objects
    ensures Unwritten(b, ino, i, k) ==> b[k - 1].fs.objects[ino] == Regular(calls[t].expected)
    ensures AsLastWritten(b, ino, i, k, Regular(calls[t].expected))
  {
    UnlinkingStep(calls, b, t, ino, k);
    if Unwritten(b, ino, i, k) { InspectingSince(calls, b, t, ino, i, k - 1); }
    LastRewriteDecides(calls, true, b, ino, i, k, Regular(calls[t].expected));
  }

  lemma UnlinkingStep(calls: map<CallId, Call>, b: seq<State>, t: CallId, ino: Inode, k: nat)
    requires Run(calls, true, b) && t in calls && calls[t].Remove? && UnlinksAt(b, t, ino, k)
    ensures Names(b[k - 1].fs, calls[t].sibling, ino) && calls[t].sibling !in b[k].fs.dir && ino in b[k - 1].fs.objects
  {
    RunStates(calls, true, b, k);
    UnlinkedNames(calls, b[k - 1], b[k], t, ino);
  }

  lemma UnlinkedNames(calls: map<CallId, Call>, s: State, s': State, t: CallId, ino: Inode)
    requires Inv(calls, s) && Inv(calls, s') && t in calls && calls[t].Remove?
    requires s.pcs[t] == Matched(ino) && s'.pcs[t] == Unlinked
    ensures Names(s.fs, calls[t].sibling, ino) && calls[t].sibling !in s'.fs.dir && ino in s.fs.objects
  {
    assert InvAt(calls, s, t) && InvAt(calls, s', t);
  }

  /** What a file holds that held `wanted` as long as nobody wrote to it is for the last writer to decide. */
  lemma LastRewriteDecides(calls: map<CallId, Call>, writers: bool, b: seq<State>, ino: Inode, i: nat, k: nat,
                           wanted: Object)
    requires Run(calls, writers, b) && i < k <= |b| && ino in b[k - 1].fs.objects
    requires Unwritten(b, ino, i, k) ==> b[k - 1].fs.objects[ino] == wanted
    ensures AsLastWritten(b, ino, i, k, wanted)
  {
    var m := FindLastRewrite(b, ino, i, k);
    if m != i { ContentsSince(calls, writers, b, ino, m, k - 1); }
    forall j | i < j < k && LastRewrite(b, ino, j, k) ensures j == m && m != i {
      assert Rewritten(b, ino, j);
      assert j < m ==> m != i && Rewritten(b, ino, m);
    }
  }

  // ----- An inspection that mixes two versions of a file -----

  const VICTIM_CALLS: map<CallId, Call> := map[0 := Remove("a", [1, 2], "c")]

  function VictimState(name: Name, bytes: Bytes, pc: Pc): State {
    State(Fs(map[name := 7], map[7 := Regular(bytes)]), map[0 := pc], map[], {})
  }

  /** The first byte is read from one version and the second from another; neither version is the expected one. */
  const VICTIM: seq<State> := [
    VictimState("a", [1, 9], Ready),
    VictimState("c", [1, 9], Captured(7)),
    VictimState("c", [1, 9], Reading(7, [], 3)),
    VictimState("c", [1, 9], Reading(7, [1], 2)),
    VictimState("c", [8, 2], Reading(7, [1], 2)),
    VictimState("c", [8, 2], Reading(7, [1, 2], 1)),
    VictimState("c", [8, 2], Matched(7)),
    State(Fs(map[], map[7 := Regular([8, 2])]), map[0 := Unlinked], map[], {})]

  const VICTIM_EVENT: Event := Event(false, 0, 0, 3)

  /** A step of the removing call on the captured file that leaves the directory as it is. */
  lemma VictimAdvances(bytes: Bytes, pc: Pc, pc': Pc)
    requires var fs := VictimState("c", bytes, pc).fs; Advance(VICTIM_CALLS[0], pc, fs, VICTIM_EVENT) == (pc', fs)
    requires !pc.Ready? && !pc.Written?
    ensures CallStep(VICTIM_CALLS, VictimState("c", bytes, pc), 0, VICTIM_EVENT, VictimState("c", bytes, pc'))
  {
    assert map[0 := pc][0 := pc'] == map[0 := pc'];
  }

  lemma VictimCaptured()
    ensures CallStep(VICTIM_CALLS, VICTIM[0], 0, VICTIM_EVENT, VICTIM[1])
  {
    assert (map["a" := 7] - {"a"})["c" := 7] == map["c" := 7];
    assert map[0 := Ready][0 := Captured(7)] == map[0 := Captured(7)];
  }

  lemma VictimRead()
    ensures CallStep(VICTIM_CALLS, VICTIM[1], 0, VICTIM_EVENT, VICTIM[2])
    ensures CallStep(VICTIM_CALLS, VICTIM[2], 0, VICTIM_EVENT, VICTIM[3])
  {
    var v: Bytes := [1, 9];
    assert v[0..1] == [1] && [] + v[0..1] == [1];
    VictimAdvances(v, Captured(7), Reading(7, [], 3));
    VictimAdvances(v, Reading(7, [], 3), Reading(7, [1], 2));
  }

  lemma VictimReadOn()
    ensures CallStep(VICTIM_CALLS, VICTIM[4], 0, VICTIM_EVENT, VICTIM[5])
    ensures CallStep(VICTIM_CALLS, VICTIM[5], 0, VICTIM_EVENT, VICTIM[6])
  {
    var w: Bytes := [8, 2];
    assert w[1..2] == [2] && [1] + w[1..2] == [1, 2];
    VictimAdvances(w, Reading(7, [1], 2), Reading(7, [1, 2], 1));
    VictimAdvances(w, Reading(7, [1, 2], 1), Matched(7));
  }

  lemma VictimUnlinked()
    ensures CallStep(VICTIM_CALLS, VICTIM[6], 0, VICTIM_EVENT, VICTIM[7])
  {
    assert map["c" := 7] - {"c"} == map[];
    assert map[0 := Matched(7)][0 := Unlinked] == map[0 := Unlinked];
  }

  lemma VictimRewritten()
    ensures EnvStep(VICTIM_CALLS, true, VICTIM[3], VICTIM[4])
  {
    forall n | n in FreshNames(VICTIM_CALLS) ensures KeptName(VICTIM[3], VICTIM[4], n) {}
    forall i ensures MayWrite(VICTIM_CALLS, true, VICTIM[3], VICTIM[4], i) {}
  }

  lemma IsCallStep(b: seq<State>, k: nat)
    requires 0 < k < |b| && CallStep(VICTIM_CALLS, b[k - 1], 0, VICTIM_EVENT, b[k])
    ensures StepAt(VICTIM_CALLS, true, b, k)
  {
  }

  lemma VictimStep(k: nat)
    requires 0 < k < |VICTIM|
    ensures StepAt(VICTIM_CALLS, true, VICTIM, k)
  {
    if k == 4 {
      VictimRewritten();
    } else {
      if k == 1 { VictimCaptured(); }
      if 2 <= k <= 3 { VictimRead(); }
      if 5 <= k <= 6 { VictimReadOn(); }
      if k == 7 { VictimUnlinked(); }
      IsCallStep(VICTIM, k);
    }
  }

  lemma VictimRuns()
    ensures Run(VICTIM_CALLS, true, VICTIM)
  {
    assert Init(VICTIM_CALLS, VICTIM[0]);
    forall k | 0 < k < |VICTIM| ensures StepAt(VICTIM_CALLS, true, VICTIM, k) { VictimStep(k); }
  }

  lemma VictimIsOpened()
    ensures OpensAt(VICTIM, 0, 7, 2)
  {
    assert VICTIM[1].pcs[0] == Captured(7) && VICTIM[2].pcs[0] == Reading(7, [], 3);
  }

  lemma VictimIsUnlinked()
    ensures UnlinksAt(VICTIM, 0, 7, 7)
  {
    assert VICTIM[6].pcs[0] == Matched(7) && VICTIM[7].pcs[0] == Unlinked;
  }

  /** Inode `ino` never is `o`. */
  ghost predicate NeverHolds(b: seq<State>, ino: Inode, o: Object) {
    forall k | 0 <= k < |b| :: ino in b[k].fs.objects && b[k].fs.objects[ino] != o
  }

  lemma NeverExpected()
    ensures NeverHolds(VICTIM, 7, Regular([1, 2]))
  {
    var v: Bytes, w: Bytes, e: Bytes := [1, 9], [8, 2], [1, 2];
    assert v[1] != e[1] && w[0] != e[0];
  }

  /** A run with one in-place write in which a file that never held the expected bytes is unlinked as an exact match. */
  lemma InPlaceWriterDefeatsExactness()
    ensures Run(VICTIM_CALLS, true, VICTIM) && OpensAt(VICTIM, 0, 7, 2) && UnlinksAt(VICTIM, 0, 7, 7)
    ensures 0 in VICTIM_CALLS && VICTIM_CALLS[0].Remove? && VICTIM_CALLS[0].name == "a"
    ensures NeverHolds(VICTIM, 7, Regular(VICTIM_CALLS[0].expected))
  {
    VictimRuns();
    VictimIsOpened();
    VictimIsUnlinked();
    NeverExpected();
  }

  /** The inode a removing call has under its captured name. */
  function Holding(pc: Pc): Option<Inode> {
    match pc
    case Captured(ino) => Some(ino)
    case Reading(ino, _, _) => Some(ino)
    case Matched(ino) => Some(ino)
    case Differs(ino) => Some(ino)
    case Uninspected(ino) => Some(ino)
    case Done(UnlinkFailed(ino)) => Some(ino)
    case Done(Preserved(ino)) => Some(ino)
    case _ => None
  }

  /** The step `s` to `s'` puts the captured inode back under its own, unoccupied, name. */
  ghost predicate RestoredBy(call: Call, t: CallId, ino: Inode, s: State, s': State) {
    && t in s'.pcs && (s'.pcs[t].Restored? || s'.pcs[t] == Done(InspectError))
    && Names(s.fs, call.sibling, ino) && call.name !in s.fs.dir && Names(s'.fs, call.name, ino)
  }

  /** The step `s` to `s'` unlinks the captured inode, which matched when inspected. */
  ghost predicate UnlinkedBy(call: Call, t: CallId, ino: Inode, s: State, s': State) {
    && call.Remove? && t in s.pcs && t in s'.pcs
    && s.pcs[t] == Matched(ino) && s'.pcs[t] == Unlinked
  }

  ghost predicate Held(call: Call, t: CallId, ino: Inode, s: State) {
    t in s.pcs && Holding(s.pcs[t]) == Some(ino) && Names(s.fs, call.sibling, ino)
  }

  lemma HoldingStep(call: Call, pc: Pc, fs: Fs, ev: Event, ino: Inode)
    requires call.Remove? && call.name != call.sibling && CallInv(call, pc, fs) && Holding(pc) == Some(ino)
    ensures var (pc', fs') := Advance(call, pc, fs, ev);
            || (Holding(pc') == Some(ino) && Names(fs', call.sibling, ino))
            || ((pc'.Restored? || pc' == Done(InspectError)) && call.name !in fs.dir && Names(fs', call.name, ino))
            || (pc == Matched(ino) && pc' == Unlinked)
  {
  }

  lemma FateStep(calls: map<CallId, Call>, writers: bool, s: State, s': State, t: CallId, ino: Inode)
    requires Inv(calls, s) && Inv(calls, s') && Next(calls, writers, s, s')
    requires t in calls && calls[t].Remove? && Held(calls[t], t, ino, s)
    ensures Held(calls[t], t, ino, s') || RestoredBy(calls[t], t, ino, s, s') || UnlinkedBy(calls[t], t, ino, s, s')
  {
    assert InvAt(calls, s, t) && InvAt(calls, s', t);
    if s'.pcs[t] != s.pcs[t] {
      var ev := OwnMove(calls, writers, s, s', t);
      HoldingStep(calls[t], s.pcs[t], s.fs, ev, ino);
    }
  }

  ghost predicate StepFate(call: Call, t: CallId, ino: Inode, s: State, s': State) {
    Held(call, t, ino, s) ==>
      Held(call, t, ino, s') || RestoredBy(call, t, ino, s, s') || UnlinkedBy(call, t, ino, s, s')
  }

  lemma FateOrNot(calls: map<CallId, Call>, writers: bool, s: State, s': State, t: CallId, ino: Inode)
    requires Inv(calls, s) && Inv(calls, s') && Next(calls, writers, s, s') && t in calls && calls[t].Remove?
    ensures StepFate(calls[t], t, ino, s, s')
  {
    if Held(calls[t], t, ino, s) { FateStep(calls, writers, s, s', t, ino); }
  }

  lemma FateInRun(calls: map<CallId, Call>, writers: bool, b: seq<State>, i: nat, t: CallId, ino: Inode)
    requires Run(calls, writers, b) && 0 < i < |b| && t in calls && calls[t].Remove?
    ensures StepFate(calls[t], t, ino, b[i - 1], b[i])
  {
    RunStates(calls, writers, b, i);
    FateOrNot(calls, writers, b[i - 1], b[i], t, ino);
  }

  /** From `j` to `k` the object was restored or, as an exact match, unlinked. */
  ghost predicate Released(call: Call, t: CallId, ino: Inode, b: seq<State>, j: nat, k: nat) {
    exists i: nat | j < i <= k :: ReleasedAt(call, t, ino, b, i)
  }

  ghost predicate ReleasedAt(call: Call, t: CallId, ino: Inode, b: seq<State>, i: nat) {
    0 < i < |b| && (RestoredBy(call, t, ino, b[i - 1], b[i]) || UnlinkedBy(call, t, ino, b[i - 1], b[i]))
  }

  /**
   Fate of a captured object: from its capture on it stays under the captured name until the call either
   puts it back under its own, then unoccupied, name or unlinks it after an exact match.
   */
  lemma {:induction false} CapturedObjectFate(calls: map<CallId, Call>, writers: bool, b: seq<State>, j: nat, k: nat,
                                              t: CallId, ino: Inode)
    requires Run(calls, writers, b) && j <= k < |b|
    requires t in calls && calls[t].Remove? && t in b[j].pcs && Holding(b[j].pcs[t]) == Some(ino)
    ensures Held(calls[t], t, ino, b[k]) || Released(calls[t], t, ino, b, j, k)
  {
    if k == j {
      RunInv(calls, writers, b, j);
      assert InvAt(calls, b[j], t);
    } else {
      CapturedObjectFate(calls, writers, b, j, k - 1, t, ino);
      FateInRun(calls, writers, b, k, t, ino);
      if !Held(calls[t], t, ino, b[k]) && Held(calls[t], t, ino, b[k - 1]) {
        assert ReleasedAt(calls[t], t, ino, b, k);
      }
    }
  }

  // ----- Names -----

  /** A call is refused for its name, with nothing touched, exactly when that is not one ordinary path component. */
  lemma InvalidNameIff(call: Call, fs: Fs, ev: Event)
    ensures Advance(call, Ready, fs, ev).0 == Done(InvalidName) <==>
            call.name in {"", ".", ".."} || exists c | c in call.name :: c == '/' || c == '\0'
    ensures Advance(call, Ready, fs, ev).0 == Done(InvalidName) ==> Advance(call, Ready, fs, ev).1 == fs
  {
    assert OrdinaryName(call.name) || call.name in {"", ".", ".."} || '/' in call.name || '\0' in call.name;
  }

  // ----- A captured entry is kept back only when it must be -----

  lemma PutBackCall(call: Call, pc: Pc, fs: Fs, ev: Event)
    requires call.Remove? && (pc.Differs? || pc.Uninspected?) && Names(fs, call.sibling, pc.ino)
    ensures var (pc', fs') := Advance(call, pc, fs, ev);
            if ev.fault || call.name in fs.dir then pc' == Done(Preserved(pc.ino)) && fs' == fs
            else
              && pc' == (if pc.Differs? then Restored else Done(InspectError))
              && fs' == Fs((fs.dir - {call.sibling})[call.name := pc.ino], fs.objects)
  {
  }

  /**
   In every interleaving, the step after an inspection that did not match, or failed, puts the entry back under its own
   name, unless that name is taken or the rename itself fails: then nothing changes.
   */
  lemma PutBackStep(calls: map<CallId, Call>, writers: bool, s: State, t: CallId, ev: Event, s': State)
    requires Reachable(calls, writers, s) && CallStep(calls, s, t, ev, s') && calls[t].Remove?
    requires s.pcs[t].Differs? || s.pcs[t].Uninspected?
    ensures var (call, pc) := (calls[t], s.pcs[t]);
            if ev.fault || call.name in s.fs.dir then s'.pcs[t] == Done(Preserved(pc.ino)) && s'.fs == s.fs
            else
              && s'.pcs[t] == (if pc.Differs? then Restored else Done(InspectError))
              && s'.fs == Fs((s.fs.dir - {call.sibling})[call.name := pc.ino], s.fs.objects)
  {
    ReachableInv(calls, writers, s);
    assert InvAt(calls, s, t);
    PutBackCall(calls[t], s.pcs[t], s.fs, ev);
  }

  lemma PreservedBy(call: Call, pc: Pc, fs: Fs, ev: Event)
    requires Advance(call, pc, fs, ev).0.Done? && Advance(call, pc, fs, ev).0.outcome.Preserved? && !pc.Done?
    ensures call.Remove? && (pc.Differs? || pc.Uninspected?)
  {
  }

  /** A removal ends with a preserved entry only by a step that found the name taken or whose own rename failed. */
  lemma PreservedOnlyWhenBlocked(calls: map<CallId, Call>, writers: bool, b: seq<State>, k: nat, t: CallId, ev: Event)
    requires Run(calls, writers, b) && 0 < k < |b| && CallStep(calls, b[k - 1], t, ev, b[k])
    requires !b[k - 1].pcs[t].Done? && b[k].pcs[t].Done? && b[k].pcs[t].outcome.Preserved?
    ensures ev.fault || calls[t].name in b[k - 1].fs.dir
  {
    RunInv(calls, writers, b, k - 1);
    PreservedStep(calls, b[k - 1], t, ev, b[k]);
  }

  lemma PreservedStep(calls: map<CallId, Call>, s: State, t: CallId, ev: Event, s': State)
    ensures Inv(calls, s) && CallStep(calls, s, t, ev, s') && !s.pcs[t].Done? && s'.pcs[t].Done?
                && s'.pcs[t].outcome.Preserved? ==>
              ev.fault || calls[t].name in s.fs.dir
  {
    if Inv(calls, s) && CallStep(calls, s, t, ev, s') && !s.pcs[t].Done? && s'.pcs[t].Done?
        && s'.pcs[t].outcome.Preserved?
    {
      assert InvAt(calls, s, t);
      PreservedBy(calls[t], s.pcs[t], s.fs, ev);
      PutBackCall(calls[t], s.pcs[t], s.fs, ev);
    }
  }

  lemma InspectionFailsBy(call: Call, pc: Pc, fs: Fs, ev: Event)
    requires Closed(fs) && CallInv(call, pc, fs) && !pc.Uninspected? && Advance(call, pc, fs, ev).0.Uninspected?
    ensures ev.fault || (pc.Reading? && pc.left == 0)
  {
  }

  /** An inspection fails only by a step that fails, or when the bound on its reads is used up. */
  lemma InspectionFailsOnlyByFault(calls: map<CallId, Call>, writers: bool, b: seq<State>, k: nat, t: CallId, ev: Event)
    requires Run(calls, writers, b) && 0 < k < |b| && CallStep(calls, b[k - 1], t, ev, b[k])
    requires !b[k - 1].pcs[t].Uninspected? && b[k].pcs[t].Uninspected?
    ensures ev.fault || (b[k - 1].pcs[t].Reading? && b[k - 1].pcs[t].left == 0)
  {
    RunInv(calls, writers, b, k - 1);
    assert InvAt(calls, b[k - 1], t);
    InspectionFailsBy(calls[t], b[k - 1].pcs[t], b[k - 1].fs, ev);
  }

  // ----- Creation -----

  ghost predicate OnlyUnder(fs: Fs, n: Name, ino: Inode) {
    forall m | m in fs.dir && fs.dir[m] == ino :: m == n
  }

  ghost predicate Launched(pc: Pc) {
    pc.Writing? || pc.Written? || pc.Abandoned? || pc.Lost? || pc.Refused? || pc.Published?
  }

  /**
   What is known of the inode a create allocated: unpublished it has no other name, published it is complete unless
   others write in place.
   */
  ghost predicate MadeCall(call: Call, writers: bool, pc: Pc, fs: Fs, ino: Inode, won: bool) {
    && call.Create? && ino in fs.objects && pc != Ready
    && (Launched(pc) ==> pc.ino == ino)
    && (won <==> pc.Published? || pc == Done(Created) || pc == Done(CreatedUnsynced))
    && (if won then writers || fs.objects[ino] == Regular(call.contents) else OnlyUnder(fs, call.sibling, ino))
  }

  ghost predicate MadeInv(calls: map<CallId, Call>, writers: bool, s: State) {
    && s.made.Keys <= calls.Keys == s.pcs.Keys && s.won <= s.made.Keys
    && (forall t | t in calls && calls[t].Create? && Launched(s.pcs[t]) :: t in s.made)
    && (forall t {:trigger MadeAt(calls, writers, s, t)} | t in s.made :: MadeAt(calls, writers, s, t))
    && (forall t, u | t in s.made && u in s.made && t != u :: s.made[t] != s.made[u])
  }

  ghost predicate MadeAt(calls: map<CallId, Call>, writers: bool, s: State, t: CallId) {
    t in calls && t in s.pcs && t in s.made && MadeCall(calls[t], writers, s.pcs[t], s.fs, s.made[t], t in s.won)
  }

  lemma EnvKeepsMade(calls: map<CallId, Call>, writers: bool, s: State, s': State, t: CallId)
    requires Inv(calls, s) && EnvStep(calls, writers, s, s') && t in calls && t in s.made
    requires MadeAt(calls, writers, s, t)
    ensures MadeAt(calls, writers, s', t)
  {
    var ino := s.made[t];
    assert MayWrite(calls, writers, s, s', ino);
    if t !in s.won {
      assert OnlyUnder(s.fs, calls[t].sibling, ino) && Unpublished(calls, s, ino);
      forall n | n in s'.fs.dir && s'.fs.dir[n] == ino ensures n == calls[t].sibling {
        assert MayBind(calls, s, s', n);
        if n in FreshNames(calls) { assert KeptName(s, s', n); }
      }
    }
  }

  lemma OwnMade(call: Call, writers: bool, pc: Pc, fs: Fs, ev: Event, ino: Inode, won: bool)
    requires Closed(fs) && CallInv(call, pc, fs) && call.name != call.sibling
    requires if pc.Ready? then call.Create? && ino == ev.alloc && !won && Advance(call, pc, fs, ev).0.Writing?
             else MadeCall(call, writers, pc, fs, ino, won)
    ensures var (pc', fs') := Advance(call, pc, fs, ev);
            MadeCall(call, writers, pc', fs', ino, won || (pc.Written? && pc'.Published?))
  {
  }

  lemma OtherMade(call: Call, writers: bool, pc: Pc, fs: Fs, ev: Event, other: Call, opc: Pc, ino: Inode, won: bool)
    requires Closed(fs) && CallInv(call, pc, fs) && CallInv(other, opc, fs)
    requires MadeCall(other, writers, opc, fs, ino, won)
    requires call.name != call.sibling && call.sibling != other.sibling && call.name != other.sibling
    requires call.Create? ==> !(Launched(pc) && pc.ino == ino)
    ensures MadeCall(other, writers, opc, Advance(call, pc, fs, ev).1, ino, won)
  {
    StepFootprint(call, pc, fs, ev);
  }

  /** Which inode a step allocates, and when it launches or publishes. */
  lemma StepHistory(call: Call, pc: Pc, fs: Fs, ev: Event)
    ensures var (pc', fs') := Advance(call, pc, fs, ev);
            && (pc.Ready? && pc'.Writing? ==> call.Create? && pc'.ino == ev.alloc && ev.alloc !in fs.objects)
            && (call.Create? && Launched(pc') ==> Launched(pc) || (pc.Ready? && pc'.Writing?))
            && (pc.Written? && pc'.Published? ==>
                call.Create? && pc'.ino == pc.ino
                    && (call.sibling in fs.dir && fs.dir[call.sibling] == pc.ino ==> Names(fs', call.name, pc.ino)))
  {
  }

  lemma StepAllocatesAnew(calls: map<CallId, Call>, writers: bool, s: State, t: CallId, ev: Event, s': State)
    requires MadeInv(calls, writers, s) && CallStep(calls, s, t, ev, s')
    ensures s'.made.Keys <= calls.Keys == s'.pcs.Keys && s'.won <= s'.made.Keys
    ensures forall u | u in s.made :: u in s'.made && s'.made[u] == s.made[u]
    ensures forall u | u in s'.made && u !in s.made ::
            u == t && s.pcs[t].Ready? && s'.pcs[t].Writing? && s'.made[t] == ev.alloc
    ensures forall u, v | u in s'.made && v in s'.made && u != v :: s'.made[u] != s'.made[v]
  {
    StepHistory(calls[t], s.pcs[t], s.fs, ev);
    forall u | u in s.made ensures s.made[u] in s.fs.objects && !s.pcs[u].Ready? {
      assert MadeAt(calls, writers, s, u);
    }
  }

  lemma CallKeepsMadeAt(calls: map<CallId, Call>, writers: bool, s: State, t: CallId, ev: Event, s': State, u: CallId)
    requires Inv(calls, s) && MadeInv(calls, writers, s) && CallStep(calls, s, t, ev, s') && u in s'.made
    ensures MadeAt(calls, writers, s', u)
  {
    StepHistory(calls[t], s.pcs[t], s.fs, ev);
    StepAllocatesAnew(calls, writers, s, t, ev, s');
    assert InvAt(calls, s, t) && InvAt(calls, s, u);
    if u in s.made { assert MadeAt(calls, writers, s, u); }
    if u == t {
      OwnMade(calls[t], writers, s.pcs[t], s.fs, ev, s'.made[t], t in s.won);
    } else {
      if calls[t].Create? && Launched(s.pcs[t]) { assert MadeAt(calls, writers, s, t); }
      OtherMade(calls[t], writers, s.pcs[t], s.fs, ev, calls[u], s.pcs[u], s.made[u], u in s.won);
    }
  }

  lemma CallKeepsMade(calls: map<CallId, Call>, writers: bool, s: State, t: CallId, ev: Event, s': State)
    requires Inv(calls, s) && MadeInv(calls, writers, s) && CallStep(calls, s, t, ev, s')
    ensures MadeInv(calls, writers, s')
  {
    StepHistory(calls[t], s.pcs[t], s.fs, ev);
    StepAllocatesAnew(calls, writers, s, t, ev, s');
    forall u | u in s'.made ensures MadeAt(calls, writers, s', u) { CallKeepsMadeAt(calls, writers, s, t, ev, s', u); }
  }

  lemma {:induction false} RunMade(calls: map<CallId, Call>, writers: bool, b: seq<State>, k: nat)
    requires Run(calls, writers, b) && k < |b|
    ensures MadeInv(calls, writers, b[k])
  {
    if k == 0 {
      InitMade(calls, writers, b[0]);
    } else {
      RunMade(calls, writers, b, k - 1);
      RunInv(calls, writers, b, k - 1);
      assert StepAt(calls, writers, b, k);
      NextKeepsMade(calls, writers, b[k - 1], b[k]);
    }
  }

  lemma InitMade(calls: map<CallId, Call>, writers: bool, s: State)
    ensures Init(calls, s) ==> MadeInv(calls, writers, s)
  {
  }

  lemma NextKeepsMade(calls: map<CallId, Call>, writers: bool, s: State, s': State)
    requires Inv(calls, s) && MadeInv(calls, writers, s) && Next(calls, writers, s, s')
    ensures MadeInv(calls, writers, s')
  {
    if EnvStep(calls, writers, s, s') {
      forall t | t in s'.made ensures MadeAt(calls, writers, s', t) {
        assert MadeAt(calls, writers, s, t);
        EnvKeepsMade(calls, writers, s, s', t);
      }
    } else {
      var t, ev :| CallStep(calls, s, t, ev, s');
      CallKeepsMade(calls, writers, s, t, ev, s');
    }
  }

  /** One step of a run. */
  ghost predicate MadeTurn(calls: map<CallId, Call>, writers: bool, s: State, s': State) {
    Inv(calls, s) && MadeInv(calls, writers, s) && Next(calls, writers, s, s')
  }

  lemma MadeTurnInRun(calls: map<CallId, Call>, writers: bool, b: seq<State>, k: nat)
    requires Run(calls, writers, b) && 0 < k < |b|
    ensures MadeTurn(calls, writers, b[k - 1], b[k])
  {
    RunMade(calls, writers, b, k - 1);
    RunStates(calls, writers, b, k);
  }

  lemma ReachableMade(calls: map<CallId, Call>, writers: bool, s: State)
    requires Reachable(calls, writers, s)
    ensures MadeInv(calls, writers, s)
  {
    var b :| Run(calls, writers, b) && b[|b| - 1] == s;
    RunMade(calls, writers, b, |b| - 1);
  }

  /**
   No name other than the creator's own temporary ever shows an unpublished file, and without in-place writers none
   ever shows anything but the complete contents.
   */
  lemma NoPartialContentsVisible(calls: map<CallId, Call>, writers: bool, s: State, t: CallId, n: Name)
    requires Reachable(calls, writers, s) && t in calls && t in s.made
    requires Names(s.fs, n, s.made[t]) && n != calls[t].sibling
    ensures calls[t].Create? && t in s.won && s.made[t] in s.fs.objects
    ensures !writers ==> s.fs.objects[s.made[t]] == Regular(calls[t].contents)
  {
    ReachableMade(calls, writers, s);
    assert MadeAt(calls, writers, s, t);
  }

  /** Nobody removes or replaces `name` once it is there. */
  ghost predicate NobodyRemoves(b: seq<State>, name: Name) {
    forall k | 0 < k < |b| :: RetainedAt(b, name, k)
  }

  ghost predicate RetainedAt(b: seq<State>, name: Name, k: nat) {
    0 < k < |b| && Retains(b[k - 1].fs, b[k].fs, name)
  }

  ghost predicate Retains(fs: Fs, fs': Fs, name: Name) {
    name in fs.dir ==> name in fs'.dir && fs'.dir[name] == fs.dir[name]
  }

  lemma WinningStep(calls: map<CallId, Call>, writers: bool, s: State, t: CallId, ev: Event, s': State)
    requires Inv(calls, s) && MadeInv(calls, writers, s) && CallStep(calls, s, t, ev, s')
    requires t in s'.won && t !in s.won
    ensures t in s.made && t in s'.made && s'.made[t] == s.made[t] && Names(s'.fs, calls[t].name, s.made[t])
  {
    var (call, pc) := (calls[t], s.pcs[t]);
    StepHistory(call, pc, s.fs, ev);
    assert pc.Written? && InvAt(calls, s, t);
    assert Launched(pc) && t in s.made && MadeAt(calls, writers, s, t);
  }

  ghost predicate OwnsName(calls: map<CallId, Call>, s: State, t: CallId) {
    t in calls && t in s.made && Names(s.fs, calls[t].name, s.made[t])
  }

  /** Every winner of `name` still owns it. */
  ghost predicate WinnersOwn(calls: map<CallId, Call>, s: State, name: Name) {
    forall t {:trigger OwnsName(calls, s, t)} | t in s.won && t in calls && calls[t].name == name ::
        OwnsName(calls, s, t)
  }

  lemma WinnerStep(calls: map<CallId, Call>, writers: bool, s: State, u: CallId, ev: Event, s': State, t: CallId)
    requires Inv(calls, s) && MadeInv(calls, writers, s) && CallStep(calls, s, u, ev, s') && t in calls && t in s'.won
    requires Retains(s.fs, s'.fs, calls[t].name) && (t in s.won ==> OwnsName(calls, s, t))
    ensures OwnsName(calls, s', t)
  {
    if t !in s.won {
      WinningStep(calls, writers, s, u, ev, s');
    } else {
      StepAllocatesAnew(calls, writers, s, u, ev, s');
    }
  }

  lemma NextKeepsWinners(calls: map<CallId, Call>, writers: bool, s: State, s': State, name: Name)
    requires WinnerTurn(calls, writers, s, s', name) && WinnersOwn(calls, s, name)
    ensures WinnersOwn(calls, s', name)
  {
    forall t | t in s'.won && t in calls && calls[t].name == name ensures OwnsName(calls, s', t) {
      if t in s.won { assert OwnsName(calls, s, t); }
      if !EnvStep(calls, writers, s, s') {
        var u, ev :| CallStep(calls, s, u, ev, s');
        WinnerStep(calls, writers, s, u, ev, s', t);
      }
    }
  }

  /** One step of a run in which nobody removes `name`. */
  ghost predicate WinnerTurn(calls: map<CallId, Call>, writers: bool, s: State, s': State, name: Name) {
    MadeTurn(calls, writers, s, s') && Retains(s.fs, s'.fs, name)
  }

  lemma TurnInRun(calls: map<CallId, Call>, writers: bool, b: seq<State>, k: nat, name: Name)
    requires Run(calls, writers, b) && 0 < k < |b| && RetainedAt(b, name, k)
    ensures WinnerTurn(calls, writers, b[k - 1], b[k], name)
  {
    MadeTurnInRun(calls, writers, b, k);
  }

  lemma {:induction false} RunWinners(calls: map<CallId, Call>, writers: bool, b: seq<State>, k: nat, name: Name)
    requires Run(calls, writers, b) && k < |b| && NobodyRemoves(b, name)
    ensures WinnersOwn(calls, b[k], name)
  {
    if k == 0 {
      NoWinnersYet(calls, b[0], name);
    } else {
      RunWinners(calls, writers, b, k - 1, name);
      WinnersAfter(calls, writers, b, k, name);
    }
  }

  lemma NoWinnersYet(calls: map<CallId, Call>, s: State, name: Name)
    ensures Init(calls, s) ==> WinnersOwn(calls, s, name)
  {
  }

  lemma WinnersAfter(calls: map<CallId, Call>, writers: bool, b: seq<State>, k: nat, name: Name)
    requires Run(calls, writers, b) && 0 < k < |b| && NobodyRemoves(b, name)
    ensures WinnersOwn(calls, b[k - 1], name) ==> WinnersOwn(calls, b[k], name)
  {
    assert RetainedAt(b, name, k);
    TurnInRun(calls, writers, b, k, name);
    WinnersKeep(calls, writers, b[k - 1], b[k], name);
  }

  lemma WinnersKeep(calls: map<CallId, Call>, writers: bool, s: State, s': State, name: Name)
    ensures WinnerTurn(calls, writers, s, s', name) && WinnersOwn(calls, s, name) ==> WinnersOwn(calls, s', name)
  {
    if WinnerTurn(calls, writers, s, s', name) && WinnersOwn(calls, s, name) {
      NextKeepsWinners(calls, writers, s, s', name);
    }
  }

  /**
   Of any number of concurrent creates of one name that nobody removes, at most one wins; the name then holds the file
   it made, which without in-place writers has its bytes.
   */
  lemma AtMostOneWinner(calls: map<CallId, Call>, writers: bool, b: seq<State>, k: nat, t: CallId, u: CallId,
                        name: Name)
    requires Run(calls, writers, b) && k < |b| && NobodyRemoves(b, name)
    requires t in b[k].won && u in b[k].won && t in calls && u in calls
    requires calls[t].name == name && calls[u].name == name
    ensures t == u && calls[t].Create? && t in b[k].made && Names(b[k].fs, name, b[k].made[t])
    ensures b[k].made[t] in b[k].fs.objects
    ensures !writers ==> b[k].fs.objects[b[k].made[t]] == Regular(calls[t].contents)
  {
    RunMade(calls, writers, b, k);
    RunWinners(calls, writers, b, k, name);
    assert OwnsName(calls, b[k], t) && OwnsName(calls, b[k], u) && MadeAt(calls, writers, b[k], t);
  }

  /** Step `i` of call `t` publishes the file it made. */
  ghost predicate PublishesAt(b: seq<State>, t: CallId, i: nat) {
    0 < i < |b| && t !in b[i - 1].won && t in b[i].won
  }

  /** Every winner has published. */
  lemma {:induction false} Publication(calls: map<CallId, Call>, writers: bool, b: seq<State>, t: CallId, k: nat)
    returns (i: nat)
    requires Run(calls, writers, b) && k < |b| && t in b[k].won
    ensures i <= k && PublishesAt(b, t, i)
  {
    if t in b[k - 1].won { i := Publication(calls, writers, b, t, k - 1); } else { i := k; }
  }

  lemma PublishingCall(call: Call, pc: Pc, fs: Fs, ev: Event)
    requires CallInv(call, pc, fs) && pc.Written? && Advance(call, pc, fs, ev).0.Published?
    ensures call.Create?
    ensures var fs' := Advance(call, pc, fs, ev).1;
            pc.ino in fs'.objects && fs'.objects[pc.ino] == Regular(call.contents)
  {
  }

  /** The file `t` made has the complete contents. */
  ghost predicate MadeWhole(calls: map<CallId, Call>, s: State, t: CallId) {
    && t in calls && calls[t].Create? && t in s.made && s.made[t] in s.fs.objects
    && s.fs.objects[s.made[t]] == Regular(calls[t].contents)
  }

  lemma PublishingStep(calls: map<CallId, Call>, writers: bool, s: State, s': State, t: CallId)
    requires MadeTurn(calls, writers, s, s') && t !in s.won && t in s'.won
    ensures MadeWhole(calls, s', t)
  {
    var u, ev :| CallStep(calls, s, u, ev, s');
    assert u == t && InvAt(calls, s, t);
    PublishingCall(calls[t], s.pcs[t], s.fs, ev);
    assert Launched(s.pcs[t]) && t in s.made && MadeAt(calls, writers, s, t);
  }

  lemma PublishedWhole(calls: map<CallId, Call>, writers: bool, b: seq<State>, t: CallId, i: nat)
    requires Run(calls, writers, b) && PublishesAt(b, t, i)
    ensures MadeWhole(calls, b[i], t)
  {
    MadeTurnInRun(calls, writers, b, i);
    PublishesWhole(calls, writers, b[i - 1], b[i], t);
  }

  lemma PublishesWhole(calls: map<CallId, Call>, writers: bool, s: State, s': State, t: CallId)
    ensures MadeTurn(calls, writers, s, s') && t !in s.won && t in s'.won ==> MadeWhole(calls, s', t)
  {
    if MadeTurn(calls, writers, s, s') && t !in s.won && t in s'.won { PublishingStep(calls, writers, s, s', t); }
  }

  /** What `t` made and won is still so. */
  ghost predicate HistoryKept(s: State, s': State, t: CallId) {
    t in s.made ==> t in s'.made && s'.made[t] == s.made[t] && (t in s.won ==> t in s'.won)
  }

  lemma NextKeepsHistory(calls: map<CallId, Call>, writers: bool, s: State, s': State, t: CallId)
    requires MadeTurn(calls, writers, s, s')
    ensures HistoryKept(s, s', t)
  {
    if !EnvStep(calls, writers, s, s') {
      var u, ev :| CallStep(calls, s, u, ev, s');
      StepAllocatesAnew(calls, writers, s, u, ev, s');
    }
  }

  lemma {:induction false} MadeOnce(calls: map<CallId, Call>, writers: bool, b: seq<State>, t: CallId, i: nat, k: nat)
    requires Run(calls, writers, b) && i <= k < |b| && t in b[i].made
    ensures t in b[k].made && HistoryKept(b[i], b[k], t)
  {
    if i < k {
      MadeOnce(calls, writers, b, t, i, k - 1);
      HistoryStep(calls, writers, b, t, k);
    }
  }

  lemma HistoryStep(calls: map<CallId, Call>, writers: bool, b: seq<State>, t: CallId, k: nat)
    requires Run(calls, writers, b) && 0 < k < |b|
    ensures HistoryKept(b[k - 1], b[k], t)
  {
    MadeTurnInRun(calls, writers, b, k);
    NextKeepsHistory(calls, writers, b[k - 1], b[k], t);
  }

  /**
   A file is published whole, and from then on has the contents exactly when nobody wrote to it, or the last one who
   did left exactly those bytes.
   */
  lemma PublishedBytes(calls: map<CallId, Call>, writers: bool, b: seq<State>, t: CallId, i: nat, k: nat)
    requires Run(calls, writers, b) && PublishesAt(b, t, i) && i < k <= |b|
    ensures t in calls && calls[t].Create? && t in b[i].made && b[i].made[t] in b[k - 1].fs.objects
    ensures t in b[k - 1].won && t in b[k - 1].made && b[k - 1].made[t] == b[i].made[t]
    ensures AsLastWritten(b, b[i].made[t], i, k, Regular(calls[t].contents))
  {
    PublishedWhole(calls, writers, b, t, i);
    MadeOnce(calls, writers, b, t, i, k - 1);
    BytesSince(calls, writers, b, b[i].made[t], i, k);
  }

  /** A file holds what it held unless somebody writes to it, and then what the last one left. */
  lemma BytesSince(calls: map<CallId, Call>, writers: bool, b: seq<State>, ino: Inode, i: nat, k: nat)
    requires Run(calls, writers, b) && i < k <= |b| && ino in b[i].fs.objects
    ensures ino in b[k - 1].fs.objects && AsLastWritten(b, ino, i, k, b[i].fs.objects[ino])
  {
    ContentsLast(calls, writers, b, ino, i, k);
    LastRewriteDecides(calls, writers, b, ino, i, k, b[i].fs.objects[ino]);
  }

  /** A name that nobody removes holds its winner's file, with the winner's bytes exactly as the last writer decides. */
  lemma WinnerBytes(calls: map<CallId, Call>, writers: bool, b: seq<State>, t: CallId, name: Name, i: nat, k: nat)
    requires Run(calls, writers, b) && NobodyRemoves(b, name) && PublishesAt(b, t, i) && i < k <= |b|
    requires t in calls && calls[t].name == name
    ensures calls[t].Create? && t in b[i].made && Names(b[k - 1].fs, name, b[i].made[t])
    ensures b[i].made[t] in b[k - 1].fs.objects
    ensures AsLastWritten(b, b[k - 1].fs.dir[name], i, k, Regular(calls[t].contents))
  {
    PublishedBytes(calls, writers, b, t, i, k);
    AtMostOneWinner(calls, writers, b, k - 1, t, t, name);
  }

  lemma {:induction false} ContentsLast(calls: map<CallId, Call>, writers: bool, b: seq<State>, ino: Inode, i: nat,
                                        k: nat)
    requires Run(calls, writers, b) && i < k <= |b| && ino in b[i].fs.objects
    ensures ino in b[k - 1].fs.objects
    ensures Unwritten(b, ino, i, k) ==> b[k - 1].fs.objects[ino] == b[i].fs.objects[ino]
  {
    if i < k - 1 {
      ContentsLast(calls, writers, b, ino, i, k - 1);
      RunStates(calls, writers, b, k - 1);
      ObjectStays(calls, writers, b[k - 2], b[k - 1], ino);
      if Unwritten(b, ino, i, k) { assert !Rewritten(b, ino, k - 1); }
    }
  }

  /** Step `i` of call `t` fails to unlink its temporary. */
  ghost predicate FailsToUnlinkAt(calls: map<CallId, Call>, b: seq<State>, t: CallId, i: nat) {
    && 0 < i < |b| && t in b[i - 1].pcs
    && (b[i - 1].pcs[t].Abandoned? || b[i - 1].pcs[t].Lost? || b[i - 1].pcs[t].Refused?)
    && forall ev | CallStep(calls, b[i - 1], t, ev, b[i]) :: ev.fault
  }

  lemma UnlinkFailsBy(call: Call, pc: Pc, fs: Fs, ev: Event)
    requires call.Create? && CallInv(call, pc, fs) && !pc.Done? && Advance(call, pc, fs, ev).0.Done?
    requires var o := Advance(call, pc, fs, ev).0.outcome;
             o == WriteError(true) || o == RenameError(true) || o == LoserUnlinkFailed
    ensures (pc.Abandoned? || pc.Lost? || pc.Refused?) && ev.fault
  {
  }

  lemma DoneStays(calls: map<CallId, Call>, writers: bool, s: State, s': State, t: CallId)
    requires Next(calls, writers, s, s') && t in s.pcs && s.pcs[t].Done?
    ensures t in s'.pcs && s'.pcs[t] == s.pcs[t]
  {
    if !EnvStep(calls, writers, s, s') {
      var u, ev :| CallStep(calls, s, u, ev, s');
      DoneIsIdle(calls[u], s.pcs[u], s.fs, ev);
    }
  }

  lemma DoneIsIdle(call: Call, pc: Pc, fs: Fs, ev: Event)
    ensures pc.Done? ==> Advance(call, pc, fs, ev) == (pc, fs)
  {
  }

  lemma NotDoneAtFirst(calls: map<CallId, Call>, s: State, t: CallId)
    ensures Init(calls, s) && t in calls ==> t in s.pcs && !s.pcs[t].Done?
  {
  }

  lemma DoneBefore(calls: map<CallId, Call>, writers: bool, b: seq<State>, t: CallId, k: nat)
    requires Run(calls, writers, b) && 0 < k < |b| && t in calls
    ensures t in b[k - 1].pcs && t in b[k].pcs && (b[k - 1].pcs[t].Done? ==> b[k].pcs[t] == b[k - 1].pcs[t])
  {
    RunStates(calls, writers, b, k);
    if b[k - 1].pcs[t].Done? { DoneStays(calls, writers, b[k - 1], b[k], t); }
  }

  /** The step in which a call came to its outcome. */
  lemma {:induction false} FinishingStep(calls: map<CallId, Call>, writers: bool, b: seq<State>, t: CallId, k: nat)
    returns (i: nat)
    requires Run(calls, writers, b) && k < |b| && t in calls && t in b[k].pcs && b[k].pcs[t].Done?
    ensures 0 < i <= k && t in b[i - 1].pcs && t in b[i].pcs && !b[i - 1].pcs[t].Done? && b[i].pcs[t] == b[k].pcs[t]
  {
    NotDoneAtFirst(calls, b[0], t);
    DoneBefore(calls, writers, b, t, k);
    if b[k - 1].pcs[t].Done? {
      i := FinishingStep(calls, writers, b, t, k - 1);
    } else {
      i := k;
    }
  }

  /** In every run, a finished create whose temporary is still there failed at its own unlink of it. */
  lemma LeftoverHadUnlinkFault(calls: map<CallId, Call>, writers: bool, b: seq<State>, t: CallId, k: nat)
    returns (i: nat)
    requires Run(calls, writers, b) && k < |b| && t in calls && calls[t].Create? && t in b[k].pcs
    requires b[k].pcs[t].Done? && calls[t].sibling in b[k].fs.dir
    ensures i <= k && FailsToUnlinkAt(calls, b, t, i)
  {
    RunInv(calls, writers, b, k);
    assert InvAt(calls, b[k], t);
    LeftoverNeedsUnlinkFailure(calls[t], b[k].pcs[t].outcome, b[k].fs);
    i := FinishingStep(calls, writers, b, t, k);
    UnlinkFaultAt(calls, writers, b, t, i);
  }

  lemma UnlinkFaultAt(calls: map<CallId, Call>, writers: bool, b: seq<State>, t: CallId, i: nat)
    requires Run(calls, writers, b) && 0 < i < |b| && t in calls && calls[t].Create?
    requires t in b[i - 1].pcs && t in b[i].pcs && !b[i - 1].pcs[t].Done? && b[i].pcs[t].Done?
    requires var o := b[i].pcs[t].outcome; o == WriteError(true) || o == RenameError(true) || o == LoserUnlinkFailed
    ensures FailsToUnlinkAt(calls, b, t, i)
  {
    RunStates(calls, writers, b, i);
    var ev := OwnMove(calls, writers, b[i - 1], b[i], t);
    assert InvAt(calls, b[i - 1], t);
    UnlinkFailsBy(calls[t], b[i - 1].pcs[t], b[i - 1].fs, ev);
    forall e | CallStep(calls, b[i - 1], t, e, b[i]) ensures e.fault {
      UnlinkFailsBy(calls[t], b[i - 1].pcs[t], b[i - 1].fs, e);
    }
  }

  lemma LeftoverNeedsUnlinkFailure(call: Call, outcome: Outcome, fs: Fs)
    requires call.Create? && CallInv(call, Done(outcome), fs) && call.sibling in fs.dir
    ensures outcome == WriteError(true) || outcome == RenameError(true) || outcome == LoserUnlinkFailed
  {
  }

  /**
   A finished create leaves a temporary behind only when its own unlink failed; a success or clean loss leaves none.
   */
  lemma FinishedCreateLeavesNoTemporary(calls: map<CallId, Call>, writers: bool, s: State, t: CallId)
    requires Reachable(calls, writers, s) && t in calls && calls[t].Create? && t in s.pcs
    requires s.pcs[t].Done? && calls[t].sibling in s.fs.dir
    ensures var o := s.pcs[t].outcome; o == WriteError(true) || o == RenameError(true) || o == LoserUnlinkFailed
  {
    ReachableInv(calls, writers, s);
    assert InvAt(calls, s, t);
    LeftoverNeedsUnlinkFailure(calls[t], s.pcs[t].outcome, s.fs);
  }

  // ----- The methods themselves -----

  /** Before a step the environment may move the directory to `env`; `ev` is the system's answer to the step. */
  datatype Turn = Turn(env: Option<Fs>, ev: Event)

  function Interfere(fs: Fs, env: Option<Fs>): Fs { if env.Some? then env.value else fs }

  /** How far a removal is from its inspection; the bound on the reads is known only once the file is open. */
  function Phase(pc: Pc): nat {
    match pc case Ready => 3 case Captured(_) => 2 case Reading(_, _, _) => 1 case _ => 0
  }

  /** Bound on the steps left within a phase. */
  function Rank(call: Call, pc: Pc): nat {
    match call
    case Create(_, contents, _) => (
      match pc
      case Ready => |contents| + 10
      case Writing(_, k) => if k <= |contents| then |contents| - k + 6 else 6
      case Written(_) => 4
      case Abandoned(_) => 2
      case Published(_) => 2
      case Lost(_) => 2
      case Refused(_) => 2
      case _ => 0
    )
    case Remove(_, _, _) => (
      match pc
      case Ready => 5
      case Captured(_) => 4
      case Reading(_, _, left) => left + 4
      case Matched(_) => 3
      case Differs(_) => 3
      case Uninspected(_) => 3
      case Unlinked => 2
      case Restored => 2
      case _ => 0
    )
  }

  /** Runs one call to its end, interleaved with the environment of `script`. */
  function Drive(call: Call, pc: Pc, fs: Fs, script: nat -> Turn, i: nat): (Pc, Fs)
    decreases Phase(pc), Rank(call, pc)
  {
    if Rank(call, pc) == 0 then (pc, fs)
    else
      var (pc', fs') := Advance(call, pc, Interfere(fs, script(i).env), script(i).ev);
      Drive(call, pc', fs', script, i + 1)
  }

  datatype Rename = Moved | SourceMissing | TargetExists | Faulted

  class AnchoredDirectory {
    var dir: map<Name, Inode>
    var objects: map<Inode, Object>

    constructor (fs: Fs)
      ensures Image() == fs
    {
      dir, objects := fs.dir, fs.objects;
    }

    function Image(): Fs
      reads this
    {
      Fs(dir, objects)
    }

    method Interference(env: Option<Fs>)
      modifies this
      ensures Image() == Interfere(old(Image()), env)
    {
      var fs := Interfere(Image(), env);
      dir, objects := fs.dir, fs.objects;
    }

    method RenameNoReplaceAt(source: Name, target: Name, fault: bool) returns (r: Rename)
      modifies this`dir
      ensures r == if fault then Faulted else if target in old(dir) then TargetExists
                   else if source !in old(dir) then SourceMissing else Moved
      ensures if r.Moved? then Some(dir) == RenameNoReplace(old(dir), source, target) else dir == old(dir)
    {
      if fault { return Faulted; }
      if target in dir { return TargetExists; }
      if source !in dir { return SourceMissing; }
      dir := (dir - {source})[target := dir[source]];
      return Moved;
    }

    method Unlink(name: Name, fault: bool) returns (ok: bool)
      modifies this`dir
      ensures ok <==> !fault && name in old(dir)
      ensures dir == if ok then old(dir) - {name} else old(dir)
    {
      ok := !fault && name in dir;
      if ok { dir := dir - {name}; }
    }

    method CreateFileExclusive(name: Name, contents: Bytes, tmp: Name, script: nat -> Turn) returns (outcome: Outcome)
      modifies this
      ensures (Done(outcome), Image()) == Drive(Create(name, contents, tmp), Ready, old(Image()), script, 0)
    {
      var call := Create(name, contents, tmp);
      Interference(script(0).env);
      if !OrdinaryName(name) { return InvalidName; }
      if script(0).ev.fault || tmp in dir || script(0).ev.alloc in objects { return OpenFailed; }
      var ino := script(0).ev.alloc;
      dir, objects := dir[tmp := ino], objects[ino := Regular([])];
      var written, i := WriteAndSync(call, ino, script);
      if written {
        outcome := Publish(call, ino, script, i);
      } else {
        Interference(script(i).env);
        var unlinked := Unlink(tmp, script(i).ev.fault);
        outcome := WriteError(tmp in dir);
        assert Drive(call, Done(outcome), Image(), script, i + 1) == (Done(outcome), Image());
      }
    }

    /** `write_all` followed by `sync_all`: short writes are retried, any failure abandons the temporary. */
    method WriteAndSync(call: Call, ino: Inode, script: nat -> Turn) returns (ok: bool, i: nat)
      requires call.Create?
      modifies this
      ensures Drive(call, Writing(ino, 0), old(Image()), script, 1) ==
              Drive(call, if ok then Written(ino) else Abandoned(ino), Image(), script, i)
    {
      var written := 0;
      i, ok := 1, true;
      while written < |call.contents| && ok
        invariant written <= |call.contents|
        invariant Drive(call, Writing(ino, 0), old(Image()), script, 1) ==
                  Drive(call, if ok then Writing(ino, written) else Abandoned(ino), Image(), script, i)
        decreases |call.contents| - written, ok
      {
        Interference(script(i).env);
        if script(i).ev.fault {
          ok := false;
        } else {
          written := Smaller(written + 1 + script(i).ev.chunk, |call.contents|);
          objects := objects[ino := Regular(call.contents[..written])];
        }
        i := i + 1;
      }
      if ok {
        Interference(script(i).env);
        ok, i := !script(i).ev.fault, i + 1;
      }
    }

    /** The no-replace rename and what follows each of its answers. */
    method Publish(call: Call, ino: Inode, script: nat -> Turn, i: nat) returns (outcome: Outcome)
      requires call.Create?
      modifies this
      ensures (Done(outcome), Image()) == Drive(call, Written(ino), old(Image()), script, i)
    {
      ghost var goal := Drive(call, Written(ino), Image(), script, i);
      Interference(script(i).env);
      var renamed := RenameNoReplaceAt(call.sibling, call.name, script(i).ev.fault);
      ghost var next := if renamed.Moved? then Published(ino) else if renamed.TargetExists? then Lost(ino)
                        else Refused(ino);
      assert goal == Drive(call, next, Image(), script, i + 1);
      Interference(script(i + 1).env);
      if renamed == Moved {
        outcome := if script(i + 1).ev.fault then CreatedUnsynced else Created;
      } else {
        var unlinked := Unlink(call.sibling, script(i + 1).ev.fault);
        outcome := if renamed != TargetExists then RenameError(call.sibling in dir)
                   else if unlinked then Exists else LoserUnlinkFailed;
      }
      assert goal == Drive(call, Done(outcome), Image(), script, i + 2);
    }

    method RemoveFileIfExact(name: Name, expected: Bytes, captured: Name, script: nat -> Turn)
      returns (outcome: Outcome)
      modifies this
      ensures (Done(outcome), Image()) == Drive(Remove(name, expected, captured), Ready, old(Image()), script, 0)
    {
      Interference(script(0).env);
      if !OrdinaryName(name) { return InvalidName; }
      if !script(0).ev.fault && name !in dir { return NotFound; }
      var taken := RenameNoReplaceAt(name, captured, script(0).ev.fault);
      if taken != Moved { return CaptureFailed; }
      outcome := Settle(Remove(name, expected, captured), dir[captured], script);
    }

    /** Inspects the captured entry, then unlinks it or puts it back. */
    method Settle(call: Call, ino: Inode, script: nat -> Turn) returns (outcome: Outcome)
      requires call.Remove?
      modifies this
      ensures (Done(outcome), Image()) == Drive(call, Captured(ino), old(Image()), script, 1)
    {
      var matches, fd, i := CapturedFileMatches(call, ino, script);
      if matches == Some(true) {
        outcome := UnlinkCaptured(call, fd, script, i);
      } else {
        outcome := PutBack(call, fd, matches.Some?, script, i);
      }
    }

    method UnlinkCaptured(call: Call, ino: Inode, script: nat -> Turn, i: nat) returns (outcome: Outcome)
      requires call.Remove?
      modifies this
      ensures (Done(outcome), Image()) == Drive(call, Matched(ino), old(Image()), script, i)
    {
      ghost var goal := Drive(call, Matched(ino), Image(), script, i);
      Interference(script(i).env);
      var unlinked := Unlink(call.sibling, script(i).ev.fault);
      assert goal == Drive(call, if unlinked then Unlinked else Done(UnlinkFailed(ino)), Image(), script, i + 1);
      if !unlinked { return UnlinkFailed(ino); }
      Interference(script(i + 1).env);
      outcome := if script(i + 1).ev.fault then RemovedUnsynced else Removed;
      assert goal == Drive(call, Done(outcome), Image(), script, i + 2);
    }

    method PutBack(call: Call, ino: Inode, inspected: bool, script: nat -> Turn, i: nat) returns (outcome: Outcome)
      requires call.Remove?
      modifies this
      ensures (Done(outcome), Image()) ==
              Drive(call, if inspected then Differs(ino) else Uninspected(ino), old(Image()), script, i)
    {
      ghost var goal := Drive(call, if inspected then Differs(ino) else Uninspected(ino), Image(), script, i);
      Interference(script(i).env);
      var restored := RenameNoReplaceAt(call.sibling, call.name, script(i).ev.fault);
      ghost var next := if restored != Moved then Done(Preserved(ino)) else if !inspected then Done(InspectError)
                        else Restored;
      assert goal == Drive(call, next, Image(), script, i + 1);
      if restored != Moved { return Preserved(ino); }
      if !inspected { return InspectError; }
      Interference(script(i + 1).env);
      outcome := if script(i + 1).ev.fault then KeptUnsynced else Kept;
      assert goal == Drive(call, Done(outcome), Image(), script, i + 2);
    }

    /**
     Opens the captured entry and reads it to its end, then compares. `None` is an I/O error; a symlink or
     special object is "not equal". `fd` is the inode that was opened.
     */
    method CapturedFileMatches(call: Call, ino: Inode, script: nat -> Turn) returns (r: Option<bool>, fd: Inode, i: nat)
      requires call.Remove?
      modifies this
      ensures Drive(call, Captured(ino), old(Image()), script, 1) == Drive(call, Verdict(r, fd), Image(), script, i)
    {
      fd, i := ino, 2;
      Interference(script(1).env);
      if script(1).ev.fault || call.sibling !in dir || dir[call.sibling] !in objects { return None, fd, i; }
      if !objects[dir[call.sibling]].Regular? { return Some(false), fd, i; }
      fd := dir[call.sibling];
      r, i := ReadToEnd(call, fd, script, script(1).ev.bound);
    }

    /** Each read sees the file as it is at that moment. */
    method ReadToEnd(call: Call, fd: Inode, script: nat -> Turn, bound: nat) returns (r: Option<bool>, i: nat)
      requires call.Remove?
      modifies this
      ensures Drive(call, Reading(fd, [], bound), old(Image()), script, 2) ==
              Drive(call, Verdict(r, fd), Image(), script, i)
    {
      var observed, left := [], bound;
      ghost var goal := Drive(call, Reading(fd, observed, left), Image(), script, 2);
      var done := false;
      i, r := 2, None;
      while !done
        invariant goal == Drive(call, if done then Verdict(r, fd) else Reading(fd, observed, left), Image(), script, i)
        decreases !done, left
      {
        done, r, observed, left := ReadOnce(call, fd, observed, left, script, i);
        i := i + 1;
      }
    }

    /** One read: the end of the file decides, a failure or a used-up bound is an error. */
    method ReadOnce(call: Call, fd: Inode, observed: Bytes, left: nat, script: nat -> Turn, i: nat)
      returns (done: bool, r: Option<bool>, observed': Bytes, left': nat)
      requires call.Remove?
      modifies this
      ensures Drive(call, Reading(fd, observed, left), old(Image()), script, i) ==
              Drive(call, if done then Verdict(r, fd) else Reading(fd, observed', left'), Image(), script, i + 1)
      ensures !done ==> left' < left
    {
      ReadTurn(call, fd, observed, left, Image(), script, i);
      Interference(script(i).env);
      if script(i).ev.fault || left == 0 || fd !in objects || !objects[fd].Regular? {
        return true, None, observed, left;
      }
      var bytes := objects[fd].bytes;
      if |observed| >= |bytes| { return true, Some(observed == call.expected), observed, left; }
      var chunk := bytes[|observed|..Smaller(|observed| + 1 + script(i).ev.chunk, |bytes|)];
      return false, None, observed + chunk, left - 1;
    }
  }

  /** One read of the program. */
  lemma ReadTurn(call: Call, fd: Inode, observed: Bytes, left: nat, fs: Fs, script: nat -> Turn, i: nat)
    requires call.Remove?
    ensures var (now, ev) := (Interfere(fs, script(i).env), script(i).ev);
            var next := if ev.fault || left == 0 || fd !in now.objects || !now.objects[fd].Regular?
                        then Verdict(None, fd)
                        else if |observed| < |now.objects[fd].bytes|
                        then Reading(fd, observed + NextBytes(now, fd, observed, ev), left - 1)
                        else Verdict(Some(observed == call.expected), fd);
            Drive(call, Reading(fd, observed, left), fs, script, i) == Drive(call, next, now, script, i + 1)
  {
  }

  /** Where the call goes on after the inspection. */
  function Verdict(r: Option<bool>, fd: Inode): Pc {
    match r case None => Uninspected(fd) case Some(equal) => if equal then Matched(fd) else Differs(fd)
  }

  // ----- The methods refine the concurrent system, and alone they do what their names say -----

  /** The states `path`, one after the other, are steps of the system from `s` on. */
  ghost predicate Path(calls: map<CallId, Call>, writers: bool, s: State, path: seq<State>)
    decreases |path|
  {
    path == [] || (Next(calls, writers, s, path[0]) && Path(calls, writers, path[0], path[1..]))
  }

  function LastOf(s: State, path: seq<State>): State { if path == [] then s else path[|path| - 1] }

  lemma {:induction false} PathThen(calls: map<CallId, Call>, writers: bool, s: State, p: seq<State>, q: seq<State>)
    requires Path(calls, writers, s, p) && Path(calls, writers, LastOf(s, p), q)
    ensures Path(calls, writers, s, p + q) && LastOf(s, p + q) == LastOf(LastOf(s, p), q)
    decreases |p|
  {
    if p == [] {
      assert p + q == q;
    } else {
      PathThen(calls, writers, p[0], p[1..], q);
      assert (p + q)[0] == p[0] && (p + q)[1..] == p[1..] + q;
    }
  }

  lemma ExtendRun(calls: map<CallId, Call>, writers: bool, b: seq<State>, s: State)
    requires Run(calls, writers, b) && Next(calls, writers, b[|b| - 1], s)
    ensures Run(calls, writers, b + [s])
  {
    var c := b + [s];
    forall k | 0 < k < |c| ensures StepAt(calls, writers, c, k) {
      if k < |b| { assert StepAt(calls, writers, b, k); }
    }
  }

  lemma {:induction false} RunAlong(calls: map<CallId, Call>, writers: bool, b: seq<State>, path: seq<State>)
    requires Run(calls, writers, b) && Path(calls, writers, b[|b| - 1], path)
    ensures Run(calls, writers, b + path)
    decreases |path|
  {
    if path == [] {
      assert b + path == b;
    } else {
      ExtendRun(calls, writers, b, path[0]);
      RunAlong(calls, writers, b + [path[0]], path[1..]);
      assert b + path == b + [path[0]] + path[1..];
    }
  }

  /** Other calls and the environment take the steps `others`, one after the other, while `t` waits. */
  ghost predicate Meanwhile(calls: map<CallId, Call>, writers: bool, t: CallId, s: State, others: seq<State>) {
    && t in s.pcs && Path(calls, writers, s, others)
    && forall k | 0 <= k < |others| :: t in others[k].pcs && others[k].pcs[t] == s.pcs[t]
  }

  /** What the turn of `t` in `s` leads to, when the others do `others` before it. */
  function Turned(calls: map<CallId, Call>, s: State, t: CallId, others: seq<State>, ev: Event): State
    requires t in calls
  {
    var ready := LastOf(s, others);
    if t in ready.pcs then Stepped(calls, ready, t, ev) else s
  }

  predicate AtRest(calls: map<CallId, Call>, s: State, t: CallId)
    requires t in calls
  {
    t !in s.pcs || Rank(calls[t], s.pcs[t]) == 0
  }

  function PhaseOf(s: State, t: CallId): nat { if t in s.pcs then Phase(s.pcs[t]) else 0 }

  function RankOf(calls: map<CallId, Call>, s: State, t: CallId): nat
    requires t in calls
  {
    if t in s.pcs then Rank(calls[t], s.pcs[t]) else 0
  }

  /** A turn brings the method closer to its end. */
  predicate Closer(calls: map<CallId, Call>, t: CallId, s: State, next: State)
    requires t in calls
  {
    PhaseOf(next, t) < PhaseOf(s, t)
        || (PhaseOf(next, t) == PhaseOf(s, t) && RankOf(calls, next, t) < RankOf(calls, s, t))
  }

  /** The turn of a method that is not at its end always brings it closer, whatever the others do meanwhile. */
  lemma TurnIsCloser(calls: map<CallId, Call>, s: State, t: CallId, others: seq<State>, ev: Event)
    requires t in calls && !AtRest(calls, s, t)
    requires t in LastOf(s, others).pcs && LastOf(s, others).pcs[t] == s.pcs[t]
    ensures Closer(calls, t, s, Turned(calls, s, t, others, ev))
  {
  }

  /**
   Before every turn the script shows the method what the other calls and the environment really do in `others`. The
   conjunct `Closer` bounds the recursion and restricts nothing: by `TurnIsCloser` it holds of every such turn.
   */
  ghost predicate Lawful(calls: map<CallId, Call>, writers: bool, t: CallId, s: State, script: nat -> Turn,
                         others: nat -> seq<State>, i: nat)
    requires t in calls
    decreases PhaseOf(s, t), RankOf(calls, s, t)
  {
    t in s.pcs && (AtRest(calls, s, t) || (
      var next := Turned(calls, s, t, others(i), script(i).ev);
      && Meanwhile(calls, writers, t, s, others(i)) && LastOf(s, others(i)).fs == Interfere(s.fs, script(i).env)
      && Closer(calls, t, s, next) && Lawful(calls, writers, t, next, script, others, i + 1)))
  }

  /** All the states from the start of the method to its end. */
  ghost function Trace(calls: map<CallId, Call>, writers: bool, t: CallId, s: State, script: nat -> Turn,
                       others: nat -> seq<State>, i: nat): seq<State>
    requires t in calls && Lawful(calls, writers, t, s, script, others, i)
    decreases PhaseOf(s, t), RankOf(calls, s, t)
  {
    if AtRest(calls, s, t) then []
    else
      var next := Turned(calls, s, t, others(i), script(i).ev);
      (others(i) + [next]) + Trace(calls, writers, t, next, script, others, i + 1)
  }

  /** One turn of a method is what the others did meanwhile and one step of its call. */
  lemma TurnIsPath(calls: map<CallId, Call>, writers: bool, t: CallId, s: State, others: seq<State>, ev: Event)
    requires t in calls && Meanwhile(calls, writers, t, s, others)
    ensures Path(calls, writers, s, others + [Turned(calls, s, t, others, ev)])
  {
    var (ready, next) := (LastOf(s, others), Turned(calls, s, t, others, ev));
    assert CallStep(calls, ready, t, ev, next);
    assert Path(calls, writers, ready, [next]);
    PathThen(calls, writers, s, others, [next]);
  }

  lemma {:induction false} TraceIsPath(calls: map<CallId, Call>, writers: bool, t: CallId, s: State,
                                       script: nat -> Turn, others: nat -> seq<State>, i: nat)
    requires t in calls && Lawful(calls, writers, t, s, script, others, i)
    ensures Path(calls, writers, s, Trace(calls, writers, t, s, script, others, i))
    decreases PhaseOf(s, t), RankOf(calls, s, t)
  {
    if !AtRest(calls, s, t) {
      var next := Turned(calls, s, t, others(i), script(i).ev);
      TurnIsPath(calls, writers, t, s, others(i), script(i).ev);
      TraceIsPath(calls, writers, t, next, script, others, i + 1);
      PathThen(calls, writers, s, others(i) + [next], Trace(calls, writers, t, next, script, others, i + 1));
    }
  }

  /** One turn of the program, read off the states before and after it. */
  lemma DriveTurn(calls: map<CallId, Call>, s: State, t: CallId, others: seq<State>, script: nat -> Turn, i: nat)
    requires t in calls && !AtRest(calls, s, t) && LastOf(s, others).fs == Interfere(s.fs, script(i).env)
    requires t in LastOf(s, others).pcs && LastOf(s, others).pcs[t] == s.pcs[t]
    ensures var next := Turned(calls, s, t, others, script(i).ev);
            t in next.pcs
                && Drive(calls[t], s.pcs[t], s.fs, script, i) == Drive(calls[t], next.pcs[t], next.fs, script, i + 1)
  {
  }

  lemma {:induction false} DriveEnds(calls: map<CallId, Call>, writers: bool, t: CallId, s: State, script: nat -> Turn,
                                     others: nat -> seq<State>, i: nat)
    requires t in calls && Lawful(calls, writers, t, s, script, others, i)
    ensures var end := LastOf(s, Trace(calls, writers, t, s, script, others, i));
            t in s.pcs && t in end.pcs && Drive(calls[t], s.pcs[t], s.fs, script, i) == (end.pcs[t], end.fs)
    decreases PhaseOf(s, t), RankOf(calls, s, t)
  {
    if !AtRest(calls, s, t) {
      var next := Turned(calls, s, t, others(i), script(i).ev);
      DriveTurn(calls, s, t, others(i), script, i);
      DriveEnds(calls, writers, t, next, script, others, i + 1);
      LastOfTurn(s, others(i), next, Trace(calls, writers, t, next, script, others, i + 1));
    }
  }

  lemma LastOfTurn(s: State, others: seq<State>, next: State, rest: seq<State>)
    ensures LastOf(s, (others + [next]) + rest) == LastOf(next, rest)
  {
  }

  /** Every execution of a method, beside any number of other calls, is a run of the concurrent system. */
  lemma DriveIsARun(calls: map<CallId, Call>, writers: bool, t: CallId, b: seq<State>, script: nat -> Turn,
                    others: nat -> seq<State>) returns (c: seq<State>)
    requires t in calls && Run(calls, writers, b) && Lawful(calls, writers, t, b[|b| - 1], script, others, 0)
    ensures Run(calls, writers, c) && b <= c && t in b[|b| - 1].pcs && t in c[|c| - 1].pcs
    ensures Drive(calls[t], b[|b| - 1].pcs[t], b[|b| - 1].fs, script, 0) == (c[|c| - 1].pcs[t], c[|c| - 1].fs)
  {
    var trace := Trace(calls, writers, t, b[|b| - 1], script, others, 0);
    TraceIsPath(calls, writers, t, b[|b| - 1], script, others, 0);
    DriveEnds(calls, writers, t, b[|b| - 1], script, others, 0);
    RunAlong(calls, writers, b, trace);
    c := b + trace;
  }

  // ----- Without interference: every outcome and every directory, for every pattern of faults -----

  /** Nobody else acts between the steps; any of them may fail. */
  ghost predicate Alone(script: nat -> Turn) { forall i :: script(i).env.None? }

  /** Nothing fails either. */
  ghost predicate Quiet(script: nat -> Turn) { Alone(script) && forall i :: !script(i).ev.fault }

  ghost predicate FaultFree(script: nat -> Turn, i: nat, j: nat) { forall k | i <= k < j :: !script(k).ev.fault }

  lemma DriveOnce(call: Call, pc: Pc, fs: Fs, script: nat -> Turn, i: nat)
    requires Alone(script) && Rank(call, pc) > 0
    ensures var (pc', fs') := Advance(call, pc, fs, script(i).ev);
            Drive(call, pc, fs, script, i) == Drive(call, pc', fs', script, i + 1)
  {
  }

  /** Reading from step `i` on found the bytes of the file at step `j - 1`, or failed there, by a fault or cut off. */
  ghost predicate ReadsTo(bytes: Bytes, expected: Bytes, observed: nat, left: nat, script: nat -> Turn, i: nat, j: nat,
                          r: Option<bool>) {
    && i < j && FaultFree(script, i, j - 1)
    && (r.Some? ==> !script(j - 1).ev.fault && (r.value <==> bytes == expected))
    && (r.None? ==> script(j - 1).ev.fault || left <= |bytes| - observed)
  }

  lemma ReadsOn(bytes: Bytes, expected: Bytes, observed: nat, more: nat, left: nat, script: nat -> Turn, i: nat, j: nat,
                r: Option<bool>)
    requires 0 < left && observed < more && ReadsTo(bytes, expected, more, left - 1, script, i + 1, j, r)
    requires !script(i).ev.fault
    ensures ReadsTo(bytes, expected, observed, left, script, i, j, r)
  {
  }

  lemma {:induction false} ReadAlone(call: Call, ino: Inode, observed: Bytes, left: nat, fs: Fs, script: nat -> Turn,
                                     i: nat)
    returns (j: nat, r: Option<bool>)
    requires Alone(script) && call.Remove? && ino in fs.objects && ReadFrom(fs.objects[ino], observed)
    ensures Drive(call, Reading(ino, observed, left), fs, script, i) == Drive(call, Verdict(r, ino), fs, script, j)
    ensures ReadsTo(fs.objects[ino].bytes, call.expected, |observed|, left, script, i, j, r)
    decreases left
  {
    var bytes := fs.objects[ino].bytes;
    ReadTurn(call, ino, observed, left, fs, script, i);
    if script(i).ev.fault || left == 0 {
      j, r := i + 1, None;
    } else if |observed| == |bytes| {
      assert observed == bytes;
      j, r := i + 1, Some(bytes == call.expected);
    } else {
      var more := observed + NextBytes(fs, ino, observed, script(i).ev);
      ReadOn(fs, ino, observed, script(i).ev);
      j, r := ReadAlone(call, ino, more, left - 1, fs, script, i + 1);
      ReadsOn(bytes, call.expected, |observed|, |more|, left, script, i, j, r);
    }
  }

  /** The read of the captured file is not cut off. */
  predicate EnoughReads(fs: Fs, name: Name, script: nat -> Turn) {
    name in fs.dir && fs.dir[name] in fs.objects && fs.objects[fs.dir[name]].Regular? ==>
      |fs.objects[fs.dir[name]].bytes| < script(1).ev.bound
  }

  /** The verdict on the captured entry `ino`, opened in step 1; the inspection ends before step `j`. */
  ghost predicate Inspects(fs: Fs, ino: Inode, expected: Bytes, script: nat -> Turn, j: nat, r: Option<bool>)
    requires ino in fs.objects
  {
    && 1 < j && FaultFree(script, 1, j - 1)
    && (r.Some? ==> !script(j - 1).ev.fault && (r.value <==> fs.objects[ino] == Regular(expected)))
    && (r.None? ==>
        script(j - 1).ev.fault || (fs.objects[ino].Regular? && script(1).ev.bound <= |fs.objects[ino].bytes|))
  }

  lemma InspectAlone(call: Call, ino: Inode, fs: Fs, script: nat -> Turn) returns (j: nat, r: Option<bool>)
    requires Alone(script) && call.Remove? && Names(fs, call.sibling, ino) && ino in fs.objects
    ensures Drive(call, Captured(ino), fs, script, 1) == Drive(call, Verdict(r, ino), fs, script, j)
    ensures Inspects(fs, ino, call.expected, script, j, r)
  {
    DriveOnce(call, Captured(ino), fs, script, 1);
    if script(1).ev.fault {
      j, r := 2, None;
    } else if fs.objects[ino].Regular? {
      j, r := ReadAlone(call, ino, [], script(1).ev.bound, fs, script, 2);
    } else {
      j, r := 2, Some(false);
    }
  }

  /** What follows each verdict: `fs` before the capture, `taken` with the entry under its captured name. */
  function Concluded(fs: Fs, taken: Fs, name: Name, ino: Inode, r: Option<bool>, first: bool, second: bool): (Pc, Fs) {
    match r
    case Some(true) =>
      if first then (Done(UnlinkFailed(ino)), taken)
      else (Done(if second then RemovedUnsynced else Removed), fs.(dir := fs.dir - {name}))
    case Some(false) =>
      if first then (Done(Preserved(ino)), taken) else (Done(if second then KeptUnsynced else Kept), fs)
    case None => if first then (Done(Preserved(ino)), taken) else (Done(InspectError), fs)
  }

  lemma ConcludeAlone(call: Call, fs: Fs, ino: Inode, r: Option<bool>, script: nat -> Turn, j: nat)
    requires Alone(script) && call.Remove? && call.sibling != call.name && call.sibling !in fs.dir
    requires Names(fs, call.name, ino)
    ensures var taken := fs.(dir := (fs.dir - {call.name})[call.sibling := ino]);
            Drive(call, Verdict(r, ino), taken, script, j) ==
            Concluded(fs, taken, call.name, ino, r, script(j).ev.fault, script(j + 1).ev.fault)
  {
    var taken := fs.(dir := (fs.dir - {call.name})[call.sibling := ino]);
    assert taken.dir - {call.sibling} == fs.dir - {call.name};
    assert (fs.dir - {call.name})[call.name := ino] == fs.dir;
    ActsOn(call, fs, taken, ino, r, script(j).ev);
    DriveOnce(call, Verdict(r, ino), taken, script, j);
    var (pc, fs') := Advance(call, Verdict(r, ino), taken, script(j).ev);
    if !pc.Done? { DriveOnce(call, pc, fs', script, j + 1); }
  }

  /** The step that acts on a verdict. */
  lemma ActsOn(call: Call, fs: Fs, taken: Fs, ino: Inode, r: Option<bool>, ev: Event)
    requires call.Remove? && call.name !in taken.dir && Names(taken, call.sibling, ino) && taken.objects == fs.objects
    requires taken.dir - {call.sibling} == fs.dir - {call.name} && (fs.dir - {call.name})[call.name := ino] == fs.dir
    ensures Advance(call, Verdict(r, ino), taken, ev) ==
            if ev.fault then (Done(if r == Some(true) then UnlinkFailed(ino) else Preserved(ino)), taken)
            else if r == Some(true) then (Unlinked, fs.(dir := fs.dir - {call.name}))
            else if r == Some(false) then (Restored, fs) else (Done(InspectError), fs)
  {
  }

  /**
   Removal without interference, whichever steps fail. What it does is decided by the verdict of the inspection, which
   ends before step `j`: a match is unlinked, anything else goes back under its name, also when the inspection
   failed; the entry stays under its captured name only when the step `j` that acts on it fails itself.
   */
  lemma RemoveAlone(name: Name, expected: Bytes, captured: Name, fs: Fs, script: nat -> Turn)
    returns (j: nat, r: Option<bool>)
    requires Alone(script) && Closed(fs) && captured !in fs.dir && captured != name
    ensures var end := Drive(Remove(name, expected, captured), Ready, fs, script, 0);
            if !OrdinaryName(name) then end == (Done(InvalidName), fs)
            else if script(0).ev.fault then end == (Done(CaptureFailed), fs)
            else if name !in fs.dir then end == (Done(NotFound), fs)
            else
              && Inspects(fs, fs.dir[name], expected, script, j, r)
              && end == Concluded(fs, fs.(dir := (fs.dir - {name})[captured := fs.dir[name]]), name, fs.dir[name], r,
                                  script(j).ev.fault, script(j + 1).ev.fault)
  {
    j, r := 2, None;
    var call := Remove(name, expected, captured);
    DriveOnce(call, Ready, fs, script, 0);
    if OrdinaryName(name) && !script(0).ev.fault && name in fs.dir {
      var ino := fs.dir[name];
      var taken := fs.(dir := (fs.dir - {name})[captured := ino]);
      j, r := InspectAlone(call, ino, taken, script);
      ConcludeAlone(call, fs, ino, r, script, j);
    }
  }

  /** Undisturbed, removal deletes exactly the matching regular file and otherwise changes nothing. */
  lemma QuietRemove(name: Name, expected: Bytes, captured: Name, fs: Fs, script: nat -> Turn)
    requires Quiet(script) && EnoughReads(fs, name, script)
    requires OrdinaryName(name) && Closed(fs) && captured !in fs.dir && captured != name
    ensures Drive(Remove(name, expected, captured), Ready, fs, script, 0) ==
            if name !in fs.dir then (Done(NotFound), fs)
            else if fs.objects[fs.dir[name]] == Regular(expected) then (Done(Removed), fs.(dir := fs.dir - {name}))
            else (Done(Kept), fs)
  {
    var j, r := RemoveAlone(name, expected, captured, fs, script);
  }

  /** When only the inspection fails, at its opening or at any read, the directory ends as it began. */
  lemma FailedInspectionRestores(name: Name, expected: Bytes, captured: Name, fs: Fs, script: nat -> Turn)
    returns (j: nat, r: Option<bool>)
    requires Alone(script) && OrdinaryName(name) && name in fs.dir && !script(0).ev.fault
    requires Closed(fs) && captured !in fs.dir && captured != name
    ensures Inspects(fs, fs.dir[name], expected, script, j, r)
    ensures r.None? && !script(j).ev.fault ==>
            Drive(Remove(name, expected, captured), Ready, fs, script, 0) == (Done(InspectError), fs)
  {
    j, r := RemoveAlone(name, expected, captured, fs, script);
  }

  /** Writing from step `i` on stored the whole contents by step `j - 1`, or failed there after `n` bytes. */
  ghost predicate WritesTo(contents: Bytes, script: nat -> Turn, i: nat, j: nat, ok: bool, n: nat) {
    && i < j && n <= |contents| && (ok ==> n == |contents|)
    && FaultFree(script, i, j - 1) && (ok <==> !script(j - 1).ev.fault)
  }

  lemma WritesOn(contents: Bytes, script: nat -> Turn, i: nat, j: nat, ok: bool, n: nat)
    requires WritesTo(contents, script, i + 1, j, ok, n) && !script(i).ev.fault
    ensures WritesTo(contents, script, i, j, ok, n)
  {
  }

  lemma {:induction false} WriteAlone(call: Call, ino: Inode, k: nat, fs: Fs, script: nat -> Turn, i: nat)
    returns (j: nat, ok: bool, n: nat)
    requires Alone(script) && call.Create? && k <= |call.contents| && ino in fs.objects
    requires fs.objects[ino] == Regular(call.contents[..k])
    ensures WritesTo(call.contents, script, i, j, ok, n)
    ensures Drive(call, Writing(ino, k), fs, script, i) ==
            Drive(call, if ok then Written(ino) else Abandoned(ino),
                  fs.(objects := fs.objects[ino := Regular(call.contents[..n])]), script, j)
    decreases |call.contents| - k
  {
    DriveOnce(call, Writing(ino, k), fs, script, i);
    if script(i).ev.fault || k == |call.contents| {
      assert fs.objects[ino := Regular(call.contents[..k])] == fs.objects;
      j, ok, n := i + 1, !script(i).ev.fault, k;
    } else {
      var upto := Smaller(k + 1 + script(i).ev.chunk, |call.contents|);
      var fs' := fs.(objects := fs.objects[ino := Regular(call.contents[..upto])]);
      j, ok, n := WriteAlone(call, ino, upto, fs', script, i + 1);
      WritesOn(call.contents, script, i, j, ok, n);
      assert fs'.objects[ino := Regular(call.contents[..n])] == fs.objects[ino := Regular(call.contents[..n])];
    }
  }

  /** What follows the writing: `dir` before the call, `objects` with what was written. */
  function Settlement(dir: map<Name, Inode>, objects: map<Inode, Object>, name: Name, tmp: Name, ino: Inode, ok: bool,
                      first: bool, second: bool): (Pc, Fs) {
    var (clean, left) := (Fs(dir, objects), Fs(dir[tmp := ino], objects));
    if !ok then if first then (Done(WriteError(true)), left) else (Done(WriteError(false)), clean)
    else if first then if second then (Done(RenameError(true)), left) else (Done(RenameError(false)), clean)
    else if name in dir then if second then (Done(LoserUnlinkFailed), left) else (Done(Exists), clean)
    else (Done(if second then CreatedUnsynced else Created), Fs(dir[name := ino], objects))
  }

  lemma SettleAlone(call: Call, fs: Fs, objects: map<Inode, Object>, ino: Inode, ok: bool, script: nat -> Turn, j: nat)
    requires Alone(script) && call.Create? && call.sibling !in fs.dir && call.sibling != call.name
    ensures Drive(call, if ok then Written(ino) else Abandoned(ino), Fs(fs.dir[call.sibling := ino], objects), script,
                  j) ==
            Settlement(fs.dir, objects, call.name, call.sibling, ino, ok, script(j).ev.fault, script(j + 1).ev.fault)
  {
    var (pc, staged) := (if ok then Written(ino) else Abandoned(ino), Fs(fs.dir[call.sibling := ino], objects));
    assert staged.dir - {call.sibling} == fs.dir;
    DriveOnce(call, pc, staged, script, j);
    var (pc', fs') := Advance(call, pc, staged, script(j).ev);
    if !pc'.Done? { DriveOnce(call, pc', fs', script, j + 1); }
  }

  /**
   Creation without interference, whichever steps fail. It writes the whole contents unless a step before `j` fails; the
   name is bound exactly when it was free and the rename works, and the temporary stays only when an unlink fails.
   */
  lemma CreateAlone(name: Name, contents: Bytes, tmp: Name, fs: Fs, script: nat -> Turn)
    returns (j: nat, ok: bool, n: nat)
    requires Alone(script) && tmp !in fs.dir && tmp != name
    ensures var (end, ino) := (Drive(Create(name, contents, tmp), Ready, fs, script, 0), script(0).ev.alloc);
            if !OrdinaryName(name) then end == (Done(InvalidName), fs)
            else if script(0).ev.fault || ino in fs.objects then end == (Done(OpenFailed), fs)
            else
              && WritesTo(contents, script, 1, j, ok, n)
              && end == Settlement(fs.dir, fs.objects[ino := Regular(contents[..n])], name, tmp, ino, ok,
                                   script(j).ev.fault, script(j + 1).ev.fault)
  {
    j, ok, n := 2, true, 0;
    var (call, ino) := (Create(name, contents, tmp), script(0).ev.alloc);
    DriveOnce(call, Ready, fs, script, 0);
    if OrdinaryName(name) && !script(0).ev.fault && ino !in fs.objects {
      var fs1 := Fs(fs.dir[tmp := ino], fs.objects[ino := Regular([])]);
      j, ok, n := WriteAlone(call, ino, 0, fs1, script, 1);
      assert fs1.objects[ino := Regular(contents[..n])] == fs.objects[ino := Regular(contents[..n])];
      SettleAlone(call, fs, fs.objects[ino := Regular(contents[..n])], ino, ok, script, j);
    }
  }

  /** Undisturbed, creation binds an absent name to the whole contents and never touches a taken one. */
  lemma QuietCreate(name: Name, contents: Bytes, tmp: Name, fs: Fs, script: nat -> Turn)
    requires Quiet(script) && OrdinaryName(name) && tmp !in fs.dir && tmp != name && script(0).ev.alloc !in fs.objects
    ensures var ino := script(0).ev.alloc;
            var objects := fs.objects[ino := Regular(contents)];
            Drive(Create(name, contents, tmp), Ready, fs, script, 0) ==
            if name in fs.dir then (Done(Exists), Fs(fs.dir, objects))
            else (Done(Created), Fs(fs.dir[name := ino], objects))
  {
    var j, ok, n := CreateAlone(name, contents, tmp, fs, script);
    assert contents[..|contents|] == contents;
  }
}
