/**
 The sealed private partition: a live image in memory, one sealed file on disk, and receipts that become durable
 only once the sealed file holds them (crates/memcore/src/private_partition.rs).
 */
module PrivatePartition {
  import opened Prelude

  // ----- Images -----

  /** The digest that names a partition is taken to be injective: the pair stands for it. */
  datatype Identity = Identity(trustDomain: string, subject: string)

  /** A supersession receipt; its id is the key it is stored under. */
  datatype Receipt = Receipt(partition: Option<Identity>, durable: bool, route: string, body: string)

  /** A hard-state row; `receipt` is `None` when the stored text does not parse. */
  datatype HardRow = HardRow(receipt: Option<Receipt>, version: nat, updatedAt: nat)

  /** The event that mirrors a receipt: its payload, and the fields derived from the route. */
  datatype Event = Event(payload: Receipt, route: string)

  datatype Image = Image(
    stamp: Option<Identity>, memories: map<string, string>, receipts: map<string, HardRow>,
    events: Option<map<string, Event>>)

  /** A sealed file opens only under the key and identity it was written with. */
  datatype Blob = Garbage(bytes: string) | Sealed(key: string, identity: Identity, image: Image)

  function Unsealed(blob: Blob, key: string, id: Identity): Option<Image> {
    if blob.Sealed? && blob.key == key && blob.identity == id then Some(blob.image) else None
  }

  // ----- Marking receipts -----

  predicate IsPending(row: HardRow, id: Identity) {
    row.receipt.Some? && row.receipt.value.partition == Some(id) && !row.receipt.value.durable
  }

  function Pending(image: Image, id: Identity): set<string> {
    set k | k in image.receipts && IsPending(image.receipts[k], id)
  }

  function Durable(r: Receipt): Receipt { r.(durable := true) }

  function MarkedRow(row: HardRow, now: nat): HardRow {
    if row.receipt.Some? then row.(receipt := Some(Durable(row.receipt.value)), updatedAt := now) else row
  }

  function MarkedRows(rows: map<string, HardRow>, done: set<string>, now: nat): (r: map<string, HardRow>)
    ensures r.Keys == rows.Keys
    ensures forall k | k in rows :: r[k] == if k in done then MarkedRow(rows[k], now) else rows[k]
  {
    map k | k in rows :: if k in done then MarkedRow(rows[k], now) else rows[k]
  }

  function MarkedEvents(events: Option<map<string, Event>>, done: set<string>): (r: Option<map<string, Event>>)
    ensures r.Some? == events.Some? && (r.Some? ==> r.value.Keys == events.value.Keys)
    ensures r.Some? ==> forall k | k in events.value ::
              r.value[k] == if k in done then events.value[k].(payload := Durable(events.value[k].payload))
                  else events.value[k]
  {
    if events.None? then None
    else Some(map k | k in events.value ::
              if k in done then events.value[k].(payload := Durable(events.value[k].payload)) else events.value[k])
  }

  /** Rows `rows` and events `events` marked, the rest untouched. */
  function Marked(image: Image, rows: set<string>, events: set<string>, now: nat): Image {
    image.(receipts := MarkedRows(image.receipts, rows, now), events := MarkedEvents(image.events, events))
  }

  /** What is sealed for an image: everything pending marked. */
  function SealedImage(image: Image, id: Identity, now: nat): Image {
    Marked(image, Pending(image, id), Pending(image, id), now)
  }

  /** A pending receipt can be marked when its row was never rewritten and its event still shows it pending. */
  predicate Replaceable(image: Image, k: string)
    requires k in image.receipts && image.receipts[k].receipt.Some?
  {
    var r := image.receipts[k].receipt.value;
    image.receipts[k].version == 1
        && (image.events.Some? ==> k in image.events.value && image.events.value[k] == Event(r, r.route))
  }

  predicate Markable(image: Image, id: Identity) {
    && (forall k | k in image.receipts :: image.receipts[k].receipt.Some?)
    && (forall k | k in Pending(image, id) :: Replaceable(image, k))
  }

  lemma MarkNothing(image: Image, now: nat)
    ensures Marked(image, {}, {}, now) == image
  {
    assert MarkedRows(image.receipts, {}, now) == image.receipts;
    if image.events.Some? { assert MarkedEvents(image.events, {}).value == image.events.value; }
  }

  lemma MarkOneEvent(events: map<string, Event>, done: set<string>, k: string)
    requires k in events && k !in done
    ensures MarkedEvents(Some(events), done + {k}).value ==
            MarkedEvents(Some(events), done).value[k := events[k].(payload := Durable(events[k].payload))]
  {
  }

  lemma MarkOneRow(rows: map<string, HardRow>, done: set<string>, k: string, now: nat)
    requires k in rows && k !in done
    ensures MarkedRows(rows, done + {k}, now) == MarkedRows(rows, done, now)[k := MarkedRow(rows[k], now)]
  {
  }

  // ----- What marking does, said of the images before and after -----

  /** A receipt of this partition that is not durable yet. */
  predicate Unsealable(row: HardRow, id: Identity) {
    row.receipt.Some? && row.receipt.value.partition == Some(id) && row.receipt.value.durable == false
  }

  /** Exactly the receipts of this partition that were not durable are, in their rows and in their events. */
  ghost predicate FullyMarked(before: Image, after: Image, id: Identity, at: nat) {
    && after.stamp == before.stamp && after.memories == before.memories
    && after.receipts.Keys == before.receipts.Keys && (after.events.Some? <==> before.events.Some?)
    && (forall k | k in before.receipts :: var row := before.receipts[k];
          after.receipts[k] ==
          if Unsealable(row, id) then HardRow(Some(row.receipt.value.(durable := true)), row.version, at) else row)
    && (before.events.Some? ==>
          && after.events.value.Keys == before.events.value.Keys
          && forall k | k in before.events.value :: var e := before.events.value[k];
               after.events.value[k] ==
               if k in before.receipts && Unsealable(before.receipts[k], id)
               then Event(e.payload.(durable := true), e.route) else e)
  }

  lemma SealedMeans(image: Image, id: Identity, at: nat)
    ensures FullyMarked(image, SealedImage(image, id, at), id, at)
  {
  }

  /**
   Every stored receipt parses, and each one of this partition that is not durable yet is at version one, with an event
   that still shows it so when there are events.
   */
  ghost predicate Sealable(image: Image, id: Identity) {
    forall k | k in image.receipts ::
      && image.receipts[k].receipt.Some?
      && var r := image.receipts[k].receipt.value;
         r.partition == Some(id) && !r.durable ==>
           && image.receipts[k].version == 1
           && (image.events.Some? ==>
                 && k in image.events.value && image.events.value[k].payload == r
                 && image.events.value[k].route == r.route)
  }

  lemma MarkableMeans(image: Image, id: Identity)
    ensures Markable(image, id) <==> Sealable(image, id)
  {
    if Sealable(image, id) {
      forall k | k in Pending(image, id) ensures Replaceable(image, k) {}
    }
    if Markable(image, id) {
      forall k | k in image.receipts && Unsealable(image.receipts[k], id) ensures Replaceable(image, k) {
        assert k in Pending(image, id);
      }
    }
  }

  /** A marking step that fails, by the database refusing it. */
  datatype MarkPoint = ReadRows | UpdateEvent(key: string) | UpdateRow(key: string)

  /** One SQLite connection: the image it holds. */
  class Connection {
    var image: Image

    constructor (image: Image)
      ensures this.image == image
    {
      this.image := image;
    }

    /** Marks every pending receipt: its event first, then its row. Stops at the first step that fails. */
    method MarkReceiptsSealed(id: Identity, now: nat, faults: set<MarkPoint>)
      returns (ok: bool, ghost rows: set<string>, ghost events: set<string>)
      modifies this
      ensures rows <= events <= Pending(old(image), id) && image == Marked(old(image), rows, events, now)
      ensures ok ==> rows == events == Pending(old(image), id) && Markable(old(image), id)
      ensures ok ==> FullyMarked(old(image), image, id, now) && ReadRows !in faults
      ensures ok ==> forall k | k in Pending(old(image), id) :: UpdateEvent(k) !in faults && UpdateRow(k) !in faults
      ensures faults == {} ==> (ok <==> Sealable(old(image), id))
      ensures Markable(old(image), id) ==> forall k | k in Pending(old(image), id) && faults == {UpdateRow(k)} ::
              k in events && k !in rows
    {
      ghost var was := image;
      MarkableMeans(was, id);
      rows, events, ok := {}, {}, false;
      MarkNothing(was, now);
      if ReadRows in faults || exists k | k in image.receipts :: image.receipts[k].receipt.None? { return; }
      var todo := Pending(image, id);
      while todo != {}
        invariant rows == events && rows !! todo && rows + todo == Pending(was, id)
        invariant image == Marked(was, rows, events, now)
        invariant forall k | k in rows :: Replaceable(was, k) && UpdateEvent(k) !in faults && UpdateRow(k) !in faults
        invariant forall k | k in Pending(was, id) && faults == {UpdateRow(k)} :: k in todo
        decreases todo
      {
        var k :| k in todo;
        assert image.receipts[k] == was.receipts[k];
        var before := image.receipts[k].receipt.value;
        if UpdateEvent(k) in faults { return; }
        if image.events.Some? {
          if k !in image.events.value || image.events.value[k] != Event(before, before.route) {
            assert !Replaceable(was, k);
            return;
          }
          MarkOneEvent(was.events.value, events, k);
          image := image.(events := Some(image.events.value[k := image.events.value[k].(payload := Durable(before))]));
        }
        events := events + {k};
        assert image == Marked(was, rows, events, now);
        if UpdateRow(k) in faults || image.receipts[k].version != 1 { return; }
        MarkOneRow(was.receipts, rows, k, now);
        image := image.(receipts := image.receipts[k := MarkedRow(image.receipts[k], now)]);
        rows := rows + {k};
        todo := todo - {k};
      }
      ok := true;
      SealedMeans(was, id, now);
    }
  }

  // ----- Writing to the live image -----

  datatype Draft = Draft(key: string, route: string, body: string)

  /** Stores a new receipt and its event, or accepts identical ones; anything else is a conflict. */
  function WithReceipt(image: Image, id: Identity, d: Draft, now: nat): Option<Image> {
    var r := Receipt(Some(id), false, d.route, d.body);
    if d.key in image.receipts && image.receipts[d.key].receipt != Some(r) then None
    else
      var rows := if d.key in image.receipts then image.receipts else image.receipts[d.key := HardRow(Some(r), 1, now)];
      if image.events.None? then Some(image.(receipts := rows))
      else if d.key in image.events.value then
        if image.events.value[d.key] == Event(r, r.route) then Some(image.(receipts := rows)) else None
      else Some(image.(receipts := rows, events := Some(image.events.value[d.key := Event(r, r.route)])))
  }

  function WithReceipts(image: Image, id: Identity, drafts: seq<Draft>, now: nat): Option<Image> {
    if drafts == [] then Some(image)
    else
      var before := WithReceipts(image, id, drafts[..|drafts| - 1], now);
      if before.None? then None else WithReceipt(before.value, id, drafts[|drafts| - 1], now)
  }

  /** What a supersession transaction commits, unless one of its receipts conflicts. */
  function Transacted(image: Image, id: Identity, writes: map<string, string>, drafts: seq<Draft>,
                      now: nat): Option<Image> {
    WithReceipts(image.(memories := image.memories + writes), id, drafts, now)
  }

  function Inserted(image: Image, key: string, text: string): Image {
    if key in image.memories then image else image.(memories := image.memories[key := text])
  }

  // ----- What these writes do, said of the images before and after -----

  ghost predicate OtherPartsKept(before: Image, after: Image) {
    after.stamp == before.stamp && after.receipts == before.receipts && after.events == before.events
  }

  /** Every memory keeps its text; the key is there, with the new text only if it was absent. */
  ghost predicate InsertsInto(before: Image, after: Image, key: string, text: string) {
    && OtherPartsKept(before, after)
    && (forall m :: m in after.memories <==> m in before.memories || m == key)
    && (forall m | m in before.memories :: after.memories[m] == before.memories[m])
    && (key !in before.memories ==> after.memories[key] == text)
  }

  lemma InsertedMeans(image: Image, key: string, text: string)
    ensures InsertsInto(image, Inserted(image, key, text), key, text)
  {
  }

  /** A draft agrees with what is stored under its key. */
  predicate Agrees(image: Image, id: Identity, d: Draft) {
    var r := Receipt(Some(id), false, d.route, d.body);
    && (d.key in image.receipts ==> image.receipts[d.key].receipt == Some(r))
    && (image.events.Some? && d.key in image.events.value ==> image.events.value[d.key] == Event(r, d.route))
  }

  /** Two drafts under one key are the same draft. */
  predicate Consistent(drafts: seq<Draft>) {
    forall i, j | 0 <= i < j < |drafts| && drafts[i].key == drafts[j].key :: drafts[i] == drafts[j]
  }

  predicate Drafted(drafts: seq<Draft>, k: string) { exists i | 0 <= i < |drafts| :: drafts[i].key == k }

  /** What is stored for one draft: a pending receipt, and its event when there are events. */
  ghost predicate StoredFor(image: Image, id: Identity, d: Draft) {
    var r := Receipt(Some(id), false, d.route, d.body);
    && d.key in image.receipts && image.receipts[d.key].receipt == Some(r)
    && (image.events.Some? ==> d.key in image.events.value && image.events.value[d.key] == Event(r, d.route))
  }

  /** Stored receipts and events stay, the drafts are stored, and nothing else is. */
  ghost predicate StoresDrafts(before: Image, after: Image, id: Identity, drafts: seq<Draft>, now: nat) {
    && after.stamp == before.stamp && after.memories == before.memories && (after.events.Some? <==> before.events.Some?)
    && (forall k :: k in after.receipts <==> k in before.receipts || Drafted(drafts, k))
    && (forall k | k in before.receipts :: after.receipts[k] == before.receipts[k])
    && (forall k | k in after.receipts && k !in before.receipts ::
          after.receipts[k].version == 1 && after.receipts[k].updatedAt == now)
    && (before.events.Some? ==>
          && (forall k :: k in after.events.value <==> k in before.events.value || Drafted(drafts, k))
          && (forall k | k in before.events.value :: after.events.value[k] == before.events.value[k]))
    && (forall i | 0 <= i < |drafts| :: StoredFor(after, id, drafts[i]))
  }

  /** All drafts agree with what is stored and with each other. */
  ghost predicate NoConflict(image: Image, id: Identity, drafts: seq<Draft>) {
    (forall i | 0 <= i < |drafts| :: Agrees(image, id, drafts[i])) && Consistent(drafts)
  }

  lemma DraftedInit(drafts: seq<Draft>, k: string)
    requires drafts != []
    ensures Drafted(drafts, k) <==> Drafted(drafts[..|drafts| - 1], k) || drafts[|drafts| - 1].key == k
  {
    var init := drafts[..|drafts| - 1];
    if Drafted(init, k) {
      var i :| 0 <= i < |init| && init[i].key == k;
      assert drafts[i].key == k;
    }
    if Drafted(drafts, k) {
      var i :| 0 <= i < |drafts| && drafts[i].key == k;
      assert i < |init| ==> init[i].key == k;
    }
    assert drafts[|drafts| - 1].key == k ==> Drafted(drafts, k);
  }

  /** One more draft goes in exactly when it agrees with what is stored, the earlier drafts included. */
  lemma OneMoreDraft(mid: Image, id: Identity, d: Draft, now: nat)
    ensures WithReceipt(mid, id, d, now).Some? <==> Agrees(mid, id, d)
    ensures WithReceipt(mid, id, d, now).Some? ==> StoresDrafts(mid, WithReceipt(mid, id, d, now).value, id, [d], now)
  {
    if WithReceipt(mid, id, d, now).Some? {
      var after := WithReceipt(mid, id, d, now).value;
      forall k ensures Drafted([d], k) <==> k == d.key { assert [d][0] == d; }
    }
  }

  lemma StoresMore(a: Image, b: Image, c: Image, id: Identity, drafts: seq<Draft>, now: nat)
    requires drafts != [] && StoresDrafts(a, b, id, drafts[..|drafts| - 1], now)
    requires StoresDrafts(b, c, id, [drafts[|drafts| - 1]], now)
    ensures StoresDrafts(a, c, id, drafts, now)
  {
    var (init, d) := (drafts[..|drafts| - 1], drafts[|drafts| - 1]);
    forall k ensures Drafted([d], k) <==> k == d.key { assert [d][0] == d; }
    forall k ensures Drafted(drafts, k) <==> Drafted(init, k) || d.key == k { DraftedInit(drafts, k); }
    forall i | 0 <= i < |drafts| ensures StoredFor(c, id, drafts[i]) {
      if i < |init| { assert StoredFor(b, id, init[i]); } else { assert StoredFor(c, id, [d][0]); }
    }
  }

  /** With the earlier drafts stored, the next one agrees exactly when it agrees with the start and with all of them. */
  lemma AgreesLater(a: Image, b: Image, id: Identity, drafts: seq<Draft>, now: nat)
    requires drafts != [] && StoresDrafts(a, b, id, drafts[..|drafts| - 1], now)
    requires NoConflict(a, id, drafts[..|drafts| - 1])
    ensures Agrees(b, id, drafts[|drafts| - 1]) <==> NoConflict(a, id, drafts)
  {
    var (n, d) := (|drafts| - 1, drafts[|drafts| - 1]);
    var init := drafts[..n];
    if Agrees(b, id, d) {
      forall i | 0 <= i < |drafts| ensures Agrees(a, id, drafts[i]) {
        if i < n { assert Agrees(a, id, init[i]); }
      }
      forall i, j | 0 <= i < j < |drafts| && drafts[i].key == drafts[j].key ensures drafts[i] == drafts[j] {
        if j < n { assert init[i] == init[j]; } else { assert StoredFor(b, id, init[i]); }
      }
    }
    if NoConflict(a, id, drafts) {
      assert Agrees(a, id, drafts[n]);
      if Drafted(init, d.key) {
        var i :| 0 <= i < |init| && init[i].key == d.key;
        assert drafts[i] == drafts[n] && StoredFor(b, id, init[i]);
      }
    }
  }

  lemma ConflictStays(image: Image, id: Identity, drafts: seq<Draft>)
    requires drafts != [] && NoConflict(image, id, drafts)
    ensures NoConflict(image, id, drafts[..|drafts| - 1])
  {
    var init := drafts[..|drafts| - 1];
    forall i | 0 <= i < |init| ensures Agrees(image, id, init[i]) { assert Agrees(image, id, drafts[i]); }
  }

  /** The receipts of a transaction go in exactly when nothing conflicts, and then exactly they are stored. */
  lemma {:induction false} DraftsStored(image: Image, id: Identity, drafts: seq<Draft>, now: nat)
    ensures WithReceipts(image, id, drafts, now).Some? <==> NoConflict(image, id, drafts)
    ensures WithReceipts(image, id, drafts, now).Some? ==>
            StoresDrafts(image, WithReceipts(image, id, drafts, now).value, id, drafts, now)
  {
    if drafts != [] {
      var (init, d) := (drafts[..|drafts| - 1], drafts[|drafts| - 1]);
      DraftsStored(image, id, init, now);
      var before := WithReceipts(image, id, init, now);
      if before.None? {
        if NoConflict(image, id, drafts) { ConflictStays(image, id, drafts); }
      } else {
        OneMoreDraft(before.value, id, d, now);
        AgreesLater(image, before.value, id, drafts, now);
        if Agrees(before.value, id, d) {
          StoresMore(image, before.value, WithReceipt(before.value, id, d, now).value, id, drafts, now);
        }
      }
    }
  }

  /** A transaction overwrites exactly the memories it writes, and stores its receipts beside them. */
  ghost predicate TransactsInto(before: Image, after: Image, id: Identity, writes: map<string, string>,
                                drafts: seq<Draft>, now: nat) {
    && (forall m :: m in after.memories <==> m in before.memories || m in writes)
    && (forall m | m in after.memories :: after.memories[m] == if m in writes then writes[m] else before.memories[m])
    && StoresDrafts(before.(memories := after.memories), after, id, drafts, now)
  }

  lemma TransactedMeans(image: Image, id: Identity, writes: map<string, string>, drafts: seq<Draft>, now: nat)
    ensures Transacted(image, id, writes, drafts, now).Some? <==> NoConflict(image, id, drafts)
    ensures Transacted(image, id, writes, drafts, now).Some? ==>
            TransactsInto(image, Transacted(image, id, writes, drafts, now).value, id, writes, drafts, now)
  {
    var start := image.(memories := image.memories + writes);
    DraftsStored(start, id, drafts, now);
    forall i | 0 <= i < |drafts| ensures Agrees(start, id, drafts[i]) <==> Agrees(image, id, drafts[i]) {}
  }

  // ----- The system: the sealed file and at most one open handle -----

  datatype Handle = Handle(identity: Identity, key: string, canWrite: bool, canExport: bool)

  datatype Session = Session(handle: Handle, live: Image, dirty: bool)

  datatype System = System(sealed: Option<Blob>, open: Option<Session>)

  function NewImage(id: Identity, withEvents: bool): Image {
    Image(Some(id), map[], map[], if withEvents then Some(map[]) else None)
  }

  function Stamped(image: Image, id: Identity): Image { if image.stamp.None? then image.(stamp := Some(id)) else image }

  /** A handle reads the sealed file it can open, or starts a fresh image that only a writer may have. */
  ghost predicate Opens(id: Identity, s: System, t: System) {
    && s.open.None? && t.open.Some? && t.sealed == s.sealed && t.open.value.handle.identity == id
    && var session := t.open.value;
       if s.sealed.None? then
         session.handle.canWrite && session.dirty && exists e :: session.live == NewImage(id, e)
       else
         && !session.dirty && session.live.stamp == Some(id)
         && Unsealed(s.sealed.value, session.handle.key, id).Some?
         && session.live == Stamped(Unsealed(s.sealed.value, session.handle.key, id).value, id)
  }

  /** The sealed file replaced by the fully marked image, and `rows` and `events` of the live image marked after it. */
  ghost predicate Resealed(s: System, t: System, sealedAt: nat, markedAt: nat, rows: set<string>, events: set<string>)
    requires s.open.Some? && t.open.Some?
  {
    var (h, live) := (s.open.value.handle, s.open.value.live);
    var pending := Pending(live, h.identity);
    && s.open.value.dirty && h.canWrite && Markable(live, h.identity) && rows <= events <= pending
    && t.sealed == Some(Sealed(h.key, h.identity, SealedImage(live, h.identity, sealedAt)))
    && t.open.value.live == Marked(live, rows, events, markedAt)
    && (!t.open.value.dirty ==> rows == pending)
  }

  /** Persisting either leaves everything as it was, or reseals and marks, up to wherever it failed. */
  ghost predicate Persists(s: System, t: System)
    requires s.open.Some? && t.open.Some?
  {
    t == s || exists a, b, rows, events :: Resealed(s, t, a, b, rows, events)
  }

  ghost predicate Inserts(s: System, t: System)
    requires s.open.Some? && t.open.Some?
  {
    && s.open.value.handle.canWrite && t.sealed == s.sealed && t.open.value.dirty
    && exists key, text :: t.open.value.live == Inserted(s.open.value.live, key, text)
  }

  ghost predicate Transacts(s: System, t: System)
    requires s.open.Some? && t.open.Some?
  {
    && s.open.value.handle.canWrite && t.sealed == s.sealed
    && (t.open.value.dirty || (t == s && !s.open.value.dirty))
    && exists writes, drafts, now ::
         Transacted(s.open.value.live, s.open.value.handle.identity, writes, drafts, now) == Some(t.open.value.live)
  }

  ghost predicate Works(s: System, t: System) {
    && s.open.Some? && t.open.Some? && t.open.value.handle == s.open.value.handle
    && (t == s || Inserts(s, t) || Transacts(s, t) || Persists(s, t))
  }

  ghost predicate Drops(s: System, t: System) { t == System(s.sealed, None) }

  ghost predicate Next(id: Identity, s: System, t: System) { Opens(id, s, t) || Works(s, t) || Drops(s, t) }

  /** Nothing open, and a sealed file that is absent, unreadable or carries the stamp of its identity. */
  ghost predicate Init(s: System) {
    s.open.None? && (s.sealed.Some? && s.sealed.value.Sealed? ==>
                     s.sealed.value.image.stamp == Some(s.sealed.value.identity))
  }

  ghost predicate StepAt(id: Identity, run: seq<System>, k: nat)
    requires 0 < k < |run|
  {
    Next(id, run[k - 1], run[k])
  }

  ghost predicate IsRun(id: Identity, run: seq<System>) {
    |run| > 0 && Init(run[0]) && forall k | 0 < k < |run| :: StepAt(id, run, k)
  }

  // ----- The invariant -----

  predicate RowDurable(rows: map<string, HardRow>, k: string) {
    k in rows && rows[k].receipt.Some? && rows[k].receipt.value.durable
  }

  predicate EventDurable(events: Option<map<string, Event>>, k: string) {
    events.Some? && k in events.value && events.value[k].payload.durable
  }

  /** Equal but for the update stamps of receipt rows. */
  ghost predicate SameButStamps(a: Image, b: Image) {
    && a.stamp == b.stamp && a.memories == b.memories && a.events == b.events && a.receipts.Keys == b.receipts.Keys
    && forall k | k in a.receipts ::
         a.receipts[k].receipt == b.receipts[k].receipt && a.receipts[k].version == b.receipts[k].version
  }

  /** What the live image calls durable, in rows or in events, the sealed image already holds as durable. */
  ghost predicate Backed(live: Image, image: Image) {
    && (forall k | RowDurable(live.receipts, k) ::
        k in image.receipts && image.receipts[k].receipt == live.receipts[k].receipt)
    && (forall k | EventDurable(live.events, k) ::
        image.events.Some? && k in image.events.value && image.events.value[k] == live.events.value[k])
  }

  /** What the sealed image holds as durable, the live image still has, durable or about to be. */
  ghost predicate Retained(live: Image, image: Image, id: Identity) {
    forall k | RowDurable(image.receipts, k) ::
      && k in live.receipts && live.receipts[k].receipt.Some?
      && Durable(live.receipts[k].receipt.value) == image.receipts[k].receipt.value
      && (RowDurable(live.receipts, k) || IsPending(live.receipts[k], id))
  }

  ghost predicate NothingDurable(live: Image) {
    (forall k :: !RowDurable(live.receipts, k)) && (forall k :: !EventDurable(live.events, k))
  }

  ghost predicate SessionInv(id: Identity, sealed: Option<Blob>, session: Session) {
    && session.handle.identity == id && session.live.stamp == Some(id)
    && (!session.handle.canWrite ==> !session.dirty)
    && if sealed.None? then session.dirty && NothingDurable(session.live)
       else
         && sealed.value.Sealed? && sealed.value.key == session.handle.key && sealed.value.identity == id
         && Backed(session.live, sealed.value.image) && Retained(session.live, sealed.value.image, id)
         && (!session.dirty ==> SameButStamps(sealed.value.image, session.live))
  }

  ghost predicate Inv(id: Identity, s: System) {
    && (s.sealed.Some? && s.sealed.value.Sealed? ==> s.sealed.value.image.stamp == Some(s.sealed.value.identity))
    && (s.open.Some? ==> SessionInv(id, s.sealed, s.open.value))
  }

  lemma OpenInv(id: Identity, s: System, t: System)
    requires Inv(id, s) && Opens(id, s, t)
    ensures Inv(id, t)
  {
  }

  /**
   A file written without the identity stamp is the one case where a freshly opened, clean handle differs from its
   file.
   */
  lemma OpenedCleanIffStamped(id: Identity, s: System, t: System)
    requires Opens(id, s, t) && s.sealed.Some?
    ensures !t.open.value.dirty
    ensures (SameButStamps(s.sealed.value.image, t.open.value.live) <==> s.sealed.value.image.stamp.Some?)
  {
  }

  /** A transaction leaves every stored receipt and event alone and adds only pending ones. */
  ghost predicate OnlyAdds(a: Image, b: Image) {
    && b.stamp == a.stamp
    && (forall k | k in a.receipts :: k in b.receipts && b.receipts[k] == a.receipts[k])
    && (forall k | RowDurable(b.receipts, k) :: k in a.receipts)
    && b.events.Some? == a.events.Some?
    && (a.events.Some? ==> forall k | k in a.events.value ::
        k in b.events.value && b.events.value[k] == a.events.value[k])
    && (forall k | EventDurable(b.events, k) :: k in a.events.value)
  }

  lemma {:induction false} ReceiptsOnlyAdd(image: Image, id: Identity, drafts: seq<Draft>, now: nat)
    requires WithReceipts(image, id, drafts, now).Some?
    ensures OnlyAdds(image, WithReceipts(image, id, drafts, now).value)
  {
    if drafts != [] { ReceiptsOnlyAdd(image, id, drafts[..|drafts| - 1], now); }
  }

  lemma AddingKeepsInv(id: Identity, sealed: Option<Blob>, s: Session, t: Session)
    requires SessionInv(id, sealed, s) && t.handle == s.handle && OnlyAdds(s.live, t.live) && t.dirty
    requires t.handle.canWrite
    ensures SessionInv(id, sealed, t)
  {
    forall k | RowDurable(t.live.receipts, k) ensures RowDurable(s.live.receipts, k) {}
    forall k | EventDurable(t.live.events, k) ensures EventDurable(s.live.events, k) {}
  }

  lemma ResealKeepsInv(id: Identity, s: System, t: System, a: nat, b: nat, rows: set<string>, events: set<string>)
    requires Inv(id, s) && s.open.Some? && t.open.Some? && t.open.value.handle == s.open.value.handle
    requires Resealed(s, t, a, b, rows, events)
    ensures Inv(id, t)
  {
    var (live, pending) := (s.open.value.live, Pending(s.open.value.live, id));
    var (image, after) := (t.sealed.value.image, t.open.value.live);
    assert rows == pending ==> events == pending;
    forall k | RowDurable(after.receipts, k)
      ensures k in image.receipts && image.receipts[k].receipt == after.receipts[k].receipt {
      assert k in rows ==> k in pending;
    }
    forall k | EventDurable(after.events, k)
      ensures image.events.Some? && k in image.events.value && image.events.value[k] == after.events.value[k] {
      assert k in events ==> k in pending;
    }
    assert Retained(after, image, id) by {
      forall k | RowDurable(image.receipts, k)
        ensures && k in after.receipts && after.receipts[k].receipt.Some?
                && Durable(after.receipts[k].receipt.value) == image.receipts[k].receipt.value
                && (RowDurable(after.receipts, k) || IsPending(after.receipts[k], id)) {
        assert k in live.receipts && live.receipts[k].receipt.Some?;
      }
    }
  }

  lemma StepKeepsInv(id: Identity, s: System, t: System)
    requires Inv(id, s) && Next(id, s, t)
    ensures Inv(id, t)
  {
    if Opens(id, s, t) {
      OpenInv(id, s, t);
    } else if Drops(s, t) || t == s {
    } else if Inserts(s, t) {
      AddingKeepsInv(id, s.sealed, s.open.value, t.open.value);
    } else if Transacts(s, t) {
      var writes, drafts, now :| Transacted(s.open.value.live, s.open.value.handle.identity, writes, drafts, now) ==
          Some(t.open.value.live);
      ReceiptsOnlyAdd(s.open.value.live.(memories := s.open.value.live.memories + writes), id, drafts, now);
      AddingKeepsInv(id, s.sealed, s.open.value, t.open.value);
    } else {
      var a, b, rows, events :| Resealed(s, t, a, b, rows, events);
      ResealKeepsInv(id, s, t, a, b, rows, events);
    }
  }

  /** Over every sequence of operations, failures and crashes. */
  lemma {:induction false} RunInv(id: Identity, run: seq<System>, k: nat)
    requires IsRun(id, run) && k < |run|
    ensures Inv(id, run[k])
  {
    if k > 0 {
      RunInv(id, run, k - 1);
      assert StepAt(id, run, k);
      StepKeepsInv(id, run[k - 1], run[k]);
    }
  }

  /** A clean handle's sealed file opens under its own key and identity to the live image, update stamps aside. */
  lemma CleanMeansSealed(id: Identity, run: seq<System>, k: nat)
    requires IsRun(id, run) && k < |run| && run[k].open.Some? && !run[k].open.value.dirty
    ensures run[k].sealed.Some?
    ensures var (h, found) :=
            (run[k].open.value.handle, Unsealed(run[k].sealed.value, run[k].open.value.handle.key, id));
            h.identity == id && found.Some? && SameButStamps(found.value, run[k].open.value.live)
  {
    RunInv(id, run, k);
  }

  /** A receipt durable in the live image, by its row or by its event, is durable in the sealed file. */
  lemma DurableMeansSealed(id: Identity, run: seq<System>, k: nat)
    requires IsRun(id, run) && k < |run| && run[k].open.Some?
    ensures NothingDurable(run[k].open.value.live) || (run[k].sealed.Some? && run[k].sealed.value.Sealed?)
    ensures run[k].sealed.Some? ==>
            run[k].sealed.value.Sealed? && Backed(run[k].open.value.live, run[k].sealed.value.image)
  {
    RunInv(id, run, k);
  }

  ghost predicate SealedHolds(s: System, key: string, r: Receipt) {
    && s.sealed.Some? && s.sealed.value.Sealed? && key in s.sealed.value.image.receipts
    && s.sealed.value.image.receipts[key].receipt == Some(r)
  }

  /** Every later sealed file still holds what a sealed file once held as durable. */
  lemma {:induction false} SealedReceiptsStay(id: Identity, run: seq<System>, i: nat, j: nat, key: string, r: Receipt)
    requires IsRun(id, run) && i <= j < |run| && SealedHolds(run[i], key, r) && r.durable
    ensures SealedHolds(run[j], key, r)
  {
    if i < j {
      SealedReceiptsStay(id, run, i, j - 1, key, r);
      RunInv(id, run, j - 1);
      assert StepAt(id, run, j);
      SealedReceiptStays(id, run[j - 1], run[j], key, r);
    }
  }

  lemma SealedReceiptStays(id: Identity, s: System, t: System, key: string, r: Receipt)
    requires Inv(id, s) && Next(id, s, t) && SealedHolds(s, key, r) && r.durable
    ensures SealedHolds(t, key, r)
  {
    if t.sealed != s.sealed {
      var a, b, rows, events :| Resealed(s, t, a, b, rows, events);
      assert RowDurable(s.sealed.value.image.receipts, key);
    }
  }

  /** Durable once, durable forever: whatever fails or crashes later, the sealed file keeps the receipt. */
  lemma DurableForever(id: Identity, run: seq<System>, i: nat, j: nat, key: string)
    requires IsRun(id, run) && i <= j < |run| && run[i].open.Some? && RowDurable(run[i].open.value.live.receipts, key)
    ensures SealedHolds(run[j], key, run[i].open.value.live.receipts[key].receipt.value)
  {
    RunInv(id, run, i);
    SealedReceiptsStay(id, run, i, j, key, run[i].open.value.live.receipts[key].receipt.value);
  }

  ghost predicate NoWriter(run: seq<System>, k: nat)
    requires k < |run|
  {
    run[k].open.Some? ==> !run[k].open.value.handle.canWrite
  }

  /** Handles without the Write capability never change the sealed file. */
  lemma {:induction false} ReadersNeverSeal(id: Identity, run: seq<System>, i: nat, j: nat)
    requires IsRun(id, run) && i <= j < |run| && forall k | i <= k < j :: NoWriter(run, k)
    ensures run[j].sealed == run[i].sealed
  {
    if i < j {
      ReadersNeverSeal(id, run, i, j - 1);
      assert StepAt(id, run, j) && NoWriter(run, j - 1);
    }
  }

  // ----- Memories over runs -----

  /** Step `n` of the run is a transaction that changed something. */
  ghost predicate TransactsAt(run: seq<System>, n: nat) {
    0 < n < |run| && run[n] != run[n - 1] && run[n - 1].open.Some? && run[n].open.Some? && Transacts(run[n - 1], run[n])
  }

  /** No step of an open handle but a transaction takes a memory away or changes its text. */
  lemma MemoryKept(s: System, t: System, m: string)
    requires Works(s, t) && m in s.open.value.live.memories && (t == s || !Transacts(s, t))
    ensures m in t.open.value.live.memories && t.open.value.live.memories[m] == s.open.value.live.memories[m]
  {
    if t != s && Inserts(s, t) {
      var key, text :| t.open.value.live == Inserted(s.open.value.live, key, text);
      InsertedMeans(s.open.value.live, key, text);
    }
  }

  /** As long as a handle runs no transaction, every memory it has keeps its text, whatever is inserted or sealed. */
  lemma {:induction false} MemoriesStay(id: Identity, run: seq<System>, i: nat, j: nat, m: string)
    requires IsRun(id, run) && i <= j < |run| && run[i].open.Some? && m in run[i].open.value.live.memories
    requires forall n | i < n <= j :: run[n].open.Some? && !TransactsAt(run, n)
    ensures run[j].open.Some? && m in run[j].open.value.live.memories
    ensures run[j].open.value.live.memories[m] == run[i].open.value.live.memories[m]
  {
    if i < j {
      MemoriesStay(id, run, i, j - 1, m);
      assert StepAt(id, run, j) && run[j].open.Some? && !TransactsAt(run, j);
      MemoryKept(run[j - 1], run[j], m);
    }
  }

  /** What every transaction of a run does: it overwrites what it writes and stores its receipts, without conflict. */
  lemma TransactionMeans(s: System, t: System)
    requires s.open.Some? && t.open.Some? && Transacts(s, t)
    ensures var (id, before, after) := (s.open.value.handle.identity, s.open.value.live, t.open.value.live);
            exists writes, drafts, now ::
                NoConflict(before, id, drafts) && TransactsInto(before, after, id, writes, drafts, now)
  {
    var (id, before, after) := (s.open.value.handle.identity, s.open.value.live, t.open.value.live);
    var writes, drafts, now :| Transacted(before, id, writes, drafts, now) == Some(after);
    TransactedMeans(before, id, writes, drafts, now);
  }

  // ----- A failure between the two updates of one receipt -----

  /** Some pending receipt has an event that no longer shows it pending. */
  ghost predicate Wedged(live: Image, id: Identity, k: string) {
    k in Pending(live, id) && live.events.Some? && EventDurable(live.events, k)
  }

  /** An event updated without its row leaves the live image wedged. */
  lemma HalfMarkedIsWedged(id: Identity, s: System, t: System, a: nat, b: nat, rows: set<string>, events: set<string>,
                           k: string)
    requires s.open.Some? && t.open.Some? && s.open.value.handle.identity == id && Resealed(s, t, a, b, rows, events)
    requires k in events && k !in rows && s.open.value.live.events.Some?
    ensures Wedged(t.open.value.live, id, k)
  {
    assert Replaceable(s.open.value.live, k);
  }

  lemma WedgedStays(id: Identity, s: System, t: System, k: string)
    requires Works(s, t) && s.open.value.handle.identity == id && Wedged(s.open.value.live, id, k)
    ensures Wedged(t.open.value.live, id, k) && t.sealed == s.sealed
  {
    if t != s && Transacts(s, t) {
      var writes, drafts, now :| Transacted(s.open.value.live, s.open.value.handle.identity, writes, drafts, now) ==
          Some(t.open.value.live);
      ReceiptsOnlyAdd(s.open.value.live.(memories := s.open.value.live.memories + writes), id, drafts, now);
    }
  }

  /** Until the handle is dropped, nothing a wedged handle does reaches the sealed file again. */
  lemma {:induction false} WedgedUntilDropped(id: Identity, run: seq<System>, i: nat, j: nat, k: string)
    requires IsRun(id, run) && i <= j < |run| && run[i].open.Some? && Wedged(run[i].open.value.live, id, k)
    requires forall m | i < m <= j :: run[m].open.Some?
    ensures run[j].open.Some? && Wedged(run[j].open.value.live, id, k) && run[j].sealed == run[i].sealed
  {
    if i < j {
      WedgedUntilDropped(id, run, i, j - 1, k);
      RunInv(id, run, j - 1);
      assert StepAt(id, run, j) && run[j].open.Some?;
      WedgedStays(id, run[j - 1], run[j], k);
    }
  }

  /** What is sealed has nothing pending and can be sealed again. */
  lemma SealedImageIsMarkable(id: Identity, live: Image, at: nat)
    requires Markable(live, id)
    ensures var image := SealedImage(live, id, at); Pending(image, id) == {} && Markable(image, id)
  {
    var image := SealedImage(live, id, at);
    forall k | k in image.receipts ensures !IsPending(image.receipts[k], id) && image.receipts[k].receipt.Some? {
      assert k in live.receipts && live.receipts[k].receipt.Some?;
    }
  }

  /** Step `i` of the run reseals the file and leaves receipt `k` of the live image half marked. */
  ghost predicate WedgesAt(id: Identity, run: seq<System>, i: nat, k: string) {
    && 0 < i < |run| && run[i - 1].open.Some? && run[i].open.Some? && run[i - 1].open.value.handle.identity == id
    && run[i].open.value.handle == run[i - 1].open.value.handle && run[i - 1].open.value.live.events.Some?
    && HalfMarks(run[i - 1], run[i], k)
  }

  /** The seal went through and the event of `k` was updated, but not its row. */
  ghost predicate HalfMarks(s: System, t: System, k: string)
    requires s.open.Some? && t.open.Some?
  {
    exists a, b, rows, events :: Resealed(s, t, a, b, rows, events) && k in events && k !in rows
  }

  ghost predicate OpensAt(id: Identity, run: seq<System>, j: nat) { 0 < j < |run| && Opens(id, run[j - 1], run[j]) }

  lemma WedgingStep(id: Identity, run: seq<System>, i: nat, k: string)
    requires WedgesAt(id, run, i, k)
    ensures Wedged(run[i].open.value.live, id, k)
    ensures run[i].sealed.Some? && run[i].sealed.value.Sealed?
    ensures Pending(run[i].sealed.value.image, id) == {} && Markable(run[i].sealed.value.image, id)
  {
    var a, b, rows, events :| Resealed(run[i - 1], run[i], a, b, rows, events) && k in events && k !in rows;
    HalfMarkedIsWedged(id, run[i - 1], run[i], a, b, rows, events, k);
    SealedImageIsMarkable(id, run[i - 1].open.value.live, a);
  }

  /** Until somebody opens it again, the sealed file stays as the wedging step left it. */
  lemma {:induction false} SealedUntilReopened(id: Identity, run: seq<System>, i: nat, m: nat, k: string)
    requires IsRun(id, run) && WedgesAt(id, run, i, k) && i <= m < |run| && forall j | i < j <= m ::
             !OpensAt(id, run, j)
    ensures run[m].sealed == run[i].sealed
    ensures run[m].open.Some? ==> run[m].open.value.handle.identity == id && Wedged(run[m].open.value.live, id, k)
  {
    if i == m {
      WedgingStep(id, run, i, k);
    } else {
      SealedUntilReopened(id, run, i, m - 1, k);
      assert StepAt(id, run, m) && !OpensAt(id, run, m);
      if Works(run[m - 1], run[m]) { WedgedStays(id, run[m - 1], run[m], k); }
    }
  }

  /** In every run, the first handle opened after a wedging step has nothing pending and can be sealed again. */
  lemma ReopeningRecovers(id: Identity, run: seq<System>, i: nat, j: nat, k: string)
    requires IsRun(id, run) && WedgesAt(id, run, i, k) && i < j && OpensAt(id, run, j)
    requires forall m | i < m < j :: !OpensAt(id, run, m)
    ensures Pending(run[j].open.value.live, id) == {} && Markable(run[j].open.value.live, id)
  {
    SealedUntilReopened(id, run, i, j - 1, k);
    WedgingStep(id, run, i, k);
    var (image, live) := (run[i].sealed.value.image, run[j].open.value.live);
    assert live.receipts == image.receipts && live.events == image.events;
  }

  // ----- Half-marking is the only way to get stuck -----

  /** A half-marked receipt cannot be marked again. */
  lemma WedgedIsStuck(live: Image, id: Identity, k: string)
    requires Wedged(live, id, k)
    ensures !Markable(live, id)
  {
    assert Markable(live, id) ==> Replaceable(live, k);
  }

  lemma ReceiptKeepsMarkable(image: Image, id: Identity, d: Draft, now: nat)
    requires Markable(image, id) && WithReceipt(image, id, d, now).Some?
    ensures Markable(WithReceipt(image, id, d, now).value, id)
  {
    var after := WithReceipt(image, id, d, now).value;
    forall k | k in Pending(after, id) ensures Replaceable(after, k) {
      if k in image.receipts { assert k in Pending(image, id) && Replaceable(image, k); }
    }
  }

  lemma {:induction false} ReceiptsKeepMarkable(image: Image, id: Identity, drafts: seq<Draft>, now: nat)
    requires Markable(image, id) && WithReceipts(image, id, drafts, now).Some?
    ensures Markable(WithReceipts(image, id, drafts, now).value, id)
  {
    if drafts != [] {
      var before := drafts[..|drafts| - 1];
      ReceiptsKeepMarkable(image, id, before, now);
      ReceiptKeepsMarkable(WithReceipts(image, id, before, now).value, id, drafts[|drafts| - 1], now);
    }
  }

  lemma SameReceiptsSameVerdict(a: Image, b: Image, id: Identity)
    requires a.receipts == b.receipts && a.events == b.events
    ensures Markable(a, id) <==> Markable(b, id)
  {
    assert Pending(a, id) == Pending(b, id);
  }

  /** What a marking that stops anywhere leaves can be marked again, unless some event was marked without its row. */
  lemma MarkedIsMarkable(live: Image, id: Identity, rows: set<string>, events: set<string>, now: nat)
    requires Markable(live, id) && rows <= events <= Pending(live, id) && (live.events.Some? ==> events <= rows)
    ensures Markable(Marked(live, rows, events, now), id)
  {
    var after := Marked(live, rows, events, now);
    forall k | k in Pending(after, id) ensures Replaceable(after, k) {
      assert k in Pending(live, id) && Replaceable(live, k);
    }
  }

  /** A step of a sound handle leaves it sound, or reseals and half marks a receipt. */
  lemma SoundStep(id: Identity, s: System, t: System)
    requires Works(s, t) && s.open.value.handle.identity == id && Markable(s.open.value.live, id)
    ensures Markable(t.open.value.live, id)
            || (s.open.value.live.events.Some? && exists k :: HalfMarks(s, t, k))
  {
    var (live, live') := (s.open.value.live, t.open.value.live);
    if t == s {
    } else if Inserts(s, t) {
      SameReceiptsSameVerdict(live, live', id);
    } else if Transacts(s, t) {
      var writes, drafts, now :| Transacted(live, s.open.value.handle.identity, writes, drafts, now) == Some(live');
      var start := live.(memories := live.memories + writes);
      SameReceiptsSameVerdict(live, start, id);
      ReceiptsKeepMarkable(start, id, drafts, now);
    } else {
      var a, b, rows, events :| Resealed(s, t, a, b, rows, events);
      if live.events.Some? && !(events <= rows) {
        var k :| k in events && k !in rows;
        assert HalfMarks(s, t, k);
      } else {
        MarkedIsMarkable(live, id, rows, events, b);
      }
    }
  }

  /** A sealed file of this identity, if there is one, holds only receipts that parse and can be marked. */
  ghost predicate SoundFile(sealed: Option<Blob>, id: Identity) {
    sealed.Some? && sealed.value.Sealed? && sealed.value.identity == id ==> Markable(sealed.value.image, id)
  }

  lemma StepKeepsFileSound(id: Identity, s: System, t: System)
    requires Inv(id, s) && Next(id, s, t) && SoundFile(s.sealed, id)
    ensures SoundFile(t.sealed, id)
  {
    if t.sealed != s.sealed {
      var a, b, rows, events :| Resealed(s, t, a, b, rows, events);
      SealedImageIsMarkable(id, s.open.value.live, a);
    }
  }

  lemma {:induction false} FileStaysSound(id: Identity, run: seq<System>, k: nat)
    requires IsRun(id, run) && SoundFile(run[0].sealed, id) && k < |run|
    ensures SoundFile(run[k].sealed, id)
  {
    if k > 0 {
      FileStaysSound(id, run, k - 1);
      RunInv(id, run, k - 1);
      assert StepAt(id, run, k);
      StepKeepsFileSound(id, run[k - 1], run[k]);
    }
  }

  lemma OpenedIsMarkable(id: Identity, s: System, t: System)
    requires Opens(id, s, t) && SoundFile(s.sealed, id)
    ensures Markable(t.open.value.live, id)
  {
    if s.sealed.Some? { SameReceiptsSameVerdict(s.sealed.value.image, t.open.value.live, id); }
  }

  /** In an estate that starts with no file or a sound one, every handle that is ever opened is sound when it opens. */
  lemma EveryHandleOpensSound(id: Identity, run: seq<System>, i: nat)
    requires IsRun(id, run) && SoundFile(run[0].sealed, id) && OpensAt(id, run, i)
    ensures Markable(run[i].open.value.live, id)
  {
    FileStaysSound(id, run, i - 1);
    OpenedIsMarkable(id, run[i - 1], run[i]);
  }

  /** The handle opened at step `i` is still open at step `j`. */
  ghost predicate OpenSince(id: Identity, run: seq<System>, i: nat, j: nat) {
    OpensAt(id, run, i) && i <= j < |run| && forall m | i < m <= j :: run[m].open.Some?
  }

  lemma SoundStepInRun(id: Identity, run: seq<System>, j: nat)
    requires IsRun(id, run) && 0 < j < |run| && run[j - 1].open.Some? && run[j].open.Some?
    requires Markable(run[j - 1].open.value.live, id)
    ensures Markable(run[j].open.value.live, id) || exists k :: WedgesAt(id, run, j, k)
  {
    RunInv(id, run, j - 1);
    assert StepAt(id, run, j);
    SoundStep(id, run[j - 1], run[j]);
    if !Markable(run[j].open.value.live, id) {
      var k :| HalfMarks(run[j - 1], run[j], k);
      assert WedgesAt(id, run, j, k);
    }
  }

  lemma {:induction false} SoundUntilHalfMarked(id: Identity, run: seq<System>, i: nat, j: nat)
    requires IsRun(id, run) && OpenSince(id, run, i, j) && Markable(run[i].open.value.live, id)
    requires forall m, k | i < m <= j :: !WedgesAt(id, run, m, k)
    ensures Markable(run[j].open.value.live, id)
  {
    if i < j {
      SoundUntilHalfMarked(id, run, i, j - 1);
      assert run[j].open.Some?;
      SoundStepInRun(id, run, j);
    }
  }

  /**
   A handle opened sound can seal exactly when none of its seals since then failed between the two updates of one
   receipt, which is when no receipt of its live image is half marked.
   */
  lemma StuckIffHalfMarked(id: Identity, run: seq<System>, i: nat, j: nat)
    requires IsRun(id, run) && OpenSince(id, run, i, j) && Markable(run[i].open.value.live, id)
    ensures Markable(run[j].open.value.live, id) <==> forall m, k | i < m <= j :: !WedgesAt(id, run, m, k)
    ensures Markable(run[j].open.value.live, id) <==> forall k :: !Wedged(run[j].open.value.live, id, k)
  {
    var live := run[j].open.value.live;
    forall m, k | i < m <= j && WedgesAt(id, run, m, k) ensures Wedged(live, id, k) && !Markable(live, id) {
      WedgingStep(id, run, m, k);
      WedgedUntilDropped(id, run, m, j, k);
      WedgedIsStuck(live, id, k);
    }
    forall k | Wedged(live, id, k) ensures !Markable(live, id) { WedgedIsStuck(live, id, k); }
    if forall m, k | i < m <= j :: !WedgesAt(id, run, m, k) { SoundUntilHalfMarked(id, run, i, j); }
  }

  // ----- A run that ends wedged -----

  const VICTIM_KEY: string := "k"

  /** One pending receipt, whose event is pending or already marked. */
  function VictimLive(id: Identity, marked: bool): Image {
    var r := Receipt(Some(id), false, "r", "b");
    Image(Some(id), map[], map[VICTIM_KEY := HardRow(Some(r), 1, 0)],
          Some(map[VICTIM_KEY := Event(if marked then Durable(r) else r, "r")]))
  }

  /** Open, one supersession, and a seal that fails between the two updates of the receipt. */
  function VictimRun(id: Identity, key: string): seq<System> {
    var h := Handle(id, key, true, false);
    var live := VictimLive(id, false);
    [ System(None, None),
      System(None, Some(Session(h, NewImage(id, true), true))),
      System(None, Some(Session(h, live, true))),
      System(Some(Sealed(key, id, SealedImage(live, id, 0))), Some(Session(h, VictimLive(id, true), true))) ]
  }

  lemma VictimTransacts(id: Identity, key: string)
    ensures var run := VictimRun(id, key); Works(run[1], run[2])
  {
    var run := VictimRun(id, key);
    var fresh0 := NewImage(id, true);
    var drafts := [Draft(VICTIM_KEY, "r", "b")];
    var start := fresh0.(memories := fresh0.memories + map[]);
    assert start == fresh0;
    assert drafts[..0] == [] && WithReceipts(start, id, [], 0) == Some(start);
    assert map[][VICTIM_KEY := HardRow(Some(Receipt(Some(id), false, "r", "b")), 1, 0)] ==
        run[2].open.value.live.receipts;
    assert WithReceipts(start, id, drafts, 0) == WithReceipt(start, id, drafts[0], 0);
    assert Transacted(run[1].open.value.live, id, map[], drafts, 0) == Some(run[2].open.value.live);
    assert Transacts(run[1], run[2]);
  }

  lemma VictimReseals(id: Identity, key: string)
    ensures var run := VictimRun(id, key); Resealed(run[2], run[3], 0, 0, {}, {VICTIM_KEY})
  {
    var run := VictimRun(id, key);
    var live := run[2].open.value.live;
    assert Pending(live, id) == {VICTIM_KEY};
    assert Replaceable(live, VICTIM_KEY);
    assert MarkedRows(live.receipts, {}, 0) == live.receipts;
    var (marked, wanted) := (MarkedEvents(live.events, {VICTIM_KEY}).value, run[3].open.value.live.events.value);
    assert marked == wanted;
  }

  /** A wedged state is reachable from an empty estate in three steps. */
  lemma WedgeIsReachable(id: Identity, key: string)
    ensures var run := VictimRun(id, key); IsRun(id, run) && WedgesAt(id, run, 3, VICTIM_KEY)
    ensures Wedged(VictimRun(id, key)[3].open.value.live, id, VICTIM_KEY)
  {
    var run := VictimRun(id, key);
    VictimTransacts(id, key);
    VictimReseals(id, key);
    forall k | 0 < k < |run| ensures StepAt(id, run, k) {
      if k == 1 { assert run[1].open.value.live == NewImage(id, true); assert Opens(id, run[0], run[1]); }
      if k == 3 { assert Persists(run[2], run[3]); }
    }
    assert HalfMarks(run[2], run[3], VICTIM_KEY);
    WedgingStep(id, run, 3, VICTIM_KEY);
  }

  // ----- The handle -----

  datatype Capability = Read | Write | Export

  /** What the caller asks for, and what the key provider grants. */
  datatype Context = Context(identity: Identity, keyVersion: string, capabilities: set<Capability>, revoked: bool)

  datatype Grant = Grant(identity: Identity, keyVersion: string, capabilities: set<Capability>, key: string)

  predicate Admitted(ctx: Context, grant: Option<Grant>) {
    && !ctx.revoked && !Blank(ctx.keyVersion) && Read in ctx.capabilities && grant.Some?
    && grant.value.identity == ctx.identity && grant.value.keyVersion == ctx.keyVersion
    && ctx.capabilities <= grant.value.capabilities
  }

  /** The capabilities a handle gets: what was asked, when all of it was granted. */
  function EffectiveCapabilities(ctx: Context, grant: Grant): (r: Option<set<Capability>>)
    ensures r.Some? && Read in ctx.capabilities && !Blank(ctx.keyVersion) ==> Admitted(ctx, Some(grant))
    ensures Admitted(ctx, Some(grant)) ==> r.Some?
    ensures r.Some? ==> r.value == ctx.capabilities && r.value <= grant.capabilities
  {
    if ctx.revoked || grant.identity != ctx.identity || grant.keyVersion != ctx.keyVersion
        || !(ctx.capabilities <= grant.capabilities)
    then None else Some(ctx.capabilities)
  }

  /** The steps that can fail beside the marking ones. */
  datatype Point = Inspect | Lock | ReadFile | OpenImage | Parent | Backup | Serialize | Target | WriteTemp | Rename
    | Sync | Authorize | Commit

  datatype Faults = Faults(points: set<Point>, onCopy: set<MarkPoint>, onLive: set<MarkPoint>)

  const NO_FAULTS: Faults := Faults({}, {}, {})

  /** The sealed file is `live`, fully marked, under this key and identity. */
  ghost predicate HoldsMarked(sealed: Option<Blob>, key: string, id: Identity, live: Image, at: nat) {
    && sealed.Some? && sealed.value.Sealed? && sealed.value.key == key && sealed.value.identity == id
    && FullyMarked(live, sealed.value.image, id, at)
  }

  /** A handle starts empty and stamped, or with what the file holds under exactly this key and identity. */
  ghost predicate OpenedFrom(sealed: Option<Blob>, live: Image, key: string, id: Identity, withEvents: bool) {
    && live.stamp == Some(id)
    && if sealed.None? then
         && live.memories == map[] && live.receipts == map[]
         && live.events == (if withEvents then Some(map[]) else None)
       else
         && sealed.value.Sealed? && sealed.value.key == key && sealed.value.identity == id
         && sealed.value.image.stamp in {None, Some(id)} && live == sealed.value.image.(stamp := Some(id))
  }

  class Disk {
    var sealed: Option<Blob>

    constructor (sealed: Option<Blob>)
      ensures this.sealed == sealed
    {
      this.sealed := sealed;
    }
  }

  class Partition {
    const disk: Disk
    const conn: Connection
    const handle: Handle
    var dirty: bool

    constructor (disk: Disk, conn: Connection, handle: Handle, dirty: bool)
      ensures this.disk == disk && this.conn == conn && this.handle == handle && this.dirty == dirty
    {
      this.disk, this.conn, this.handle, this.dirty := disk, conn, handle, dirty;
    }

    ghost function Now(): System
      reads this, conn, disk
    {
      System(disk.sealed, Some(Session(handle, conn.image, dirty)))
    }

    /**
     Opens or creates the partition; refuses without Read, without the whole grant, or without Write when there is no
     file.
     */
    static method Open(disk: Disk, ctx: Context, grant: Option<Grant>, withEvents: bool, faults: set<Point>)
      returns (r: Option<Partition>)
      ensures r.Some? ==> fresh(r.value) && fresh(r.value.conn) && r.value.disk == disk
      ensures r.Some? ==> Admitted(ctx, grant) && Opens(ctx.identity, System(disk.sealed, None), r.value.Now())
      ensures r.Some? ==>
              (r.value.handle.canWrite <==> Write in ctx.capabilities)
                  && (r.value.handle.canExport <==> Export in ctx.capabilities)
      ensures r.Some? ==> OpenedFrom(disk.sealed, r.value.conn.image, grant.value.key, ctx.identity, withEvents)
      ensures r.Some? ==> r.value.handle.identity == ctx.identity && r.value.handle.key == grant.value.key
      ensures r.Some? ==> {Inspect, Lock, OpenImage} !! faults && (disk.sealed.Some? ==> ReadFile !in faults)
      ensures faults == {} ==> (r.Some? <==>
                && Admitted(ctx, grant)
                && (disk.sealed.None? ==> Write in ctx.capabilities)
                && (disk.sealed.Some? ==> Unsealed(disk.sealed.value, grant.value.key, ctx.identity).Some? &&
                                          Unsealed(disk.sealed.value, grant.value.key,
                                                   ctx.identity).value.stamp in {None, Some(ctx.identity)}))
    {
      if ctx.revoked || Blank(ctx.keyVersion) || Read !in ctx.capabilities || grant.None? { return None; }
      var capabilities := EffectiveCapabilities(ctx, grant.value);
      if capabilities.None? || Inspect in faults { return None; }
      if disk.sealed.None? && Write !in capabilities.value { return None; }
      if Lock in faults { return None; }
      var image := NewImage(ctx.identity, withEvents);
      if disk.sealed.Some? {
        var found := Unsealed(disk.sealed.value, grant.value.key, ctx.identity);
        if ReadFile in faults || found.None? { return None; }
        image := Stamped(found.value, ctx.identity);
      }
      if OpenImage in faults || image.stamp != Some(ctx.identity) { return None; }
      var conn := new Connection(image);
      var handle := Handle(ctx.identity, grant.value.key, Write in capabilities.value, Export in capabilities.value);
      var p := new Partition(disk, conn, handle, disk.sealed.None?);
      return Some(p);
    }

    /** Inserts a memory unless its id is taken; the handle is dirty either way once the store accepted the call. */
    method InsertIfAbsent(key: string, text: string, faults: set<Point>) returns (ok: bool)
      modifies conn, this`dirty
      ensures Works(old(Now()), Now())
      ensures ok <==> handle.canWrite && Commit !in faults
      ensures ok ==> InsertsInto(old(conn.image), conn.image, key, text) && dirty
      ensures !ok ==> Now() == old(Now())
    {
      ghost var before := Now();
      if !handle.canWrite || Commit in faults { return false; }
      InsertedMeans(conn.image, key, text);
      conn.image := Inserted(conn.image, key, text);
      dirty := true;
      assert Inserts(before, Now());
      return true;
    }

    /** Runs a supersession transaction: all of it or nothing; only a real change makes the handle dirty. */
    method Transact(writes: map<string, string>, drafts: seq<Draft>, now: nat, faults: set<Point>) returns (ok: bool)
      modifies conn, this`dirty
      ensures Works(old(Now()), Now())
      ensures ok <==>
              handle.canWrite && Commit !in faults && NoConflict(old(conn.image), handle.identity, drafts)
      ensures ok ==> TransactsInto(old(conn.image), conn.image, handle.identity, writes, drafts, now)
      ensures ok ==> (dirty <==> old(dirty) || writes != map[] || conn.image != old(conn.image))
      ensures !ok ==> Now() == old(Now())
    {
      ghost var before := Now();
      TransactedMeans(conn.image, handle.identity, writes, drafts, now);
      if !handle.canWrite { return false; }
      var tx := RunTransaction(conn.image, handle.identity, writes, drafts, now);
      if tx.None? || Commit in faults { return false; }
      dirty := dirty || writes != map[] || tx.value != conn.image;
      conn.image := tx.value;
      TransactionWorks(before, Now(), writes, drafts, now);
      return true;
    }

    /** The statements of a transaction, one after the other, until one is refused. */
    static method RunTransaction(image: Image, id: Identity, writes: map<string, string>, drafts: seq<Draft>, now: nat)
      returns (tx: Option<Image>)
      ensures tx == Transacted(image, id, writes, drafts, now)
    {
      var start := image.(memories := image.memories + writes);
      tx := Some(start);
      for k := 0 to |drafts|
        invariant tx.Some? && WithReceipts(start, id, drafts[..k], now) == tx
      {
        assert drafts[..k + 1][..k] == drafts[..k];
        tx := WithReceipt(tx.value, id, drafts[k], now);
        if tx.None? {
          FailsEarly(start, id, drafts, now, k + 1);
          return;
        }
      }
      assert drafts[..|drafts|] == drafts;
    }

    /** The sealed form of the live image: a copy, fully marked, under the handle's key. */
    method EncodeEnvelope(now: nat, faults: Faults) returns (blob: Option<Blob>)
      ensures blob.Some? ==> Markable(conn.image, handle.identity) && {Backup, Serialize} !! faults.points
      ensures blob.Some? ==>
              blob.value == Sealed(handle.key, handle.identity, SealedImage(conn.image, handle.identity, now))
      ensures faults.onCopy == {} && {Backup, Serialize} !! faults.points && Markable(conn.image, handle.identity) ==>
              blob.Some?
    {
      MarkableMeans(conn.image, handle.identity);
      if Backup in faults.points { return None; }
      var copy := new Connection(conn.image);
      var ok, rows, events := copy.MarkReceiptsSealed(handle.identity, now, faults.onCopy);
      if !ok || Serialize in faults.points { return None; }
      return Some(Sealed(handle.key, handle.identity, copy.image));
    }

    /** An encrypted backup for holders of Export; it changes nothing. */
    method ExportSealed(now: nat, faults: Faults) returns (blob: Option<Blob>)
      ensures blob.Some? ==> handle.canExport && Markable(conn.image, handle.identity)
      ensures blob.Some? ==> {Backup, Serialize} !! faults.points
      ensures blob.Some? ==>
              Unsealed(blob.value, handle.key, handle.identity) == Some(SealedImage(conn.image, handle.identity, now))
      ensures blob.Some? ==> blob.value.Sealed? && FullyMarked(conn.image, blob.value.image, handle.identity, now)
      ensures faults == NO_FAULTS ==> (blob.Some? <==> handle.canExport && Sealable(conn.image, handle.identity))
    {
      SealedMeans(conn.image, handle.identity, now);
      MarkableMeans(conn.image, handle.identity);
      if !handle.canExport { return None; }
      blob := EncodeEnvelope(now, faults);
    }

    /** Replaces the sealed file by the encoded image; a failure after the rename leaves the new file in place. */
    method PersistSealed(now: nat, faults: Faults) returns (ok: bool)
      modifies disk
      ensures var blob := Sealed(handle.key, handle.identity, SealedImage(conn.image, handle.identity, now));
              || (!ok && disk.sealed == old(disk.sealed))
              || (Markable(conn.image, handle.identity) && disk.sealed == Some(blob))
      ensures ok ==> Sync !in faults.points
      ensures ok || disk.sealed != old(disk.sealed) ==>
              {Parent, Backup, Serialize, Target, WriteTemp, Rename} !! faults.points
      ensures faults.onCopy == {} && faults.points <= {Sync} && Markable(conn.image, handle.identity) ==>
              (ok <==> Sync !in faults.points)
                  && disk.sealed ==
                     Some(Sealed(handle.key, handle.identity, SealedImage(conn.image, handle.identity, now)))
    {
      if Parent in faults.points { return false; }
      var blob := EncodeEnvelope(now, faults);
      if blob.None? || Target in faults.points || WriteTemp in faults.points || Rename in faults.points {
        return false;
      }
      disk.sealed := blob;
      return Sync !in faults.points;
    }

    /** Seals the live image, then marks its receipts, then clears the dirty bit; any step may fail. */
    method Persist(sealedAt: nat, markedAt: nat, faults: Faults) returns (ok: bool)
      modifies this`dirty, conn, disk
      ensures Works(old(Now()), Now())
      ensures ok ==> !dirty
      ensures ok && old(dirty) ==>
              {Parent, Backup, Serialize, Target, WriteTemp, Rename, Sync, Authorize} !! faults.points
      ensures faults == NO_FAULTS ==>
              (ok <==> !old(dirty) || (handle.canWrite && Sealable(old(conn.image), handle.identity)))
      ensures !old(dirty) ==> Now() == old(Now())
      ensures ok && old(dirty) ==>
              HoldsMarked(disk.sealed, handle.key, handle.identity, old(conn.image), sealedAt)
                  && FullyMarked(old(conn.image), conn.image, handle.identity, markedAt)
    {
      ghost var before := Now();
      SealedMeans(conn.image, handle.identity, sealedAt);
      MarkableMeans(conn.image, handle.identity);
      if !dirty { return true; }
      if !handle.canWrite { return false; }
      var sealed := PersistSealed(sealedAt, faults);
      if !sealed || Authorize in faults.points {
        NothingMarkedYet(before, Now(), sealedAt, markedAt);
        return false;
      }
      var marked, rows, events := conn.MarkReceiptsSealed(handle.identity, markedAt, faults.onLive);
      if marked { dirty := false; }
      assert Resealed(before, Now(), sealedAt, markedAt, rows, events);
      return marked;
    }
  }

  lemma TransactionWorks(s: System, t: System, writes: map<string, string>, drafts: seq<Draft>, now: nat)
    requires s.open.Some? && t.open.Some? && t.sealed == s.sealed && t.open.value.handle == s.open.value.handle
    requires s.open.value.handle.canWrite
    requires Transacted(s.open.value.live, s.open.value.handle.identity, writes, drafts, now) == Some(t.open.value.live)
    requires t.open.value.dirty || (t == s && !s.open.value.dirty)
    ensures Works(s, t)
  {
    assert Transacts(s, t);
  }

  lemma FailsEarly(image: Image, id: Identity, drafts: seq<Draft>, now: nat, k: nat)
    requires k <= |drafts| && WithReceipts(image, id, drafts[..k], now).None?
    ensures WithReceipts(image, id, drafts, now).None?
    decreases |drafts| - k
  {
    if k == |drafts| {
      assert drafts[..k] == drafts;
    } else {
      assert drafts[..k + 1][..k] == drafts[..k];
      FailsEarly(image, id, drafts, now, k + 1);
    }
  }

  /** A persist that stopped after the rename, or before it, with the live image untouched. */
  lemma NothingMarkedYet(s: System, t: System, sealedAt: nat, markedAt: nat)
    requires s.open.Some? && s.open == t.open && s.open.value.dirty && s.open.value.handle.canWrite
    requires var (h, live) := (s.open.value.handle, s.open.value.live);
             t.sealed == s.sealed ||
             (Markable(live, h.identity)
              && t.sealed == Some(Sealed(h.key, h.identity, SealedImage(live, h.identity, sealedAt))))
    ensures Persists(s, t)
  {
    MarkNothing(s.open.value.live, markedAt);
    if t.sealed != s.sealed { assert Resealed(s, t, sealedAt, markedAt, {}, {}); }
  }
}
