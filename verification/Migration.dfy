/**
 Splitting one memory database into per-project databases
 (scripts/migrate_antigravity_split.py): plan, rehearse every write, commit each
 destination on its own, and only then delete from the source. The commits are
 separate, so the process may stop between any two of them.
 */
module Migration {
  import opened Prelude

  /** The columns the script names; every other column is carried along unread. */
  datatype Column =
    | Id | Path | Summary | Body | Keywords | Entities | Persons | Topic | Metadata
    | SourceId | TargetId | Relation | Other(name: string)

  type Project = string

  datatype Value = Null | Int(n: int) | Real(r: real) | Text(s: string) | Blob(b: seq<bv8>)

  type Row = map<Column, Value>

  datatype EdgeKey = EdgeKey(source: Value, target: Value, relation: Value)

  datatype FtsTable = Terms | Symbolic

  /**
   One database. `rows` holds the memories with an id, `unnamed` those whose id is NULL; edges are keyed by
   their primary key; `terms` and `symbolic` are the two standalone FTS tables, when they exist.
   */
  datatype Db = Db(rows: map<Value, Row>, unnamed: seq<Row>, edges: map<EdgeKey, Row>, terms: Option<Index>,
                   symbolic: Option<Index>)

  /** An FTS table: for each id, the entries carrying it. */
  type Index = map<Value, seq<FtsEntry>>

  /** A table: its columns, whether its constraints and triggers accept a new row, and what it then stores. */
  datatype Table = Table(columns: set<Column>, accepts: Row -> bool, stored: Row -> Row)

  datatype Schema = Schema(memories: Table, edges: Table)

  /**
   Fixed deterministic functions of the host: classification, JSON list decoding and encoding, case folding, FTS
   terms.
   */
  datatype Host = Host(
    buckets: map<(Value, Value), Project>,             // destination of each path and text; any other pair is kept
    parseList: Value -> Option<seq<string>>,
    renderList: seq<string> -> string,
    casefold: string -> string,
    hasReservedRefs: Value -> bool,
    terms: Value -> Option<Value>)

  function Field(row: Row, c: Column): Value { if c in row then row[c] else Null }

  /** The primary key: every stored memory is found under its own non-NULL id. */
  predicate Keyed(db: Db) {
    && (forall id | id in db.rows :: id != Null && Id in db.rows[id] && db.rows[id][Id] == id)
    && (forall k | k in db.edges :: {SourceId, TargetId, Relation} <= db.edges[k].Keys && KeyOf(db.edges[k]) == k)
  }

  function KeyOf(edge: Row): EdgeKey {
    EdgeKey(Field(edge, SourceId), Field(edge, TargetId), Field(edge, Relation))
  }

  // ----- The legacy persons fold -----

  predicate Falsy(v: Value) {
    v == Null || v == Int(0) || v == Real(0.0) || v == Text("") || v == Blob([])
  }

  function ListOf(host: Host, v: Value): Option<seq<string>> {
    if Falsy(v) then Some([]) else host.parseList(v)
  }

  function FoldedNames(casefold: string -> string, names: seq<string>): set<string> {
    set i | 0 <= i < |names| :: casefold(names[i])
  }

  /** Appends each person whose case-folded name is not there yet. */
  function FoldPersons(casefold: string -> string, entities: seq<string>, persons: seq<string>): (all: seq<string>)
    ensures entities <= all
    decreases |persons|
  {
    if persons == [] then entities
    else if casefold(persons[0]) in FoldedNames(casefold, entities) then FoldPersons(casefold, entities, persons[1..])
    else FoldPersons(casefold, entities + [persons[0]], persons[1..])
  }

  /** The fold loses nobody, invents nobody, and adds no case-insensitive duplicate. */
  lemma {:induction false} FoldKeepsEveryone(casefold: string -> string, entities: seq<string>, persons: seq<string>)
    ensures var all := FoldPersons(casefold, entities, persons);
            && FoldedNames(casefold, all) == FoldedNames(casefold, entities) + FoldedNames(casefold, persons)
            && (forall k | |entities| <= k < |all| ::
                all[k] in persons && casefold(all[k]) !in FoldedNames(casefold, all[..k]))
    decreases |persons|
  {
    if persons != [] {
      var p := persons[0];
      assert persons == [p] + persons[1..];
      FoldedConcat(casefold, [p], persons[1..]);
      if casefold(p) in FoldedNames(casefold, entities) {
        FoldKeepsEveryone(casefold, entities, persons[1..]);
      } else {
        FoldedConcat(casefold, entities, [p]);
        FoldKeepsEveryone(casefold, entities + [p], persons[1..]);
        var all := FoldPersons(casefold, entities + [p], persons[1..]);
        forall k | |entities| <= k < |all|
          ensures all[k] in persons && casefold(all[k]) !in FoldedNames(casefold, all[..k])
        {
          if k == |entities| {
            assert (entities + [p])[k] == p && all[..k] == entities;
          }
        }
      }
    }
  }

  lemma FoldedConcat(casefold: string -> string, a: seq<string>, b: seq<string>)
    ensures FoldedNames(casefold, a + b) == FoldedNames(casefold, a) + FoldedNames(casefold, b)
  {
    forall x | x in FoldedNames(casefold, a) + FoldedNames(casefold, b) ensures x in FoldedNames(casefold, a + b) {
      if x in FoldedNames(casefold, a) {
        var i :| 0 <= i < |a| && casefold(a[i]) == x;
        assert (a + b)[i] == a[i];
      } else {
        var i :| 0 <= i < |b| && casefold(b[i]) == x;
        assert (a + b)[|a| + i] == b[i];
      }
    }
  }

  /** The values to insert: unchanged, unless the destination has no `persons` column. `None` refuses a lossy fold. */
  function Prepared(host: Host, memories: Table, rec: Row): Option<Row> {
    if Persons !in rec || Persons in memories.columns then Some(rec)
    else if Entities !in rec then None
    else
      match (ListOf(host, rec[Entities]), ListOf(host, rec[Persons]))
      case (Some(entities), Some(persons)) =>
        Some((rec - {Persons})[Entities := Text(host.renderList(FoldPersons(host.casefold, entities, persons)))])
      case _ => None
  }

  // ----- What the fold keeps, said of the stored values -----

  /** Decoding a list undoes encoding it. */
  ghost predicate Decodes(host: Host) {
    forall names :: host.renderList(names) != "" && host.parseList(Text(host.renderList(names))) == Some(names)
  }

  /** A column that holds nothing, zero or no characters is the empty list; any other is what it decodes to. */
  ghost predicate Lists(host: Host, v: Value, names: seq<string>) {
    if v == Null || v == Text("") || v == Blob([]) || v == Int(0) || v == Real(0.0) then names == []
    else host.parseList(v) == Some(names)
  }

  ghost predicate Readable(host: Host, v: Value) { exists names :: Lists(host, v, names) }

  predicate Subsequence(xs: seq<string>, ys: seq<string>) {
    if xs == [] then true
    else if ys == [] then false
    else if xs[0] == ys[0] then Subsequence(xs[1..], ys[1..])
    else Subsequence(xs, ys[1..])
  }

  /** `all` is `entities`, then in their order those `persons` whose name is not there yet but for its case. */
  ghost predicate Folds(casefold: string -> string, entities: seq<string>, persons: seq<string>, all: seq<string>) {
    && entities <= all && Subsequence(all[|entities|..], persons)
    && (forall p | p in persons :: exists k | 0 <= k < |all| :: casefold(all[k]) == casefold(p))
    && (forall j, k | 0 <= j < k < |all| && |entities| <= k :: casefold(all[j]) != casefold(all[k]))
  }

  lemma {:induction false} SubsequenceSkips(xs: seq<string>, ys: seq<string>)
    requires ys != [] && Subsequence(xs, ys[1..])
    ensures Subsequence(xs, ys)
    decreases |ys|, 0
  {
    if xs != [] && xs[0] == ys[0] { SubsequenceDrops(xs, ys[1..]); }
  }

  lemma {:induction false} SubsequenceDrops(xs: seq<string>, ys: seq<string>)
    requires xs != [] && Subsequence(xs, ys)
    ensures Subsequence(xs[1..], ys)
    decreases |ys|, 1
  {
    if xs[0] != ys[0] { SubsequenceDrops(xs, ys[1..]); }
    SubsequenceSkips(xs[1..], ys);
  }

  lemma {:induction false} FoldedInOrder(casefold: string -> string, entities: seq<string>, persons: seq<string>)
    ensures Subsequence(FoldPersons(casefold, entities, persons)[|entities|..], persons)
    decreases |persons|
  {
    if persons != [] {
      var (p, rest) := (persons[0], persons[1..]);
      if casefold(p) in FoldedNames(casefold, entities) {
        FoldedInOrder(casefold, entities, rest);
        SubsequenceSkips(FoldPersons(casefold, entities, rest)[|entities|..], persons);
      } else {
        FoldedInOrder(casefold, entities + [p], rest);
        var all := FoldPersons(casefold, entities + [p], rest);
        assert all[|entities|] == p && all[|entities|..][1..] == all[|entities + [p]|..];
      }
    }
  }

  lemma FoldedMeans(casefold: string -> string, entities: seq<string>, persons: seq<string>)
    ensures Folds(casefold, entities, persons, FoldPersons(casefold, entities, persons))
  {
    var all := FoldPersons(casefold, entities, persons);
    FoldKeepsEveryone(casefold, entities, persons);
    FoldedInOrder(casefold, entities, persons);
    forall p | p in persons ensures exists k | 0 <= k < |all| :: casefold(all[k]) == casefold(p) {
      var i :| 0 <= i < |persons| && persons[i] == p;
      assert casefold(persons[i]) in FoldedNames(casefold, all);
    }
    forall j, k | 0 <= j < k < |all| && |entities| <= k ensures casefold(all[j]) != casefold(all[k]) {
      assert casefold(all[..k][j]) in FoldedNames(casefold, all[..k]);
    }
  }

  /** The entities of `row` are the entities of `rec` with its persons folded in. */
  ghost predicate PersonsFolded(host: Host, rec: Row, row: Row) {
    && Entities in rec && Persons in rec && Entities in row
    && exists entities, persons, all ::
         && Lists(host, rec[Entities], entities) && Lists(host, rec[Persons], persons)
         && Lists(host, row[Entities], all) && Folds(host.casefold, entities, persons, all)
  }

  predicate FoldNeeded(columns: set<Column>, rec: Row) { Persons in rec && Persons !in columns }

  /** Every column of `rec` is in `row` unchanged; without a persons column the persons are among the entities. */
  ghost predicate Keeps(host: Host, columns: set<Column>, rec: Row, row: Row) {
    && (forall c | c in rec && c != Persons && c != Entities :: c in row && row[c] == rec[c])
    && (if FoldNeeded(columns, rec) then PersonsFolded(host, rec, row)
        else forall c | c in rec :: c in row && row[c] == rec[c])
  }

  lemma ListsOf(host: Host, v: Value)
    ensures ListOf(host, v).Some? <==> Readable(host, v)
    ensures ListOf(host, v).Some? ==> Lists(host, v, ListOf(host, v).value)
  {
    if ListOf(host, v).Some? { assert Lists(host, v, ListOf(host, v).value); }
  }

  /** A row is refused exactly when a fold is needed and one of the lists is missing or unreadable. */
  lemma PreparedIff(host: Host, memories: Table, rec: Row)
    ensures Prepared(host, memories, rec).None? <==>
            FoldNeeded(memories.columns, rec)
                && (Entities !in rec || !Readable(host, rec[Entities]) || !Readable(host, rec[Persons]))
  {
    if FoldNeeded(memories.columns, rec) && Entities in rec {
      ListsOf(host, rec[Entities]);
      ListsOf(host, rec[Persons]);
    }
  }

  lemma EncodedFold(host: Host, entities: seq<string>, persons: seq<string>)
    requires Decodes(host)
    ensures var all := FoldPersons(host.casefold, entities, persons);
            Lists(host, Text(host.renderList(all)), all) && Folds(host.casefold, entities, persons, all)
  {
    var all := FoldPersons(host.casefold, entities, persons);
    FoldedMeans(host.casefold, entities, persons);
    assert host.renderList(all) != "";
  }

  /** What is inserted has the columns of the row, but for a folded persons column, and keeps every value. */
  lemma PreparedKeeps(host: Host, memories: Table, rec: Row, values: Row)
    requires Decodes(host) && Prepared(host, memories, rec) == Some(values)
    ensures values.Keys == if FoldNeeded(memories.columns, rec) then rec.Keys - {Persons} else rec.Keys
    ensures Keeps(host, memories.columns, rec, values)
  {
    if FoldNeeded(memories.columns, rec) {
      var (entities, persons) := (ListOf(host, rec[Entities]).value, ListOf(host, rec[Persons]).value);
      ListsOf(host, rec[Entities]);
      ListsOf(host, rec[Persons]);
      EncodedFold(host, entities, persons);
    }
  }

  /** So does every stored row that carries what was inserted. */
  lemma CarriedKeeps(host: Host, memories: Table, rec: Row, values: Row, row: Row)
    requires Decodes(host) && Prepared(host, memories, rec) == Some(values) && Carries(row, values)
    ensures Keeps(host, memories.columns, rec, row)
  {
    PreparedKeeps(host, memories, rec, values);
    if FoldNeeded(memories.columns, rec) { assert row[Entities] == values[Entities]; }
  }

  // ----- insert_identical_or_new -----

  predicate Carries(row: Row, values: Row) {
    forall c | c in values :: c in row && row[c] == values[c]
  }

  /** The row found under the key afterwards, or `None` when the write is refused. */
  function Settled(table: Table, existing: Option<Row>, values: Row, reserved: bool): (r: Option<Row>)
    ensures r.Some? ==> Carries(r.value, values)
    ensures r.Some? && existing.Some? ==> r == existing
  {
    if !(values.Keys <= table.columns) then None
    else if existing.Some? then (if Carries(existing.value, values) then existing else None)
    else if reserved || !table.accepts(values) then None
    else
      var row := table.stored(values);
      if Carries(row, values) then Some(row) else None
  }

  function SettledMemory(host: Host, schema: Schema, dst: Db, rec: Row): (r: Option<Row>) {
    match Prepared(host, schema.memories, rec)
    case None => None
    case Some(values) =>
      var id := Field(rec, Id);
      Settled(schema.memories, if id in dst.rows then Some(dst.rows[id]) else None, values,
              host.hasReservedRefs(Field(values, Metadata)))
  }

  function SettledEdge(schema: Schema, dst: Db, edge: Row): Option<Row> {
    var k := KeyOf(edge);
    Settled(schema.edges, if k in dst.edges then Some(dst.edges[k]) else None, edge, false)
  }

  ghost predicate SameValues(row: Row, values: Row) { forall c | c in values :: c in row && row[c] == values[c] }

  /**
   A memory settles exactly when it can be prepared, the table has all its columns, and either the row found under its
   id has exactly those values, or there is none and a new one is accepted and stored unaltered. A new row never carries
   reserved references.
   */
  lemma MemorySettlesIff(host: Host, schema: Schema, dst: Db, rec: Row)
    ensures var (prepared, id, settled) :=
            (Prepared(host, schema.memories, rec), Field(rec, Id), SettledMemory(host, schema, dst, rec));
            && (settled.Some? <==>
                && prepared.Some? && prepared.value.Keys <= schema.memories.columns
                && (if id in dst.rows then SameValues(dst.rows[id], prepared.value)
                    else
                      && !host.hasReservedRefs(Field(prepared.value, Metadata))
                      && schema.memories.accepts(prepared.value)
                      && SameValues(schema.memories.stored(prepared.value), prepared.value)))
            && (settled.Some? && id in dst.rows ==> settled.value == dst.rows[id])
            && (settled.Some? && id !in dst.rows ==> settled.value == schema.memories.stored(prepared.value))
  {
  }

  /** The same for an edge under its three-part key; edges carry no reserved references. */
  lemma EdgeSettlesIff(schema: Schema, dst: Db, edge: Row, k: EdgeKey)
    requires k == EdgeKey(Field(edge, SourceId), Field(edge, TargetId), Field(edge, Relation))
    ensures var settled := SettledEdge(schema, dst, edge);
            && (settled.Some? <==>
                && edge.Keys <= schema.edges.columns
                && (if k in dst.edges then SameValues(dst.edges[k], edge)
                    else schema.edges.accepts(edge) && SameValues(schema.edges.stored(edge), edge)))
            && (settled.Some? && k in dst.edges ==> settled.value == dst.edges[k])
            && (settled.Some? && k !in dst.edges ==> settled.value == schema.edges.stored(edge))
  {
  }

  predicate Touches(k: EdgeKey, ids: set<Value>) { k.source in ids || k.target in ids }

  function EdgesFor(src: Db, ids: set<Value>): set<EdgeKey> {
    set k | k in src.edges && Touches(k, ids)
  }

  // ----- FTS projections -----

  /** One entry of an FTS table; only the symbolic table carries the topic. */
  datatype FtsEntry = FtsEntry(path: Value, summary: Value, text: Value, keywords: Value, entities: Value,
                               topic: Option<Value>)

  function TermsOf(host: Host, t: FtsTable, v: Value): Option<Value> {
    if t.Terms? then host.terms(v) else Some(v)
  }

  /** The entry an FTS table gets for a stored row; `None` when a column is missing or the terms function raises. */
  function Projection(host: Host, t: FtsTable, row: Row): Option<FtsEntry> {
    if Path !in row || Summary !in row || Body !in row || Keywords !in row || Entities !in row then None
    else if t.Symbolic? && Topic !in row then None
    else
      match (TermsOf(host, t, row[Keywords]), TermsOf(host, t, row[Entities]))
      case (Some(keywords), Some(entities)) =>
        Some(FtsEntry(row[Path], row[Summary], row[Body], keywords, entities,
                      if t.Symbolic? then Some(row[Topic]) else None))
      case _ => None
  }

  /**
   Which column each field of an entry comes from: in the term table keywords and entities go through the terms
   function, in the symbolic table they are copied and the topic is added.
   */
  lemma ProjectionMeans(host: Host, t: FtsTable, row: Row)
    ensures var p := Projection(host, t, row);
            && (p.Some? <==>
                && {Path, Summary, Body, Keywords, Entities} <= row.Keys && (t.Symbolic? ==> Topic in row)
                && (t.Terms? ==> host.terms(row[Keywords]).Some? && host.terms(row[Entities]).Some?))
            && (p.Some? ==>
                && p.value.path == row[Path] && p.value.summary == row[Summary] && p.value.text == row[Body]
                && (t.Terms? ==>
                    && Some(p.value.keywords) == host.terms(row[Keywords])
                    && Some(p.value.entities) == host.terms(row[Entities]) && p.value.topic == None)
                && (t.Symbolic? ==>
                    && p.value.keywords == row[Keywords] && p.value.entities == row[Entities]
                    && p.value.topic == Some(row[Topic])))
  {
    assert {Path, Summary, Body, Keywords, Entities} <= row.Keys <==>
           Path in row && Summary in row && Body in row && Keywords in row && Entities in row;
  }

  // ----- write_destination and cleanup_source, as one relation each -----

  predicate RowsSettle(host: Host, schema: Schema, dst: Db, src: Db, ids: set<Value>)
    requires ids <= src.rows.Keys
  {
    forall id | id in ids :: SettledMemory(host, schema, dst, src.rows[id]).Some?
  }

  predicate EdgesSettle(schema: Schema, dst: Db, src: Db, keys: set<EdgeKey>)
    requires keys <= src.edges.Keys
  {
    forall k | k in keys :: SettledEdge(schema, dst, src.edges[k]).Some?
  }

  function SettledRows(host: Host, schema: Schema, dst: Db, src: Db, ids: set<Value>): (m: map<Value, Row>)
    requires ids <= src.rows.Keys && RowsSettle(host, schema, dst, src, ids)
    ensures m.Keys == ids && forall id | id in ids :: m[id] == SettledMemory(host, schema, dst, src.rows[id]).value
  {
    map id | id in ids :: SettledMemory(host, schema, dst, src.rows[id]).value
  }

  function SettledEdges(schema: Schema, dst: Db, src: Db, keys: set<EdgeKey>): (m: map<EdgeKey, Row>)
    requires keys <= src.edges.Keys && EdgesSettle(schema, dst, src, keys)
    ensures m.Keys == keys && forall k | k in keys :: m[k] == SettledEdge(schema, dst, src.edges[k]).value
  {
    map k | k in keys :: SettledEdge(schema, dst, src.edges[k]).value
  }

  predicate Projectable(host: Host, t: FtsTable, rows: map<Value, Row>, ids: set<Value>) {
    forall id | id in ids :: id in rows && Projection(host, t, rows[id]).Some?
  }

  function Entries(host: Host, t: FtsTable, rows: map<Value, Row>, ids: set<Value>): (m: Index)
    requires Projectable(host, t, rows, ids)
    ensures m.Keys == ids && forall id | id in ids :: m[id] == [Projection(host, t, rows[id]).value]
  {
    map id | id in ids :: [Projection(host, t, rows[id]).value]
  }

  predicate Indexable(host: Host, t: FtsTable, index: Option<Index>, rows: map<Value, Row>, ids: set<Value>) {
    index.Some? ==> Projectable(host, t, rows, ids)
  }

  /** An existing FTS table with the entries of `ids` replaced. */
  function Reindexed(host: Host, t: FtsTable, index: Option<Index>, rows: map<Value, Row>,
                     ids: set<Value>): Option<Index>
    requires Indexable(host, t, index, rows, ids)
  {
    if index.None? then None else Some(index.value + Entries(host, t, rows, ids))
  }

  predicate CanWrite(host: Host, schema: Schema, dst: Db, src: Db, ids: set<Value>)
    requires ids <= src.rows.Keys
  {
    && RowsSettle(host, schema, dst, src, ids)
    && EdgesSettle(schema, dst, src, EdgesFor(src, ids))
    && var rows := SettledRows(host, schema, dst, src, ids);
       Indexable(host, Terms, dst.terms, rows, ids) && Indexable(host, Symbolic, dst.symbolic, rows, ids)
  }

  /** The destination after a successful write. */
  function Written(host: Host, schema: Schema, dst: Db, src: Db, ids: set<Value>): Db
    requires ids <= src.rows.Keys && CanWrite(host, schema, dst, src, ids)
  {
    var rows := SettledRows(host, schema, dst, src, ids);
    Db(dst.rows + rows, dst.unnamed, dst.edges + SettledEdges(schema, dst, src, EdgesFor(src, ids)),
       Reindexed(host, Terms, dst.terms, rows, ids), Reindexed(host, Symbolic, dst.symbolic, rows, ids))
  }

  function Pruned(index: Option<Index>, rows: map<Value, Row>): Option<Index> {
    if index.None? then None else Some(map id | id in index.value && id in rows :: index.value[id])
  }

  /**
   The source after the moved ids are deleted: their rows, every edge touching them, every FTS entry without a row.
   */
  function Cleaned(src: Db, moved: set<Value>): Db {
    var rows := src.rows - moved;
    Db(rows, src.unnamed, map k | k in src.edges && !Touches(k, moved) :: src.edges[k],
       Pruned(src.terms, rows), Pruned(src.symbolic, rows))
  }

  /** Only the entries of rows that are still there stay, each as it was. */
  ghost predicate EntriesKept(before: Option<Index>, after: Option<Index>, rows: map<Value, Row>) {
    && (after.Some? <==> before.Some?)
    && (before.Some? ==>
          && (forall id :: id in after.value <==> id in before.value && id in rows)
          && (forall id | id in after.value :: after.value[id] == before.value[id]))
  }

  /** Exactly the moved rows and the edges at them are gone; everything else is as it was. */
  lemma CleanedMeans(src: Db, moved: set<Value>)
    ensures var c := Cleaned(src, moved);
            && (forall id :: id in c.rows <==> id in src.rows && id !in moved)
            && (forall id | id in c.rows :: c.rows[id] == src.rows[id])
            && (forall k :: k in c.edges <==> k in src.edges && k.source !in moved && k.target !in moved)
            && (forall k | k in c.edges :: c.edges[k] == src.edges[k])
            && c.unnamed == src.unnamed && EntriesKept(src.terms, c.terms, c.rows)
            && EntriesKept(src.symbolic, c.symbolic, c.rows)
  {
  }

  /** The entries of the moved ids are those of their stored rows, one each; all others are as they were. */
  ghost predicate EntriesReplaced(host: Host, t: FtsTable, before: Option<Index>, after: Option<Index>,
                                  rows: map<Value, Row>, ids: set<Value>) {
    && (after.Some? <==> before.Some?)
    && (before.Some? ==>
          && (forall id :: id in after.value <==> id in before.value || id in ids)
          && (forall id | id in before.value && id !in ids :: after.value[id] == before.value[id])
          && (forall id | id in ids :: id in rows && Projection(host, t, rows[id]).Some?
                && after.value[id] == [Projection(host, t, rows[id]).value]))
  }

  lemma WrittenEntries(host: Host, schema: Schema, dst: Db, src: Db, ids: set<Value>)
    requires ids <= src.rows.Keys && CanWrite(host, schema, dst, src, ids)
    ensures var d := Written(host, schema, dst, src, ids);
            EntriesReplaced(host, Terms, dst.terms, d.terms, d.rows, ids)
                && EntriesReplaced(host, Symbolic, dst.symbolic, d.symbolic, d.rows, ids)
  {
    ReindexedMeans(host, Terms, dst.terms, SettledRows(host, schema, dst, src, ids), ids);
    ReindexedMeans(host, Symbolic, dst.symbolic, SettledRows(host, schema, dst, src, ids), ids);
  }

  lemma ReindexedMeans(host: Host, t: FtsTable, index: Option<Index>, rows: map<Value, Row>, ids: set<Value>)
    requires Indexable(host, t, index, rows, ids)
    ensures EntriesReplaced(host, t, index, Reindexed(host, t, index, rows, ids), rows, ids)
  {
  }

  // ----- The plan -----

  function Destination(host: Host, retain: set<Project>, row: Row): Option<Project> {
    match Classify(host, row)
    case None => None
    case Some(p) => if p in retain then None else Some(p)
  }

  function Classify(host: Host, row: Row): Option<Project> {
    var key := (Field(row, Path), Field(row, Body));
    if key in host.buckets then Some(host.buckets[key]) else None
  }

  /** The ids each project receives; rows without an id are never selected. */
  function Selected(host: Host, retain: set<Project>, rows: map<Value, Row>, p: Project): set<Value> {
    set id | id in rows && Destination(host, retain, rows[id]) == Some(p)
  }

  function Projects(host: Host, retain: set<Project>, rows: map<Value, Row>): set<Project> {
    set id | id in rows && Destination(host, retain, rows[id]).Some? :: Destination(host, retain, rows[id]).value
  }

  function Moved(host: Host, retain: set<Project>, rows: map<Value, Row>): set<Value> {
    set id | id in rows && Destination(host, retain, rows[id]).Some?
  }

  // ----- Runs and crashes -----

  datatype World = World(src: Db, dsts: map<Project, Db>)

  /** What one invocation is given. `shapesOk` is the yes/no answer of the schema validation of every database. */
  datatype Setup = Setup(host: Host, retain: set<Project>, schemas: map<Project, Schema>, shapesOk: bool) {
    function Ids(src: Db, p: Project): set<Value> { Selected(host, retain, src.rows, p) }

    function Targets(src: Db): set<Project> { Projects(host, retain, src.rows) }

    function Leaving(src: Db): set<Value> { Moved(host, retain, src.rows) }
  }

  /** The preflight: every destination exists, has the right shape, and its rehearsed write succeeds. */
  predicate Admitted(setup: Setup, w: World) {
    && setup.shapesOk
    && forall p | p in setup.Targets(w.src) ::
         p in w.dsts && p in setup.schemas
             && CanWrite(setup.host, setup.schemas[p], w.dsts[p], w.src, setup.Ids(w.src, p))
  }

  function After(setup: Setup, w: World, p: Project): Db
    requires Admitted(setup, w) && p in setup.Targets(w.src)
  {
    Written(setup.host, setup.schemas[p], w.dsts[p], w.src, setup.Ids(w.src, p))
  }

  predicate Enumerates(order: seq<Project>, projects: set<Project>) {
    && (forall p | p in order :: p in projects)
    && (forall p | p in projects :: p in order)
  }

  /** What the databases hold when the process stops after its first `commits` commits; the source commits last. */
  function Stopped(setup: Setup, w: World, order: seq<Project>, commits: nat): World
    requires Enumerates(order, setup.Targets(w.src))
  {
    if !Admitted(setup, w) || order == [] then w
    else
      World(if commits > |order| then Cleaned(w.src, setup.Leaving(w.src)) else w.src,
            Committed(setup, w, First(order, commits)))
  }

  function First(order: seq<Project>, n: nat): (done: set<Project>)
    ensures n >= |order| ==> done == set p | p in order
    ensures forall p | p in done :: p in order
  {
    var head := if n < |order| then order[..n] else order;
    set p | p in head
  }

  /** The destinations once those in `done` have committed. */
  function Committed(setup: Setup, w: World, done: set<Project>): (m: map<Project, Db>)
    requires Admitted(setup, w) && done <= setup.Targets(w.src)
    ensures m.Keys == w.dsts.Keys
    ensures forall p | p in m :: m[p] == if p in done then After(setup, w, p) else w.dsts[p]
  {
    map p | p in w.dsts :: if p in done then After(setup, w, p) else w.dsts[p]
  }

  /** What an uninterrupted invocation leaves. */
  function Complete(setup: Setup, w: World): World {
    if !Admitted(setup, w) || setup.Targets(w.src) == {} then w
    else
      World(Cleaned(w.src, setup.Leaving(w.src)),
            Committed(setup, w, setup.Targets(w.src)))
  }

  lemma LastCommitCompletes(setup: Setup, w: World, order: seq<Project>, commits: nat)
    requires Enumerates(order, setup.Targets(w.src)) && commits > |order|
    ensures Stopped(setup, w, order, commits) == Complete(setup, w)
  {
    assert First(order, commits) == setup.Targets(w.src);
    if order != [] { assert order[0] in order; }
  }

  lemma MemorySettledTwice(host: Host, schema: Schema, dst: Db, src: Db, ids: set<Value>, id: Value)
    requires Keyed(src) && ids <= src.rows.Keys && CanWrite(host, schema, dst, src, ids) && id in ids
    ensures var d := Written(host, schema, dst, src, ids);
            && d.rows[id] == SettledRows(host, schema, dst, src, ids)[id]
            && SettledMemory(host, schema, d, src.rows[id]) == Some(d.rows[id])
  {
    assert Field(src.rows[id], Id) == id;
  }

  lemma EdgeSettledTwice(host: Host, schema: Schema, dst: Db, src: Db, ids: set<Value>, k: EdgeKey)
    requires Keyed(src) && ids <= src.rows.Keys && CanWrite(host, schema, dst, src, ids) && k in EdgesFor(src, ids)
    ensures var d := Written(host, schema, dst, src, ids);
            SettledEdge(schema, d, src.edges[k]) == Some(d.edges[k])
  {
    assert KeyOf(src.edges[k]) == k;
  }

  lemma OverlayOfItself<K, V>(m: map<K, V>, n: map<K, V>)
    requires forall x | x in n :: x in m && m[x] == n[x]
    ensures m + n == m
  {
  }

  lemma ReindexedTwice(host: Host, t: FtsTable, index: Option<Index>, rows: map<Value, Row>, ids: set<Value>)
    requires Indexable(host, t, index, rows, ids)
    ensures var again := Reindexed(host, t, index, rows, ids);
            Indexable(host, t, again, rows, ids) && Reindexed(host, t, again, rows, ids) == again
  {
    if index.Some? {
      var e := Entries(host, t, rows, ids);
      OverlayOfItself(index.value + e, e);
    }
  }

  lemma RowsTwice(host: Host, schema: Schema, dst: Db, src: Db, ids: set<Value>)
    requires Keyed(src) && ids <= src.rows.Keys && CanWrite(host, schema, dst, src, ids)
    ensures var (d, rows) := (Written(host, schema, dst, src, ids), SettledRows(host, schema, dst, src, ids));
            && RowsSettle(host, schema, d, src, ids) && SettledRows(host, schema, d, src, ids) == rows
            && d.rows + rows == d.rows
  {
    var (d, rows) := (Written(host, schema, dst, src, ids), SettledRows(host, schema, dst, src, ids));
    forall id | id in ids
      ensures d.rows[id] == rows[id] && SettledMemory(host, schema, d, src.rows[id]) == Some(rows[id]) {
      MemorySettledTwice(host, schema, dst, src, ids, id);
    }
    OverlayOfItself(d.rows, rows);
  }

  lemma EdgesTwice(host: Host, schema: Schema, dst: Db, src: Db, ids: set<Value>)
    requires Keyed(src) && ids <= src.rows.Keys && CanWrite(host, schema, dst, src, ids)
    ensures var (d, keys) := (Written(host, schema, dst, src, ids), EdgesFor(src, ids));
            EdgesSettle(schema, d, src, keys) && d.edges + SettledEdges(schema, d, src, keys) == d.edges
  {
    var (d, keys) := (Written(host, schema, dst, src, ids), EdgesFor(src, ids));
    forall k | k in keys ensures k in d.edges && SettledEdge(schema, d, src.edges[k]) == Some(d.edges[k]) {
      EdgeSettledTwice(host, schema, dst, src, ids, k);
    }
    OverlayOfItself(d.edges, SettledEdges(schema, d, src, keys));
  }

  /** Writing the same rows again changes nothing and is never refused. */
  lemma WrittenTwice(host: Host, schema: Schema, dst: Db, src: Db, ids: set<Value>)
    requires Keyed(src) && ids <= src.rows.Keys && CanWrite(host, schema, dst, src, ids)
    ensures var d := Written(host, schema, dst, src, ids);
            CanWrite(host, schema, d, src, ids) && Written(host, schema, d, src, ids) == d
  {
    var rows := SettledRows(host, schema, dst, src, ids);
    RowsTwice(host, schema, dst, src, ids);
    EdgesTwice(host, schema, dst, src, ids);
    ReindexedTwice(host, Terms, dst.terms, rows, ids);
    ReindexedTwice(host, Symbolic, dst.symbolic, rows, ids);
  }

  /** No selected row is ever in neither place: it is in the source, or field for field in its one destination. */
  lemma NoRowIsEverLost(setup: Setup, w: World, order: seq<Project>, commits: nat, p: Project, id: Value)
    requires Enumerates(order, setup.Targets(w.src)) && Keyed(w.src)
    requires p in setup.Targets(w.src) && id in setup.Ids(w.src, p)
    ensures var s := Stopped(setup, w, order, commits);
            || (id in s.src.rows && s.src.rows[id] == w.src.rows[id])
            || (p in s.dsts && id in s.dsts[p].rows && p in setup.schemas
                && var values := Prepared(setup.host, setup.schemas[p].memories, w.src.rows[id]);
                   values.Some? && Carries(s.dsts[p].rows[id], values.value))
  {
    if Stopped(setup, w, order, commits).src != w.src {
      ShrunkIsAfter(setup, w, order, commits, p);
      AfterCarriesRow(setup, w, p, id);
    }
  }

  /** Once the source has changed, every destination is as it will be. */
  lemma ShrunkIsAfter(setup: Setup, w: World, order: seq<Project>, commits: nat, p: Project)
    requires Enumerates(order, setup.Targets(w.src)) && p in setup.Targets(w.src)
    requires Stopped(setup, w, order, commits).src != w.src
    ensures Admitted(setup, w)
    ensures var s := Stopped(setup, w, order, commits); p in s.dsts && s.dsts[p] == After(setup, w, p)
  {
    assert First(order, commits) == setup.Targets(w.src);
  }

  lemma AfterCarriesRow(setup: Setup, w: World, p: Project, id: Value)
    requires Keyed(w.src) && Admitted(setup, w) && p in setup.Targets(w.src) && id in setup.Ids(w.src, p)
    ensures id in After(setup, w, p).rows && p in setup.schemas
    ensures var values := Prepared(setup.host, setup.schemas[p].memories, w.src.rows[id]);
            values.Some? && Carries(After(setup, w, p).rows[id], values.value)
  {
    assert After(setup, w, p).rows[id] == SettledMemory(setup.host, setup.schemas[p], w.dsts[p], w.src.rows[id]).value;
  }

  /** The same for edges, in every destination that received one of the two endpoints. */
  lemma NoEdgeIsEverLost(setup: Setup, w: World, order: seq<Project>, commits: nat, p: Project, k: EdgeKey)
    requires Enumerates(order, setup.Targets(w.src)) && Keyed(w.src)
    requires p in setup.Targets(w.src) && k in EdgesFor(w.src, setup.Ids(w.src, p))
    ensures var s := Stopped(setup, w, order, commits);
            || (k in s.src.edges && s.src.edges[k] == w.src.edges[k])
            || (p in s.dsts && k in s.dsts[p].edges && Carries(s.dsts[p].edges[k], w.src.edges[k]))
  {
    if Stopped(setup, w, order, commits).src != w.src {
      ShrunkIsAfter(setup, w, order, commits, p);
      AfterCarriesEdge(setup, w, p, k);
    }
  }

  lemma AfterCarriesEdge(setup: Setup, w: World, p: Project, k: EdgeKey)
    requires Keyed(w.src) && Admitted(setup, w) && p in setup.Targets(w.src)
    requires k in EdgesFor(w.src, setup.Ids(w.src, p))
    ensures k in After(setup, w, p).edges && Carries(After(setup, w, p).edges[k], w.src.edges[k])
  {
    assert KeyOf(w.src.edges[k]) == k;
    assert After(setup, w, p).edges[k] == SettledEdge(setup.schemas[p], w.dsts[p], w.src.edges[k]).value;
  }

  /** The source changes only once every destination holds its rows, and then loses exactly what was moved. */
  lemma SourceShrinksLast(setup: Setup, w: World, order: seq<Project>, commits: nat)
    requires Enumerates(order, setup.Targets(w.src))
    ensures var s := Stopped(setup, w, order, commits);
            s.src != w.src ==>
              && Admitted(setup, w)
              && (forall p | p in setup.Targets(w.src) :: p in s.dsts && s.dsts[p] == After(setup, w, p))
              && (forall id :: id in s.src.rows <==> id in w.src.rows && forall p | p in setup.Targets(w.src) ::
                  id !in setup.Ids(w.src, p))
              && (forall k :: k in s.src.edges <==> k in w.src.edges && forall p | p in setup.Targets(w.src) ::
                  k !in EdgesFor(w.src, setup.Ids(w.src, p)))
              && s.src.unnamed == w.src.unnamed
  {
    var s := Stopped(setup, w, order, commits);
    if s.src != w.src {
      assert First(order, commits) == setup.Targets(w.src);
      MovedIsSelected(setup, w.src);
      forall k | k in w.src.edges
        ensures Touches(k, setup.Leaving(w.src)) <==> exists p | p in setup.Targets(w.src) ::
                k in EdgesFor(w.src, setup.Ids(w.src, p))
      {
        if Touches(k, setup.Leaving(w.src)) {
          var id := if k.source in setup.Leaving(w.src) then k.source else k.target;
          var p :| p in setup.Targets(w.src) && id in setup.Ids(w.src, p);
          assert k in EdgesFor(w.src, setup.Ids(w.src, p));
        }
      }
    }
  }

  lemma MovedIsSelected(setup: Setup, src: Db)
    ensures forall id :: id in setup.Leaving(src) <==> exists p | p in setup.Targets(src) :: id in setup.Ids(src, p)
  {
    forall id | id in setup.Leaving(src) ensures exists p | p in setup.Targets(src) :: id in setup.Ids(src, p) {
      var p := Destination(setup.host, setup.retain, src.rows[id]).value;
      assert p in setup.Targets(src) && id in setup.Ids(src, p);
    }
  }

  ghost predicate Gains(before: Db, after: Db, ids: set<Value>) {
    && (forall id | id in before.rows :: id in after.rows && after.rows[id] == before.rows[id])
    && (forall k | k in before.edges :: k in after.edges && after.edges[k] == before.edges[k])
    && (forall id | id in after.rows && id !in before.rows :: id in ids)
    && (forall k | k in after.edges && k !in before.edges :: Touches(k, ids))
  }

  lemma SettledRowsAgree(host: Host, schema: Schema, dst: Db, src: Db, ids: set<Value>)
    requires Keyed(src) && ids <= src.rows.Keys && CanWrite(host, schema, dst, src, ids)
    ensures var rows := SettledRows(host, schema, dst, src, ids);
            forall id | id in ids && id in dst.rows :: rows[id] == dst.rows[id]
  {
    forall id | id in ids ensures Field(src.rows[id], Id) == id {}
  }

  lemma SettledEdgesAgree(host: Host, schema: Schema, dst: Db, src: Db, ids: set<Value>)
    requires Keyed(src) && ids <= src.rows.Keys && CanWrite(host, schema, dst, src, ids)
    ensures var edges := SettledEdges(schema, dst, src, EdgesFor(src, ids));
            forall k | k in edges && k in dst.edges :: edges[k] == dst.edges[k]
  {
    forall k | k in EdgesFor(src, ids) ensures KeyOf(src.edges[k]) == k {}
  }

  lemma WriteOnlyGains(host: Host, schema: Schema, dst: Db, src: Db, ids: set<Value>)
    requires Keyed(src) && ids <= src.rows.Keys && CanWrite(host, schema, dst, src, ids)
    ensures Gains(dst, Written(host, schema, dst, src, ids), ids)
  {
    SettledRowsAgree(host, schema, dst, src, ids);
    SettledEdgesAgree(host, schema, dst, src, ids);
  }

  /** A destination keeps everything it had; it gains only selected rows and the edges touching them. */
  lemma DestinationsOnlyGain(setup: Setup, w: World, order: seq<Project>, commits: nat, p: Project)
    requires Enumerates(order, setup.Targets(w.src)) && Keyed(w.src) && p in w.dsts
    ensures p in Stopped(setup, w, order, commits).dsts
    ensures Gains(w.dsts[p], Stopped(setup, w, order, commits).dsts[p], setup.Ids(w.src, p))
  {
    var (before, after, ids) := (w.dsts[p], Stopped(setup, w, order, commits).dsts[p], setup.Ids(w.src, p));
    if after == before {
      SameGains(before, ids);
    } else {
      WriteOnlyGains(setup.host, setup.schemas[p], before, w.src, ids);
      assert after == After(setup, w, p);
    }
  }

  lemma SameGains(db: Db, ids: set<Value>)
    ensures Gains(db, db, ids)
  {
  }

  /** After a complete move there is nothing left to select. */
  lemma NothingLeftToMove(setup: Setup, src: Db)
    ensures setup.Targets(Cleaned(src, setup.Leaving(src))) == {}
  {
  }

  /** To a rerun from `s`, the write of `p` is admitted and gives what the first run gives from `w`. */
  ghost predicate SameTarget(setup: Setup, w: World, s: World, p: Project)
    requires Admitted(setup, w) && p in setup.Targets(w.src)
  {
    && p in s.dsts
    && CanWrite(setup.host, setup.schemas[p], s.dsts[p], w.src, setup.Ids(w.src, p))
    && Written(setup.host, setup.schemas[p], s.dsts[p], w.src, setup.Ids(w.src, p)) == After(setup, w, p)
  }

  lemma RerunWrites(setup: Setup, w: World, order: seq<Project>, commits: nat, p: Project)
    requires Enumerates(order, setup.Targets(w.src)) && Keyed(w.src) && Admitted(setup, w) && p in setup.Targets(w.src)
    ensures SameTarget(setup, w, Stopped(setup, w, order, commits), p)
  {
    var (h, sc, ids) := (setup.host, setup.schemas[p], setup.Ids(w.src, p));
    var s := Stopped(setup, w, order, commits);
    if s.dsts[p] != w.dsts[p] {
      assert s.dsts[p] == Written(h, sc, w.dsts[p], w.src, ids);
      WrittenTwice(h, sc, w.dsts[p], w.src, ids);
    }
  }

  lemma StillAdmitted(setup: Setup, w: World, s: World)
    requires Admitted(setup, w) && s.src == w.src && forall p | p in setup.Targets(w.src) :: SameTarget(setup, w, s, p)
    ensures Admitted(setup, s)
  {
    forall p | p in setup.Targets(s.src)
      ensures p in s.dsts && p in setup.schemas
      ensures CanWrite(setup.host, setup.schemas[p], s.dsts[p], s.src, setup.Ids(s.src, p))
    {
      assert SameTarget(setup, w, s, p);
    }
  }

  lemma SameDestinations(setup: Setup, w: World, s: World)
    requires Admitted(setup, w) && setup.Targets(w.src) != {} && s.src == w.src && s.dsts.Keys == w.dsts.Keys
    requires forall p | p in w.dsts && p !in setup.Targets(w.src) :: s.dsts[p] == w.dsts[p]
    requires forall p | p in setup.Targets(w.src) :: SameTarget(setup, w, s, p)
    ensures Complete(setup, s) == Complete(setup, w)
  {
    StillAdmitted(setup, w, s);
    var T := setup.Targets(w.src);
    var (a, b) := (Committed(setup, s, T), Committed(setup, w, T));
    forall p | p in w.dsts ensures a[p] == b[p] {
      assert p in T ==> SameTarget(setup, w, s, p);
      SameCommitted(setup, w, s, p);
    }
    SameMap(a, b);
  }

  lemma SameMap<K, V>(a: map<K, V>, b: map<K, V>)
    requires a.Keys == b.Keys && forall k | k in b :: a[k] == b[k]
    ensures a == b
  {
  }

  lemma SameCommitted(setup: Setup, w: World, s: World, p: Project)
    requires Admitted(setup, w) && Admitted(setup, s) && s.src == w.src && p in w.dsts && p in s.dsts
    requires if p in setup.Targets(w.src) then SameTarget(setup, w, s, p) else s.dsts[p] == w.dsts[p]
    ensures var T := setup.Targets(w.src); Committed(setup, s, T)[p] == Committed(setup, w, T)[p]
  {
  }

  /** Stopping after any commit and starting over ends exactly where an uninterrupted run ends. */
  lemma RerunConverges(setup: Setup, w: World, order: seq<Project>, commits: nat)
    requires Enumerates(order, setup.Targets(w.src)) && Keyed(w.src)
    ensures Complete(setup, Stopped(setup, w, order, commits)) == Complete(setup, w)
  {
    if Admitted(setup, w) && order != [] {
      assert order[0] in order;
      if commits > |order| {
        LastCommitCompletes(setup, w, order, commits);
        NothingLeftToMove(setup, w.src);
      } else {
        forall p | p in setup.Targets(w.src) ensures SameTarget(setup, w, Stopped(setup, w, order, commits), p) {
          RerunWrites(setup, w, order, commits, p);
        }
        SameDestinations(setup, w, Stopped(setup, w, order, commits));
      }
    }
  }

  lemma StoppedKeepsKeys(setup: Setup, w: World, order: seq<Project>, commits: nat)
    requires Enumerates(order, setup.Targets(w.src)) && Keyed(w.src)
    ensures Keyed(Stopped(setup, w, order, commits).src)
  {
  }

  datatype Attempt = Attempt(order: seq<Project>, commits: nat)

  /** A history of interrupted invocations, each taking the plan order it happened to have. */
  ghost predicate History(setup: Setup, w: World, attempts: seq<Attempt>, end: World)
    decreases |attempts|
  {
    if attempts == [] then end == w
    else
      && Enumerates(attempts[0].order, setup.Targets(w.src))
      && History(setup, Stopped(setup, w, attempts[0].order, attempts[0].commits), attempts[1..], end)
  }

  /** Any number of interrupted invocations, then one complete one, ends like one complete invocation. */
  lemma {:induction false} AnyNumberOfCrashesConverges(setup: Setup, w: World, attempts: seq<Attempt>, end: World)
    requires Keyed(w.src) && History(setup, w, attempts, end)
    ensures Complete(setup, end) == Complete(setup, w)
    decreases |attempts|
  {
    if attempts != [] {
      var a := attempts[0];
      RerunConverges(setup, w, a.order, a.commits);
      StoppedKeepsKeys(setup, w, a.order, a.commits);
      AnyNumberOfCrashesConverges(setup, Stopped(setup, w, a.order, a.commits), attempts[1..], end);
    }
  }

  /** A selected row is in the source as it was, or field for field in its destination. */
  ghost predicate RowSafe(setup: Setup, rec: Row, p: Project, id: Value, s: World) {
    || (id in s.src.rows && s.src.rows[id] == rec)
    || (p in s.dsts && id in s.dsts[p].rows && p in setup.schemas
        && var values := Prepared(setup.host, setup.schemas[p].memories, rec);
           values.Some? && Carries(s.dsts[p].rows[id], values.value))
  }

  lemma RowStaysSafe(setup: Setup, w: World, order: seq<Project>, commits: nat, rec: Row, p: Project, id: Value)
    requires Enumerates(order, setup.Targets(w.src)) && Keyed(w.src)
    requires Destination(setup.host, setup.retain, rec) == Some(p) && RowSafe(setup, rec, p, id, w)
    ensures RowSafe(setup, rec, p, id, Stopped(setup, w, order, commits))
  {
    if id in w.src.rows && w.src.rows[id] == rec {
      assert id in setup.Ids(w.src, p) && p in setup.Targets(w.src);
      NoRowIsEverLost(setup, w, order, commits, p, id);
    } else {
      DestinationsOnlyGain(setup, w, order, commits, p);
    }
  }

  /** No row is ever lost, over any number of interrupted invocations. */
  lemma {:induction false} RowsSurviveCrashes(setup: Setup, w: World, attempts: seq<Attempt>, end: World, rec: Row,
                                              p: Project, id: Value)
    requires Keyed(w.src) && History(setup, w, attempts, end)
    requires Destination(setup.host, setup.retain, rec) == Some(p) && RowSafe(setup, rec, p, id, w)
    ensures RowSafe(setup, rec, p, id, end)
    decreases |attempts|
  {
    if attempts != [] {
      var a := attempts[0];
      RowStaysSafe(setup, w, a.order, a.commits, rec, p, id);
      StoppedKeepsKeys(setup, w, a.order, a.commits);
      RowsSurviveCrashes(setup, Stopped(setup, w, a.order, a.commits), attempts[1..], end, rec, p, id);
    }
  }

  /** An edge of a selected row is in the source beside that row, or field for field in the row's destination. */
  ghost predicate EdgeSafe(setup: Setup, rec: Row, p: Project, k: EdgeKey, s: World) {
    || (p in setup.Targets(s.src) && k in EdgesFor(s.src, setup.Ids(s.src, p)) && s.src.edges[k] == rec)
    || (p in s.dsts && k in s.dsts[p].edges && Carries(s.dsts[p].edges[k], rec))
  }

  lemma EdgeStaysSafe(setup: Setup, w: World, order: seq<Project>, commits: nat, rec: Row, p: Project, k: EdgeKey)
    requires Enumerates(order, setup.Targets(w.src)) && Keyed(w.src) && EdgeSafe(setup, rec, p, k, w)
    ensures EdgeSafe(setup, rec, p, k, Stopped(setup, w, order, commits))
  {
    if p in setup.Targets(w.src) && k in EdgesFor(w.src, setup.Ids(w.src, p)) && w.src.edges[k] == rec {
      NoEdgeIsEverLost(setup, w, order, commits, p, k);
      if Stopped(setup, w, order, commits).src != w.src { CleanedDropsEdge(setup, w.src, p, k); }
    } else {
      DestinationsOnlyGain(setup, w, order, commits, p);
    }
  }

  lemma CleanedDropsEdge(setup: Setup, src: Db, p: Project, k: EdgeKey)
    requires p in setup.Targets(src) && k in EdgesFor(src, setup.Ids(src, p))
    ensures k !in Cleaned(src, setup.Leaving(src)).edges
  {
    MovedIsSelected(setup, src);
  }

  lemma {:induction false} EdgesSurviveCrashes(setup: Setup, w: World, attempts: seq<Attempt>, end: World, rec: Row,
                                               p: Project, k: EdgeKey)
    requires Keyed(w.src) && History(setup, w, attempts, end) && EdgeSafe(setup, rec, p, k, w)
    ensures EdgeSafe(setup, rec, p, k, end)
    decreases |attempts|
  {
    if attempts != [] {
      var a := attempts[0];
      EdgeStaysSafe(setup, w, a.order, a.commits, rec, p, k);
      StoppedKeepsKeys(setup, w, a.order, a.commits);
      EdgesSurviveCrashes(setup, Stopped(setup, w, a.order, a.commits), attempts[1..], end, rec, p, k);
    }
  }

  // ----- The same in terms of the rows and the classifier alone -----

  /** The classifier sends the row to `p`, and `p` is not to be retained. */
  predicate BoundFor(setup: Setup, row: Row, p: Project) {
    var key := (Field(row, Path), Field(row, Body));
    key in setup.host.buckets && setup.host.buckets[key] == p && p !in setup.retain
  }

  lemma BoundIsSelected(setup: Setup, src: Db, id: Value, p: Project)
    requires id in src.rows
    ensures BoundFor(setup, src.rows[id], p) <==> Destination(setup.host, setup.retain, src.rows[id]) == Some(p)
    ensures BoundFor(setup, src.rows[id], p) ==> p in setup.Targets(src) && id in setup.Ids(src, p)
    ensures id in setup.Leaving(src) <==> exists q :: BoundFor(setup, src.rows[id], q)
  {
    if id in setup.Leaving(src) {
      assert BoundFor(setup, src.rows[id], Destination(setup.host, setup.retain, src.rows[id]).value);
    }
  }

  /** The row is in the source as it was, or in its destination with every value kept. */
  ghost predicate RowKept(setup: Setup, rec: Row, p: Project, id: Value, s: World) {
    || (id in s.src.rows && s.src.rows[id] == rec)
    || (p in s.dsts && id in s.dsts[p].rows && p in setup.schemas
        && Keeps(setup.host, setup.schemas[p].memories.columns, rec, s.dsts[p].rows[id]))
  }

  lemma SafeIsKept(setup: Setup, rec: Row, p: Project, id: Value, s: World)
    requires Decodes(setup.host) && RowSafe(setup, rec, p, id, s)
    ensures RowKept(setup, rec, p, id, s)
  {
    if !(id in s.src.rows && s.src.rows[id] == rec) {
      var memories := setup.schemas[p].memories;
      CarriedKeeps(setup.host, memories, rec, Prepared(setup.host, memories, rec).value, s.dsts[p].rows[id]);
    }
  }

  /**
   Over any number of interrupted invocations, every value of a row bound for `p` is in the source or in `p`: each
   column as it was, and where `p` has no persons column every person among the entities.
   */
  lemma EveryNameSurvives(setup: Setup, w: World, attempts: seq<Attempt>, end: World, p: Project, id: Value)
    requires Keyed(w.src) && History(setup, w, attempts, end) && Decodes(setup.host)
    requires id in w.src.rows && BoundFor(setup, w.src.rows[id], p)
    ensures RowKept(setup, w.src.rows[id], p, id, end)
  {
    BoundIsSelected(setup, w.src, id, p);
    RowsSurviveCrashes(setup, w, attempts, end, w.src.rows[id], p, id);
    SafeIsKept(setup, w.src.rows[id], p, id, end);
  }

  /** Every edge at a row bound for `p`, at either end of it, is in the source or field for field in `p`. */
  lemma EveryEdgeSurvives(setup: Setup, w: World, attempts: seq<Attempt>, end: World, p: Project, id: Value,
                          k: EdgeKey)
    requires Keyed(w.src) && History(setup, w, attempts, end)
    requires id in w.src.rows && BoundFor(setup, w.src.rows[id], p)
    requires k in w.src.edges && (k.source == id || k.target == id)
    ensures || (k in end.src.edges && end.src.edges[k] == w.src.edges[k])
            || (p in end.dsts && k in end.dsts[p].edges && SameValues(end.dsts[p].edges[k], w.src.edges[k]))
  {
    BoundIsSelected(setup, w.src, id, p);
    EdgesSurviveCrashes(setup, w, attempts, end, w.src.edges[k], p, k);
  }

  lemma OtherStays(setup: Setup, w: World, order: seq<Project>, commits: nat, id: Value)
    requires Enumerates(order, setup.Targets(w.src)) && id in w.src.rows
    requires forall p :: !BoundFor(setup, w.src.rows[id], p)
    ensures var s := Stopped(setup, w, order, commits); id in s.src.rows && s.src.rows[id] == w.src.rows[id]
  {
    BoundIsSelected(setup, w.src, id, "");
    CleanedMeans(w.src, setup.Leaving(w.src));
  }

  /** A row that the classifier keeps, or whose project is retained, stays in the source unchanged, whatever happens. */
  lemma {:induction false} OthersStay(setup: Setup, w: World, attempts: seq<Attempt>, end: World, id: Value)
    requires History(setup, w, attempts, end) && id in w.src.rows
    requires forall p :: !BoundFor(setup, w.src.rows[id], p)
    ensures id in end.src.rows && end.src.rows[id] == w.src.rows[id]
    decreases |attempts|
  {
    if attempts != [] {
      var a := attempts[0];
      OtherStays(setup, w, a.order, a.commits, id);
      OthersStay(setup, Stopped(setup, w, a.order, a.commits), attempts[1..], end, id);
    }
  }

  /** A complete move leaves every row bound for `p` in `p` and not in the source, nor any edge at it. */
  lemma CompleteMoves(setup: Setup, w: World, p: Project, id: Value)
    requires Keyed(w.src) && Decodes(setup.host) && Admitted(setup, w)
    requires id in w.src.rows && BoundFor(setup, w.src.rows[id], p)
    ensures var c := Complete(setup, w);
            && id !in c.src.rows && RowKept(setup, w.src.rows[id], p, id, c)
            && forall k | k in c.src.edges :: k.source != id && k.target != id
  {
    BoundIsSelected(setup, w.src, id, p);
    CleanedMeans(w.src, setup.Leaving(w.src));
    AfterCarriesRow(setup, w, p, id);
    SafeIsKept(setup, w.src.rows[id], p, id, Complete(setup, w));
  }

  /**
   One row that cannot be moved refuses the whole move with nothing changed: because a database has the wrong shape, its
   destination is missing, or it does not settle there.
   */
  lemma OneRowRefusesEverything(setup: Setup, w: World, order: seq<Project>, commits: nat, p: Project, id: Value)
    requires Enumerates(order, setup.Targets(w.src)) && id in w.src.rows && BoundFor(setup, w.src.rows[id], p)
    requires || !setup.shapesOk || p !in w.dsts || p !in setup.schemas
             || SettledMemory(setup.host, setup.schemas[p], w.dsts[p], w.src.rows[id]).None?
    ensures Stopped(setup, w, order, commits) == w && Complete(setup, w) == w
  {
    BoundIsSelected(setup, w.src, id, p);
  }

  /** A different row under a selected id, in any destination, refuses the whole move with nothing changed. */
  lemma ConflictRefusesEverything(setup: Setup, w: World, order: seq<Project>, commits: nat, p: Project, id: Value,
                                  values: Row)
    requires Enumerates(order, setup.Targets(w.src)) && Keyed(w.src)
    requires p in setup.Targets(w.src) && id in setup.Ids(w.src, p) && p in w.dsts && p in setup.schemas
    requires Prepared(setup.host, setup.schemas[p].memories, w.src.rows[id]) == Some(values)
    requires id in w.dsts[p].rows && !Carries(w.dsts[p].rows[id], values)
    ensures Stopped(setup, w, order, commits) == w && Complete(setup, w) == w
  {
    assert Field(w.src.rows[id], Id) == id;
    assert SettledMemory(setup.host, setup.schemas[p], w.dsts[p], w.src.rows[id]).None?;
  }

  /** The move is refused before any commit exactly when some rehearsed write would fail. */
  lemma RefusedIffSomeWriteFails(setup: Setup, w: World, order: seq<Project>)
    requires Enumerates(order, setup.Targets(w.src)) && Keyed(w.src) && setup.Targets(w.src) != {}
    ensures (forall commits: nat :: Stopped(setup, w, order, commits) == w) <==> !Admitted(setup, w)
  {
    if Admitted(setup, w) { LastCommitChanges(setup, w, order); }
  }

  lemma LastCommitChanges(setup: Setup, w: World, order: seq<Project>)
    requires Enumerates(order, setup.Targets(w.src)) && setup.Targets(w.src) != {} && Admitted(setup, w)
    ensures Stopped(setup, w, order, |order| + 1) != w
  {
    var p :| p in setup.Targets(w.src);
    CleaningChanges(setup, w.src, p);
    assert p in order && Stopped(setup, w, order, |order| + 1).src == Cleaned(w.src, setup.Leaving(w.src));
  }

  lemma CleaningChanges(setup: Setup, src: Db, p: Project)
    requires p in setup.Targets(src)
    ensures Cleaned(src, setup.Leaving(src)) != src
  {
    var id :| id in src.rows && Destination(setup.host, setup.retain, src.rows[id]) == Some(p);
    assert id in setup.Leaving(src) && id !in Cleaned(src, setup.Leaving(src)).rows;
  }

  // ----- The script itself -----

  class Database {
    const schema: Schema
    var committed: Db
    var working: Db

    constructor (schema: Schema, image: Db)
      ensures this.schema == schema && committed == image && working == image
    {
      this.schema, committed, working := schema, image, image;
    }

    /** Inserts one row, or finds an identical one, or refuses and changes nothing. */
    method InsertRecord(host: Host, src: Db, id: Value, ghost dst: Db, ghost done: set<Value>) returns (ok: bool)
      requires Keyed(src) && id in src.rows && id !in done && RowsDone(host, schema, dst, working, src, done)
      modifies this`working
      ensures ok <==> SettledMemory(host, schema, dst, src.rows[id]).Some?
      ensures if ok then RowsDone(host, schema, dst, working, src, done + {id}) else working == old(working)
      ensures ok ==> id in working.rows
      ensures ok && Decodes(host) ==> Keeps(host, schema.memories.columns, src.rows[id], working.rows[id])
    {
      KeepsWhenSettled(host, schema, working, src.rows[id]);
      RowsStep(host, schema, dst, working, src, done, id);
      var settled := SettledMemory(host, schema, working, src.rows[id]);
      if settled.None? { return false; }
      working := working.(rows := working.rows[id := settled.value]);
      return true;
    }

    method InsertEdge(src: Db, k: EdgeKey, ghost dst: Db, ghost done: set<EdgeKey>) returns (ok: bool)
      requires Keyed(src) && k in src.edges && k !in done && EdgesDone(schema, dst, working, src, done)
      modifies this`working
      ensures ok <==> SettledEdge(schema, dst, src.edges[k]).Some?
      ensures if ok then EdgesDone(schema, dst, working, src, done + {k}) else working == old(working)
    {
      EdgesStep(schema, dst, working, src, done, k);
      var settled := SettledEdge(schema, working, src.edges[k]);
      if settled.None? { return false; }
      working := working.(edges := working.edges[k := settled.value]);
      return true;
    }

    method InsertMemories(host: Host, src: Db, ids: set<Value>) returns (ok: bool)
      requires Keyed(src) && ids <= src.rows.Keys
      modifies this`working
      ensures ok <==> RowsSettle(host, schema, old(working), src, ids)
      ensures ok ==> RowsDone(host, schema, old(working), working, src, ids)
    {
      ghost var dst := working;
      var todo := ids;
      NoRowsDone(host, schema, dst, src);
      NoneLeft(ids);
      while todo != {}
        invariant todo <= ids && RowsDone(host, schema, dst, working, src, ids - todo)
        decreases todo
      {
        var id :| id in todo;
        OneLess(ids, todo, id);
        var inserted := InsertRecord(host, src, id, dst, ids - todo);
        if !inserted { return false; }
        todo := todo - {id};
      }
      return true;
    }

    method InsertEdges(src: Db, keys: set<EdgeKey>) returns (ok: bool)
      requires Keyed(src) && keys <= src.edges.Keys
      modifies this`working
      ensures ok <==> EdgesSettle(schema, old(working), src, keys)
      ensures ok ==> EdgesDone(schema, old(working), working, src, keys)
    {
      ghost var dst := working;
      var todo := keys;
      NoEdgesDone(schema, dst, src);
      NoneLeft(keys);
      while todo != {}
        invariant todo <= keys && EdgesDone(schema, dst, working, src, keys - todo)
        decreases todo
      {
        var k :| k in todo;
        OneLess(keys, todo, k);
        var inserted := InsertEdge(src, k, dst, keys - todo);
        if !inserted { return false; }
        todo := todo - {k};
      }
      return true;
    }

    /** Replaces the entries of `ids` in one FTS table by the projections of their rows. */
    static method Reproject(host: Host, t: FtsTable, rows: map<Value, Row>, before: Index, ids: set<Value>)
      returns (ok: bool, entries: Index)
      requires ids <= rows.Keys
      ensures ok <==> Projectable(host, t, rows, ids)
      ensures ok ==> entries == before + Entries(host, t, rows, ids)
    {
      entries := before;
      ghost var done := {};
      var todo := ids;
      assert entries == before + Entries(host, t, rows, done);
      while todo != {}
        invariant done + todo == ids && done !! todo && Projectable(host, t, rows, done)
        invariant entries == before + Entries(host, t, rows, done)
        decreases todo
      {
        var id :| id in todo;
        var projection := Projection(host, t, rows[id]);
        if projection.None? { return false, entries; }
        EntriesGrow(host, t, rows, before, done, id);
        entries := entries - {id};                           // DELETE ... WHERE id = ?
        entries := entries[id := [projection.value]];
        todo, done := todo - {id}, done + {id};
      }
      ok := true;
    }

    method ReprojectAll(host: Host, ids: set<Value>) returns (ok: bool)
      requires ids <= working.rows.Keys
      modifies this`working
      ensures var w := old(working);
              ok <==> Indexable(host, Terms, w.terms, w.rows, ids) && Indexable(host, Symbolic, w.symbolic, w.rows, ids)
      ensures ok ==> var w := old(working);
              working == w.(terms := Reindexed(host, Terms, w.terms, w.rows, ids), symbolic :=
                            Reindexed(host, Symbolic, w.symbolic, w.rows, ids))
    {
      ok := true;
      var entries;
      if working.terms.Some? {
        ok, entries := Reproject(host, Terms, working.rows, working.terms.value, ids);
        if !ok { return; }
        working := working.(terms := Some(entries));
      }
      if working.symbolic.Some? {
        ok, entries := Reproject(host, Symbolic, working.rows, working.symbolic.value, ids);
        if !ok { return; }
        working := working.(symbolic := Some(entries));
      }
    }

    method WriteDestination(host: Host, src: Db, ids: set<Value>) returns (ok: bool)
      requires Keyed(src) && ids <= src.rows.Keys
      modifies this`working
      ensures ok <==> CanWrite(host, schema, old(working), src, ids)
      ensures ok ==> working == Written(host, schema, old(working), src, ids)
    {
      ghost var dst := working;
      ok := InsertMemories(host, src, ids);
      if !ok { return; }
      ghost var rows := SettledRows(host, schema, dst, src, ids);
      var keys := EdgesFor(src, ids);
      EdgesIgnoreRows(schema, dst, working, src, keys);
      ok := InsertEdges(src, keys);
      if !ok { return; }
      ReindexSame(host, Terms, working.terms, working.rows, rows, ids);
      ReindexSame(host, Symbolic, working.symbolic, working.rows, rows, ids);
      ok := ReprojectAll(host, ids);
    }

    /** A write that is always rolled back. */
    method RehearseWrite(host: Host, src: Db, ids: set<Value>) returns (ok: bool)
      requires Keyed(src) && ids <= src.rows.Keys
      modifies this`working
      ensures ok <==> CanWrite(host, schema, old(working), src, ids)
      ensures working == old(working)
    {
      var savepoint := working;
      ok := WriteDestination(host, src, ids);
      working := savepoint;
    }

    method CleanupSource(moved: set<Value>)
      modifies this`working
      ensures working == Cleaned(old(working), moved)
    {
      working := working.(edges := map k | k in working.edges && !Touches(k, moved) :: working.edges[k]);
      working := working.(rows := working.rows - moved);
      working := working.(terms := Pruned(working.terms, working.rows));
      working := working.(symbolic := Pruned(working.symbolic, working.rows));
    }

    method Commit()
      modifies this`committed
      ensures committed == working
    {
      committed := working;
    }

    /** Classifies every row; the three other counters and the selected ids account for every row. */
    method Plan(setup: Setup) returns (moves: map<Project, set<Value>>, keep: nat, nullIds: nat, retained: nat)
      ensures moves == Moves(setup.host, setup.retain, working.rows)
      ensures |setup.Leaving(working)| + keep + nullIds + retained == |working.rows| + |working.unnamed|
      ensures Counts(setup.host, setup.retain, working, |working.unnamed|, keep, nullIds, retained)
    {
      moves, keep, retained := PlanNamed(setup.host, setup.retain, working.rows);
      NoneCounted(setup.host, setup.retain, working, moves, keep, retained);
      nullIds := 0;
      for i := 0 to |working.unnamed|
        invariant |setup.Leaving(working)| + keep + nullIds + retained == |working.rows| + i
        invariant Counts(setup.host, setup.retain, working, i, keep, nullIds, retained)
      {
        CountsGrow(setup.host, setup.retain, working, i, keep, nullIds, retained);
        var bucket := Classify(setup.host, working.unnamed[i]);
        if bucket.None? {
          keep := keep + 1;
        } else if bucket.value in setup.retain {
          retained := retained + 1;
        } else {
          nullIds := nullIds + 1;
        }
      }
    }

    static method PlanNamed(host: Host, retain: set<Project>, rows: map<Value, Row>)
      returns (moves: map<Project, set<Value>>, keep: nat, retained: nat)
      ensures Planned(host, retain, rows, moves, keep, retained)
    {
      moves, keep, retained := map[], 0, 0;
      var todo := rows.Keys;
      SeenEnds(rows);
      EmptyPlan(host, retain, moves, Seen(rows, todo));
      while todo != {}
        invariant todo <= rows.Keys && Planned(host, retain, Seen(rows, todo), moves, keep, retained)
        decreases todo
      {
        var id :| id in todo;
        SeenGrows(rows, todo, id);
        moves, keep, retained := PlanRow(host, retain, id, rows[id], moves, keep, retained, Seen(rows, todo));
        todo := todo - {id};
      }
    }

    /** One row of the plan: kept, retained or added to the rows of its project. */
    static method PlanRow(host: Host, retain: set<Project>, id: Value, row: Row, moves: map<Project, set<Value>>,
                          keep: nat, retained: nat,
                          ghost seen: map<Value, Row>)
      returns (moves': map<Project, set<Value>>, keep': nat, retained': nat)
      requires id !in seen && Planned(host, retain, seen, moves, keep, retained)
      ensures Planned(host, retain, seen[id := row], moves', keep', retained')
    {
      PlanGrows(host, retain, seen, id, row);
      CountGrows(host, retain, seen, id, row);
      IdsGrow(host, retain, seen, id, row, Kept);
      IdsGrow(host, retain, seen, id, row, Retained);
      moves', keep', retained' := moves, keep, retained;
      var bucket := Classify(host, row);
      if bucket.None? {
        keep' := keep + 1;
      } else if bucket.value in retain {
        retained' := retained + 1;
      } else {
        var p := bucket.value;
        moves' := moves[p := (if p in moves then moves[p] else {}) + {id}];
      }
    }
  }

  /** The plan of the rows seen so far, and the counts that account for all of them. */
  ghost predicate Planned(host: Host, retain: set<Project>, seen: map<Value, Row>, moves: map<Project, set<Value>>,
                          keep: nat, retained: nat) {
    && moves == Moves(host, retain, seen) && |Moved(host, retain, seen)| + keep + retained == |seen|
    && keep == |IdsOf(host, retain, seen, Kept)| && retained == |IdsOf(host, retain, seen, Retained)|
  }

  /** What the classifier and the list of retained projects make of a row. */
  datatype Fate = Kept | Retained | Bound

  function FateOf(host: Host, retain: set<Project>, row: Row): Fate {
    var key := (Field(row, Path), Field(row, Body));
    if key !in host.buckets then Kept else if host.buckets[key] in retain then Retained else Bound
  }

  function IdsOf(host: Host, retain: set<Project>, rows: map<Value, Row>, fate: Fate): set<Value> {
    set id | id in rows && FateOf(host, retain, rows[id]) == fate
  }

  /** Positions of such rows among the first `n` rows without an id. */
  function UnnamedOf(host: Host, retain: set<Project>, rows: seq<Row>, n: nat, fate: Fate): set<nat>
    requires n <= |rows|
  {
    set i | 0 <= i < n && FateOf(host, retain, rows[i]) == fate
  }

  /** What each counter of the plan counts. */
  ghost predicate Counts(host: Host, retain: set<Project>, db: Db, n: nat, keep: nat, nullIds: nat, retained: nat)
    requires n <= |db.unnamed|
  {
    && keep == |IdsOf(host, retain, db.rows, Kept)| + |UnnamedOf(host, retain, db.unnamed, n, Kept)|
    && retained == |IdsOf(host, retain, db.rows, Retained)| + |UnnamedOf(host, retain, db.unnamed, n, Retained)|
    && nullIds == |UnnamedOf(host, retain, db.unnamed, n, Bound)|
  }

  lemma UnnamedGrow(host: Host, retain: set<Project>, rows: seq<Row>, n: nat, fate: Fate)
    requires n < |rows|
    ensures |UnnamedOf(host, retain, rows, n + 1, fate)| ==
            |UnnamedOf(host, retain, rows, n, fate)| + if FateOf(host, retain, rows[n]) == fate then 1 else 0
  {
    UnnamedNext(host, retain, rows, n, fate);
    CountNext(UnnamedOf(host, retain, rows, n, fate), n);
  }

  lemma UnnamedNext(host: Host, retain: set<Project>, rows: seq<Row>, n: nat, fate: Fate)
    requires n < |rows|
    ensures UnnamedOf(host, retain, rows, n + 1, fate) ==
            if FateOf(host, retain, rows[n]) == fate then UnnamedOf(host, retain, rows, n, fate) + {n}
            else UnnamedOf(host, retain, rows, n, fate)
    ensures n !in UnnamedOf(host, retain, rows, n, fate)
  {
  }

  lemma CountNext<T>(a: set<T>, x: T)
    requires x !in a
    ensures |a + {x}| == |a| + 1
  {
  }

  lemma IdsNext(host: Host, retain: set<Project>, seen: map<Value, Row>, id: Value, row: Row, fate: Fate)
    requires id !in seen
    ensures IdsOf(host, retain, seen[id := row], fate) ==
            if FateOf(host, retain, row) == fate then IdsOf(host, retain, seen, fate) + {id}
            else IdsOf(host, retain, seen, fate)
    ensures id !in IdsOf(host, retain, seen, fate)
  {
  }

  lemma IdsGrow(host: Host, retain: set<Project>, seen: map<Value, Row>, id: Value, row: Row, fate: Fate)
    requires id !in seen
    ensures |IdsOf(host, retain, seen[id := row], fate)| ==
            |IdsOf(host, retain, seen, fate)| + if FateOf(host, retain, row) == fate then 1 else 0
  {
    IdsNext(host, retain, seen, id, row, fate);
    CountNext(IdsOf(host, retain, seen, fate), id);
  }

  /** One row without an id, counted. */
  lemma CountsGrow(host: Host, retain: set<Project>, db: Db, n: nat, keep: nat, nullIds: nat, retained: nat)
    requires n < |db.unnamed| && Counts(host, retain, db, n, keep, nullIds, retained)
    ensures match FateOf(host, retain, db.unnamed[n])
            case Kept => Counts(host, retain, db, n + 1, keep + 1, nullIds, retained)
            case Retained => Counts(host, retain, db, n + 1, keep, nullIds, retained + 1)
            case Bound => Counts(host, retain, db, n + 1, keep, nullIds + 1, retained)
  {
    UnnamedGrow(host, retain, db.unnamed, n, Kept);
    UnnamedGrow(host, retain, db.unnamed, n, Retained);
    UnnamedGrow(host, retain, db.unnamed, n, Bound);
  }

  /** The plan: for each project that receives anything, the ids it receives. */
  function Moves(host: Host, retain: set<Project>, rows: map<Value, Row>): (m: map<Project, set<Value>>)
    ensures m.Keys == Projects(host, retain, rows) && forall p | p in m :: m[p] == Selected(host, retain, rows, p)
  {
    map p | p in Projects(host, retain, rows) :: Selected(host, retain, rows, p)
  }

  lemma EmptyPlan(host: Host, retain: set<Project>, moves: map<Project, set<Value>>, seen: map<Value, Row>)
    requires moves == map[] && seen == map[]
    ensures Planned(host, retain, seen, moves, 0, 0)
  {
    assert Moves(host, retain, seen) == moves && Moved(host, retain, seen) == {};
    assert IdsOf(host, retain, seen, Kept) == {} && IdsOf(host, retain, seen, Retained) == {};
  }

  /** The rows no longer to be planned. */
  function Seen(rows: map<Value, Row>, todo: set<Value>): map<Value, Row> {
    map id | id in rows && id !in todo :: rows[id]
  }

  lemma SeenEnds(rows: map<Value, Row>)
    ensures Seen(rows, rows.Keys) == map[] && Seen(rows, {}) == rows
  {
  }

  lemma SeenGrows(rows: map<Value, Row>, todo: set<Value>, id: Value)
    requires todo <= rows.Keys && id in todo
    ensures id !in Seen(rows, todo) && Seen(rows, todo - {id}) == Seen(rows, todo)[id := rows[id]]
  {
  }

  lemma NoneCounted(host: Host, retain: set<Project>, db: Db, moves: map<Project, set<Value>>, keep: nat, retained: nat)
    requires Planned(host, retain, db.rows, moves, keep, retained)
    ensures moves == Moves(host, retain, db.rows) && |Moved(host, retain, db.rows)| + keep + retained == |db.rows|
    ensures Counts(host, retain, db, 0, keep, 0, retained)
  {
    NoneUnnamed(host, retain, db.unnamed, Kept);
    NoneUnnamed(host, retain, db.unnamed, Retained);
    NoneUnnamed(host, retain, db.unnamed, Bound);
  }

  lemma NoneUnnamed(host: Host, retain: set<Project>, rows: seq<Row>, fate: Fate)
    ensures UnnamedOf(host, retain, rows, 0, fate) == {}
  {
  }

  lemma ProjectsGrow(host: Host, retain: set<Project>, seen: map<Value, Row>, id: Value, row: Row)
    requires id !in seen
    ensures Projects(host, retain, seen[id := row]) ==
            match Destination(host, retain, row)
            case None => Projects(host, retain, seen)
            case Some(p) => Projects(host, retain, seen) + {p}
  {
    forall p | p in Projects(host, retain, seen) ensures p in Projects(host, retain, seen[id := row]) {
      var i :| i in seen && Destination(host, retain, seen[i]) == Some(p);
      assert seen[id := row][i] == seen[i];
    }
    assert seen[id := row][id] == row;
  }

  lemma SelectedGrows(host: Host, retain: set<Project>, seen: map<Value, Row>, id: Value, row: Row, p: Project)
    requires id !in seen
    ensures Selected(host, retain, seen[id := row], p) ==
            if Destination(host, retain, row) == Some(p) then Selected(host, retain, seen, p) + {id}
            else Selected(host, retain, seen, p)
    ensures p !in Projects(host, retain, seen) ==> Selected(host, retain, seen, p) == {}
  {
  }

  /** What one more row does to the plan. */
  lemma PlanGrows(host: Host, retain: set<Project>, seen: map<Value, Row>, id: Value, row: Row)
    requires id !in seen
    ensures var m := Moves(host, retain, seen);
            Moves(host, retain, seen[id := row]) ==
            match Destination(host, retain, row)
            case None => m
            case Some(p) => m[p := (if p in m then m[p] else {}) + {id}]
  {
    match Destination(host, retain, row)
    case None => PlanKeeps(host, retain, seen, id, row);
    case Some(p) => PlanAdds(host, retain, seen, id, row, p);
  }

  lemma PlanKeeps(host: Host, retain: set<Project>, seen: map<Value, Row>, id: Value, row: Row)
    requires id !in seen && Destination(host, retain, row).None?
    ensures Moves(host, retain, seen[id := row]) == Moves(host, retain, seen)
  {
    var (m, n) := (Moves(host, retain, seen), Moves(host, retain, seen[id := row]));
    ProjectsGrow(host, retain, seen, id, row);
    forall p | p in m ensures n[p] == m[p] { SelectedGrows(host, retain, seen, id, row, p); }
    SameMap(n, m);
  }

  lemma PlanAddsAt(host: Host, retain: set<Project>, seen: map<Value, Row>, id: Value, row: Row, q: Project, p: Project)
    requires id !in seen && Destination(host, retain, row) == Some(q)
    ensures Selected(host, retain, seen[id := row], p) ==
            if p == q then (if q in Projects(host, retain, seen) then Selected(host, retain, seen, q) else {}) + {id}
            else Selected(host, retain, seen, p)
  {
    SelectedGrows(host, retain, seen, id, row, p);
  }

  lemma PlanAdds(host: Host, retain: set<Project>, seen: map<Value, Row>, id: Value, row: Row, q: Project)
    requires id !in seen && Destination(host, retain, row) == Some(q)
    ensures var m := Moves(host, retain, seen);
            Moves(host, retain, seen[id := row]) == m[q := (if q in m then m[q] else {}) + {id}]
  {
    var (m, n) := (Moves(host, retain, seen), Moves(host, retain, seen[id := row]));
    var wanted := m[q := (if q in m then m[q] else {}) + {id}];
    ProjectsGrow(host, retain, seen, id, row);
    forall p | p in wanted ensures n[p] == wanted[p] { PlanAddsAt(host, retain, seen, id, row, q, p); }
    SameMap(n, wanted);
  }

  lemma MovedGrows(host: Host, retain: set<Project>, seen: map<Value, Row>, id: Value, row: Row)
    requires id !in seen
    ensures Moved(host, retain, seen[id := row]) ==
            if Destination(host, retain, row).Some? then Moved(host, retain, seen) + {id} else Moved(host, retain, seen)
    ensures id !in Moved(host, retain, seen)
  {
  }

  lemma CountGrows(host: Host, retain: set<Project>, seen: map<Value, Row>, id: Value, row: Row)
    requires id !in seen
    ensures |Moved(host, retain, seen[id := row])| ==
            |Moved(host, retain, seen)| + (if Destination(host, retain, row).Some? then 1 else 0)
    ensures |seen[id := row]| == |seen| + 1
  {
    MovedGrows(host, retain, seen, id, row);
  }

  lemma KeepsWhenSettled(host: Host, schema: Schema, dst: Db, rec: Row)
    ensures var settled := SettledMemory(host, schema, dst, rec);
            settled.Some? && Decodes(host) ==> Keeps(host, schema.memories.columns, rec, settled.value)
  {
    var settled := SettledMemory(host, schema, dst, rec);
    if settled.Some? && Decodes(host) {
      CarriedKeeps(host, schema.memories, rec, Prepared(host, schema.memories, rec).value, settled.value);
    }
  }

  lemma OneLess<T>(all: set<T>, todo: set<T>, x: T)
    requires todo <= all && x in todo
    ensures x !in all - todo && all - (todo - {x}) == (all - todo) + {x}
  {
  }

  lemma NoneLeft<T>(all: set<T>)
    ensures all - all == {} && all - {} == all
  {
  }

  lemma OverlayUpdate<K, V>(m: map<K, V>, n: map<K, V>, x: K, v: V)
    ensures (m + n)[x := v] == m + n[x := v]
  {
  }

  /** Only the destination's own row under the id matters. */
  lemma SameSettled(host: Host, schema: Schema, dst: Db, dst': Db, src: Db, id: Value)
    requires Keyed(src) && id in src.rows
    requires (id in dst.rows <==> id in dst'.rows) && (id in dst.rows ==> dst.rows[id] == dst'.rows[id])
    ensures SettledMemory(host, schema, dst, src.rows[id]) == SettledMemory(host, schema, dst', src.rows[id])
  {
    assert Field(src.rows[id], Id) == id;
  }

  lemma SameSettledEdge(schema: Schema, dst: Db, dst': Db, src: Db, k: EdgeKey)
    requires Keyed(src) && k in src.edges
    requires (k in dst.edges <==> k in dst'.edges) && (k in dst.edges ==> dst.edges[k] == dst'.edges[k])
    ensures SettledEdge(schema, dst, src.edges[k]) == SettledEdge(schema, dst', src.edges[k])
  {
    assert KeyOf(src.edges[k]) == k;
  }

  lemma EdgesIgnoreRows(schema: Schema, dst: Db, dst': Db, src: Db, keys: set<EdgeKey>)
    requires Keyed(src) && keys <= src.edges.Keys && dst.edges == dst'.edges
    ensures EdgesSettle(schema, dst, src, keys) <==> EdgesSettle(schema, dst', src, keys)
    ensures EdgesSettle(schema, dst, src, keys) ==>
            SettledEdges(schema, dst, src, keys) == SettledEdges(schema, dst', src, keys)
  {
    forall k | k in keys ensures SettledEdge(schema, dst, src.edges[k]) == SettledEdge(schema, dst', src.edges[k]) {
      SameSettledEdge(schema, dst, dst', src, k);
    }
  }

  lemma RowsGrow(host: Host, schema: Schema, dst: Db, src: Db, done: set<Value>, id: Value)
    requires done <= src.rows.Keys && id in src.rows && RowsSettle(host, schema, dst, src, done)
    requires SettledMemory(host, schema, dst, src.rows[id]).Some?
    ensures RowsSettle(host, schema, dst, src, done + {id})
    ensures dst.rows + SettledRows(host, schema, dst, src, done + {id}) ==
            (dst.rows + SettledRows(host, schema, dst, src, done))
              [id := SettledMemory(host, schema, dst, src.rows[id]).value]
  {
    var before, v := SettledRows(host, schema, dst, src, done), SettledMemory(host, schema, dst, src.rows[id]).value;
    assert SettledRows(host, schema, dst, src, done + {id}) == before[id := v];
    OverlayUpdate(dst.rows, before, id, v);
  }

  /** `now` is `dst` with the edges of `done` settled into it. */
  ghost predicate EdgesDone(schema: Schema, dst: Db, now: Db, src: Db, done: set<EdgeKey>) {
    && done <= src.edges.Keys && EdgesSettle(schema, dst, src, done)
    && now == dst.(edges := dst.edges + SettledEdges(schema, dst, src, done))
  }

  lemma NoEdgesDone(schema: Schema, dst: Db, src: Db)
    ensures EdgesDone(schema, dst, dst, src, {})
  {
    assert dst.edges + SettledEdges(schema, dst, src, {}) == dst.edges;
  }

  lemma EdgesStep(schema: Schema, dst: Db, now: Db, src: Db, done: set<EdgeKey>, k: EdgeKey)
    requires Keyed(src) && k in src.edges && k !in done && EdgesDone(schema, dst, now, src, done)
    ensures var settled := SettledEdge(schema, now, src.edges[k]);
            && settled == SettledEdge(schema, dst, src.edges[k])
            && (settled.Some? ==> EdgesDone(schema, dst, now.(edges := now.edges[k := settled.value]), src, done + {k}))
  {
    SameSettledEdge(schema, dst, now, src, k);
    if SettledEdge(schema, dst, src.edges[k]).Some? { EdgesGrow(schema, dst, src, done, k); }
  }

  /** `now` is `dst` with the rows of `done` settled into it. */
  ghost predicate RowsDone(host: Host, schema: Schema, dst: Db, now: Db, src: Db, done: set<Value>) {
    && done <= src.rows.Keys && RowsSettle(host, schema, dst, src, done)
    && now == dst.(rows := dst.rows + SettledRows(host, schema, dst, src, done))
  }

  lemma NoRowsDone(host: Host, schema: Schema, dst: Db, src: Db)
    ensures RowsDone(host, schema, dst, dst, src, {})
  {
    assert dst.rows + SettledRows(host, schema, dst, src, {}) == dst.rows;
  }

  /** One row of the loop: it settles as it would have at the start, and the image grows by it. */
  lemma RowsStep(host: Host, schema: Schema, dst: Db, now: Db, src: Db, done: set<Value>, id: Value)
    requires Keyed(src) && id in src.rows && id !in done && RowsDone(host, schema, dst, now, src, done)
    ensures var settled := SettledMemory(host, schema, now, src.rows[id]);
            && settled == SettledMemory(host, schema, dst, src.rows[id])
            && (settled.Some? ==>
                RowsDone(host, schema, dst, now.(rows := now.rows[id := settled.value]), src, done + {id}))
  {
    SameSettled(host, schema, dst, now, src, id);
    if SettledMemory(host, schema, dst, src.rows[id]).Some? { RowsGrow(host, schema, dst, src, done, id); }
  }

  lemma EdgesGrow(schema: Schema, dst: Db, src: Db, done: set<EdgeKey>, k: EdgeKey)
    requires done <= src.edges.Keys && k in src.edges && EdgesSettle(schema, dst, src, done)
    requires SettledEdge(schema, dst, src.edges[k]).Some?
    ensures EdgesSettle(schema, dst, src, done + {k})
    ensures dst.edges + SettledEdges(schema, dst, src, done + {k}) ==
            (dst.edges + SettledEdges(schema, dst, src, done))[k := SettledEdge(schema, dst, src.edges[k]).value]
  {
    var before, v := SettledEdges(schema, dst, src, done), SettledEdge(schema, dst, src.edges[k]).value;
    assert SettledEdges(schema, dst, src, done + {k}) == before[k := v];
    OverlayUpdate(dst.edges, before, k, v);
  }

  lemma EntriesGrow(host: Host, t: FtsTable, rows: map<Value, Row>, before: map<Value, seq<FtsEntry>>,
                    done: set<Value>, id: Value)
    requires Projectable(host, t, rows, done) && id in rows && Projection(host, t, rows[id]).Some?
    ensures Projectable(host, t, rows, done + {id})
    ensures before + Entries(host, t, rows, done + {id}) ==
            ((before + Entries(host, t, rows, done)) - {id})[id := [Projection(host, t, rows[id]).value]]
  {
    var (entries, v) := (Entries(host, t, rows, done), [Projection(host, t, rows[id]).value]);
    assert Entries(host, t, rows, done + {id}) == entries[id := v];
    OverlayReplace(before, entries, id, v);
  }

  lemma OverlayReplace<K, V>(m: map<K, V>, n: map<K, V>, x: K, v: V)
    ensures ((m + n) - {x})[x := v] == m + n[x := v]
  {
  }

  /** Indexing looks only at the rows of `ids`. */
  lemma ReindexSame(host: Host, t: FtsTable, index: Option<Index>, rows: map<Value, Row>, rows': map<Value, Row>,
                    ids: set<Value>)
    requires forall id | id in ids :: id in rows && id in rows' && rows'[id] == rows[id]
    ensures Indexable(host, t, index, rows, ids) <==> Indexable(host, t, index, rows', ids)
    ensures Indexable(host, t, index, rows, ids) ==>
            Reindexed(host, t, index, rows, ids) == Reindexed(host, t, index, rows', ids)
  {
    if Indexable(host, t, index, rows, ids) && index.Some? {
      assert Entries(host, t, rows, ids) == Entries(host, t, rows', ids);
    }
  }

  // ----- migrate -----

  datatype Verdict = NothingToMove | Refused | Interrupted | Finished

  /** The destinations have committed exactly `m`. */
  ghost predicate Holds(dsts: map<Project, Database>, m: map<Project, Db>)
    reads dsts.Values
  {
    m.Keys == dsts.Keys && forall p | p in dsts :: dsts[p].committed == m[p]
  }

  /** No destination has uncommitted work, and each is the database its schema describes. */
  ghost predicate Idle(setup: Setup, dsts: map<Project, Database>)
    reads dsts.Values
  {
    forall p | p in dsts ::
        p in setup.schemas && setup.schemas[p] == dsts[p].schema && dsts[p].working == dsts[p].committed
  }

  predicate Distinct(src: Database, dsts: map<Project, Database>) {
    && (forall p | p in dsts :: dsts[p] != src)
    && (forall p, q | p in dsts && q in dsts && p != q :: dsts[p] != dsts[q])
  }

  predicate NoRepeats(order: seq<Project>) {
    forall i, j | 0 <= i < j < |order| :: order[i] != order[j]
  }

  method PlanOrder(projects: set<Project>) returns (order: seq<Project>)
    ensures Enumerates(order, projects) && NoRepeats(order)
  {
    order := [];
    var todo := projects;
    while todo != {}
      invariant todo <= projects && NoRepeats(order)
      invariant forall p :: p in order <==> p in projects && p !in todo
      decreases todo
    {
      var p :| p in todo;
      order, todo := order + [p], todo - {p};
    }
  }

  ghost predicate Rehearsed(setup: Setup, w: World, p: Project) {
    p in w.dsts && p in setup.schemas && CanWrite(setup.host, setup.schemas[p], w.dsts[p], w.src, setup.Ids(w.src, p))
  }

  /** Rehearses every destination in order; the connections are left as they were. */
  method Rehearse(setup: Setup, src: Db, dsts: map<Project, Database>, order: seq<Project>, ghost w: World)
    returns (ok: bool)
    requires Keyed(src) && w.src == src && Idle(setup, dsts) && Holds(dsts, w.dsts)
    modifies set p | p in dsts :: dsts[p]`working
    ensures ok <==> forall p | p in order :: Rehearsed(setup, w, p)
    ensures Idle(setup, dsts) && Holds(dsts, w.dsts)
  {
    for i := 0 to |order|
      invariant Idle(setup, dsts) && Holds(dsts, w.dsts)
      invariant forall p | p in order[..i] :: Rehearsed(setup, w, p)
    {
      var p := order[i];
      if p !in dsts {
        assert !Rehearsed(setup, w, p);
        return false;
      }
      var written := dsts[p].RehearseWrite(setup.host, src, setup.Ids(src, p));
      assert written <==> Rehearsed(setup, w, p);
      if !written { return false; }
      assert order[..i + 1] == order[..i] + [p];
    }
    assert order[..|order|] == order;
    return true;
  }

  lemma RehearsedMeansAdmitted(setup: Setup, w: World, order: seq<Project>)
    requires Enumerates(order, setup.Targets(w.src)) && setup.shapesOk
    ensures Admitted(setup, w) <==> forall p | p in order :: Rehearsed(setup, w, p)
  {
    if forall p | p in order :: Rehearsed(setup, w, p) {
      forall p | p in setup.Targets(w.src) ensures Rehearsed(setup, w, p) {}
    }
  }

  /** Writing the plan of `p` turns `before` into `after`. */
  ghost predicate Turns(setup: Setup, src: Db, p: Project, before: Db, after: Db) {
    && p in setup.schemas
    && CanWrite(setup.host, setup.schemas[p], before, src, setup.Ids(src, p))
    && Written(setup.host, setup.schemas[p], before, src, setup.Ids(src, p)) == after
  }

  lemma PrefixGrows(order: seq<Project>, i: nat)
    requires NoRepeats(order) && i < |order|
    ensures order[i] !in order[..i] && forall p :: p in order[..i + 1] <==> p in order[..i] || p == order[i]
  {
    assert order[..i + 1] == order[..i] + [order[i]];
  }

  method CommitOne(setup: Setup, src: Db, p: Project, dst: Database, ghost after: Db)
    requires Keyed(src) && p in setup.schemas && setup.schemas[p] == dst.schema
    modifies dst
    ensures dst.working == dst.committed
    ensures Turns(setup, src, p, old(dst.working), after) ==> dst.committed == after
  {
    var written := dst.WriteDestination(setup.host, src, setup.Ids(src, p));
    dst.Commit();
  }

  /** Writes and commits the destinations of `order`, stopping after `stopAfter` commits. */
  method CommitDestinations(setup: Setup, src: Db, dsts: map<Project, Database>, order: seq<Project>, stopAfter: nat,
                            ghost before: map<Project, Db>, ghost after: map<Project, Db>)
    requires Keyed(src) && NoRepeats(order) && forall p | p in order :: p in dsts
    requires forall p, q | p in dsts && q in dsts && p != q :: dsts[p] != dsts[q]
    requires Idle(setup, dsts) && Holds(dsts, before) && AllTurn(setup, src, before, after)
    modifies set p | p in dsts :: dsts[p]
    ensures Holds(dsts, Partly(before, after, First(order, stopAfter)))
  {
    var n := if stopAfter < |order| then stopAfter else |order|;
    for i := 0 to n
      invariant forall p | p in dsts :: dsts[p].working == dsts[p].committed
      invariant forall p | p in dsts :: dsts[p].committed == if p in order[..i] then after[p] else before[p]
    {
      var p := order[i];
      PrefixGrows(order, i);
      CommitOne(setup, src, p, dsts[p], after[p]);
    }
    assert order[..|order|] == order;
  }

  ghost predicate AllTurn(setup: Setup, src: Db, before: map<Project, Db>, after: map<Project, Db>) {
    after.Keys == before.Keys && forall p | p in before :: Turns(setup, src, p, before[p], after[p])
  }

  /** Some databases replaced by what they become. */
  function Partly(before: map<Project, Db>, after: map<Project, Db>, done: set<Project>): (m: map<Project, Db>)
    requires after.Keys == before.Keys
    ensures m.Keys == before.Keys && forall p | p in before :: m[p] == if p in done then after[p] else before[p]
  {
    map p | p in before :: if p in done then after[p] else before[p]
  }

  /** What admission establishes, in the form the commits need. */
  lemma AdmittedTurns(setup: Setup, w: World) returns (after: map<Project, Db>)
    requires Admitted(setup, w) && w.dsts.Keys <= setup.Targets(w.src)
    ensures w.dsts.Keys == setup.Targets(w.src) && AllTurn(setup, w.src, w.dsts, after)
    ensures after == Committed(setup, w, setup.Targets(w.src))
  {
    after := Committed(setup, w, setup.Targets(w.src));
    forall p | p in w.dsts
      ensures Turns(setup, w.src, p, w.dsts[p], after[p])
    {
      assert after[p] == After(setup, w, p);
    }
  }

  lemma PartlyCommitted(setup: Setup, w: World, done: set<Project>, p: Project)
    requires Admitted(setup, w) && done <= setup.Targets(w.src) == w.dsts.Keys && p in w.dsts
    ensures Partly(w.dsts, Committed(setup, w, setup.Targets(w.src)), done)[p] == Committed(setup, w, done)[p]
  {
  }

  /** The write phase over the destinations. */
  method WriteAll(setup: Setup, src: Db, dsts: map<Project, Database>, order: seq<Project>, stopAfter: nat,
                  ghost w: World)
    requires Keyed(src) && w.src == src && Admitted(setup, w) && Enumerates(order, setup.Targets(src))
    requires NoRepeats(order)
    requires forall p, q | p in dsts && q in dsts && p != q :: dsts[p] != dsts[q]
    requires Idle(setup, dsts) && Holds(dsts, w.dsts) && dsts.Keys <= setup.Targets(src)
    modifies set p | p in dsts :: dsts[p]
    ensures Holds(dsts, Committed(setup, w, First(order, stopAfter)))
  {
    ghost var after := AdmittedTurns(setup, w);
    CommitDestinations(setup, src, dsts, order, stopAfter, w.dsts, after);
    ghost var done := First(order, stopAfter);
    forall p | p in w.dsts
      ensures Partly(w.dsts, after, done)[p] == Committed(setup, w, done)[p]
    {
      PartlyCommitted(setup, w, done, p);
    }
  }

  /**
   One invocation of the script. `stopAfter` is how many commits the process lives to see; `order` is the plan order
   it happened to take; `w` names what the databases hold at the start. Whatever happens, they end in a stopped state
   of the protocol.
   */
  method Migrate(setup: Setup, src: Database, dsts: map<Project, Database>, stopAfter: nat, ghost w: World)
    returns (verdict: Verdict, order: seq<Project>, ghost end: World)
    requires Keyed(w.src) && src.working == src.committed == w.src
    requires Idle(setup, dsts) && Holds(dsts, w.dsts) && dsts.Keys <= setup.Targets(w.src)
    modifies src, set p | p in dsts :: dsts[p]
    ensures Enumerates(order, setup.Targets(w.src))
    ensures src.committed == end.src && Holds(dsts, end.dsts)
    ensures Outcome(setup, w, Distinct(src, dsts), order, stopAfter, verdict, end)
  {
    var moves, keep, nullIds, retained := src.Plan(setup);
    order := PlanOrder(moves.Keys);
    end := w;
    if order == [] { return NothingToMove, order, w; }
    if !Distinct(src, dsts) || !setup.shapesOk { return Refused, order, w; }
    RehearsedMeansAdmitted(setup, w, order);
    var ok := Rehearse(setup, src.working, dsts, order, w);
    if !ok { return Refused, order, w; }
    WriteAll(setup, src.working, dsts, order, stopAfter, w);
    end := Stopped(setup, w, order, stopAfter);
    if stopAfter <= |order| { return Interrupted, order, end; }
    src.CleanupSource(setup.Leaving(src.working));
    src.Commit();
    verdict := Finished;
  }

  /** How the verdict and the databases of one invocation relate. */
  ghost predicate Outcome(setup: Setup, w: World, distinct: bool, order: seq<Project>, stopAfter: nat,
                          verdict: Verdict, end: World)
    requires Enumerates(order, setup.Targets(w.src))
  {
    if order == [] then verdict == NothingToMove && end == w
    else if !distinct || !Admitted(setup, w) then verdict == Refused && end == w
    else
      && verdict == (if stopAfter > |order| then Finished else Interrupted)
      && end == Stopped(setup, w, order, stopAfter)
  }
}
