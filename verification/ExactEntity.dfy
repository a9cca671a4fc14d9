/**
 The bounded exact-entity read: a scan under nested budgets that classifies rows, then orders, caps and
 hydrates the admitted ones (crates/memcore/src/exact_entity.rs).
 */
module ExactEntity {
  import opened Prelude

  // ----- Requests, rows and results -----

  const USIZE_MAX: nat := 0xFFFF_FFFF_FFFF_FFFF
  const I32_MAX: nat := 0x7FFF_FFFF
  const VM_INTERVAL: nat := 256

  type usize = n: nat | n <= USIZE_MAX

  datatype Tolerance = Reject | SkipClassified(maxIds: usize, maxBytes: usize)

  datatype Budget = Budget(
    maxResults: usize, maxVmSteps: usize, maxRequestBytes: usize, maxAdmissionRows: usize,
    maxRowBytes: usize, maxAdmissionBytes: usize, maxHydratedBytes: usize)

  /** Which store a request expects, and which one a handle is. */
  datatype Identity = Identity(name: string, profile: string, physical: Option<string>, partition: Option<string>)

  datatype Request = Request(
    expected: Identity, aliases: seq<string>, pathPrefix: Option<string>, domain: Option<string>, role: Option<string>,
    asOf: Option<string>, rules: seq<(string, string)>, includeArchived: bool, tolerance: Tolerance, budget: Budget)

  datatype Metadata = Unparsable | NotAnObject | Members

  datatype Row = Row(
    id: string, path: string, domain: Option<string>, archived: bool, projectionBytes: nat, hydrationBytes: nat,
    entities: Option<seq<string>>, metadata: Metadata, timestamp: string, validFrom: string, validUntil: Option<string>,
    superseded: bool, decodable: bool)

  datatype Status =
    | Complete | ResultLimit | VmBudget | AdmissionRows | RowBytes | AdmissionBytes | HydratedBytes
    | CallbackUnavailable | NestedRead

  datatype Reason =
    | ZeroOrOverflowingBudget | Cardinality | MissingStoreIdentity | EmptyIdentity | EmptySelector | RelativePrefix
    | ZeroDiagnostics | RulesWithoutRole | RuleBytes | StoreMismatch | BadAsOf
    | MalformedEntities | MalformedMetadata | MetadataNotObject | BadTimestamp | EmptyWindow | NoBoundary | Undecodable

  /** What a database call does: succeed, hit the VM budget, hit the length limit, or fail otherwise. */
  datatype Fault = Fine | Exhausted | TooBig | Broken

  datatype Error =
    | Invalid(reason: Reason)
    | Candidate(reason: Reason, shownId: string, idTruncated: bool, observedRows: nat)
    | Sqlite(fault: Fault)

  datatype Point =
    | Limit | Probe | SetLimit | AsOf | Begin | Prepare | Step(i: nat) | Project(i: nat) | Length(j: nat)
    | Fetch(j: nat)

  /** Everything the read takes from outside: the clock, timestamp parsing, access rules, namespace rules and faults. */
  datatype Env = Env(
    now: string, normalize: string -> Option<string>, normalizeAsOf: string -> Option<string>,
    allowed: string -> bool, excluded: Row -> bool, callbackSilent: bool, fault: Point -> Fault)

  datatype Skips = Skips(
    invalidWindows: nat, missingBoundaries: nat, invalidWindowIds: seq<string>, missingBoundaryIds: seq<string>,
    truncated: bool, filteredRows: nat, eligibleRows: nat, bytesUsed: nat)

  const NO_SKIPS: Skips := Skips(0, 0, [], [], false, 0, 0, 0)

  // ----- Octets and order -----

  function Octets(s: string): nat {
    if s == "" then 0 else CharOctets(s[0]) + Octets(s[1..])
  }

  function SumOctets(ss: seq<string>): nat {
    if ss == [] then 0 else SumOctets(ss[..|ss| - 1]) + Octets(ss[|ss| - 1])
  }

  // ----- Budget charging and request validation -----

  /** The new total, when it neither overflows nor passes the maximum. */
  function Charged(used: nat, amount: nat, maximum: usize): (r: Option<usize>)
    ensures r.Some? <==> used + amount <= maximum
  {
    if used + amount <= USIZE_MAX && used + amount <= maximum then Some(used + amount) else None
  }

  datatype Blanks = Anything | NotEmpty | NotBlank

  predicate Refuses(rule: Blanks, s: string) { (rule.NotEmpty? && s == "") || (rule.NotBlank? && Blank(s)) }

  lemma {:induction false} SumOctetsConcat(a: seq<string>, b: seq<string>)
    ensures SumOctets(a + b) == SumOctets(a) + SumOctets(b)
  {
    if b == [] {
      assert a + b == a;
    } else {
      assert (a + b)[..|a + b| - 1] == a + b[..|b| - 1];
      SumOctetsConcat(a, b[..|b| - 1]);
    }
  }

  /** Charges each value in turn; refuses as soon as one is blank or passes the maximum. */
  method ChargeAll(values: seq<string>, rule: Blanks, used: nat, maximum: usize) returns (r: Option<usize>)
    requires used <= maximum
    ensures r.Some? <==> (forall v | v in values :: !Refuses(rule, v)) && used + SumOctets(values) <= maximum
    ensures r.Some? ==> r.value == used + SumOctets(values)
  {
    var total: usize := used;
    for k := 0 to |values|
      invariant forall v | v in values[..k] :: !Refuses(rule, v)
      invariant total == used + SumOctets(values[..k]) <= maximum
    {
      assert values[..k + 1][..k] == values[..k];
      assert values == values[..k + 1] + values[k + 1..];
      SumOctetsConcat(values[..k + 1], values[k + 1..]);
      if Refuses(rule, values[k]) { return None; }
      var next := Charged(total, Octets(values[k]), maximum);
      if next.None? { return None; }
      total := next.value;
    }
    assert values[..|values|] == values;
    return Some(total);
  }

  function Given(values: seq<Option<string>>): seq<string> {
    if values == [] then []
    else (if values[0].Some? then [values[0].value] else []) + Given(values[1..])
  }

  function Flattened(rules: seq<(string, string)>): seq<string> {
    if rules == [] then [] else [rules[0].0, rules[0].1] + Flattened(rules[1..])
  }

  function Identities(req: Request): seq<string> { Given([req.expected.physical, req.expected.partition]) }

  function Selectors(req: Request): seq<string> { Given([req.pathPrefix, req.domain, req.role, req.asOf]) }

  function RequestOctets(req: Request): nat {
    Octets(req.expected.name) + SumOctets(Identities(req)) + SumOctets(req.aliases) + SumOctets(Selectors(req)) +
    SumOctets(Flattened(req.rules))
  }

  predicate BudgetUsable(b: Budget) {
    && 0 !in {b.maxResults, b.maxRequestBytes, b.maxAdmissionRows, b.maxRowBytes, b.maxAdmissionBytes,
              b.maxHydratedBytes}
    && 0 < b.maxVmSteps <= USIZE_MAX - VM_INTERVAL && b.maxRowBytes <= I32_MAX && b.maxResults < USIZE_MAX
  }

  predicate NotBlankIfGiven(v: Option<string>) { v.Some? ==> !Blank(v.value) }

  /** The octets of the values that are given. */
  function GivenTotal(values: seq<Option<string>>): nat {
    if values == [] then 0 else (if values[0].Some? then Octets(values[0].value) else 0) + GivenTotal(values[1..])
  }

  function RuleOctets(rules: seq<(string, string)>): nat {
    if rules == [] then 0 else Octets(rules[0].0) + Octets(rules[0].1) + RuleOctets(rules[1..])
  }

  /** The octets of everything a request says: its store, aliases, selectors and rules. */
  function TotalOctets(req: Request): nat {
    Octets(req.expected.name) + GivenTotal([req.expected.physical, req.expected.partition]) + SumOctets(req.aliases) +
    GivenTotal([req.pathPrefix, req.domain, req.role, req.asOf]) + RuleOctets(req.rules)
  }

  /** What a request must be, with no regard to the order in which it is looked at. */
  predicate Acceptable(req: Request) {
    && BudgetUsable(req.budget)
    && 0 < |req.aliases| <= req.budget.maxRequestBytes && |req.rules| <= req.budget.maxRequestBytes
    && !Blank(req.expected.name) && req.expected.physical != Some("") && req.expected.partition != Some("")
    && (forall v | v in req.aliases :: !Blank(v)) && NotBlankIfGiven(req.pathPrefix) && NotBlankIfGiven(req.domain)
    && NotBlankIfGiven(req.role) && NotBlankIfGiven(req.asOf)
    && (req.pathPrefix.Some? ==> StartsWith(req.pathPrefix.value, "/"))
    && (req.tolerance.SkipClassified? ==> req.tolerance.maxIds > 0 && req.tolerance.maxBytes > 0)
    && (req.role.None? ==> req.rules == [])
    && TotalOctets(req) <= req.budget.maxRequestBytes
  }

  lemma {:induction false} GivenMeans(values: seq<Option<string>>)
    ensures SumOctets(Given(values)) == GivenTotal(values)
    ensures forall x :: x in Given(values) <==> Some(x) in values
  {
    if values != [] {
      var head := if values[0].Some? then [values[0].value] else [];
      GivenMeans(values[1..]);
      SumOctetsConcat(head, Given(values[1..]));
      if values[0].Some? { SumOctetsAppend([], values[0].value); assert [] + head == head; }
      assert values == [values[0]] + values[1..];
    }
  }

  lemma {:induction false} RulesMean(rules: seq<(string, string)>)
    ensures SumOctets(Flattened(rules)) == RuleOctets(rules)
  {
    if rules != [] {
      var pair := [rules[0].0, rules[0].1];
      RulesMean(rules[1..]);
      SumOctetsConcat(pair, Flattened(rules[1..]));
      SumOctetsAppend([], rules[0].0);
      SumOctetsAppend([rules[0].0], rules[0].1);
      assert [] + [rules[0].0] == [rules[0].0] && [rules[0].0] + [rules[0].1] == pair;
    }
  }

  lemma OctetsMean(req: Request)
    ensures RequestOctets(req) == TotalOctets(req)
  {
    GivenMeans([req.expected.physical, req.expected.partition]);
    GivenMeans([req.pathPrefix, req.domain, req.role, req.asOf]);
    RulesMean(req.rules);
  }

  lemma NoneBlank(values: seq<Option<string>>)
    ensures (forall v | v in Given(values) :: !Blank(v)) <==> forall v | v in values :: NotBlankIfGiven(v)
    ensures "" in Given(values) <==> Some("") in values
  {
    GivenMeans(values);
    if forall v | v in Given(values) :: !Blank(v) {
      forall v | v in values ensures NotBlankIfGiven(v) { assert v.Some? ==> Some(v.value) in values; }
    }
    if forall v | v in values :: NotBlankIfGiven(v) {
      forall v | v in Given(values) ensures !Blank(v) { assert NotBlankIfGiven(Some(v)); }
    }
  }

  lemma FourOf<T>(a: T, b: T, c: T, d: T)
    ensures forall x :: x in [a, b, c, d] <==> x == a || x == b || x == c || x == d
  {
  }

  lemma RequestMeans(req: Request)
    ensures RequestOctets(req) == TotalOctets(req)
    ensures (forall v | v in Selectors(req) :: !Blank(v)) <==>
            NotBlankIfGiven(req.pathPrefix) && NotBlankIfGiven(req.domain) && NotBlankIfGiven(req.role)
                && NotBlankIfGiven(req.asOf)
    ensures "" in Identities(req) <==> req.expected.physical == Some("") || req.expected.partition == Some("")
  {
    OctetsMean(req);
    FourOf(req.pathPrefix, req.domain, req.role, req.asOf);
    NoneBlank([req.pathPrefix, req.domain, req.role, req.asOf]);
    NoneBlank([req.expected.physical, req.expected.partition]);
  }

  /** Accepts exactly the acceptable requests: the staged charges together bound the total size. */
  method Validate(req: Request) returns (refusal: Option<Reason>)
    ensures refusal.None? <==> Acceptable(req)
  {
    RequestMeans(req);
    var b := req.budget;
    if !BudgetUsable(b) { return Some(ZeroOrOverflowingBudget); }
    if req.aliases == [] || |req.aliases| > b.maxRequestBytes || |req.rules| > b.maxRequestBytes {
      return Some(Cardinality);
    }
    var bytes := Charged(0, Octets(req.expected.name), b.maxRequestBytes);
    if Blank(req.expected.name) || bytes.None? { return Some(MissingStoreIdentity); }
    bytes := ChargeAll(Identities(req), NotEmpty, bytes.value, b.maxRequestBytes);
    if bytes.None? { return Some(EmptyIdentity); }
    bytes := ChargeAll(req.aliases, NotBlank, bytes.value, b.maxRequestBytes);
    if bytes.None? { return Some(EmptyIdentity); }
    bytes := ChargeAll(Selectors(req), NotBlank, bytes.value, b.maxRequestBytes);
    if bytes.None? { return Some(EmptySelector); }
    if req.pathPrefix.Some? && !StartsWith(req.pathPrefix.value, "/") { return Some(RelativePrefix); }
    if req.tolerance.SkipClassified? && (req.tolerance.maxIds == 0 || req.tolerance.maxBytes == 0) {
      return Some(ZeroDiagnostics);
    }
    if req.role.None? && req.rules != [] { return Some(RulesWithoutRole); }
    bytes := ChargeAll(Flattened(req.rules), Anything, bytes.value, b.maxRequestBytes);
    if bytes.None? { return Some(RuleBytes); }
    return None;
  }

  // ----- Row classification -----

  /** One read in progress: the request, the instant it asks about, and its surroundings. */
  datatype Query = Query(req: Request, at: string, env: Env)

  /** The rows the statement yields: domain and archive filtering happen in SQL. */
  predicate Matches(req: Request, row: Row) {
    (req.domain.None? || row.domain == req.domain) && (req.includeArchived || !row.archived)
  }

  function Matching(req: Request, table: seq<Row>): (rows: seq<Row>)
    ensures forall row :: row in rows <==> row in table && Matches(req, row)
  {
    if table == [] then []
    else Matching(req, table[..|table| - 1]) + (if Matches(req, table[|table| - 1]) then [table[|table| - 1]] else [])
  }

  function TrimSlashes(s: string): (r: string)
    ensures StartsWith(s, r) && (r == "" || r[|r| - 1] != '/')
  {
    if s != "" && s[|s| - 1] == '/' then TrimSlashes(s[..|s| - 1]) else s
  }

  predicate UnderPrefix(path: string, prefix: string) {
    var p := TrimSlashes(prefix);
    p == "" || path == p || StartsWith(path, p + "/")
  }

  /** Path and role admission, decided before anything else of the row is looked at. */
  predicate Reached(q: Query, row: Row) {
    && (q.req.pathPrefix.Some? ==> UnderPrefix(row.path, q.req.pathPrefix.value))
    && (q.req.role.Some? ==> q.env.allowed(row.path))
  }

  datatype Verdict = Filtered | Eligible | InvalidWindow | MissingBoundary | Refused(reason: Reason)

  predicate Mentions(q: Query, row: Row) {
    row.entities.Some? && exists e | e in row.entities.value :: e in q.req.aliases
  }

  function From(q: Query, row: Row): Option<string> {
    q.env.normalize(if Blank(row.validFrom) then row.timestamp else row.validFrom)
  }

  /** No boundary, an unreadable one, or an instant. */
  function Until(q: Query, row: Row): Option<Option<string>> {
    if row.validUntil.None? then Some(None)
    else match q.env.normalize(row.validUntil.value) case None => None case Some(u) => Some(Some(u))
  }

  predicate Readable(q: Query, row: Row) { row.metadata.Members? && From(q, row).Some? && Until(q, row).Some? }

  /** The end does not lie after the start. */
  predicate EmptyOrInverted(from: string, until: Option<string>) { until.Some? && !Less(from, until.value) }

  predicate Covers(from: string, until: Option<string>, at: string) {
    !Less(at, from) && (until.Some? ==> Less(at, until.value))
  }

  function Scoped(q: Query, row: Row, kept: Verdict): Verdict {
    if !row.decodable then Refused(Undecodable) else if q.env.excluded(row) then Filtered else kept
  }

  /** The verdict on a row whose metadata and timestamps could be read. */
  function WindowVerdict(q: Query, row: Row, from: string, until: Option<string>): Verdict {
    if row.superseded && (q.req.asOf.None? || until == Some(from)) then Filtered
    else if EmptyOrInverted(from, until) then
      if q.req.tolerance.Reject? then Refused(EmptyWindow) else Scoped(q, row, InvalidWindow)
    else if row.superseded && until.None? then
      if q.req.tolerance.Reject? then Refused(NoBoundary) else Scoped(q, row, MissingBoundary)
    else if !Covers(from, until, q.at) then Filtered
    else Scoped(q, row, Eligible)
  }

  function Classify(q: Query, row: Row): Verdict {
    if row.entities.None? then Refused(MalformedEntities)
    else if !Mentions(q, row) then Filtered
    else if row.metadata.Unparsable? then Refused(MalformedMetadata)
    else if row.metadata.NotAnObject? then Refused(MetadataNotObject)
    else if !Readable(q, row) then Refused(BadTimestamp)
    else WindowVerdict(q, row, From(q, row).value, Until(q, row).value)
  }

  function VerdictOf(q: Query, row: Row): Verdict { if Reached(q, row) then Classify(q, row) else Filtered }

  // ----- Where the scan stops -----

  datatype Stop = AtLimit(status: Status) | Failed(error: Error)

  function KeyBytes(row: Row): nat { Octets(row.id) + Octets(row.path) }

  function RowBytesOf(q: Query, row: Row): nat { KeyBytes(row) + if Reached(q, row) then row.projectionBytes else 0 }

  function Used(q: Query, rows: seq<Row>): nat {
    if rows == [] then 0 else Used(q, rows[..|rows| - 1]) + RowBytesOf(q, rows[|rows| - 1])
  }

  function OverBudget(b: Budget, used: nat, bytes: nat): Option<Stop> {
    if bytes > b.maxRowBytes then Some(AtLimit(RowBytes))
    else if used + bytes > b.maxAdmissionBytes then Some(AtLimit(AdmissionBytes))
    else None
  }

  /** Row errors name the row, except those that come from the database. */
  function InContext(reason: Reason, id: string, observedRows: nat): Error {
    if reason.Undecodable? then Sqlite(Broken)
    else if |id| > 128 then Candidate(reason, id[..128], true, observedRows)
    else Candidate(reason, id, false, observedRows)
  }

  function ProjectionStop(q: Query, used: nat, row: Row, i: nat): Option<Stop> {
    if q.env.fault(Project(i)) != Fine then Some(Failed(Sqlite(q.env.fault(Project(i)))))
    else if OverBudget(q.req.budget, used, row.projectionBytes).Some? then
      OverBudget(q.req.budget, used, row.projectionBytes)
    else match Classify(q, row) case Refused(reason) => Some(Failed(InContext(reason, row.id, i + 1))) case _ => None
  }

  function RowStop(q: Query, used: nat, row: Row, i: nat): Option<Stop> {
    if OverBudget(q.req.budget, used, KeyBytes(row)).Some? then OverBudget(q.req.budget, used, KeyBytes(row))
    else if !Reached(q, row) then None
    else ProjectionStop(q, used + KeyBytes(row), row, i)
  }

  function StopAt(q: Query, rows: seq<Row>, i: nat): Option<Stop>
    requires i <= |rows|
  {
    if i == q.req.budget.maxAdmissionRows then Some(AtLimit(AdmissionRows))
    else if q.env.fault(Step(i)) != Fine then Some(Failed(Sqlite(q.env.fault(Step(i)))))
    else if i == |rows| then None
    else RowStop(q, Used(q, rows[..i]), rows[i], i)
  }

  /** How many rows were classified, and what ended the scan early if anything did. */
  datatype Extent = Extent(classified: nat, stop: Option<Stop>)

  function ScanFrom(q: Query, rows: seq<Row>, i: nat): (r: Extent)
    requires i <= |rows|
    ensures i <= r.classified <= |rows| && r.stop == StopAt(q, rows, r.classified)
    ensures r.stop.None? ==> r.classified == |rows|
    decreases |rows| - i
  {
    if StopAt(q, rows, i).Some? || i == |rows| then Extent(i, StopAt(q, rows, i)) else ScanFrom(q, rows, i + 1)
  }

  lemma {:induction false} ScanPasses(q: Query, rows: seq<Row>, i: nat, k: nat)
    requires i <= |rows| && i <= k < ScanFrom(q, rows, i).classified
    ensures StopAt(q, rows, k) == None
    decreases |rows| - i
  {
    if i < k { ScanPasses(q, rows, i + 1, k); }
  }

  /** A row the scan got past has a verdict that is not a refusal. */
  lemma PassedRow(q: Query, rows: seq<Row>, i: nat)
    requires i < |rows| && StopAt(q, rows, i) == None
    ensures !VerdictOf(q, rows[i]).Refused?
  {
  }

  // ----- Skip accounting -----

  function Recorded(s: Skips, missing: bool, id: string, maxIds: nat, maxBytes: nat): Skips {
    var kept := |if missing then s.missingBoundaryIds else s.invalidWindowIds| < maxIds
        && s.bytesUsed + Octets(id) <= maxBytes;
    var counted := if missing then s.(missingBoundaries := s.missingBoundaries + 1)
        else s.(invalidWindows := s.invalidWindows + 1);
    if !kept then counted.(truncated := true)
    else if missing then
      counted.(missingBoundaryIds := s.missingBoundaryIds + [id], bytesUsed := s.bytesUsed + Octets(id))
    else counted.(invalidWindowIds := s.invalidWindowIds + [id], bytesUsed := s.bytesUsed + Octets(id))
  }

  function Tallied(q: Query, s: Skips, row: Row): Skips {
    match VerdictOf(q, row)
    case Eligible => s.(eligibleRows := s.eligibleRows + 1)
    case InvalidWindow =>
        if q.req.tolerance.Reject? then s
        else Recorded(s, false, row.id, q.req.tolerance.maxIds, q.req.tolerance.maxBytes)
    case MissingBoundary =>
        if q.req.tolerance.Reject? then s
        else Recorded(s, true, row.id, q.req.tolerance.maxIds, q.req.tolerance.maxBytes)
    case _ => s
  }

  /** The accounting of the rows classified so far, one row after the other. */
  function Ledger(q: Query, rows: seq<Row>): Skips {
    if rows == [] then NO_SKIPS else Tallied(q, Ledger(q, rows[..|rows| - 1]), rows[|rows| - 1])
  }

  function Count(q: Query, rows: seq<Row>, v: Verdict): nat {
    if rows == [] then 0 else Count(q, rows[..|rows| - 1], v) + if VerdictOf(q, rows[|rows| - 1]) == v then 1 else 0
  }

  /** Ids retained for a verdict are ids of rows with that verdict. */
  ghost predicate Names(q: Query, rows: seq<Row>, ids: seq<string>, v: Verdict) {
    forall id | id in ids :: exists row | row in rows :: row.id == id && VerdictOf(q, row) == v
  }

  ghost predicate LedgerExact(q: Query, rows: seq<Row>, s: Skips) {
    && s.invalidWindows == Count(q, rows, InvalidWindow) && s.missingBoundaries == Count(q, rows, MissingBoundary)
    && s.eligibleRows == Count(q, rows, Eligible) && s.filteredRows == 0
    && Names(q, rows, s.invalidWindowIds, InvalidWindow) && Names(q, rows, s.missingBoundaryIds, MissingBoundary)
  }

  /** Both caps hold, and the flag says exactly that some counted skip has no retained id. */
  ghost predicate LedgerCapped(t: Tolerance, s: Skips) {
    && |s.invalidWindowIds| <= s.invalidWindows && |s.missingBoundaryIds| <= s.missingBoundaries
    && s.bytesUsed == SumOctets(s.invalidWindowIds) + SumOctets(s.missingBoundaryIds)
    && (s.truncated <==> |s.invalidWindowIds| + |s.missingBoundaryIds| < s.invalidWindows + s.missingBoundaries)
    && (t.SkipClassified? ==>
        |s.invalidWindowIds| <= t.maxIds && |s.missingBoundaryIds| <= t.maxIds && s.bytesUsed <= t.maxBytes)
    && (t.Reject? ==> s.invalidWindows == s.missingBoundaries == 0)
  }

  lemma SumOctetsAppend(ids: seq<string>, id: string)
    ensures SumOctets(ids + [id]) == SumOctets(ids) + Octets(id)
  {
    assert (ids + [id])[..|ids|] == ids;
  }

  lemma RecordedCapped(s: Skips, missing: bool, id: string, t: Tolerance)
    requires t.SkipClassified? && LedgerCapped(t, s)
    ensures LedgerCapped(t, Recorded(s, missing, id, t.maxIds, t.maxBytes))
  {
    if missing {
      SumOctetsAppend(s.missingBoundaryIds, id);
    } else {
      SumOctetsAppend(s.invalidWindowIds, id);
    }
  }

  lemma StrictNeverSkips(q: Query, row: Row)
    requires q.req.tolerance.Reject?
    ensures !VerdictOf(q, row).InvalidWindow? && !VerdictOf(q, row).MissingBoundary?
  {
  }

  lemma TalliedCapped(q: Query, s: Skips, row: Row)
    requires LedgerCapped(q.req.tolerance, s)
    ensures LedgerCapped(q.req.tolerance, Tallied(q, s, row))
  {
    match VerdictOf(q, row)
    case InvalidWindow => if q.req.tolerance.SkipClassified? { RecordedCapped(s, false, row.id, q.req.tolerance); }
    case MissingBoundary => if q.req.tolerance.SkipClassified? { RecordedCapped(s, true, row.id, q.req.tolerance); }
    case _ =>
  }

  lemma {:induction false} LedgerCaps(q: Query, rows: seq<Row>)
    ensures LedgerCapped(q.req.tolerance, Ledger(q, rows))
  {
    if rows != [] {
      LedgerCaps(q, rows[..|rows| - 1]);
      TalliedCapped(q, Ledger(q, rows[..|rows| - 1]), rows[|rows| - 1]);
    }
  }

  /** The octets of the ids of all skipped rows. */
  function SkippedOctets(q: Query, rows: seq<Row>): nat {
    if rows == [] then 0
    else
      SkippedOctets(q, rows[..|rows| - 1])
      + if VerdictOf(q, rows[|rows| - 1]) in {InvalidWindow, MissingBoundary} then Octets(rows[|rows| - 1].id) else 0
  }

  lemma {:induction false} LedgerOctets(q: Query, rows: seq<Row>)
    ensures Ledger(q, rows).bytesUsed <= SkippedOctets(q, rows)
  {
    if rows != [] { LedgerOctets(q, rows[..|rows| - 1]); }
  }

  /** A diagnosis is cut short only for want of room: with room for all of them, every skipped row is named. */
  lemma {:induction false} AllSkipsNamed(q: Query, rows: seq<Row>)
    requires q.req.tolerance.SkipClassified? && SkippedOctets(q, rows) <= q.req.tolerance.maxBytes
    requires Count(q, rows, InvalidWindow) <= q.req.tolerance.maxIds
    requires Count(q, rows, MissingBoundary) <= q.req.tolerance.maxIds
    ensures var s := Ledger(q, rows);
            && !s.truncated && |s.invalidWindowIds| == Count(q, rows, InvalidWindow)
            && |s.missingBoundaryIds| == Count(q, rows, MissingBoundary)
  {
    if rows != [] {
      var init := rows[..|rows| - 1];
      AllSkipsNamed(q, init);
      LedgerOctets(q, init);
    }
  }

  lemma NamesGrow(q: Query, rows: seq<Row>, ids: seq<string>, v: Verdict)
    requires rows != [] && Names(q, rows[..|rows| - 1], ids, v)
    ensures Names(q, rows, ids, v)
    ensures VerdictOf(q, rows[|rows| - 1]) == v ==> Names(q, rows, ids + [rows[|rows| - 1].id], v)
  {
    forall id | id in ids ensures exists row | row in rows :: row.id == id && VerdictOf(q, row) == v {
      var row :| row in rows[..|rows| - 1] && row.id == id && VerdictOf(q, row) == v;
      assert row in rows;
    }
    if VerdictOf(q, rows[|rows| - 1]) == v {
      var last := rows[|rows| - 1];
      assert last in rows;
    }
  }

  lemma {:induction false} LedgerCounts(q: Query, rows: seq<Row>)
    ensures LedgerExact(q, rows, Ledger(q, rows))
  {
    if rows != [] {
      var (init, row) := (rows[..|rows| - 1], rows[|rows| - 1]);
      LedgerCounts(q, init);
      var s := Ledger(q, init);
      NamesGrow(q, rows, s.invalidWindowIds, InvalidWindow);
      NamesGrow(q, rows, s.missingBoundaryIds, MissingBoundary);
      if q.req.tolerance.Reject? { StrictNeverSkips(q, row); }
    }
  }

  /** No row is counted twice, so the classes never exceed the rows; nothing else is left on a scan without refusals. */
  lemma {:induction false} ClassesDisjoint(q: Query, rows: seq<Row>)
    ensures Count(q, rows, InvalidWindow) + Count(q, rows, MissingBoundary) + Count(q, rows, Eligible) +
            Count(q, rows, Filtered) <= |rows|
    ensures (forall row | row in rows :: !VerdictOf(q, row).Refused?) ==>
              Count(q, rows, InvalidWindow) + Count(q, rows, MissingBoundary) + Count(q, rows, Eligible) +
                  Count(q, rows, Filtered) == |rows|
  {
    if rows != [] {
      ClassesDisjoint(q, rows[..|rows| - 1]);
      assert rows[|rows| - 1] in rows;
    }
  }

  // ----- Ordering, capping and hydration -----

  datatype Pick = Pick(id: string, rowid: nat)

  function Admitted(q: Query, rows: seq<Row>): (picks: seq<Pick>)
    ensures |picks| == Count(q, rows, Eligible)
    ensures forall p | p in picks ::
            p.rowid < |rows| && p.id == rows[p.rowid].id && VerdictOf(q, rows[p.rowid]) == Eligible
    ensures forall k | 0 <= k < |rows| && VerdictOf(q, rows[k]) == Eligible :: Pick(rows[k].id, k) in picks
  {
    if rows == [] then []
    else
      var n := |rows| - 1;
      Admitted(q, rows[..n]) + if VerdictOf(q, rows[n]) == Eligible then [Pick(rows[n].id, n)] else []
  }

  predicate DistinctIds(rows: seq<Row>) { forall i, j | 0 <= i < j < |rows| :: rows[i].id != rows[j].id }

  predicate Ascending(picks: seq<Pick>) { forall i, j | 0 <= i < j < |picks| :: Less(picks[i].id, picks[j].id) }

  function Inserted(p: Pick, picks: seq<Pick>): (r: seq<Pick>)
    ensures |r| == |picks| + 1 && forall x :: x in r <==> x == p || x in picks
  {
    if picks == [] || Less(p.id, picks[0].id) then [p] + picks else [picks[0]] + Inserted(p, picks[1..])
  }

  function SortedById(picks: seq<Pick>): (r: seq<Pick>)
    ensures |r| == |picks| && forall x :: x in r <==> x in picks
  {
    if picks == [] then [] else Inserted(picks[0], SortedById(picks[1..]))
  }

  function Chosen(q: Query, rows: seq<Row>): seq<Pick> {
    var picks := SortedById(Admitted(q, rows));
    if |picks| > q.req.budget.maxResults then picks[..q.req.budget.maxResults] else picks
  }

  function ChosenStatus(q: Query, rows: seq<Row>): Status {
    if |Admitted(q, rows)| > q.req.budget.maxResults then ResultLimit else Complete
  }

  function HydrationStop(q: Query, used: nat, row: Row, j: nat): Option<Stop> {
    if q.env.fault(Length(j)) != Fine then Some(Failed(Sqlite(q.env.fault(Length(j)))))
    else if row.hydrationBytes > q.req.budget.maxRowBytes then Some(AtLimit(RowBytes))
    else if used + row.hydrationBytes > q.req.budget.maxHydratedBytes then Some(AtLimit(HydratedBytes))
    else if q.env.fault(Fetch(j)) != Fine then Some(Failed(Sqlite(q.env.fault(Fetch(j)))))
    else None
  }

  function HydrateFrom(q: Query, entries: seq<Row>, j: nat, used: nat): Option<Stop>
    requires j <= |entries|
    decreases |entries| - j
  {
    if j == |entries| then None
    else
      var stop := HydrationStop(q, used, entries[j], j);
      if stop.Some? then stop else HydrateFrom(q, entries, j + 1, used + entries[j].hydrationBytes)
  }

  predicate Within(picks: seq<Pick>, rows: seq<Row>) { forall p | p in picks :: p.rowid < |rows| }

  function Fetched(picks: seq<Pick>, rows: seq<Row>): (entries: seq<Row>)
    requires Within(picks, rows)
    ensures |entries| == |picks| && forall k | 0 <= k < |picks| :: entries[k] == rows[picks[k].rowid]
  {
    seq(|picks|, k requires 0 <= k < |picks| => assert picks[k] in picks; rows[picks[k].rowid])
  }

  // ----- The whole read -----

  datatype Answer = Answer(status: Status, entries: seq<Row>)

  function Stopped(stop: Stop): Result<Answer, Error> {
    match stop case AtLimit(status) => Ok(Answer(status, [])) case Failed(error) => Err(error)
  }

  function ChosenAnswer(q: Query, rows: seq<Row>): Result<Answer, Error> {
    var entries := Fetched(Chosen(q, rows), rows);
    var stop := HydrateFrom(q, entries, 0, 0);
    if stop.Some? then Stopped(stop.value) else Ok(Answer(ChosenStatus(q, rows), entries))
  }

  function RowsAnswer(q: Query, rows: seq<Row>): Result<Answer, Error> {
    var extent := ScanFrom(q, rows, 0);
    if q.env.fault(Prepare) != Fine then Err(Sqlite(q.env.fault(Prepare)))
    else if extent.stop.Some? then Stopped(extent.stop.value)
    else ChosenAnswer(q, rows)
  }

  /** The first of the calls before the scan that does not succeed. */
  function SetupFault(env: Env, asOf: Option<string>): Option<Error> {
    if env.fault(SetLimit) != Fine then Some(Sqlite(env.fault(SetLimit)))
    else if asOf.Some? && env.fault(AsOf) != Fine then Some(Sqlite(env.fault(AsOf)))
    else if asOf.Some? && env.normalizeAsOf(asOf.value).None? then Some(Invalid(BadAsOf))
    else if env.fault(Begin) != Fine then Some(Sqlite(env.fault(Begin)))
    else None
  }

  function QueryOf(req: Request, env: Env): Query {
    if req.asOf.Some? && env.normalizeAsOf(req.asOf.value).Some? then
      Query(req, env.normalizeAsOf(req.asOf.value).value, env)
    else Query(req, env.now, env)
  }

  function OperationAnswer(req: Request, env: Env, table: seq<Row>): Result<Answer, Error> {
    if env.fault(Probe) != Fine then Err(Sqlite(env.fault(Probe)))
    else if env.callbackSilent then Ok(Answer(CallbackUnavailable, []))
    else match SetupFault(env, req.asOf)
      case Some(error) => Err(error)
      case None => RowsAnswer(QueryOf(req, env), Matching(req, table))
  }

  /** Exhausting the VM budget or the length limit is an answer without entries; any other failure stays one. */
  function Settled(r: Result<Answer, Error>): Result<Answer, Error> {
    if r == Err(Sqlite(Exhausted)) then Ok(Answer(VmBudget, []))
    else if r == Err(Sqlite(TooBig)) then Ok(Answer(RowBytes, []))
    else r
  }

  function ReadAnswer(id: Identity, active: bool, req: Request, env: Env, table: seq<Row>): Result<Answer, Error> {
    if !Admits(id, req.expected) then Err(Invalid(StoreMismatch))
    else if active then Ok(Answer(NestedRead, []))
    else if env.fault(Limit) != Fine then Err(Sqlite(env.fault(Limit)))
    else Settled(OperationAnswer(req, env, table))
  }

  /** The physical identity is optional in the request; the partition must agree either way. */
  predicate Admits(id: Identity, expected: Identity) {
    && expected.name == id.name && expected.profile == id.profile && expected.partition == id.partition
    && (expected.physical.Some? ==> expected.physical == id.physical)
  }

  // ----- Filter, sort and take -----

  /** What makes a row visible, with no regard to the order of the checks, the budgets or the tolerance. */
  predicate Visible(q: Query, row: Row) {
    && Reached(q, row) && Mentions(q, row) && Readable(q, row) && row.decodable && !q.env.excluded(row)
    && Covers(From(q, row).value, Until(q, row).value, q.at)
    && (row.superseded ==> q.req.asOf.Some? && row.validUntil.Some?)
  }

  lemma CoveredWindowIsProper(from: string, until: Option<string>, at: string)
    requires Covers(from, until, at)
    ensures !EmptyOrInverted(from, until)
  {
    LessTotal(at, from);
    if until.Some? && at != from { LessTransitive(from, at, until.value); }
  }

  /** Under either tolerance a row is admitted exactly when it is visible. */
  lemma EligibleIffVisible(q: Query, row: Row)
    ensures VerdictOf(q, row) == Eligible <==> Visible(q, row)
  {
    if Readable(q, row) {
      var (from, until) := (From(q, row).value, Until(q, row).value);
      if Covers(from, until, q.at) {
        CoveredWindowIsProper(from, until, q.at);
        LessTotal(from, from);
      }
    }
  }

  lemma {:induction false} InsertedAscends(p: Pick, picks: seq<Pick>)
    requires Ascending(picks) && forall x | x in picks :: x.id != p.id
    ensures Ascending(Inserted(p, picks))
  {
    var r := Inserted(p, picks);
    if picks == [] {
    } else if Less(p.id, picks[0].id) {
      forall i, j | 0 <= i < j < |r| ensures Less(r[i].id, r[j].id) {
        if i == 0 && j > 1 { LessTransitive(p.id, picks[0].id, picks[j - 1].id); }
      }
    } else {
      InsertedAscends(p, picks[1..]);
      var rest := Inserted(p, picks[1..]);
      LessTotal(p.id, picks[0].id);
      forall i, j | 0 <= i < j < |r| ensures Less(r[i].id, r[j].id) {
        if i == 0 {
          assert rest[j - 1] in rest;
        } else {
          assert Less(rest[i - 1].id, rest[j - 1].id);
        }
      }
    }
  }

  predicate DistinctPicks(picks: seq<Pick>) { forall i, j | 0 <= i < j < |picks| :: picks[i].id != picks[j].id }

  lemma {:induction false} SortedAscends(picks: seq<Pick>)
    requires DistinctPicks(picks)
    ensures Ascending(SortedById(picks))
  {
    if picks != [] {
      SortedAscends(picks[1..]);
      InsertedAscends(picks[0], SortedById(picks[1..]));
    }
  }

  lemma {:induction false} AdmittedDistinct(q: Query, rows: seq<Row>)
    requires DistinctIds(rows)
    ensures DistinctPicks(Admitted(q, rows))
  {
    if rows != [] {
      var n := |rows| - 1;
      var init := Admitted(q, rows[..n]);
      AdmittedDistinct(q, rows[..n]);
      forall k | 0 <= k < |init| ensures init[k].id != rows[n].id {
        assert init[k] in init;
        assert init[k].id == rows[..n][init[k].rowid].id;
      }
    }
  }

  predicate AscendingRows(rows: seq<Row>) { forall i, j | 0 <= i < j < |rows| :: Less(rows[i].id, rows[j].id) }

  /** `entries` are the `limit` smallest of the visible rows by id, or all of them when there are no more. */
  ghost predicate FirstVisible(q: Query, rows: seq<Row>, entries: seq<Row>, limit: nat) {
    && AscendingRows(entries) && |entries| <= limit
    && (forall e | e in entries :: e in rows && Visible(q, e))
    && (forall row | row in rows && Visible(q, row) && row !in entries ::
          |entries| == limit && forall e | e in entries :: Less(e.id, row.id))
  }

  lemma ChosenIsFirstVisible(q: Query, rows: seq<Row>)
    requires DistinctIds(rows)
    ensures FirstVisible(q, rows, Fetched(Chosen(q, rows), rows), q.req.budget.maxResults)
  {
    var (picks, all) := (Chosen(q, rows), SortedById(Admitted(q, rows)));
    var entries := Fetched(picks, rows);
    AdmittedDistinct(q, rows);
    SortedAscends(Admitted(q, rows));
    forall k | 0 <= k < |picks| ensures entries[k] in rows && Visible(q, entries[k]) && entries[k].id == all[k].id {
      assert picks[k] == all[k] && all[k] in all;
      EligibleIffVisible(q, entries[k]);
    }
    forall row | row in rows && Visible(q, row) && row !in entries
      ensures |entries| == q.req.budget.maxResults && forall e | e in entries :: Less(e.id, row.id)
    {
      LeftOutIsLarger(q, rows, row);
    }
  }

  /** A visible row has a place in the sorted listing. */
  lemma PlaceOf(q: Query, rows: seq<Row>, row: Row) returns (m: nat)
    requires row in rows && Visible(q, row)
    ensures var all := SortedById(Admitted(q, rows));
            m < |all| && all[m].rowid < |rows| && rows[all[m].rowid] == row && all[m].id == row.id
  {
    var all := SortedById(Admitted(q, rows));
    var k :| 0 <= k < |rows| && rows[k] == row;
    EligibleIffVisible(q, row);
    assert Pick(row.id, k) in all;
    m :| m < |all| && all[m] == Pick(row.id, k);
  }

  predicate Faithful(picks: seq<Pick>, rows: seq<Row>) {
    forall j | 0 <= j < |picks| :: picks[j].rowid < |rows| && picks[j].id == rows[picks[j].rowid].id
  }

  lemma SortedFaithful(q: Query, rows: seq<Row>)
    ensures Faithful(SortedById(Admitted(q, rows)), rows)
  {
    var all := SortedById(Admitted(q, rows));
    forall j | 0 <= j < |all|
      ensures all[j].rowid < |rows| && all[j].id == rows[all[j].rowid].id
    {
      assert all[j] in all;
    }
  }

  /** Cutting an ascending listing leaves only larger rows out. */
  lemma PastTheCut(all: seq<Pick>, rows: seq<Row>, n: nat, m: nat)
    requires Faithful(all, rows) && Ascending(all) && n <= |all| && m < |all|
    requires rows[all[m].rowid] !in Fetched(all[..n], rows)
    ensures n <= m && forall e | e in Fetched(all[..n], rows) :: Less(e.id, all[m].id)
  {
    var entries := Fetched(all[..n], rows);
    assert n <= m by { assert forall j | 0 <= j < n :: entries[j] == rows[all[j].rowid] && entries[j] in entries; }
    forall j | 0 <= j < n ensures Less(entries[j].id, all[m].id) { assert all[..n][j] == all[j]; }
  }

  lemma LeftOutIsLarger(q: Query, rows: seq<Row>, row: Row)
    requires DistinctIds(rows) && row in rows && Visible(q, row) && row !in Fetched(Chosen(q, rows), rows)
    ensures var entries := Fetched(Chosen(q, rows), rows);
            |entries| == q.req.budget.maxResults && forall e | e in entries :: Less(e.id, row.id)
  {
    var all := SortedById(Admitted(q, rows));
    var m := PlaceOf(q, rows, row);
    AdmittedDistinct(q, rows);
    SortedAscends(Admitted(q, rows));
    SortedFaithful(q, rows);
    assert Chosen(q, rows) == all[..|Chosen(q, rows)|];
    PastTheCut(all, rows, |Chosen(q, rows)|, m);
  }

  lemma {:induction false} MatchingDistinct(req: Request, table: seq<Row>)
    requires DistinctIds(table)
    ensures DistinctIds(Matching(req, table))
  {
    if table != [] {
      var (init, last) := (table[..|table| - 1], table[|table| - 1]);
      MatchingDistinct(req, init);
      forall row | row in Matching(req, init) ensures row.id != last.id {
        var k :| 0 <= k < |init| && init[k] == row;
        assert table[k] == row;
      }
    }
  }

  /** A complete read returns every visible row in id order, a limited one the first of them, any other none. */
  lemma ReadRefinesFilterSortTake(id: Identity, active: bool, req: Request, env: Env, table: seq<Row>)
    requires DistinctIds(table) && ReadAnswer(id, active, req, env, table).Ok?
    ensures var (a, q) := (ReadAnswer(id, active, req, env, table).value, QueryOf(req, env));
            && (a.status.Complete? || a.status.ResultLimit? ==>
                FirstVisible(q, Matching(req, table), a.entries, req.budget.maxResults))
            && (a.status.Complete? ==> forall row | row in table && Matches(req, row) && Visible(q, row) ::
                row in a.entries)
            && (a.status.ResultLimit? ==> |a.entries| == req.budget.maxResults)
            && (a.status.ResultLimit? ==> exists row | row in table && Matches(req, row) && Visible(q, row) ::
                row !in a.entries)
            && (!a.status.Complete? && !a.status.ResultLimit? ==> a.entries == [])
  {
    var (a, q, rows) := (ReadAnswer(id, active, req, env, table).value, QueryOf(req, env), Matching(req, table));
    MatchingDistinct(req, table);
    if a.status.Complete? || a.status.ResultLimit? {
      AnswerIsChosen(q, rows, a);
      ChosenIsFirstVisible(q, rows);
      if a.status.Complete? {
        forall row | row in rows && Visible(q, row) ensures row in a.entries { VisibleIsChosen(q, rows, row); }
      } else {
        SomeVisibleIsLeftOut(q, rows);
      }
    }
  }

  lemma {:induction false} HydrationStatuses(q: Query, entries: seq<Row>, j: nat, used: nat)
    requires j <= |entries|
    ensures var s := HydrateFrom(q, entries, j, used);
            s.Some? && s.value.AtLimit? ==> s.value.status.RowBytes? || s.value.status.HydratedBytes?
    decreases |entries| - j
  {
    if j < |entries| && HydrationStop(q, used, entries[j], j).None? {
      HydrationStatuses(q, entries, j + 1, used + entries[j].hydrationBytes);
    }
  }

  lemma ScanStatuses(q: Query, rows: seq<Row>, i: nat)
    requires i <= |rows|
    ensures var s := StopAt(q, rows, i);
            s.Some? && s.value.AtLimit? ==> s.value.status in {AdmissionRows, RowBytes, AdmissionBytes}
  {
  }

  lemma AnswerIsChosen(q: Query, rows: seq<Row>, a: Answer)
    requires Settled(RowsAnswer(q, rows)) == Ok(a) && (a.status.Complete? || a.status.ResultLimit?)
    ensures a == Answer(ChosenStatus(q, rows), Fetched(Chosen(q, rows), rows))
  {
    var extent := ScanFrom(q, rows, 0);
    ScanStatuses(q, rows, extent.classified);
    var entries := Fetched(Chosen(q, rows), rows);
    HydrationStatuses(q, entries, 0, 0);
    assert extent.stop.None? && HydrateFrom(q, entries, 0, 0).None?;
  }

  lemma VisibleIsChosen(q: Query, rows: seq<Row>, row: Row)
    requires ChosenStatus(q, rows).Complete? && row in rows && Visible(q, row)
    ensures row in Fetched(Chosen(q, rows), rows)
  {
    var m := PlaceOf(q, rows, row);
    assert Chosen(q, rows) == SortedById(Admitted(q, rows));
    assert Fetched(Chosen(q, rows), rows)[m] == row;
  }

  lemma SomeVisibleIsLeftOut(q: Query, rows: seq<Row>)
    requires DistinctIds(rows) && ChosenStatus(q, rows).ResultLimit?
    ensures exists row | row in rows && Visible(q, row) :: row !in Fetched(Chosen(q, rows), rows)
  {
    var (picks, all) := (Chosen(q, rows), SortedById(Admitted(q, rows)));
    var entries := Fetched(picks, rows);
    var next := all[q.req.budget.maxResults];
    assert next in all;
    var row := rows[next.rowid];
    EligibleIffVisible(q, row);
    AdmittedDistinct(q, rows);
    SortedAscends(Admitted(q, rows));
    forall j | 0 <= j < |entries| ensures entries[j] != row {
      assert picks[j] == all[j] && all[j] in all;
      LessTotal(row.id, row.id);
    }
    assert row in rows && Visible(q, row) && row !in entries;
  }

  // ----- The answer does not depend on the order in which rows are visited -----

  lemma NextSame(q: Query, rows: seq<Row>, a: seq<Row>, b: seq<Row>, limit: nat, k: nat)
    requires FirstVisible(q, rows, a, limit) && FirstVisible(q, rows, b, limit) && DistinctIds(rows)
    requires k < |a| && k < |b| && a[..k] == b[..k]
    ensures a[k] == b[k]
  {
    NotSmaller(q, rows, a, b, limit, k);
    NotSmaller(q, rows, b, a, limit, k);
    LessTotal(a[k].id, b[k].id);
    assert a[k] in a && b[k] in b;
    SameIdSameRow(rows, a[k], b[k]);
  }

  lemma LongerPrefix(a: seq<Row>, b: seq<Row>, k: nat)
    requires k < |a| && k < |b| && a[..k] == b[..k] && a[k] == b[k]
    ensures a[..k + 1] == b[..k + 1]
  {
    assert a[..k + 1] == a[..k] + [a[k]] && b[..k + 1] == b[..k] + [b[k]];
  }

  lemma {:induction false} FirstVisibleUnique(q: Query, rows: seq<Row>, a: seq<Row>, b: seq<Row>, limit: nat, k: nat)
    requires FirstVisible(q, rows, a, limit) && FirstVisible(q, rows, b, limit) && k <= |a| && k <= |b|
    requires DistinctIds(rows)
    ensures a[..k] == b[..k]
  {
    if k > 0 {
      FirstVisibleUnique(q, rows, a, b, limit, k - 1);
      NextSame(q, rows, a, b, limit, k - 1);
      LongerPrefix(a, b, k - 1);
    }
  }

  lemma SameIdSameRow(rows: seq<Row>, x: Row, y: Row)
    requires DistinctIds(rows) && x in rows && y in rows
    ensures x.id == y.id ==> x == y
  {
    var i :| 0 <= i < |rows| && rows[i] == x;
    var j :| 0 <= j < |rows| && rows[j] == y;
  }

  /** With equal beginnings, the next row of one listing is not smaller than the next row of the other. */
  lemma NotSmaller(q: Query, rows: seq<Row>, a: seq<Row>, b: seq<Row>, limit: nat, k: nat)
    requires FirstVisible(q, rows, a, limit) && FirstVisible(q, rows, b, limit) && k < |a| && k < |b|
    requires a[..k] == b[..k]
    ensures !Less(a[k].id, b[k].id)
  {
    assert a[k] in a && b[k] in b;
    LessTotal(a[k].id, b[k].id);
    LessTotal(b[k].id, b[k].id);
    if a[k] in b {
      var m :| 0 <= m < |b| && b[m] == a[k];
      assert m >= k by {
        forall j | 0 <= j < k ensures b[j] != a[k] {
          assert a[..k][j] == b[..k][j];
          LessTotal(a[j].id, a[k].id);
        }
      }
    }
  }

  ghost predicate SameRows(s: seq<Row>, t: seq<Row>) { forall row :: row in s <==> row in t }

  lemma NotInShorter(a: seq<Row>, b: seq<Row>)
    requires |a| < |b| && a == b[..|a|] && AscendingRows(b)
    ensures b[|a|] in b && b[|a|] !in a
  {
    forall m | 0 <= m < |a| ensures a[m] != b[|a|] { LessTotal(b[m].id, b[|a|].id); }
  }

  lemma FirstVisibleLength(q: Query, rows: seq<Row>, a: seq<Row>, b: seq<Row>, limit: nat)
    requires FirstVisible(q, rows, a, limit) && FirstVisible(q, rows, b, limit) && DistinctIds(rows)
    ensures |b| <= |a|
  {
    if |a| < |b| {
      FirstVisibleUnique(q, rows, a, b, limit, |a|);
      assert a[..|a|] == a;
      NotInShorter(a, b);
    }
  }

  lemma FirstVisibleSame(q: Query, rows: seq<Row>, a: seq<Row>, b: seq<Row>, limit: nat)
    requires FirstVisible(q, rows, a, limit) && FirstVisible(q, rows, b, limit) && DistinctIds(rows)
    ensures a == b
  {
    FirstVisibleLength(q, rows, a, b, limit);
    FirstVisibleLength(q, rows, b, a, limit);
    FirstVisibleUnique(q, rows, a, b, limit, |a|);
    assert a[..|a|] == a && b[..|b|] == b;
  }

  /** The same instant, parsing and rules: the queries see the same rows, whatever faults they meet. */
  ghost predicate SameView(q: Query, p: Query) {
    p == q.(env := p.env) && p.env.normalize == q.env.normalize && p.env.allowed == q.env.allowed
        && p.env.excluded == q.env.excluded
  }

  lemma SameVisible(q: Query, p: Query, row: Row)
    requires SameView(q, p)
    ensures Visible(q, row) == Visible(p, row)
  {
    assert From(q, row) == From(p, row) && Until(q, row) == Until(p, row);
  }

  lemma FirstVisibleTransfers(q: Query, p: Query, rows: seq<Row>, others: seq<Row>, entries: seq<Row>, limit: nat)
    requires SameView(q, p) && SameRows(rows, others) && FirstVisible(p, others, entries, limit)
    ensures FirstVisible(q, rows, entries, limit)
  {
    forall e | e in entries ensures e in rows && Visible(q, e) { SameVisible(q, p, e); }
    forall row | row in rows && Visible(q, row) && row !in entries
      ensures |entries| == limit && forall e | e in entries :: Less(e.id, row.id)
    {
      SameVisible(q, p, row);
    }
  }

  /** The order in which the database visits the rows, and the faults it survives, cannot be seen in an answer. */
  lemma ReadIgnoresVisitingOrder(id: Identity, req: Request, env1: Env, env2: Env, t1: seq<Row>, t2: seq<Row>)
    requires DistinctIds(t1) && DistinctIds(t2) && SameRows(t1, t2) && SameView(QueryOf(req, env1), QueryOf(req, env2))
    requires ReadAnswer(id, false, req, env1, t1).Ok? && ReadAnswer(id, false, req, env2, t2).Ok?
    requires ReadAnswer(id, false, req, env1, t1).value.status in {Complete, ResultLimit}
    requires ReadAnswer(id, false, req, env2, t2).value.status in {Complete, ResultLimit}
    ensures ReadAnswer(id, false, req, env1, t1) == ReadAnswer(id, false, req, env2, t2)
  {
    var (a, b) := (ReadAnswer(id, false, req, env1, t1).value, ReadAnswer(id, false, req, env2, t2).value);
    var (q, p, rows) := (QueryOf(req, env1), QueryOf(req, env2), Matching(req, t1));
    ReadRefinesFilterSortTake(id, false, req, env1, t1);
    ReadRefinesFilterSortTake(id, false, req, env2, t2);
    FirstVisibleTransfers(q, p, rows, Matching(req, t2), b.entries, req.budget.maxResults);
    MatchingDistinct(req, t1);
    FirstVisibleSame(q, rows, a.entries, b.entries, req.budget.maxResults);
    forall row ensures Visible(q, row) == Visible(p, row) { SameVisible(q, p, row); }
  }

  // ----- Strict and tolerant reads -----

  /** Windows that classify no instant: inverted, active zero-width, or superseded without an end. */
  predicate BrokenWindow(q: Query, row: Row) {
    Readable(q, row) &&
    var (from, until) := (From(q, row).value, Until(q, row).value);
    (EmptyOrInverted(from, until) && !(row.superseded && until == Some(from))) || (row.superseded && until.None?)
  }

  /** No read, strict or tolerant, ever returns a row with a broken window. */
  lemma NoBrokenWindowReturned(id: Identity, active: bool, req: Request, env: Env, table: seq<Row>)
    requires DistinctIds(table) && ReadAnswer(id, active, req, env, table).Ok?
    ensures forall row | row in ReadAnswer(id, active, req, env, table).value.entries ::
            !BrokenWindow(QueryOf(req, env), row)
  {
    ReadRefinesFilterSortTake(id, active, req, env, table);
    var (a, q) := (ReadAnswer(id, active, req, env, table).value, QueryOf(req, env));
    forall row | row in a.entries ensures !BrokenWindow(q, row) {
      CoveredWindowIsProper(From(q, row).value, Until(q, row).value, q.at);
    }
  }

  /** The two modes differ only on a row that the strict one refuses for its window. */
  lemma SameVerdict(q: Query, t: Query, row: Row)
    requires q.req.tolerance.Reject? && t == q.(req := q.req.(tolerance := t.req.tolerance))
    requires !VerdictOf(q, row).Refused?
    ensures VerdictOf(t, row) == VerdictOf(q, row)
  {
    assert Reached(t, row) == Reached(q, row) && Mentions(t, row) == Mentions(q, row);
    assert From(t, row) == From(q, row) && Until(t, row) == Until(q, row);
  }

  lemma {:induction false} SameUsed(q: Query, t: Query, rows: seq<Row>)
    requires t == q.(req := q.req.(tolerance := t.req.tolerance))
    ensures Used(t, rows) == Used(q, rows)
  {
    if rows != [] {
      SameUsed(q, t, rows[..|rows| - 1]);
      assert Reached(t, rows[|rows| - 1]) == Reached(q, rows[|rows| - 1]);
    }
  }

  predicate RefusesRow(stop: Option<Stop>) {
    stop.Some? && stop.value.Failed? && !(stop.value.error.Sqlite? && stop.value.error.fault != Broken)
  }

  lemma SameStop(q: Query, t: Query, rows: seq<Row>, i: nat)
    requires q.req.tolerance.Reject? && t == q.(req := q.req.(tolerance := t.req.tolerance))
    requires i <= |rows| && !RefusesRow(StopAt(q, rows, i))
    ensures StopAt(t, rows, i) == StopAt(q, rows, i)
  {
    SameUsed(q, t, rows[..i]);
    if i < |rows| {
      var row := rows[i];
      assert Reached(t, row) == Reached(q, row);
      if !VerdictOf(q, row).Refused? { SameVerdict(q, t, row); }
    }
  }

  lemma {:induction false} SameScan(q: Query, t: Query, rows: seq<Row>, i: nat)
    requires q.req.tolerance.Reject? && t == q.(req := q.req.(tolerance := t.req.tolerance))
    requires i <= |rows| && !RefusesRow(ScanFrom(q, rows, i).stop)
    ensures ScanFrom(t, rows, i) == ScanFrom(q, rows, i)
    decreases |rows| - i
  {
    SameStop(q, t, rows, i);
    if StopAt(q, rows, i).None? && i < |rows| { SameScan(q, t, rows, i + 1); }
  }

  ghost predicate AllPassed(q: Query, rows: seq<Row>) { forall row | row in rows :: !VerdictOf(q, row).Refused? }

  lemma {:induction false} SameLedger(q: Query, t: Query, rows: seq<Row>)
    requires q.req.tolerance.Reject? && t == q.(req := q.req.(tolerance := t.req.tolerance)) && AllPassed(q, rows)
    ensures Ledger(t, rows) == Ledger(q, rows) && Admitted(t, rows) == Admitted(q, rows)
  {
    if rows != [] {
      var (init, row) := (rows[..|rows| - 1], rows[|rows| - 1]);
      assert row in rows;
      SameLedger(q, t, init);
      SameVerdict(q, t, row);
      StrictNeverSkips(q, row);
    }
  }

  lemma ScannedPassed(q: Query, rows: seq<Row>)
    ensures AllPassed(q, rows[..ScanFrom(q, rows, 0).classified])
  {
    var n := ScanFrom(q, rows, 0).classified;
    forall row | row in rows[..n] ensures !VerdictOf(q, row).Refused? {
      var k :| 0 <= k < n && rows[..n][k] == row;
      ScanPasses(q, rows, 0, k);
      PassedRow(q, rows, k);
    }
  }

  lemma {:induction false} SameHydration(q: Query, t: Query, entries: seq<Row>, j: nat, used: nat)
    requires t == q.(req := q.req.(tolerance := t.req.tolerance)) && j <= |entries|
    ensures HydrateFrom(t, entries, j, used) == HydrateFrom(q, entries, j, used)
    decreases |entries| - j
  {
    if j < |entries| { SameHydration(q, t, entries, j + 1, used + entries[j].hydrationBytes); }
  }

  lemma SameScanned(q: Query, t: Query, rows: seq<Row>)
    requires q.req.tolerance.Reject? && t == q.(req := q.req.(tolerance := t.req.tolerance))
    requires !RefusesRow(ScanFrom(q, rows, 0).stop)
    ensures ScanFrom(t, rows, 0) == ScanFrom(q, rows, 0)
    ensures var n := ScanFrom(q, rows, 0).classified;
            Ledger(t, rows[..n]) == Ledger(q, rows[..n]) && Admitted(t, rows[..n]) == Admitted(q, rows[..n])
  {
    SameScan(q, t, rows, 0);
    ScannedPassed(q, rows);
    SameLedger(q, t, rows[..ScanFrom(q, rows, 0).classified]);
  }

  lemma SameChosen(q: Query, t: Query, rows: seq<Row>)
    requires t == q.(req := q.req.(tolerance := t.req.tolerance)) && Admitted(t, rows) == Admitted(q, rows)
    ensures Chosen(t, rows) == Chosen(q, rows) && ChosenStatus(t, rows) == ChosenStatus(q, rows)
    ensures var entries := Fetched(Chosen(q, rows), rows);
            HydrateFrom(t, entries, 0, 0) == HydrateFrom(q, entries, 0, 0)
  {
    SameHydration(q, t, Fetched(Chosen(q, rows), rows), 0, 0);
  }

  lemma SameRowsAnswer(q: Query, t: Query, rows: seq<Row>)
    requires q.req.tolerance.Reject? && t == q.(req := q.req.(tolerance := t.req.tolerance))
    requires Settled(RowsAnswer(q, rows)).Ok? && q.env.fault(Prepare) == Fine
    ensures RowsAnswer(t, rows) == RowsAnswer(q, rows) && ScanFrom(t, rows, 0) == ScanFrom(q, rows, 0)
    ensures Ledger(t, rows[..ScanFrom(t, rows, 0).classified]) == Ledger(q, rows[..ScanFrom(q, rows, 0).classified])
  {
    var extent := ScanFrom(q, rows, 0);
    SameScanned(q, t, rows);
    if extent.stop.None? {
      assert rows[..extent.classified] == rows;
      SameChosen(q, t, rows);
    }
  }

  predicate ScanReached(id: Identity, active: bool, req: Request, env: Env) {
    && Admits(id, req.expected) && !active && env.fault(Limit) == env.fault(Probe) == env.fault(Prepare) == Fine
    && !env.callbackSilent && SetupFault(env, req.asOf).None?
  }

  /** How many rows were classified before the read ended; none when the scan was never reached. */
  function Classified(id: Identity, active: bool, req: Request, env: Env, table: seq<Row>): (n: nat)
    ensures n <= |Matching(req, table)|
  {
    if ScanReached(id, active, req, env) then ScanFrom(QueryOf(req, env), Matching(req, table), 0).classified else 0
  }

  function ReadLedger(id: Identity, active: bool, req: Request, env: Env, table: seq<Row>): Skips {
    Ledger(QueryOf(req, env), Matching(req, table)[..Classified(id, active, req, env, table)])
  }

  lemma {:induction false} SameMatching(req: Request, t: Request, table: seq<Row>)
    requires t == req.(tolerance := t.tolerance)
    ensures Matching(t, table) == Matching(req, table)
  {
    if table != [] { SameMatching(req, t, table[..|table| - 1]); }
  }

  /** Before the scan the tolerance is never looked at. */
  lemma SameBeforeScan(id: Identity, active: bool, req: Request, t: Request, env: Env, table: seq<Row>)
    requires t == req.(tolerance := t.tolerance) && !ScanReached(id, active, req, env)
    ensures ReadAnswer(id, active, t, env, table) == ReadAnswer(id, active, req, env, table)
    ensures ReadLedger(id, active, t, env, table) == ReadLedger(id, active, req, env, table) == NO_SKIPS
  {
  }

  lemma RowsStatuses(q: Query, rows: seq<Row>)
    requires RowsAnswer(q, rows).Ok?
    ensures !RowsAnswer(q, rows).value.status.NestedRead? && !RowsAnswer(q, rows).value.status.CallbackUnavailable?
  {
    ScanStatuses(q, rows, ScanFrom(q, rows, 0).classified);
    HydrationStatuses(q, Fetched(Chosen(q, rows), rows), 0, 0);
  }

  /**
   What the two statuses of a read that never started mean, whatever else happens: another read is in progress, or the
   hook is gone.
   */
  lemma UnstartedStatuses(id: Identity, active: bool, req: Request, env: Env, table: seq<Row>)
    requires ReadAnswer(id, active, req, env, table).Ok?
    ensures var a := ReadAnswer(id, active, req, env, table).value;
            && (a.status.NestedRead? <==> active)
            && (a.status.CallbackUnavailable? <==> !active && env.fault(Probe) == Fine && env.callbackSilent)
  {
    if !active && env.fault(Probe) == Fine && !env.callbackSilent && SetupFault(env, req.asOf).None? {
      var (q, rows) := (QueryOf(req, env), Matching(req, table));
      if RowsAnswer(q, rows).Ok? { RowsStatuses(q, rows); }
    }
  }

  lemma GuardedAnswer(id: Identity, active: bool, req: Request, env: Env, table: seq<Row>)
    requires Admits(id, req.expected) && !active && env.fault(Limit) == Fine
    ensures ReadAnswer(id, active, req, env, table) == Settled(OperationAnswer(req, env, table))
  {
  }

  lemma AnswerAfterScan(id: Identity, active: bool, req: Request, env: Env, table: seq<Row>)
    requires ScanReached(id, active, req, env)
    ensures ReadAnswer(id, active, req, env, table) == Settled(RowsAnswer(QueryOf(req, env), Matching(req, table)))
  {
  }

  /** Whenever the strict read answers, the tolerant read of the same store gives the same answer and skips nothing. */
  lemma StrictSuccessIsTolerantSuccess(id: Identity, active: bool, req: Request, maxIds: usize, maxBytes: usize,
                                       env: Env, table: seq<Row>)
    requires req.tolerance.Reject? && ReadAnswer(id, active, req, env, table).Ok?
    ensures var tolerant := req.(tolerance := SkipClassified(maxIds, maxBytes));
            && ReadAnswer(id, active, tolerant, env, table) == ReadAnswer(id, active, req, env, table)
            && ReadLedger(id, active, tolerant, env, table) == ReadLedger(id, active, req, env, table)
            && ReadLedger(id, active, tolerant, env, table).invalidWindows == 0
            && ReadLedger(id, active, tolerant, env, table).missingBoundaries == 0
  {
    var tolerant := req.(tolerance := SkipClassified(maxIds, maxBytes));
    if ScanReached(id, active, req, env) {
      var (q, t, rows) := (QueryOf(req, env), QueryOf(tolerant, env), Matching(req, table));
      SameMatching(req, tolerant, table);
      AnswerAfterScan(id, active, req, env, table);
      AnswerAfterScan(id, active, tolerant, env, table);
      SameRowsAnswer(q, t, rows);
      LedgerCaps(q, rows[..Classified(id, active, req, env, table)]);
    } else {
      SameBeforeScan(id, active, req, tolerant, env, table);
    }
  }

  // ----- What is sought, in terms of the request and the row alone -----

  /** `n` is where `prefix` ends without its trailing slashes. */
  predicate EndsAt(prefix: string, n: nat) {
    n <= |prefix| && (n == 0 || prefix[n - 1] != '/') && forall i | n <= i < |prefix| :: prefix[i] == '/'
  }

  /** Up to its end, `path` begins like `prefix`, and there it ends or goes on with a slash. */
  predicate InsidePrefix(path: string, prefix: string) {
    exists n | 0 <= n <= |prefix| :: EndsAt(prefix, n) &&
      (n == 0 || (n <= |path| && path[..n] == prefix[..n] && (|path| == n || path[n] == '/')))
  }

  lemma {:induction false} TrimmedEndsAt(prefix: string)
    ensures EndsAt(prefix, |TrimSlashes(prefix)|) && TrimSlashes(prefix) == prefix[..|TrimSlashes(prefix)|]
  {
    if prefix != "" && prefix[|prefix| - 1] == '/' { TrimmedEndsAt(prefix[..|prefix| - 1]); }
  }

  lemma EndIsUnique(prefix: string, m: nat, n: nat)
    requires EndsAt(prefix, m) && EndsAt(prefix, n)
    ensures m == n
  {
  }

  lemma UnderPrefixMeans(path: string, prefix: string)
    ensures UnderPrefix(path, prefix) <==> InsidePrefix(path, prefix)
  {
    var p := TrimSlashes(prefix);
    TrimmedEndsAt(prefix);
    if UnderPrefix(path, prefix) {
      assert p != "" && StartsWith(path, p + "/") ==> path[..|p|] == p && path[|p|] == '/' by {
        if p != "" && StartsWith(path, p + "/") {
          assert path[..|p| + 1][..|p|] == path[..|p|] && path[..|p| + 1][|p|] == path[|p|];
        }
      }
      assert EndsAt(prefix, |p|);
    }
    if InsidePrefix(path, prefix) {
      var n :| 0 <= n <= |prefix| && EndsAt(prefix, n) &&
        (n == 0 || (n <= |path| && path[..n] == prefix[..n] && (|path| == n || path[n] == '/')));
      EndIsUnique(prefix, n, |p|);
      assert n < |path| ==> path[..n + 1] == path[..n] + [path[n]];
    }
  }

  /** The row is of the domain asked for, and not archived unless archived rows are asked for too. */
  predicate InScope(req: Request, row: Row) {
    (req.domain.None? || row.domain == req.domain) && (row.archived ==> req.includeArchived)
  }

  /** The path lies inside the prefix asked for and the role asked for may read it. */
  predicate Admissible(req: Request, env: Env, row: Row) {
    && (req.pathPrefix.Some? ==> InsidePrefix(row.path, req.pathPrefix.value))
    && (req.role.Some? ==> env.allowed(row.path))
  }

  function StartOf(env: Env, row: Row): Option<string> {
    env.normalize(if Blank(row.validFrom) then row.timestamp else row.validFrom)
  }

  /** The row names one of the aliases and is well-formed as far as it can be told. */
  predicate Legible(req: Request, env: Env, row: Row) {
    && row.entities.Some? && (exists e | e in row.entities.value :: e in req.aliases) && row.metadata.Members?
    && StartOf(env, row).Some? && (row.validUntil.Some? ==> env.normalize(row.validUntil.value).Some?)
  }

  /** The instant lies at or after the start of the row's window, and before its end if it has one. */
  predicate InForce(env: Env, at: string, row: Row)
    requires StartOf(env, row).Some? && (row.validUntil.Some? ==> env.normalize(row.validUntil.value).Some?)
  {
    && (at == StartOf(env, row).value || Less(StartOf(env, row).value, at))
    && (row.validUntil.Some? ==> Less(at, env.normalize(row.validUntil.value).value))
  }

  /** A row that belongs in the answer: a superseded one only in a read of the past, with an end to its window. */
  predicate Sought(req: Request, env: Env, at: string, row: Row) {
    && InScope(req, row) && Admissible(req, env, row) && Legible(req, env, row) && InForce(env, at, row)
    && row.decodable && !env.excluded(row) && (row.superseded ==> req.asOf.Some? && row.validUntil.Some?)
  }

  lemma ReachedMeans(q: Query, row: Row)
    ensures Reached(q, row) <==> Admissible(q.req, q.env, row)
  {
    if q.req.pathPrefix.Some? { UnderPrefixMeans(row.path, q.req.pathPrefix.value); }
  }

  lemma VisibleIsSought(q: Query, row: Row)
    ensures Matches(q.req, row) && Visible(q, row) <==> Sought(q.req, q.env, q.at, row)
  {
    ReachedMeans(q, row);
    if StartOf(q.env, row).Some? { LessTotal(q.at, StartOf(q.env, row).value); }
  }

  /** The instant a read is about: the one asked for, or now. */
  predicate Instant(req: Request, env: Env, at: string) {
    if req.asOf.Some? then env.normalizeAsOf(req.asOf.value) == Some(at) else at == env.now
  }

  /** `entries` are the `maxResults` smallest of the sought rows by id, or all of them when there are no more. */
  ghost predicate FirstSought(req: Request, env: Env, at: string, table: seq<Row>, entries: seq<Row>) {
    && AscendingRows(entries) && |entries| <= req.budget.maxResults
    && (forall e | e in entries :: e in table && Sought(req, env, at, e))
    && (forall row | row in table && Sought(req, env, at, row) && row !in entries ::
          |entries| == req.budget.maxResults && forall e | e in entries :: Less(e.id, row.id))
  }

  lemma FirstVisibleIsSought(q: Query, table: seq<Row>, entries: seq<Row>)
    ensures FirstVisible(q, Matching(q.req, table), entries, q.req.budget.maxResults) <==>
            FirstSought(q.req, q.env, q.at, table, entries)
  {
    forall row ensures Matches(q.req, row) && Visible(q, row) <==> Sought(q.req, q.env, q.at, row) {
      VisibleIsSought(q, row);
    }
  }

  lemma CompleteNeedsInstant(id: Identity, active: bool, req: Request, env: Env, table: seq<Row>)
    requires ReadAnswer(id, active, req, env, table).Ok?
    requires ReadAnswer(id, active, req, env, table).value.status in {Complete, ResultLimit}
    ensures Instant(req, env, QueryOf(req, env).at) && ScanReached(id, active, req, env)
    ensures QueryOf(req, env).req == req && QueryOf(req, env).env == env
  {
  }

  /**
   A complete read returns exactly the sought rows of the table, in the order of their ids; a limited one the first
   `maxResults` of them, while others are left; any other answer has no rows.
   */
  lemma ReadFindsTheSought(id: Identity, active: bool, req: Request, env: Env, table: seq<Row>) returns (at: string)
    requires DistinctIds(table) && ReadAnswer(id, active, req, env, table).Ok?
    ensures var a := ReadAnswer(id, active, req, env, table).value;
            if a.status in {Complete, ResultLimit} then
              && Instant(req, env, at) && FirstSought(req, env, at, table, a.entries)
              && (a.status.Complete? <==> forall row | row in table && Sought(req, env, at, row) :: row in a.entries)
              && (a.status.ResultLimit? ==> |a.entries| == req.budget.maxResults)
            else a.entries == []
  {
    var (a, q) := (ReadAnswer(id, active, req, env, table).value, QueryOf(req, env));
    at := q.at;
    ReadRefinesFilterSortTake(id, active, req, env, table);
    if a.status in {Complete, ResultLimit} {
      CompleteNeedsInstant(id, active, req, env, table);
      FirstVisibleIsSought(q, table, a.entries);
      CompleteIffAllSought(q, table, a);
    }
  }

  lemma CompleteIffAllSought(q: Query, table: seq<Row>, a: Answer)
    requires a.status.Complete? ==> forall row | row in table && Matches(q.req, row) && Visible(q, row) ::
               row in a.entries
    requires a.status.ResultLimit? ==> exists row | row in table && Matches(q.req, row) && Visible(q, row) ::
               row !in a.entries
    requires a.status in {Complete, ResultLimit}
    ensures a.status.Complete? <==> forall row | row in table && Sought(q.req, q.env, q.at, row) :: row in a.entries
  {
    forall row ensures Matches(q.req, row) && Visible(q, row) <==> Sought(q.req, q.env, q.at, row) {
      VisibleIsSought(q, row);
    }
  }

  // ----- Why a row is skipped or refused -----

  predicate NamesAlias(req: Request, row: Row) {
    row.entities.Some? && exists e | e in row.entities.value :: e in req.aliases
  }

  /** The end of the window does not lie after its start. */
  predicate EndsByStart(env: Env, row: Row)
    requires StartOf(env, row).Some? && (row.validUntil.Some? ==> env.normalize(row.validUntil.value).Some?)
  {
    row.validUntil.Some? && (env.normalize(row.validUntil.value).value == StartOf(env, row).value
                             || Less(env.normalize(row.validUntil.value).value, StartOf(env, row).value))
  }

  /** A superseded row that no read of this kind shows: in a read of the present, or when it never was in force. */
  predicate Hidden(req: Request, env: Env, row: Row)
    requires StartOf(env, row).Some?
  {
    row.superseded
        && (req.asOf.None? || (row.validUntil.Some? && env.normalize(row.validUntil.value) == StartOf(env, row)))
  }

  predicate Inverted(req: Request, env: Env, row: Row) {
    Legible(req, env, row) && EndsByStart(env, row) && !Hidden(req, env, row)
  }

  predicate Endless(req: Request, env: Env, row: Row) {
    Legible(req, env, row) && row.superseded && req.asOf.Some? && row.validUntil.None?
  }

  lemma WindowMeans(q: Query, row: Row)
    requires Readable(q, row)
    ensures EmptyOrInverted(From(q, row).value, Until(q, row).value) <==> EndsByStart(q.env, row)
    ensures Covers(From(q, row).value, Until(q, row).value, q.at) <==> InForce(q.env, q.at, row)
  {
    LessTotal(q.at, From(q, row).value);
    if row.validUntil.Some? { LessTotal(From(q, row).value, Until(q, row).value.value); }
  }

  /** What the two kinds of skipped rows are, and that only a tolerant read skips. */
  lemma SkippedMeans(q: Query, row: Row)
    ensures var (req, env, tolerant) := (q.req, q.env, q.req.tolerance.SkipClassified?);
            var shown := Admissible(req, env, row) && row.decodable && !env.excluded(row);
            && (VerdictOf(q, row) == InvalidWindow <==> tolerant && shown && Inverted(req, env, row))
            && (VerdictOf(q, row) == MissingBoundary <==> tolerant && shown && Endless(req, env, row))
  {
    ReachedMeans(q, row);
    if Readable(q, row) { WindowMeans(q, row); }
  }

  /** Every reason to refuse a row, and exactly when it is given. */
  lemma RefusedMeans(q: Query, row: Row)
    ensures var (req, env, strict) := (q.req, q.env, q.req.tolerance.Reject?);
            var (v, reached) := (VerdictOf(q, row), Admissible(q.req, q.env, row));
            && (v == Refused(MalformedEntities) <==> reached && row.entities.None?)
            && (v == Refused(MalformedMetadata) <==> reached && NamesAlias(req, row) && row.metadata.Unparsable?)
            && (v == Refused(MetadataNotObject) <==> reached && NamesAlias(req, row) && row.metadata.NotAnObject?)
            && (v == Refused(BadTimestamp) <==>
                reached && NamesAlias(req, row) && row.metadata.Members? && !Legible(req, env, row))
            && (v == Refused(EmptyWindow) <==> reached && strict && Inverted(req, env, row))
            && (v == Refused(NoBoundary) <==> reached && strict && Endless(req, env, row))
            && (v == Refused(Undecodable) <==>
                && reached && Legible(req, env, row) && !Hidden(req, env, row) && !row.decodable
                && (if Inverted(req, env, row) || Endless(req, env, row) then !strict else InForce(env, q.at, row)))
            && (v.Refused? ==> v.reason in {MalformedEntities, MalformedMetadata, MetadataNotObject, BadTimestamp,
                                            EmptyWindow, NoBoundary, Undecodable})
  {
    ReachedMeans(q, row);
    if Readable(q, row) { WindowMeans(q, row); }
  }

  // ----- When a read finishes, and which budget a limit names -----

  /** How many rows of the table are in scope. */
  function ScopeCount(req: Request, table: seq<Row>): nat {
    if table == [] then 0
    else ScopeCount(req, table[..|table| - 1]) + if InScope(req, table[|table| - 1]) then 1 else 0
  }

  /** The octets the scan of a row charges: its id and path, and its projection when it is admissible. */
  function Weight(req: Request, env: Env, row: Row): nat {
    Octets(row.id) + Octets(row.path) + if Admissible(req, env, row) then row.projectionBytes else 0
  }

  function ScopeWeight(req: Request, env: Env, table: seq<Row>): nat {
    if table == [] then 0
    else
      ScopeWeight(req, env, table[..|table| - 1])
      + if InScope(req, table[|table| - 1]) then Weight(req, env, table[|table| - 1]) else 0
  }

  predicate RowFits(req: Request, env: Env, row: Row) {
    && Octets(row.id) + Octets(row.path) <= req.budget.maxRowBytes
    && (Admissible(req, env, row) ==> row.projectionBytes <= req.budget.maxRowBytes)
  }

  function HydrationTotal(rows: seq<Row>): nat {
    if rows == [] then 0 else rows[0].hydrationBytes + HydrationTotal(rows[1..])
  }

  /** The rows to be returned are each within the row budget and together within the budget of hydrated octets. */
  predicate HydrationFits(b: Budget, rows: seq<Row>) {
    (forall e | e in rows :: e.hydrationBytes <= b.maxRowBytes) && HydrationTotal(rows) <= b.maxHydratedBytes
  }

  ghost predicate NoFaults(env: Env) { forall p :: env.fault(p) == Fine }

  lemma {:induction false} MatchingSums(q: Query, table: seq<Row>)
    ensures |Matching(q.req, table)| == ScopeCount(q.req, table)
    ensures Used(q, Matching(q.req, table)) == ScopeWeight(q.req, q.env, table)
  {
    if table != [] {
      var (init, last) := (table[..|table| - 1], table[|table| - 1]);
      MatchingSums(q, init);
      ReachedMeans(q, last);
      var rows := Matching(q.req, init);
      assert (rows + [last])[..|rows|] == rows && rows + [] == rows;
    }
  }

  lemma {:induction false} UsedGrows(q: Query, rows: seq<Row>, i: nat)
    requires i <= |rows|
    ensures Used(q, rows[..i]) <= Used(q, rows)
    ensures i < |rows| ==> Used(q, rows[..i + 1]) == Used(q, rows[..i]) + RowBytesOf(q, rows[i])
    decreases |rows|
  {
    if i < |rows| {
      assert rows[..i + 1][..i] == rows[..i];
      if i < |rows| - 1 { assert rows[..|rows| - 1][..i] == rows[..i]; UsedGrows(q, rows[..|rows| - 1], i); }
      assert i == |rows| - 1 ==> rows[..i] == rows[..|rows| - 1];
    } else {
      assert rows[..i] == rows;
    }
  }

  /** The row fits and is not refused. */
  ghost predicate RowPasses(q: Query, row: Row) { RowFits(q.req, q.env, row) && !VerdictOf(q, row).Refused? }

  /** The first `n` rows pass: each fits, none is refused, and together they are within the budget. */
  ghost predicate PassesFirst(q: Query, rows: seq<Row>, n: nat)
    requires n <= |rows|
  {
    && (forall k | 0 <= k < n :: RowPasses(q, rows[k]))
    && Used(q, rows[..n]) <= q.req.budget.maxAdmissionBytes
  }

  /** One row of the scan, without faults. */
  lemma StopMeans(q: Query, rows: seq<Row>, i: nat)
    requires i < |rows| && q.env.fault(Step(i)) == q.env.fault(Project(i)) == Fine
    requires Used(q, rows[..i]) <= q.req.budget.maxAdmissionBytes
    requires i != q.req.budget.maxAdmissionRows
    ensures StopAt(q, rows, i).None? <==>
            && RowPasses(q, rows[i])
            && Used(q, rows[..i + 1]) <= q.req.budget.maxAdmissionBytes
  {
    ReachedMeans(q, rows[i]);
    UsedGrows(q, rows, i);
  }

  /** Without faults the scan gets to the end exactly when there are few enough rows and all of them pass. */
  lemma {:induction false} ScanEndsIff(q: Query, rows: seq<Row>, i: nat)
    requires NoFaults(q.env) && i <= |rows| && i <= q.req.budget.maxAdmissionRows && PassesFirst(q, rows, i)
    ensures ScanFrom(q, rows, i).stop.None? <==>
            |rows| < q.req.budget.maxAdmissionRows && PassesFirst(q, rows, |rows|)
    decreases |rows| - i
  {
    ScanStep(q, rows, i);
    if i < |rows| && i < q.req.budget.maxAdmissionRows {
      OneMorePasses(q, rows, i);
      if StopAt(q, rows, i).None? {
        ScanEndsIff(q, rows, i + 1);
      } else if PassesFirst(q, rows, |rows|) {
        PassesPrefix(q, rows, |rows|, i + 1);
      }
    }
  }

  lemma OneMorePasses(q: Query, rows: seq<Row>, i: nat)
    requires NoFaults(q.env) && i < |rows| && i < q.req.budget.maxAdmissionRows && PassesFirst(q, rows, i)
    ensures StopAt(q, rows, i).None? <==> PassesFirst(q, rows, i + 1)
  {
    StopMeans(q, rows, i);
  }

  lemma {:induction false} HydratesIff(q: Query, entries: seq<Row>, j: nat, used: nat)
    requires NoFaults(q.env) && j <= |entries| && used <= q.req.budget.maxHydratedBytes
    ensures HydrateFrom(q, entries, j, used).None? <==>
            && (forall k | j <= k < |entries| :: entries[k].hydrationBytes <= q.req.budget.maxRowBytes)
            && used + HydrationTotal(entries[j..]) <= q.req.budget.maxHydratedBytes
    decreases |entries| - j
  {
    if j < |entries| {
      assert entries[j..][1..] == entries[j + 1..];
      if HydrationStop(q, used, entries[j], j).None? {
        HydratesIff(q, entries, j + 1, used + entries[j].hydrationBytes);
      }
    }
  }

  lemma HydratesAllIff(q: Query, entries: seq<Row>)
    requires NoFaults(q.env)
    ensures HydrateFrom(q, entries, 0, 0).None? <==> HydrationFits(q.req.budget, entries)
  {
    HydratesIff(q, entries, 0, 0);
    assert entries[0..] == entries;
  }

  predicate Finished(r: Result<Answer, Error>) { r.Ok? && r.value.status in {Complete, ResultLimit} }

  lemma RowsFinishIff(q: Query, rows: seq<Row>)
    requires NoFaults(q.env)
    ensures Finished(Settled(RowsAnswer(q, rows))) <==>
            && |rows| < q.req.budget.maxAdmissionRows && PassesFirst(q, rows, |rows|)
            && HydrationFits(q.req.budget, Fetched(Chosen(q, rows), rows))
  {
    ScanEndsIff(q, rows, 0);
    if ScanFrom(q, rows, 0).stop.Some? { StoppedIsUnfinished(q, rows); } else { ChosenFinishIff(q, rows); }
  }

  lemma StoppedIsUnfinished(q: Query, rows: seq<Row>)
    requires ScanFrom(q, rows, 0).stop.Some?
    ensures !Finished(Settled(Stopped(ScanFrom(q, rows, 0).stop.value)))
  {
    ScanStatuses(q, rows, ScanFrom(q, rows, 0).classified);
  }

  lemma ChosenFinishIff(q: Query, rows: seq<Row>)
    requires NoFaults(q.env)
    ensures Finished(Settled(ChosenAnswer(q, rows))) <==>
            HydrationFits(q.req.budget, Fetched(Chosen(q, rows), rows))
  {
    var entries := Fetched(Chosen(q, rows), rows);
    HydratesAllIff(q, entries);
    HydrationStatuses(q, entries, 0, 0);
  }

  /** Nothing stands in the way of the read before its scan. */
  predicate Ready(id: Identity, req: Request, env: Env) {
    && id.name == req.expected.name && id.profile == req.expected.profile && id.partition == req.expected.partition
    && (req.expected.physical.None? || id.physical == req.expected.physical) && !env.callbackSilent
  }

  lemma ReadyReads(id: Identity, req: Request, env: Env, table: seq<Row>, at: string)
    requires Ready(id, req, env) && NoFaults(env) && Instant(req, env, at)
    ensures QueryOf(req, env) == Query(req, at, env)
    ensures ReadAnswer(id, false, req, env, table) == Settled(RowsAnswer(Query(req, at, env), Matching(req, table)))
  {
  }

  lemma FirstIsChosen(q: Query, table: seq<Row>, first: seq<Row>)
    requires DistinctIds(table) && FirstSought(q.req, q.env, q.at, table, first)
    ensures var rows := Matching(q.req, table); first == Fetched(Chosen(q, rows), rows)
  {
    var rows := Matching(q.req, table);
    MatchingDistinct(q.req, table);
    FirstVisibleIsSought(q, table, first);
    ChosenIsFirstVisible(q, rows);
    FirstVisibleSame(q, rows, first, Fetched(Chosen(q, rows), rows), q.req.budget.maxResults);
  }

  ghost predicate ScopePasses(q: Query, table: seq<Row>) {
    forall row | row in table && InScope(q.req, row) :: RowPasses(q, row)
  }

  lemma PassesMeans(q: Query, table: seq<Row>)
    ensures var rows := Matching(q.req, table);
            PassesFirst(q, rows, |rows|) <==>
            ScopePasses(q, table) && ScopeWeight(q.req, q.env, table) <= q.req.budget.maxAdmissionBytes
  {
    var rows := Matching(q.req, table);
    MatchingSums(q, table);
    assert rows[..|rows|] == rows;
    if ScopePasses(q, table) {
      forall k | 0 <= k < |rows| ensures RowPasses(q, rows[k]) { assert rows[k] in rows && Matches(q.req, rows[k]); }
    }
    if forall k | 0 <= k < |rows| :: RowPasses(q, rows[k]) {
      forall row | row in table && InScope(q.req, row) ensures RowPasses(q, row) {
        assert Matches(q.req, row) && row in rows;
      }
    }
  }

  /**
   Without faults a read finishes exactly when fewer rows are in scope than may be looked at, each of them fits and is
   not refused, together they are within the budget, and so are the first sought rows, one by one and in total.
   */
  lemma FinishesIff(id: Identity, req: Request, env: Env, table: seq<Row>, at: string, first: seq<Row>)
    requires Ready(id, req, env) && NoFaults(env) && Instant(req, env, at) && DistinctIds(table)
    requires FirstSought(req, env, at, table, first)
    ensures Finished(ReadAnswer(id, false, req, env, table)) <==>
            && ScopeCount(req, table) < req.budget.maxAdmissionRows && ScopePasses(Query(req, at, env), table)
            && ScopeWeight(req, env, table) <= req.budget.maxAdmissionBytes && HydrationFits(req.budget, first)
  {
    var (q, rows) := (Query(req, at, env), Matching(req, table));
    ReadyReads(id, req, env, table, at);
    RowsFinishIff(q, rows);
    FirstIsChosen(q, table, first);
    PassesMeans(q, table);
    MatchingSums(q, table);
  }

  // ----- Every other way a read can end -----

  /** No step of the scan before row `n` fails. */
  ghost predicate ScanFaultFree(env: Env, n: nat) {
    forall k: nat | k < n :: env.fault(Step(k)) == Fine && env.fault(Project(k)) == Fine
  }

  lemma PassesPrefix(q: Query, rows: seq<Row>, n: nat, k: nat)
    requires k <= n <= |rows| && PassesFirst(q, rows, n)
    ensures PassesFirst(q, rows, k)
  {
    UsedGrows(q, rows[..n], k);
    assert rows[..n][..k] == rows[..k];
  }

  lemma PassedMeans(q: Query, rows: seq<Row>, n: nat)
    requires 0 < n <= |rows| && n <= q.req.budget.maxAdmissionRows && ScanFaultFree(q.env, n) && PassesFirst(q, rows, n)
    ensures PassesFirst(q, rows, n - 1) && StopAt(q, rows, n - 1).None?
  {
    PassesPrefix(q, rows, n, n - 1);
    StopMeans(q, rows, n - 1);
  }

  /** The scan gets past rows that pass. */
  lemma {:induction false} ScanGetsTo(q: Query, rows: seq<Row>, n: nat)
    requires n <= |rows| && n <= q.req.budget.maxAdmissionRows && ScanFaultFree(q.env, n) && PassesFirst(q, rows, n)
    ensures ScanFrom(q, rows, 0) == ScanFrom(q, rows, n)
  {
    if n > 0 {
      PassedMeans(q, rows, n);
      ScanGetsTo(q, rows, n - 1);
      ScanStep(q, rows, n - 1);
    }
  }

  lemma AnswerAtStop(q: Query, rows: seq<Row>, n: nat, stop: Stop)
    requires n <= |rows| && n <= q.req.budget.maxAdmissionRows && ScanFaultFree(q.env, n) && PassesFirst(q, rows, n)
    requires q.env.fault(Prepare) == Fine && StopAt(q, rows, n) == Some(stop)
    ensures RowsAnswer(q, rows) == Stopped(stop)
  {
    ScanGetsTo(q, rows, n);
  }

  /** The rows in scope are looked at in the order of the table, and the read begins without a fault. */
  ghost predicate Scans(id: Identity, req: Request, env: Env, table: seq<Row>, at: string, rows: seq<Row>) {
    && Ready(id, req, env) && Instant(req, env, at) && rows == Matching(req, table)
    && env.fault(Limit) == env.fault(Probe) == env.fault(SetLimit) == env.fault(Begin) == env.fault(Prepare) == Fine
    && (req.asOf.Some? ==> env.fault(AsOf) == Fine)
  }

  lemma ScanAnswers(id: Identity, req: Request, env: Env, table: seq<Row>, at: string, rows: seq<Row>)
    requires Scans(id, req, env, table, at, rows)
    ensures QueryOf(req, env) == Query(req, at, env)
    ensures ReadAnswer(id, false, req, env, table) == Settled(RowsAnswer(Query(req, at, env), rows))
  {
  }

  /** Too many rows in scope: the budget of rows is named once as many as it allows have passed. */
  lemma LimitAtCount(id: Identity, req: Request, env: Env, table: seq<Row>, at: string, rows: seq<Row>)
    requires Scans(id, req, env, table, at, rows) && req.budget.maxAdmissionRows <= |rows|
    requires ScanFaultFree(env, req.budget.maxAdmissionRows)
    requires PassesFirst(Query(req, at, env), rows, req.budget.maxAdmissionRows)
    ensures ReadAnswer(id, false, req, env, table) == Ok(Answer(AdmissionRows, []))
  {
    ScanAnswers(id, req, env, table, at, rows);
    AnswerAtStop(Query(req, at, env), rows, req.budget.maxAdmissionRows, AtLimit(AdmissionRows));
  }

  /** The first row that does not fit names the budget it exceeds: its key is looked at before its projection. */
  lemma LimitAtRow(id: Identity, req: Request, env: Env, table: seq<Row>, at: string, rows: seq<Row>, i: nat)
    requires Scans(id, req, env, table, at, rows) && i < |rows| && i < req.budget.maxAdmissionRows
    requires ScanFaultFree(env, i + 1) && PassesFirst(Query(req, at, env), rows, i)
    requires var used := Used(Query(req, at, env), rows[..i]);
             !(RowFits(req, env, rows[i]) && used + Weight(req, env, rows[i]) <= req.budget.maxAdmissionBytes)
    ensures var (used, key) := (Used(Query(req, at, env), rows[..i]), Octets(rows[i].id) + Octets(rows[i].path));
            ReadAnswer(id, false, req, env, table) ==
            Ok(Answer(if key > req.budget.maxRowBytes then RowBytes
                      else if used + key > req.budget.maxAdmissionBytes then AdmissionBytes
                      else if rows[i].projectionBytes > req.budget.maxRowBytes then RowBytes
                      else AdmissionBytes, []))
  {
    var (q, row) := (Query(req, at, env), rows[i]);
    ScanAnswers(id, req, env, table, at, rows);
    ReachedMeans(q, row);
    AnswerAtStop(q, rows, i, StopAt(q, rows, i).value);
  }

  /** The first row that fits and is refused ends the read with its reason, its shortened id and its position. */
  lemma RefusedAtRow(id: Identity, req: Request, env: Env, table: seq<Row>, at: string, rows: seq<Row>, i: nat,
                     reason: Reason)
    requires Scans(id, req, env, table, at, rows) && i < |rows| && i < req.budget.maxAdmissionRows
    requires ScanFaultFree(env, i + 1) && PassesFirst(Query(req, at, env), rows, i)
    requires RowFits(req, env, rows[i]) && VerdictOf(Query(req, at, env), rows[i]) == Refused(reason)
    requires Used(Query(req, at, env), rows[..i]) + Weight(req, env, rows[i]) <= req.budget.maxAdmissionBytes
    ensures var rowId := rows[i].id;
            ReadAnswer(id, false, req, env, table) ==
            if reason.Undecodable? then Err(Sqlite(Broken))
            else if |rowId| <= 128 then Err(Candidate(reason, rowId, false, i + 1))
            else Err(Candidate(reason, rowId[..128], true, i + 1))
  {
    var (q, row) := (Query(req, at, env), rows[i]);
    ScanAnswers(id, req, env, table, at, rows);
    ReachedMeans(q, row);
    AnswerAtStop(q, rows, i, StopAt(q, rows, i).value);
  }

  /** What a database failure becomes. */
  function FaultAnswer(fault: Fault): Result<Answer, Error> {
    match fault
    case Exhausted => Ok(Answer(VmBudget, []))
    case TooBig => Ok(Answer(RowBytes, []))
    case _ => Err(Sqlite(fault))
  }

  lemma FaultSettles(fault: Fault)
    requires fault != Fine
    ensures Settled(Stopped(Failed(Sqlite(fault)))) == FaultAnswer(fault)
  {
  }

  /** A database failure in the scan, at the next row. */
  lemma FaultAtStep(id: Identity, req: Request, env: Env, table: seq<Row>, at: string, rows: seq<Row>, i: nat)
    requires Scans(id, req, env, table, at, rows) && i <= |rows| && i < req.budget.maxAdmissionRows
    requires ScanFaultFree(env, i) && PassesFirst(Query(req, at, env), rows, i) && env.fault(Step(i)) != Fine
    ensures ReadAnswer(id, false, req, env, table) == FaultAnswer(env.fault(Step(i)))
  {
    ScanAnswers(id, req, env, table, at, rows);
    AnswerAtStop(Query(req, at, env), rows, i, Failed(Sqlite(env.fault(Step(i)))));
    FaultSettles(env.fault(Step(i)));
  }

  /** A database failure in the scan, at the projection of an admissible row whose key fits. */
  lemma FaultAtProjection(id: Identity, req: Request, env: Env, table: seq<Row>, at: string, rows: seq<Row>, i: nat)
    requires Scans(id, req, env, table, at, rows) && i < |rows| && i < req.budget.maxAdmissionRows
    requires ScanFaultFree(env, i) && PassesFirst(Query(req, at, env), rows, i) && Admissible(req, env, rows[i])
    requires env.fault(Step(i)) == Fine && env.fault(Project(i)) != Fine
    requires Octets(rows[i].id) + Octets(rows[i].path) <= req.budget.maxRowBytes
    requires Used(Query(req, at, env), rows[..i]) + Octets(rows[i].id) + Octets(rows[i].path) <=
             req.budget.maxAdmissionBytes
    ensures ReadAnswer(id, false, req, env, table) == FaultAnswer(env.fault(Project(i)))
  {
    ReachedMeans(Query(req, at, env), rows[i]);
    ScanAnswers(id, req, env, table, at, rows);
    AnswerAtStop(Query(req, at, env), rows, i, Failed(Sqlite(env.fault(Project(i)))));
    FaultSettles(env.fault(Project(i)));
  }

  /** A database failure before the scan. */
  lemma FaultBeforeScan(id: Identity, req: Request, env: Env, table: seq<Row>, at: string)
    requires Ready(id, req, env) && Instant(req, env, at)
    ensures var answer := ReadAnswer(id, false, req, env, table);
            if env.fault(Limit) != Fine then answer == Err(Sqlite(env.fault(Limit)))
            else if env.fault(Probe) != Fine then answer == FaultAnswer(env.fault(Probe))
            else if env.fault(SetLimit) != Fine then answer == FaultAnswer(env.fault(SetLimit))
            else if req.asOf.Some? && env.fault(AsOf) != Fine then answer == FaultAnswer(env.fault(AsOf))
            else if env.fault(Begin) != Fine then answer == FaultAnswer(env.fault(Begin))
            else env.fault(Prepare) != Fine ==> answer == FaultAnswer(env.fault(Prepare))
  {
  }

  /** A read is refused for its store exactly when that is another one than the request expects. */
  lemma StoreMismatchIff(id: Identity, active: bool, req: Request, env: Env, table: seq<Row>)
    ensures ReadAnswer(id, active, req, env, table) == Err(Invalid(StoreMismatch)) <==>
            || id.name != req.expected.name || id.profile != req.expected.profile
            || id.partition != req.expected.partition
            || (req.expected.physical.Some? && id.physical != req.expected.physical)
  {
    if Admits(id, req.expected) { OnlyInstantsRefused(req, env, table); }
  }

  lemma OnlyInstantsRefused(req: Request, env: Env, table: seq<Row>)
    ensures OperationAnswer(req, env, table).Err? && OperationAnswer(req, env, table).error.Invalid? ==>
            OperationAnswer(req, env, table).error == Invalid(BadAsOf)
  {
    RowErrors(QueryOf(req, env), Matching(req, table));
  }

  /** Without faults it is refused for its instant exactly when one is asked for that cannot be read. */
  lemma BadInstantIff(id: Identity, req: Request, env: Env, table: seq<Row>)
    requires Ready(id, req, env) && NoFaults(env)
    ensures ReadAnswer(id, false, req, env, table) == Err(Invalid(BadAsOf)) <==>
            req.asOf.Some? && env.normalizeAsOf(req.asOf.value).None?
  {
    RowErrors(QueryOf(req, env), Matching(req, table));
  }

  lemma {:induction false} HydrationErrors(q: Query, entries: seq<Row>, j: nat, used: nat)
    requires j <= |entries|
    ensures var s := HydrateFrom(q, entries, j, used); s.Some? && s.value.Failed? ==> !s.value.error.Invalid?
    decreases |entries| - j
  {
    if j < |entries| && HydrationStop(q, used, entries[j], j).None? {
      HydrationErrors(q, entries, j + 1, used + entries[j].hydrationBytes);
    }
  }

  lemma ScanErrors(q: Query, rows: seq<Row>, i: nat)
    requires i <= |rows|
    ensures var s := StopAt(q, rows, i); s.Some? && s.value.Failed? ==> !s.value.error.Invalid?
  {
  }

  lemma RowErrors(q: Query, rows: seq<Row>)
    ensures RowsAnswer(q, rows).Err? ==> !RowsAnswer(q, rows).error.Invalid?
  {
    ScanErrors(q, rows, ScanFrom(q, rows, 0).classified);
    HydrationErrors(q, Fetched(Chosen(q, rows), rows), 0, 0);
  }

  /** Hydration gets past rows that fit. */
  lemma {:induction false} HydrationGetsTo(q: Query, entries: seq<Row>, j: nat, n: nat, used: nat)
    requires j <= n <= |entries| && used + HydrationTotal(entries[j..n]) <= q.req.budget.maxHydratedBytes
    requires forall k: nat | j <= k < n :: q.env.fault(Length(k)) == Fine && q.env.fault(Fetch(k)) == Fine
    requires forall k | j <= k < n :: entries[k].hydrationBytes <= q.req.budget.maxRowBytes
    ensures HydrateFrom(q, entries, j, used) == HydrateFrom(q, entries, n, used + HydrationTotal(entries[j..n]))
    decreases n - j
  {
    if j < n {
      assert entries[j..n][1..] == entries[j + 1..n];
      HydrationGetsTo(q, entries, j + 1, n, used + entries[j].hydrationBytes);
    }
  }

  /** A finished scan whose rows do not all come out: the first one that is too long, too much or not to be had. */
  lemma LimitAtHydration(id: Identity, req: Request, env: Env, table: seq<Row>, at: string, rows: seq<Row>,
                         first: seq<Row>, n: nat)
    requires Scans(id, req, env, table, at, rows) && DistinctIds(table) && ScanFaultFree(env, |rows|)
    requires env.fault(Step(|rows|)) == Fine
    requires |rows| < req.budget.maxAdmissionRows && PassesFirst(Query(req, at, env), rows, |rows|)
    requires FirstSought(req, env, at, table, first) && n < |first| && HydrationFits(req.budget, first[..n])
    requires forall k: nat | k < n :: env.fault(Length(k)) == Fine && env.fault(Fetch(k)) == Fine
    ensures var answer := ReadAnswer(id, false, req, env, table);
            var bytes := first[n].hydrationBytes;
            if env.fault(Length(n)) != Fine then answer == FaultAnswer(env.fault(Length(n)))
            else if bytes > req.budget.maxRowBytes then answer == Ok(Answer(RowBytes, []))
            else if HydrationTotal(first[..n]) + bytes > req.budget.maxHydratedBytes
            then answer == Ok(Answer(HydratedBytes, []))
            else env.fault(Fetch(n)) != Fine ==> answer == FaultAnswer(env.fault(Fetch(n)))
  {
    var q := Query(req, at, env);
    ScanAnswers(id, req, env, table, at, rows);
    ScanDone(q, rows);
    FirstIsChosen(q, table, first);
    HydrationStopsAt(q, first, n);
    HydrationStopMeans(q, HydrationTotal(first[..n]), first[n], n);
  }

  lemma ScanDone(q: Query, rows: seq<Row>)
    requires |rows| < q.req.budget.maxAdmissionRows && ScanFaultFree(q.env, |rows|) && PassesFirst(q, rows, |rows|)
    requires q.env.fault(Step(|rows|)) == Fine && q.env.fault(Prepare) == Fine
    ensures RowsAnswer(q, rows) == ChosenAnswer(q, rows)
  {
    ScanGetsTo(q, rows, |rows|);
  }

  lemma HydrationStopsAt(q: Query, entries: seq<Row>, n: nat)
    requires n < |entries| && HydrationFits(q.req.budget, entries[..n])
    requires forall k: nat | k < n :: q.env.fault(Length(k)) == Fine && q.env.fault(Fetch(k)) == Fine
    ensures var stop := HydrationStop(q, HydrationTotal(entries[..n]), entries[n], n);
            stop.Some? ==> HydrateFrom(q, entries, 0, 0) == stop
  {
    assert entries[0..n] == entries[..n];
    forall k | 0 <= k < n ensures entries[k].hydrationBytes <= q.req.budget.maxRowBytes {
      assert entries[..n][k] in entries[..n];
    }
    HydrationGetsTo(q, entries, 0, n, 0);
  }

  lemma HydrationStopMeans(q: Query, used: nat, row: Row, n: nat)
    ensures var (stop, b) := (HydrationStop(q, used, row, n), q.req.budget);
            if q.env.fault(Length(n)) != Fine
            then stop.Some? && Settled(Stopped(stop.value)) == FaultAnswer(q.env.fault(Length(n)))
            else if row.hydrationBytes > b.maxRowBytes
            then stop.Some? && Settled(Stopped(stop.value)) == Ok(Answer(RowBytes, []))
            else if used + row.hydrationBytes > b.maxHydratedBytes
            then stop.Some? && Settled(Stopped(stop.value)) == Ok(Answer(HydratedBytes, []))
            else
              q.env.fault(Fetch(n)) != Fine ==>
                stop.Some? && Settled(Stopped(stop.value)) == FaultAnswer(q.env.fault(Fetch(n)))
  {
  }

  // ----- The read itself -----

  /** One turn of the scan, for the position, the totals, the ledger and the admitted rows. */
  lemma ScanStep(q: Query, rows: seq<Row>, i: nat)
    requires i <= |rows|
    ensures ScanFrom(q, rows, i) ==
            if StopAt(q, rows, i).Some? || i == |rows| then Extent(i, StopAt(q, rows, i)) else ScanFrom(q, rows, i + 1)
    ensures i == |rows| ==> rows[..i] == rows
    ensures i < |rows| ==>
      && Used(q, rows[..i + 1]) == Used(q, rows[..i]) + RowBytesOf(q, rows[i])
      && Ledger(q, rows[..i + 1]) == Tallied(q, Ledger(q, rows[..i]), rows[i])
      && Admitted(q, rows[..i + 1]) ==
         Admitted(q, rows[..i]) + if VerdictOf(q, rows[i]) == Eligible then [Pick(rows[i].id, i)] else []
  {
    if i < |rows| { assert rows[..i + 1][..i] == rows[..i]; }
  }

  class ReadResult {
    var entries: seq<Row>
    var status: Status
    var admissionRows: nat
    var admissionBytes: nat
    var hydratedBytes: nat
    var skips: Skips

    constructor ()
      ensures entries == [] && status == Complete && admissionRows == admissionBytes == hydratedBytes == 0
      ensures skips == NO_SKIPS
    {
      entries, status, admissionRows, admissionBytes, hydratedBytes, skips := [], Complete, 0, 0, 0, NO_SKIPS;
    }

    /** Counts one skipped row and keeps its id while both caps allow. */
    method RecordValiditySkip(missing: bool, id: string, maxIds: nat, maxBytes: nat)
      modifies this`skips
      ensures skips == Recorded(old(skips), missing, id, maxIds, maxBytes)
      ensures var (s, t) := (old(skips), skips);
              var room := |if missing then s.missingBoundaryIds else s.invalidWindowIds| < maxIds
                  && s.bytesUsed + Octets(id) <= maxBytes;
              && t.missingBoundaries == s.missingBoundaries + (if missing then 1 else 0)
              && t.invalidWindows == s.invalidWindows + (if missing then 0 else 1)
              && t.missingBoundaryIds == s.missingBoundaryIds + (if missing && room then [id] else [])
              && t.invalidWindowIds == s.invalidWindowIds + (if !missing && room then [id] else [])
              && t.truncated == (s.truncated || !room)
    {
      var ids := if missing then skips.missingBoundaryIds else skips.invalidWindowIds;
      if missing {
        skips := skips.(missingBoundaries := skips.missingBoundaries + 1);
      } else {
        skips := skips.(invalidWindows := skips.invalidWindows + 1);
      }
      if |ids| < maxIds && skips.bytesUsed + Octets(id) <= maxBytes {
        skips := skips.(bytesUsed := skips.bytesUsed + Octets(id));
        if missing {
          skips := skips.(missingBoundaryIds := ids + [id]);
        } else {
          skips := skips.(invalidWindowIds := ids + [id]);
        }
      } else {
        skips := skips.(truncated := true);
      }
    }

    /** Charges the admission bytes of one field group, or names the limit that stops the scan. */
    method ChargeAdmission(b: Budget, bytes: nat) returns (ok: bool)
      requires admissionBytes <= b.maxAdmissionBytes && status == Complete
      modifies this`admissionBytes, this`status
      ensures ok <==> OverBudget(b, old(admissionBytes), bytes).None?
      ensures ok ==> admissionBytes == old(admissionBytes) + bytes <= b.maxAdmissionBytes && status == Complete
      ensures !ok ==>
              OverBudget(b, old(admissionBytes), bytes) == Some(AtLimit(status))
                  && admissionBytes == old(admissionBytes)
    {
      if bytes > b.maxRowBytes {
        status := RowBytes;
        return false;
      }
      var next := Charged(admissionBytes, bytes, b.maxAdmissionBytes);
      if next.None? {
        status := AdmissionBytes;
        return false;
      }
      admissionBytes := next.value;
      return true;
    }
  }

  /**
   An open store: its identity, its rows in the order the database visits them, and the flag of a read in progress.
   */
  class MemoryStore {
    const identity: Identity
    const table: seq<Row>
    var exactActive: bool

    constructor (identity: Identity, table: seq<Row>)
      ensures this.identity == identity && this.table == table && !exactActive
    {
      this.identity, this.table, exactActive := identity, table, false;
    }

    /** Decides one row that passed path and role admission; the result says whether it is admitted. */
    method ExactAdmissionProjection(q: Query, i: nat, row: Row, result: ReadResult) returns (r: Result<bool, Error>)
      requires result.admissionBytes <= q.req.budget.maxAdmissionBytes && result.status == Complete && Reached(q, row)
      requires result.admissionRows == i + 1
      modifies result`admissionBytes, result`status, result`skips
      ensures var stop := ProjectionStop(q, old(result.admissionBytes), row, i);
              && (stop.None? ==> r == Ok(VerdictOf(q, row) == Eligible) && result.status == Complete)
              && (stop.Some? && stop.value.AtLimit? ==>
                  r == Ok(false) && result.status == stop.value.status != Complete)
              && (stop.Some? && stop.value.Failed? ==> r == Err(stop.value.error))
              && (stop.Some? ==> result.skips == old(result.skips))
              && (stop.None? ==> result.admissionBytes == old(result.admissionBytes) + row.projectionBytes)
              && (stop.None? && VerdictOf(q, row) == Eligible ==> result.skips == old(result.skips))
              && (stop.None? && VerdictOf(q, row) != Eligible ==> result.skips == Tallied(q, old(result.skips), row))
      ensures result.admissionBytes <= q.req.budget.maxAdmissionBytes
    {
      var fault := q.env.fault(Project(i));
      if fault != Fine { return Err(Sqlite(fault)); }
      var charged := result.ChargeAdmission(q.req.budget, row.projectionBytes);
      if !charged { return Ok(false); }
      if row.entities.None? { return Err(InContext(MalformedEntities, row.id, result.admissionRows)); }
      if !Mentions(q, row) { return Ok(false); }
      if row.metadata.Unparsable? { return Err(InContext(MalformedMetadata, row.id, result.admissionRows)); }
      if row.metadata.NotAnObject? { return Err(InContext(MetadataNotObject, row.id, result.admissionRows)); }
      var from := From(q, row);
      if from.None? { return Err(InContext(BadTimestamp, row.id, result.admissionRows)); }
      var until := Until(q, row);
      if until.None? { return Err(InContext(BadTimestamp, row.id, result.admissionRows)); }
      r := DecideWindow(q, row, from.value, until.value, result);
    }

    /** The last part of the decision: supersession, window, time and namespace. */
    method DecideWindow(q: Query, row: Row, from: string, until: Option<string>, result: ReadResult)
      returns (r: Result<bool, Error>)
      requires Reached(q, row) && row.entities.Some? && Mentions(q, row) && Readable(q, row)
      requires From(q, row) == Some(from) && Until(q, row) == Some(until)
      modifies result`skips
      ensures var v := VerdictOf(q, row);
              && (v.Refused? ==>
                  r == Err(InContext(v.reason, row.id, result.admissionRows)) && result.skips == old(result.skips))
              && (!v.Refused? ==> r == Ok(v == Eligible))
              && (v == Eligible ==> result.skips == old(result.skips))
              && (!v.Refused? && v != Eligible ==> result.skips == Tallied(q, old(result.skips), row))
    {
      if q.req.asOf.None? && row.superseded { return Ok(false); }
      if row.superseded && until == Some(from) { return Ok(false); }
      var empty := EmptyOrInverted(from, until);
      var boundless := row.superseded && until.None?;
      if q.req.tolerance.SkipClassified? {
        if !empty && !boundless {
          if !Covers(from, until, q.at) { return Ok(false); }
          if !row.decodable { return Err(Sqlite(Broken)); }
          return Ok(!q.env.excluded(row));
        }
        if !row.decodable { return Err(Sqlite(Broken)); }
        if q.env.excluded(row) { return Ok(false); }
        result.RecordValiditySkip(!empty, row.id, q.req.tolerance.maxIds, q.req.tolerance.maxBytes);
        return Ok(false);
      }
      if empty { return Err(InContext(EmptyWindow, row.id, result.admissionRows)); }
      if boundless { return Err(InContext(NoBoundary, row.id, result.admissionRows)); }
      if !Covers(from, until, q.at) { return Ok(false); }
      if !row.decodable { return Err(Sqlite(Broken)); }
      return Ok(!q.env.excluded(row));
    }

    /** One stepped row: charge its key, admit by path and role, then decide it. */
    method StepRow(q: Query, i: nat, row: Row, result: ReadResult) returns (r: Result<bool, Error>)
      requires result.status == Complete && result.admissionBytes <= q.req.budget.maxAdmissionBytes
      requires result.admissionRows == i + 1
      modifies result`status, result`admissionBytes, result`skips
      ensures var stop := RowStop(q, old(result.admissionBytes), row, i);
              && (stop.None? ==> r == Ok(VerdictOf(q, row) == Eligible) && result.status == Complete)
              && (stop.None? ==> result.skips == Tallied(q, old(result.skips), row))
              && (stop.None? ==> result.admissionBytes == old(result.admissionBytes) + RowBytesOf(q, row))
              && (stop.Some? ==> result.skips == old(result.skips))
              && (stop.Some? && stop.value.AtLimit? ==>
                  r == Ok(false) && result.status == stop.value.status != Complete)
              && (stop.Some? && stop.value.Failed? ==> r == Err(stop.value.error))
      ensures result.admissionBytes <= q.req.budget.maxAdmissionBytes
    {
      var charged := result.ChargeAdmission(q.req.budget, KeyBytes(row));
      if !charged || !Reached(q, row) { return Ok(false); }
      r := ExactAdmissionProjection(q, i, row, result);
      if r.Ok? && r.value { result.skips := result.skips.(eligibleRows := result.skips.eligibleRows + 1); }
    }

    /** One turn of the scan: the row ceiling, the next row, its decision. `over` ends the scan. */
    method ScanTurn(q: Query, rows: seq<Row>, i: nat, result: ReadResult, admitted: seq<Pick>)
      returns (over: bool, failure: Option<Error>, admitted': seq<Pick>)
      requires i <= |rows| && Scanning(q, rows, i, result, admitted)
      modifies result`status, result`admissionRows, result`admissionBytes, result`skips
      ensures !over ==> i < |rows| && StopAt(q, rows, i).None? && Scanning(q, rows, i + 1, result, admitted')
      ensures over ==>
              (StopAt(q, rows, i).Some? || i == |rows|)
                  && ScanOver(q, rows, i, StopAt(q, rows, i), failure, result, admitted')
    {
      ScanStep(q, rows, i);
      over, failure, admitted' := true, None, admitted;
      if result.admissionRows == q.req.budget.maxAdmissionRows {
        result.status := AdmissionRows;
        return;
      }
      if q.env.fault(Step(i)) != Fine { return true, Some(Sqlite(q.env.fault(Step(i)))), admitted; }
      if i == |rows| { return; }
      result.admissionRows := result.admissionRows + 1;
      var r := StepRow(q, i, rows[i], result);
      if r.Err? { return true, Some(r.error), admitted; }
      if r.value { admitted' := admitted + [Pick(rows[i].id, i)]; }
      over := result.status != Complete;
    }

    /** Steps through the candidate rows until they end, a budget is reached or a call fails. */
    method ScanRows(q: Query, rows: seq<Row>, result: ReadResult) returns (failure: Option<Error>, admitted: seq<Pick>)
      requires result.status == Complete && result.admissionRows == result.admissionBytes == 0
      requires result.skips == NO_SKIPS
      modifies result`status, result`admissionRows, result`admissionBytes, result`skips
      ensures var extent := ScanFrom(q, rows, 0);
              ScanOver(q, rows, extent.classified, extent.stop, failure, result, admitted)
    {
      failure, admitted := None, [];
      var i, over := 0, false;
      while !over
        invariant i <= |rows|
        invariant !over ==> Scanning(q, rows, i, result, admitted) && ScanFrom(q, rows, 0) == ScanFrom(q, rows, i)
        invariant over ==>
                  var extent := ScanFrom(q, rows, 0);
                  ScanOver(q, rows, extent.classified, extent.stop, failure, result, admitted)
        decreases |rows| - i, !over
      {
        ScanStep(q, rows, i);
        over, failure, admitted := ScanTurn(q, rows, i, result, admitted);
        if !over { i := i + 1; }
      }
    }

    /** Accounts for one row and fetches it; a limit clears what was already fetched. */
    method HydrateOne(q: Query, row: Row, j: nat, result: ReadResult) returns (over: bool, failure: Option<Error>)
      requires result.hydratedBytes <= q.req.budget.maxHydratedBytes
      modifies result`entries, result`status, result`hydratedBytes
      ensures var (b, used, bytes) := (q.req.budget, old(result.hydratedBytes), row.hydrationBytes);
              if q.env.fault(Length(j)) != Fine then over && failure == Some(Sqlite(q.env.fault(Length(j))))
              else if bytes > b.maxRowBytes
              then over && failure.None? && result.entries == [] && result.status == RowBytes
              else if used + bytes > b.maxHydratedBytes
              then over && failure.None? && result.entries == [] && result.status == HydratedBytes
              else if q.env.fault(Fetch(j)) != Fine then over && failure == Some(Sqlite(q.env.fault(Fetch(j))))
              else
                && !over && failure.None? && result.entries == old(result.entries) + [row]
                && result.status == old(result.status) && result.hydratedBytes == used + bytes
      ensures result.hydratedBytes <= q.req.budget.maxHydratedBytes
    {
      if q.env.fault(Length(j)) != Fine { return true, Some(Sqlite(q.env.fault(Length(j)))); }
      if row.hydrationBytes > q.req.budget.maxRowBytes {
        result.entries, result.status := [], RowBytes;
        return true, None;
      }
      var next := Charged(result.hydratedBytes, row.hydrationBytes, q.req.budget.maxHydratedBytes);
      if next.None? {
        result.entries, result.status := [], HydratedBytes;
        return true, None;
      }
      result.hydratedBytes := next.value;
      if q.env.fault(Fetch(j)) != Fine { return true, Some(Sqlite(q.env.fault(Fetch(j)))); }
      result.entries := result.entries + [row];
      return false, None;
    }

    /** One turn of the fetching. */
    method HydrateNext(q: Query, row: Row, j: nat, result: ReadResult, ghost all: seq<Row>)
      returns (over: bool, failure: Option<Error>)
      requires j < |all| && row == all[j] && HydratingAt(q, all, j, result.entries, result.hydratedBytes)
      requires result.hydratedBytes <= q.req.budget.maxHydratedBytes
      modifies result`entries, result`status, result`hydratedBytes
      ensures if over then HydrationOver(q, all, failure, result.entries, result.status)
              else
                failure.None? && result.status == old(result.status)
                    && HydratingAt(q, all, j + 1, result.entries, result.hydratedBytes)
      ensures result.hydratedBytes <= q.req.budget.maxHydratedBytes
    {
      HydratingNext(q, all, j, result.entries, result.hydratedBytes);
      over, failure := HydrateOne(q, row, j, result);
    }

    /** Fetches the chosen rows one by one. */
    method Hydrate(q: Query, rows: seq<Row>, picks: seq<Pick>, result: ReadResult) returns (failure: Option<Error>)
      requires Within(picks, rows) && result.entries == [] && result.hydratedBytes == 0
      modifies result`entries, result`status, result`hydratedBytes
      ensures var all := Fetched(picks, rows);
              if HydrateFrom(q, all, 0, 0).Some? then HydrationOver(q, all, failure, result.entries, result.status)
              else
                && failure.None? && result.entries == all && result.status == old(result.status)
                && result.hydratedBytes == HydrationTotal(all)
      ensures result.hydratedBytes <= q.req.budget.maxHydratedBytes
    {
      ghost var all := Fetched(picks, rows);
      HydratingStarts(q, all);
      for j := 0 to |picks|
        invariant HydratingAt(q, all, j, result.entries, result.hydratedBytes)
        invariant result.status == old(result.status) && result.hydratedBytes <= q.req.budget.maxHydratedBytes
      {
        assert picks[j] in picks;
        var over;
        over, failure := HydrateNext(q, rows[picks[j].rowid], j, result, all);
        if over { return; }
      }
      HydratingEnds(q, all, result.entries, result.hydratedBytes);
      return None;
    }

    /** Orders the admitted rows, cuts the listing and fetches what is left. */
    method OrderAndHydrate(q: Query, rows: seq<Row>, admitted: seq<Pick>, result: ReadResult)
      returns (failure: Option<Error>)
      requires admitted == Admitted(q, rows) && result.status == Complete && result.entries == []
      requires result.hydratedBytes == 0
      modifies result`entries, result`status, result`hydratedBytes
      ensures ChosenAnswer(q, rows) == if failure.Some? then Err(failure.value)
              else Ok(Answer(result.status, result.entries))
      ensures result.hydratedBytes <= q.req.budget.maxHydratedBytes
      ensures failure.None? && result.status in {Complete, ResultLimit} ==>
              result.hydratedBytes == HydrationTotal(result.entries)
    {
      HydrationStatuses(q, Fetched(Chosen(q, rows), rows), 0, 0);
      var picks := SortedById(admitted);
      if |picks| > q.req.budget.maxResults {
        result.status := ResultLimit;
        picks := picks[..q.req.budget.maxResults];
      }
      failure := Hydrate(q, rows, picks, result);
    }

    method ExactEntityRows(q: Query, rows: seq<Row>, result: ReadResult) returns (failure: Option<Error>)
      requires result.status == Complete && result.admissionRows == result.admissionBytes == result.hydratedBytes == 0
      requires result.skips == NO_SKIPS && result.entries == []
      modifies result
      ensures RowsAnswer(q, rows) == if failure.Some? then Err(failure.value)
              else Ok(Answer(result.status, result.entries))
      ensures Accounted(q, rows, if q.env.fault(Prepare) == Fine then ScanFrom(q, rows, 0).classified else 0, result)
      ensures failure.None? && result.status in {Complete, ResultLimit} ==>
                result.admissionRows == |rows| == ScanFrom(q, rows, 0).classified && Totals(q, rows, result)
    {
      if q.env.fault(Prepare) != Fine { return Some(Sqlite(q.env.fault(Prepare))); }
      ghost var extent := ScanFrom(q, rows, 0);
      ScanStatuses(q, rows, extent.classified);
      var admitted;
      failure, admitted := ScanRows(q, rows, result);
      if failure.Some? || result.status != Complete { return; }
      assert extent.stop.None? && rows[..extent.classified] == rows;
      failure := OrderAndHydrate(q, rows, admitted, result);
    }

    /** The guarded part of the read, from the ownership probe to the last fetched row. */
    method Operate(req: Request, env: Env, result: ReadResult) returns (failure: Option<Error>)
      requires result.status == Complete && result.admissionRows == result.admissionBytes == result.hydratedBytes == 0
      requires result.skips == NO_SKIPS && result.entries == [] && Admits(identity, req.expected)
      requires env.fault(Limit) == Fine
      modifies result
      ensures OperationAnswer(req, env, table) == if failure.Some? then Err(failure.value)
              else Ok(Answer(result.status, result.entries))
      ensures Accounted(QueryOf(req, env), Matching(req, table), Classified(identity, false, req, env, table), result)
      ensures failure.None? && result.status in {Complete, ResultLimit} ==>
                result.admissionRows == Classified(identity, false, req, env, table) == |Matching(req, table)|
                    && Totals(QueryOf(req, env), Matching(req, table), result)
    {
      if env.fault(Probe) != Fine { return Some(Sqlite(env.fault(Probe))); }
      if env.callbackSilent {
        result.status := CallbackUnavailable;
        return None;
      }
      if env.fault(SetLimit) != Fine { return Some(Sqlite(env.fault(SetLimit))); }
      var at := env.now;
      if req.asOf.Some? {
        if env.fault(AsOf) != Fine { return Some(Sqlite(env.fault(AsOf))); }
        var normalized := env.normalizeAsOf(req.asOf.value);
        if normalized.None? { return Some(Invalid(BadAsOf)); }
        at := normalized.value;
      }
      if env.fault(Begin) != Fine { return Some(Sqlite(env.fault(Begin))); }
      failure := ExactEntityRows(Query(req, at, env), Matching(req, table), result);
    }

    /** Everything a returned result says: the answer, the closed accounting of the rows, and the budgets. */
    ghost predicate Reports(active: bool, req: Request, env: Env, result: ReadResult)
      reads result
    {
      && ReadAnswer(identity, active, req, env, table) == Ok(Answer(result.status, result.entries))
      && result.skips.(filteredRows := 0) == ReadLedger(identity, active, req, env, table)
      && Closed(result.skips, result.admissionRows) && LedgerCapped(req.tolerance, result.skips)
      && WithinBudget(req.budget, result)
      && (result.status in {Complete, ResultLimit} ==>
            result.admissionRows == Classified(identity, active, req, env, table) == ScopeCount(req, table)
                && result.admissionBytes == ScopeWeight(req, env, table)
                && result.hydratedBytes == HydrationTotal(result.entries))
    }

    /** How the guarded part ended: exhaustion is a status without entries, any other failure an error. */
    method Conclude(result: ReadResult, failure: Option<Error>) returns (error: Option<Error>)
      modifies result`entries, result`status
      ensures Settled(if failure.Some? then Err(failure.value)
                      else Ok(Answer(old(result.status), old(result.entries)))) ==
              if error.Some? then Err(error.value) else Ok(Answer(result.status, result.entries))
      ensures error.None? && result.status in {Complete, ResultLimit} ==>
              failure.None? && result.status == old(result.status) && result.entries == old(result.entries)
    {
      if failure == Some(Sqlite(Exhausted)) {
        result.entries, result.status := [], VmBudget;
      } else if failure == Some(Sqlite(TooBig)) {
        result.entries, result.status := [], RowBytes;
      } else {
        return failure;
      }
      return None;
    }

    /** Runs the guarded part and says how it ended; the accounting is still open. */
    method RunGuarded(req: Request, env: Env) returns (r: Result<ReadResult, Error>)
      requires Admits(identity, req.expected) && env.fault(Limit) == Fine
      ensures r.Err? ==> Settled(OperationAnswer(req, env, table)) == Err(r.error)
      ensures r.Ok? ==>
              fresh(r.value) && Settled(OperationAnswer(req, env, table)) == Ok(Answer(r.value.status, r.value.entries))
      ensures r.Ok? ==>
              Accounted(QueryOf(req, env), Matching(req, table), Classified(identity, false, req, env, table), r.value)
      ensures r.Ok? && r.value.status in {Complete, ResultLimit} ==>
                r.value.admissionRows == Classified(identity, false, req, env, table) == |Matching(req, table)|
                    && Totals(QueryOf(req, env), Matching(req, table), r.value)
    {
      var result := new ReadResult();
      var failure := Operate(req, env, result);
      var error := Conclude(result, failure);
      return if error.Some? then Err(error.value) else Ok(result);
    }

    /** Runs the guarded part and closes its accounting. */
    method Settle(req: Request, env: Env) returns (r: Result<ReadResult, Error>)
      requires Admits(identity, req.expected) && env.fault(Limit) == Fine
      ensures r.Err? ==> ReadAnswer(identity, false, req, env, table) == Err(r.error)
      ensures r.Ok? ==> fresh(r.value) && Reports(false, req, env, r.value)
    {
      GuardedAnswer(identity, false, req, env, table);
      MatchingSums(QueryOf(req, env), table);
      r := RunGuarded(req, env);
      if r.Ok? {
        Close(QueryOf(req, env), Matching(req, table)[..Classified(identity, false, req, env, table)], r.value);
      }
    }

    /** The whole read, whatever stops it; the flag of a read in progress is always put back. */
    method ReadExactEntities(req: Request, env: Env) returns (r: Result<ReadResult, Error>)
      modifies this`exactActive
      ensures exactActive == old(exactActive)
      ensures !Acceptable(req) ==> r.Err? && r.error.Invalid?
      ensures Acceptable(req) && r.Err? ==> ReadAnswer(identity, old(exactActive), req, env, table) == Err(r.error)
      ensures r.Ok? ==> Acceptable(req) && Admits(identity, req.expected) && fresh(r.value)
      ensures r.Ok? && !old(exactActive) ==> Reports(old(exactActive), req, env, r.value)
      ensures r.Ok? && old(exactActive) ==>
                r.value.status == NestedRead && r.value.entries == [] && r.value.admissionRows == 0
                    && r.value.skips == NO_SKIPS
    {
      var refusal := Validate(req);
      if refusal.Some? { return Err(Invalid(refusal.value)); }
      if !Admits(identity, req.expected) { return Err(Invalid(StoreMismatch)); }
      if exactActive {
        var result := new ReadResult();
        result.status := NestedRead;
        return Ok(result);
      }
      exactActive := true;
      if env.fault(Limit) != Fine {
        exactActive := false;
        return Err(Sqlite(env.fault(Limit)));
      }
      r := Settle(req, env);
      exactActive := false;
    }

    /** The closing subtraction; it never saturates. */
    method Close(ghost q: Query, ghost rows: seq<Row>, result: ReadResult)
      requires result.skips == Ledger(q, rows) && |rows| <= result.admissionRows
      modifies result`skips
      ensures result.skips.(filteredRows := 0) == old(result.skips)
      ensures Closed(result.skips, result.admissionRows) && LedgerCapped(q.req.tolerance, result.skips)
    {
      ClosedLedger(q, rows, result.admissionRows);
      var counted := result.skips.invalidWindows + result.skips.missingBoundaries + result.skips.eligibleRows;
      result.skips := result.skips.(filteredRows := SaturatingSub(result.admissionRows, counted));
    }
  }

  function SaturatingSub(a: nat, b: nat): nat { if b <= a then a - b else 0 }

  /** Every stepped row is in exactly one of the four classes. */
  predicate Closed(s: Skips, admissionRows: nat) {
    s.filteredRows + s.invalidWindows + s.missingBoundaries + s.eligibleRows == admissionRows
  }

  ghost predicate WithinBudget(b: Budget, result: ReadResult)
    reads result
  {
    && result.admissionRows <= b.maxAdmissionRows && result.admissionBytes <= b.maxAdmissionBytes
    && result.hydratedBytes <= b.maxHydratedBytes
  }

  /** The counted classes never exceed the classified rows, so the closing subtraction cannot saturate. */
  lemma LedgerFits(q: Query, rows: seq<Row>)
    ensures var s := Ledger(q, rows);
            s.filteredRows == 0 && s.invalidWindows + s.missingBoundaries + s.eligibleRows <= |rows|
  {
    LedgerCounts(q, rows);
    ClassesDisjoint(q, rows);
  }

  function ClosingOf(s: Skips, admissionRows: nat): Skips {
    s.(filteredRows := SaturatingSub(admissionRows, s.invalidWindows + s.missingBoundaries + s.eligibleRows))
  }

  lemma ClosedLedger(q: Query, rows: seq<Row>, admissionRows: nat)
    requires |rows| <= admissionRows
    ensures var (s, c) := (Ledger(q, rows), ClosingOf(Ledger(q, rows), admissionRows));
            c.(filteredRows := 0) == s && Closed(c, admissionRows) && LedgerCapped(q.req.tolerance, c)
  {
    LedgerFits(q, rows);
    LedgerCaps(q, rows);
    ClosingIsCapped(q.req.tolerance, Ledger(q, rows), admissionRows);
  }

  lemma ClosingIsCapped(t: Tolerance, s: Skips, admissionRows: nat)
    requires LedgerCapped(t, s)
    ensures LedgerCapped(t, ClosingOf(s, admissionRows))
  {
  }

  /** On a completed scan the closing subtraction yields exactly the rows that were filtered. */
  lemma FilteredIsExact(id: Identity, active: bool, req: Request, env: Env, table: seq<Row>, s: Skips)
    requires s.(filteredRows := 0) == ReadLedger(id, active, req, env, table)
    requires Closed(s, Classified(id, active, req, env, table))
    ensures var rows := Matching(req, table)[..Classified(id, active, req, env, table)];
            s.filteredRows == Count(QueryOf(req, env), rows, Filtered)
  {
    var (q, all, n) := (QueryOf(req, env), Matching(req, table), Classified(id, active, req, env, table));
    LedgerCounts(q, all[..n]);
    ClassesDisjoint(q, all[..n]);
    if ScanReached(id, active, req, env) { ScannedPassed(q, all); } else { assert all[..n] == []; }
  }

  /** The scan has classified the first `i` rows and goes on. */
  ghost predicate Scanning(q: Query, rows: seq<Row>, i: nat, result: ReadResult, admitted: seq<Pick>)
    requires i <= |rows|
    reads result
  {
    && result.status == Complete && result.admissionRows == i <= q.req.budget.maxAdmissionRows
    && result.admissionBytes == Used(q, rows[..i]) <= q.req.budget.maxAdmissionBytes
    && result.skips == Ledger(q, rows[..i]) && admitted == Admitted(q, rows[..i])
  }

  /** The scan ended after `n` classified rows, at its end or at `stop`. */
  ghost predicate ScanOver(q: Query, rows: seq<Row>, n: nat, stop: Option<Stop>, failure: Option<Error>,
                           result: ReadResult, admitted: seq<Pick>)
    requires n <= |rows|
    reads result
  {
    && (stop.None? ==> failure.None? && result.status == Complete && admitted == Admitted(q, rows))
    && (stop.None? ==> result.admissionRows == |rows| && result.admissionBytes == Used(q, rows))
    && (stop.Some? && stop.value.AtLimit? ==> failure.None? && result.status == stop.value.status != Complete)
    && (stop.Some? && stop.value.Failed? ==> failure == Some(stop.value.error))
    && result.skips == Ledger(q, rows[..n]) && n <= result.admissionRows <= n + 1
    && result.admissionRows <= q.req.budget.maxAdmissionRows && result.admissionBytes <= q.req.budget.maxAdmissionBytes
  }

  /** The first `j` rows have been fetched. */
  ghost predicate HydratingAt(q: Query, all: seq<Row>, j: nat, entries: seq<Row>, used: nat) {
    && j <= |all| && entries == all[..j] && used + HydrationTotal(all[j..]) == HydrationTotal(all)
    && HydrateFrom(q, all, 0, 0) == HydrateFrom(q, all, j, used)
  }

  /** The fetching stopped at a limit, which leaves no rows, or at a failure. */
  ghost predicate HydrationOver(q: Query, all: seq<Row>, failure: Option<Error>, entries: seq<Row>, status: Status) {
    var stop := HydrateFrom(q, all, 0, 0);
    && stop.Some?
    && (if stop.value.AtLimit? then failure.None? && entries == [] && status == stop.value.status
        else failure == Some(stop.value.error))
  }

  lemma HydratingStarts(q: Query, all: seq<Row>)
    ensures HydratingAt(q, all, 0, [], 0)
  {
    assert all[0..] == all;
  }

  lemma HydratingNext(q: Query, all: seq<Row>, j: nat, entries: seq<Row>, used: nat)
    requires j < |all| && HydratingAt(q, all, j, entries, used)
    ensures var stop := HydrationStop(q, used, all[j], j);
            if stop.Some? then HydrateFrom(q, all, 0, 0) == stop
            else HydratingAt(q, all, j + 1, entries + [all[j]], used + all[j].hydrationBytes)
  {
    assert all[..j + 1] == all[..j] + [all[j]] && all[j..][1..] == all[j + 1..];
  }

  lemma HydratingEnds(q: Query, all: seq<Row>, entries: seq<Row>, used: nat)
    requires HydratingAt(q, all, |all|, entries, used)
    ensures entries == all && used == HydrationTotal(all) && HydrateFrom(q, all, 0, 0).None?
  {
  }

  /** The octets charged for a finished read: of every row looked at, and of every row returned. */
  ghost predicate Totals(q: Query, rows: seq<Row>, result: ReadResult)
    reads result
  {
    result.admissionBytes == Used(q, rows) && result.hydratedBytes == HydrationTotal(result.entries)
  }

  /** Row and byte totals stay within budget, and the ledger covers the classified rows. */
  ghost predicate Accounted(q: Query, rows: seq<Row>, n: nat, result: ReadResult)
    requires n <= |rows|
    reads result
  {
    && result.skips == Ledger(q, rows[..n])
    && n <= result.admissionRows <= n + 1 && result.admissionRows <= q.req.budget.maxAdmissionRows
    && result.admissionBytes <= q.req.budget.maxAdmissionBytes && result.hydratedBytes <= q.req.budget.maxHydratedBytes
  }
}
