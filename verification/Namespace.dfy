/**
 The row classifiers of the memory store, written twice: as boolean functions over a row and as
 SQL predicates evaluated by SQLite under three-valued logic (crates/memcore/src/namespace.rs).
 */
module Sql {
  import opened Prelude

  datatype Column = IdCol | PathCol | SourceCol | CategoryCol | TopicCol | DomainCol | MetadataCol

  /** The metadata members the predicates look at. */
  datatype Key = WikiLog | RecallRerankCache | CacheKey | Wiki

  /** A JSON member value; `text` is what SQLite renders when the value is used as text. */
  datatype Json =
    | JNull | JBool(b: bool) | JInt(n: int) | JReal(r: real, text: string) | JString(s: string)
    | JArray(text: string) | JObject(text: string)

  datatype Metadata = Malformed | NonObject | Object(members: map<Key, Json>)

  datatype Row = Row(id: string, path: string, source: string, category: string, topic: string,
                     domain: Option<string>, metadata: Metadata)

  /** Numbers render with a digit or a sign first, arrays and objects with their bracket. */
  predicate Rendered(j: Json) {
    match j
    case JReal(_, text) => text != "" && NumberHead(text[0])
    case JArray(text) => text != "" && text[0] == '['
    case JObject(text) => text != "" && text[0] == '{'
    case _ => true
  }

  predicate NumberHead(c: char) { '0' <= c <= '9' || c == '-' }

  predicate ValidRow(row: Row) {
    row.metadata.Object? ==> forall k | k in row.metadata.members :: Rendered(row.metadata.members[k])
  }

  function NatText(n: nat): (s: string)
    ensures s != "" && NumberHead(s[0])
  {
    if n < 10 then [(('0' as int) + n) as char] else NatText(n / 10) + [(('0' as int) + n % 10) as char]
  }

  function IntText(n: int): (s: string)
    ensures s != "" && NumberHead(s[0])
  {
    if n < 0 then "-" + NatText(-n) else NatText(n)
  }

  // ----- Pattern matching -----

  /** GLOB with `*` and `?`, case-sensitive. No pattern here contains a bracket class. */
  predicate Glob(p: string, s: string)
    decreases |p| + |s|
  {
    if p == "" then s == ""
    else if p[0] == '*' then Glob(p[1..], s) || (s != "" && Glob(p, s[1..]))
    else s != "" && (p[0] == '?' || p[0] == s[0]) && Glob(p[1..], s[1..])
  }

  /** LIKE with `%` and `_`, folding ASCII case. */
  predicate Like(p: string, s: string)
    decreases |p| + |s|
  {
    if p == "" then s == ""
    else if p[0] == '%' then Like(p[1..], s) || (s != "" && Like(p, s[1..]))
    else s != "" && (p[0] == '_' || LowerChar(p[0]) == LowerChar(s[0])) && Like(p[1..], s[1..])
  }

  /** One-based position of the first occurrence, 0 when there is none. */
  function Position(hay: string, needle: string): nat {
    if OccursAt(hay, needle, 0) then 1
    else if hay == "" then 0
    else var r := Position(hay[1..], needle); if r == 0 then 0 else r + 1
  }

  predicate PlainGlob(s: string) { '*' !in s && '?' !in s && '[' !in s }

  predicate PlainLike(s: string) { '%' !in s && '_' !in s }

  lemma {:induction false} GlobStar(s: string)
    ensures Glob("*", s)
  {
    if s != "" { GlobStar(s[1..]); }
  }

  lemma {:induction false} GlobLiteral(lit: string, tail: string, s: string)
    requires PlainGlob(lit)
    ensures Glob(lit + tail, s) <==> StartsWith(s, lit) && Glob(tail, s[|lit|..])
  {
    if lit == "" {
      assert lit + tail == tail && s[0..] == s;
    } else {
      var p := lit + tail;
      assert p[1..] == lit[1..] + tail && p[0] == lit[0] && lit[0] in lit;
      if s != "" {
        GlobLiteral(lit[1..], tail, s[1..]);
        if s[0] == lit[0] {
          StartsWithStep(s, lit);
          if StartsWith(s, lit) { assert s[1..][|lit| - 1..] == s[|lit|..]; }
        }
      }
    }
  }

  lemma StartsWithStep(s: string, lit: string)
    requires s != "" && lit != ""
    ensures StartsWith(s, lit) <==> s[0] == lit[0] && StartsWith(s[1..], lit[1..])
  {
    if |lit| <= |s| {
      assert s[..|lit|] == [s[0]] + s[1..][..|lit| - 1] && lit == [lit[0]] + lit[1..];
    }
  }

  /** `lit*` matches exactly the strings that start with `lit`. */
  lemma GlobPrefix(lit: string, s: string)
    requires PlainGlob(lit)
    ensures Glob(lit + "*", s) <==> StartsWith(s, lit)
  {
    GlobLiteral(lit, "*", s);
    if StartsWith(s, lit) { GlobStar(s[|lit|..]); }
  }

  lemma GlobExact(lit: string, s: string)
    requires PlainGlob(lit)
    ensures Glob(lit, s) <==> s == lit
  {
    GlobLiteral(lit, "", s);
    assert lit + "" == lit;
  }

  /** `*lit` matches exactly the strings that end with `lit`. */
  lemma {:induction false} GlobSuffix(lit: string, s: string)
    requires PlainGlob(lit)
    ensures Glob("*" + lit, s) <==> EndsWith(s, lit)
  {
    assert ("*" + lit)[1..] == lit;
    GlobExact(lit, s);
    if s != "" {
      GlobSuffix(lit, s[1..]);
      if |lit| < |s| { assert s[1..][|s| - 1 - |lit|..] == s[|s| - |lit|..]; }
    }
  }

  /** `*lit*` matches exactly the strings that contain `lit`. */
  lemma {:induction false} GlobInfix(lit: string, s: string)
    requires PlainGlob(lit)
    ensures Glob("*" + (lit + "*"), s) <==> Contains(s, lit)
  {
    assert ("*" + (lit + "*"))[1..] == lit + "*";
    GlobPrefix(lit, s);
    ContainsStep(s, lit);
    if s != "" { GlobInfix(lit, s[1..]); }
  }

  lemma OccursAtZero(s: string, lit: string)
    ensures OccursAt(s, lit, 0) <==> StartsWith(s, lit)
  {
    if |lit| <= |s| { assert s[0..0 + |lit|] == s[..|lit|]; }
  }

  lemma ContainsStep(s: string, lit: string)
    ensures Contains(s, lit) <==> StartsWith(s, lit) || (s != "" && Contains(s[1..], lit))
  {
    OccursAtZero(s, lit);
    if s != "" && Contains(s[1..], lit) {
      var k: nat :| k <= |s[1..]| && OccursAt(s[1..], lit, k);
      assert s[1..][k..k + |lit|] == s[k + 1..k + 1 + |lit|];
      assert OccursAt(s, lit, k + 1);
    }
    if Contains(s, lit) && !StartsWith(s, lit) {
      var k: nat :| k <= |s| && OccursAt(s, lit, k);
      OccursAtZero(s, lit);
      assert s[1..][k - 1..k - 1 + |lit|] == s[k..k + |lit|];
      assert OccursAt(s[1..], lit, k - 1);
    }
  }

  lemma {:induction false} PositionFinds(hay: string, needle: string)
    ensures Position(hay, needle) == 0 <==> !Contains(hay, needle)
  {
    ContainsStep(hay, needle);
    OccursAtZero(hay, needle);
    if OccursAt(hay, needle, 0) {
    } else if hay != "" {
      PositionFinds(hay[1..], needle);
    }
  }

  lemma {:induction false} LikeStar(s: string)
    ensures Like("%", s)
  {
    if s != "" { LikeStar(s[1..]); }
  }

  /** `lit%` matches exactly the strings that start with `lit` up to ASCII case. */
  lemma {:induction false} LikePrefix(lit: string, s: string)
    requires PlainLike(lit)
    ensures Like(lit + "%", s) <==> StartsWith(Lower(s), Lower(lit))
  {
    if lit == "" {
      assert lit + "%" == "%";
      LikeStar(s);
    } else {
      var p := lit + "%";
      assert p[1..] == lit[1..] + "%" && p[0] == lit[0] && lit[0] in lit;
      if s != "" {
        LikePrefix(lit[1..], s[1..]);
        StartsWithStep(Lower(s), Lower(lit));
        assert Lower(s)[1..] == Lower(s[1..]) && Lower(lit)[1..] == Lower(lit[1..]);
      }
    }
  }

  // ----- Expressions -----

  datatype Value = Null | Int(n: int) | Real(r: real, text: string) | Text(s: string) | Doc(m: Metadata)

  datatype Expr =
    | Col(qualified: bool, column: Column)
    | Str(s: string) | Num(n: int) | EmptyDoc
    | LowerOf(e: Expr) | Instr(e: Expr, needle: string)
    | JsonValid(e: Expr) | JsonExtract(e: Expr, key: Key) | JsonType(e: Expr, key: Key)
    | CaseWhen(cond: Expr, yes: Expr, no: Expr) | Coalesce(e: Expr, default: Expr)
    | Eq(left: Expr, right: Expr) | Ne(left: Expr, right: Expr)
    | GlobOf(e: Expr, pattern: string) | LikeOf(e: Expr, pattern: string)
    | Not(e: Expr)

  /** The row a predicate is evaluated on, and whether the query reads it under the alias `m`. */
  datatype Scope = Scope(row: Row, aliased: bool)

  function ColumnOf(row: Row, c: Column): Value {
    match c
    case IdCol => Text(row.id)
    case PathCol => Text(row.path)
    case SourceCol => Text(row.source)
    case CategoryCol => Text(row.category)
    case TopicCol => Text(row.topic)
    case DomainCol => if row.domain.Some? then Text(row.domain.value) else Null
    case MetadataCol => Doc(row.metadata)
  }

  function Extracted(j: Json): Value {
    match j
    case JNull => Null
    case JBool(b) => Int(if b then 1 else 0)
    case JInt(n) => Int(n)
    case JReal(r, text) => Real(r, text)
    case JString(s) => Text(s)
    case JArray(text) => Text(text)
    case JObject(text) => Text(text)
  }

  function TypeName(j: Json): string {
    match j
    case JNull => "null"
    case JBool(b) => if b then "true" else "false"
    case JInt(_) => "integer"
    case JReal(_, _) => "real"
    case JString(_) => "text"
    case JArray(_) => "array"
    case JObject(_) => "object"
  }

  function LowerText(v: Value): Option<Value> {
    match v
    case Null => Some(Null)
    case Int(n) => Some(Text(IntText(n)))
    case Real(_, text) => Some(Text(Lower(text)))
    case Text(s) => Some(Text(Lower(s)))
    case Doc(_) => None
  }

  function Bit(b: bool): Value { Int(if b then 1 else 0) }

  /** Values of different storage classes are never equal; numbers compare across integer and real. */
  predicate SameValue(a: Value, b: Value) {
    match (a, b)
    case (Int(n), Int(m)) => n == m
    case (Int(n), Real(r, _)) => n as real == r
    case (Real(r, _), Int(n)) => n as real == r
    case (Real(r, _), Real(q, _)) => r == q
    case (Text(s), Text(t)) => s == t
    case _ => false
  }

  function Compare(a: Value, b: Value, equal: bool): Value {
    if a == Null || b == Null then Null else Bit(SameValue(a, b) == equal)
  }

  datatype Truth = True | False | Unknown

  function TruthOf(v: Value): Truth {
    match v
    case Null => Unknown
    case Int(n) => if n != 0 then True else False
    case Real(r, _) => if r != 0.0 then True else False
    case _ => False
  }

  /**
   `None` is an SQL error: malformed JSON, a name that does not resolve, or a type the model does not give meaning to.
   */
  function Eval(scope: Scope, e: Expr): Option<Value> {
    match e
    case Col(q, c) => if q == scope.aliased then Some(ColumnOf(scope.row, c)) else None
    case Str(s) => Some(Text(s))
    case Num(n) => Some(Int(n))
    case EmptyDoc => Some(Doc(Object(map[])))
    case LowerOf(e) => (match Eval(scope, e) case None => None case Some(v) => LowerText(v))
    case Instr(e, needle) => (
      match Eval(scope, e)
      case Some(Text(s)) => Some(Int(Position(s, needle)))
      case Some(Null) => Some(Null)
      case _ => None)
    case JsonValid(e) => (
      match Eval(scope, e)
      case Some(Doc(m)) => Some(Bit(!m.Malformed?))
      case Some(Null) => Some(Null)
      case _ => None)
    case JsonExtract(e, k) => (
      match Eval(scope, e)
      case Some(Doc(Object(members))) => Some(if k in members then Extracted(members[k]) else Null)
      case Some(Doc(NonObject)) => Some(Null)
      case Some(Null) => Some(Null)
      case _ => None)
    case JsonType(e, k) => (
      match Eval(scope, e)
      case Some(Doc(Object(members))) => Some(if k in members then Text(TypeName(members[k])) else Null)
      case Some(Doc(NonObject)) => Some(Null)
      case Some(Null) => Some(Null)
      case _ => None)
    case CaseWhen(cond, yes, no) => (
      match Eval(scope, cond)
      case None => None
      case Some(v) => if TruthOf(v) == True then Eval(scope, yes) else Eval(scope, no))
    case Coalesce(e, default) => (
      match Eval(scope, e)
      case Some(Null) => Eval(scope, default)
      case r => r)
    case Eq(a, b) => (
      match (Eval(scope, a), Eval(scope, b))
      case (Some(x), Some(y)) => Some(Compare(x, y, true))
      case _ => None)
    case Ne(a, b) => (
      match (Eval(scope, a), Eval(scope, b))
      case (Some(x), Some(y)) => Some(Compare(x, y, false))
      case _ => None)
    case GlobOf(e, p) => (
      match Eval(scope, e)
      case Some(Text(s)) => Some(Bit(Glob(p, s)))
      case Some(Null) => Some(Null)
      case _ => None)
    case LikeOf(e, p) => (
      match Eval(scope, e)
      case Some(Text(s)) => Some(Bit(Like(p, s)))
      case Some(Null) => Some(Null)
      case _ => None)
    case Not(e) => (match Eval(scope, e) case None => None case Some(v) => Some(Negate(v)))
  }

  function Negate(v: Value): Value {
    match TruthOf(v) case True => Int(0) case False => Int(1) case Unknown => Null
  }

  /** AND of two evaluated operands, the left one first; a false left operand ends the evaluation. */
  function Both(a: Option<Value>, b: Option<Value>): Option<Value> {
    if a.None? then None
    else if TruthOf(a.value) == False then Some(Int(0))
    else if b.None? then None
    else if TruthOf(b.value) == False then Some(Int(0))
    else if TruthOf(a.value) == Unknown || TruthOf(b.value) == Unknown then Some(Null)
    else Some(Int(1))
  }

  function Either(a: Option<Value>, b: Option<Value>): Option<Value> {
    if a.None? then None
    else if TruthOf(a.value) == True then Some(Int(1))
    else if b.None? then None
    else if TruthOf(b.value) == True then Some(Int(1))
    else if TruthOf(a.value) == Unknown || TruthOf(b.value) == Unknown then Some(Null)
    else Some(Int(0))
  }

  /** `e0 AND e1 AND ...` and `e0 OR e1 OR ...`, associating to the left. */
  function EvalAnd(scope: Scope, es: seq<Expr>): Option<Value> {
    if es == [] then Some(Int(1)) else Both(EvalAnd(scope, es[..|es| - 1]), Eval(scope, es[|es| - 1]))
  }

  function EvalOr(scope: Scope, es: seq<Expr>): Option<Value> {
    if es == [] then Some(Int(0)) else Either(EvalOr(scope, es[..|es| - 1]), Eval(scope, es[|es| - 1]))
  }

  predicate Selects(r: Option<Value>) { r.Some? && TruthOf(r.value) == True }

  predicate Holds(scope: Scope, e: Expr) { Selects(Eval(scope, e)) }

  /** Evaluates without error to true or false, and to true exactly when `b`. */
  predicate Decides(scope: Scope, e: Expr, b: bool) { Eval(scope, e) == Some(Bit(b)) }

  lemma {:induction false} AndDecides(scope: Scope, es: seq<Expr>, bs: seq<bool>)
    requires |es| == |bs| && forall i | 0 <= i < |es| :: Decides(scope, es[i], bs[i])
    ensures EvalAnd(scope, es) == Some(Bit(forall i | 0 <= i < |bs| :: bs[i]))
  {
    if es != [] {
      AndDecides(scope, es[..|es| - 1], bs[..|bs| - 1]);
      var init := bs[..|bs| - 1];
      assert (forall i | 0 <= i < |bs| :: bs[i]) <==> (forall i | 0 <= i < |init| :: init[i]) && bs[|bs| - 1];
      assert Decides(scope, es[|es| - 1], bs[|bs| - 1]);
    }
  }

  /** A disjunction without error selects exactly when some term holds. */
  lemma {:induction false} OrSelects(scope: Scope, es: seq<Expr>)
    requires forall i | 0 <= i < |es| :: Eval(scope, es[i]).Some?
    ensures EvalOr(scope, es).Some? && (Selects(EvalOr(scope, es)) <==> exists i | 0 <= i < |es| :: Holds(scope, es[i]))
  {
    if es != [] {
      var init := es[..|es| - 1];
      OrSelects(scope, init);
      if exists i | 0 <= i < |es| :: Holds(scope, es[i]) {
        var i :| 0 <= i < |es| && Holds(scope, es[i]);
        if i < |init| { assert Holds(scope, init[i]); }
      }
      if exists i | 0 <= i < |init| :: Holds(scope, init[i]) {
        var i :| 0 <= i < |init| && Holds(scope, init[i]);
        assert Holds(scope, es[i]);
      }
    }
  }
}

module Namespace {
  import opened Prelude
  import opened Sql
  import PathRouter

  /** The literal names both sides use. */
  datatype Names = Names(
    foundryCache: string, rerankCache: string, cacheIdPrefix: string, cacheSegment: string, wikiRemPrefix: string,
    wikiLogPath: string, wikiLogTopic: string, anchorPrefix: string, anchorsPath: string, wiki: string, guide: string)

  const NAMES: Names := Names(
    "foundry_recall_rerank_cache", "recall_rerank_cache", "foundry:recall-cache:", "/recall-cache", "wiki-rem:",
    "/wiki/_log", "wiki_log", "anchor:", "/anchors", "wiki", "guide")

  predicate AsciiLower(lit: string) { forall i | 0 <= i < |lit| :: LowerOnly(lit[i]) && lit[i] as int < 0x80 }

  /**
   All the proofs need of the names: lower-case ASCII, no wildcard, and a cache key that reads like no number or
   bracket.
   */
  predicate ValidNames(n: Names) {
    && AsciiLower(n.foundryCache) && AsciiLower(n.rerankCache) && AsciiLower(n.wikiRemPrefix)
    && AsciiLower(n.wikiLogTopic)
    && PlainGlob(n.cacheIdPrefix) && PlainGlob(n.cacheSegment) && PlainGlob(n.wikiRemPrefix) && PlainGlob(n.wikiLogPath)
    && PlainGlob(n.anchorPrefix) && PlainGlob(n.anchorsPath)
    && n.foundryCache != "" && 'a' <= n.foundryCache[0] <= 'z'
    && AsciiLower(n.wiki) && AsciiLower(n.guide) && '/' !in n.wiki && PlainLike(n.wiki)
  }

  lemma CacheNamesAreLower()
    ensures AsciiLower("foundry_recall_rerank_cache")
  {
  }

  lemma OtherNamesAreLower()
    ensures AsciiLower("recall_rerank_cache") && AsciiLower("wiki-rem:") && AsciiLower("wiki_log")
  {
  }

  lemma CacheNamesArePlain()
    ensures PlainGlob("foundry:recall-cache:") && PlainGlob("/recall-cache")
  {
  }

  lemma WikiNamesArePlain()
    ensures PlainGlob("wiki-rem:") && PlainGlob("/wiki/_log")
  {
  }

  lemma AnchorNamesArePlain()
    ensures PlainGlob("anchor:") && PlainGlob("/anchors")
  {
  }

  lemma SurfaceNamesAreLower()
    ensures AsciiLower("wiki") && AsciiLower("guide") && '/' !in "wiki" && PlainLike("wiki")
  {
  }

  lemma NamesAreValid()
    ensures ValidNames(NAMES)
  {
    CacheNamesAreLower();
    OtherNamesAreLower();
    SurfaceNamesAreLower();
    CacheNamesArePlain();
    WikiNamesArePlain();
    AnchorNamesArePlain();
  }

  // ----- The classifiers -----

  /** Metadata as the row decoder hands it over: malformed text becomes an empty object. */
  function Members(row: Row): map<Key, Json> {
    if row.metadata.Object? then row.metadata.members else map[]
  }

  /** The first `n` bytes as text, when they end on a character boundary. */
  function BytePrefix(s: string, n: nat): Option<string> {
    if n == 0 then Some("")
    else if s == "" || CharOctets(s[0]) > n then None
    else match BytePrefix(s[1..], n - CharOctets(s[0])) case None => None case Some(t) => Some([s[0]] + t)
  }

  predicate EqIgnoreCase(a: string, b: string) { Lower(a) == Lower(b) }

  predicate IsReservedWikiRemId(n: Names, id: string) {
    var prefix := BytePrefix(id, |n.wikiRemPrefix|);
    prefix.Some? && EqIgnoreCase(prefix.value, n.wikiRemPrefix)
  }

  predicate MetadataBool(row: Row, k: Key) { k in Members(row) && Members(row)[k] == JBool(true) }

  predicate MetadataBoolOrOne(row: Row, k: Key) {
    k in Members(row) && match Members(row)[k]
                         case JBool(b) => b
                         case JInt(n) => n == 1
                         case JReal(r, _) => r == 1.0
                         case _ => false
  }

  predicate MetadataTextIs(row: Row, k: Key, expected: string) {
    k in Members(row) && Members(row)[k].JString? && EqIgnoreCase(Members(row)[k].s, expected)
  }

  predicate PathContainsRecallCache(n: Names, path: string) {
    || path == n.cacheSegment || EndsWith(path, n.cacheSegment)
    || Contains(path, n.cacheSegment + "/") || Contains(path, n.foundryCache)
  }

  predicate IsRecallCacheEntry(n: Names, row: Row) {
    || EqIgnoreCase(row.source, n.foundryCache) || EqIgnoreCase(row.id, n.foundryCache)
    || EqIgnoreCase(row.topic, n.foundryCache) || EqIgnoreCase(row.topic, n.rerankCache)
    || StartsWith(Lower(row.id), n.cacheIdPrefix)
    || PathContainsRecallCache(n, row.path)
    || MetadataBoolOrOne(row, RecallRerankCache)
    || MetadataTextIs(row, CacheKey, n.foundryCache)
  }

  predicate IsWikiLogEntry(n: Names, row: Row) {
    || row.path == n.wikiLogPath || StartsWith(row.path, n.wikiLogPath + "/")
    || EqIgnoreCase(row.topic, n.wikiLogTopic) || MetadataBoolOrOne(row, WikiLog)
  }

  predicate IsAnchorEntry(n: Names, row: Row) {
    InNamespace(row.path, n.anchorsPath) || StartsWith(row.id, n.anchorPrefix)
  }

  predicate IsUserFacingAllowingRecallCache(n: Names, row: Row) {
    !IsReservedWikiRemId(n, row.id) && !IsWikiLogEntry(n, row) && !IsAnchorEntry(n, row)
  }

  predicate IsUserFacing(n: Names, row: Row) { IsUserFacingAllowingRecallCache(n, row) && !IsRecallCacheEntry(n, row) }

  // ----- The SQL -----

  function SafeDoc(q: bool): Expr {
    CaseWhen(JsonValid(Col(q, MetadataCol)), Col(q, MetadataCol), EmptyDoc)
  }

  function FlagUnset(q: bool, k: Key): Expr { Ne(Coalesce(JsonExtract(SafeDoc(q), k), Num(0)), Num(1)) }

  function ExceptRecallCache(n: Names, q: bool): seq<Expr> {
    [ Ne(Col(q, PathCol), Str(n.wikiLogPath)),
      Not(GlobOf(Col(q, PathCol), (n.wikiLogPath + "/") + "*")),
      Ne(LowerOf(Col(q, TopicCol)), Str(n.wikiLogTopic)),
      Not(GlobOf(LowerOf(Col(q, IdCol)), n.wikiRemPrefix + "*")),
      Not(GlobOf(Col(q, IdCol), n.anchorPrefix + "*")),
      Ne(Col(q, PathCol), Str(n.anchorsPath)),
      Not(GlobOf(Col(q, PathCol), (n.anchorsPath + "/") + "*")),
      FlagUnset(q, WikiLog) ]
  }

  function NotCacheId(n: Names, q: bool): seq<Expr> {
    [ Ne(LowerOf(Col(q, IdCol)), Str(n.foundryCache)),
      Not(GlobOf(LowerOf(Col(q, IdCol)), n.cacheIdPrefix + "*")) ]
  }

  function NotCachePath(n: Names, q: bool): seq<Expr> {
    [ Not(GlobOf(Col(q, PathCol), "*" + n.cacheSegment)),
      Not(GlobOf(Col(q, PathCol), "*" + ((n.cacheSegment + "/") + "*"))),
      Eq(Instr(Col(q, PathCol), n.foundryCache), Num(0)) ]
  }

  function NotCacheName(n: Names, q: bool): seq<Expr> {
    [ Ne(LowerOf(Col(q, SourceCol)), Str(n.foundryCache)),
      Ne(LowerOf(Col(q, TopicCol)), Str(n.foundryCache)),
      Ne(LowerOf(Col(q, TopicCol)), Str(n.rerankCache)) ]
  }

  function NotCacheMetadata(n: Names, q: bool): seq<Expr> {
    [ FlagUnset(q, RecallRerankCache),
      Ne(LowerOf(Coalesce(JsonExtract(SafeDoc(q), CacheKey), Str(""))), Str(n.foundryCache)) ]
  }

  function NotRecallCache(n: Names, q: bool): seq<Expr> {
    NotCacheId(n, q) + NotCachePath(n, q) + NotCacheName(n, q) + NotCacheMetadata(n, q)
  }

  /** The conjuncts of the user-facing wiki predicate, in textual order. */
  function UserFacingWikiWhere(n: Names, qualified: bool, allowRecallCache: bool): seq<Expr> {
    if allowRecallCache then ExceptRecallCache(n, qualified)
    else ExceptRecallCache(n, qualified) + NotRecallCache(n, qualified)
  }

  // ----- Term by term -----

  lemma NotGlobTerm(scope: Scope, e: Expr, s: string, p: string)
    requires Eval(scope, e) == Some(Text(s))
    ensures Decides(scope, Not(GlobOf(e, p)), !Glob(p, s))
  {
    assert Eval(scope, GlobOf(e, p)) == Some(Bit(Glob(p, s)));
  }

  lemma NotPrefixTerm(scope: Scope, e: Expr, s: string, lit: string)
    requires Eval(scope, e) == Some(Text(s)) && PlainGlob(lit)
    ensures Decides(scope, Not(GlobOf(e, lit + "*")), !StartsWith(s, lit))
  {
    GlobPrefix(lit, s);
    NotGlobTerm(scope, e, s, lit + "*");
  }

  lemma NotSuffixTerm(scope: Scope, e: Expr, s: string, lit: string)
    requires Eval(scope, e) == Some(Text(s)) && PlainGlob(lit)
    ensures Decides(scope, Not(GlobOf(e, "*" + lit)), !EndsWith(s, lit))
  {
    GlobSuffix(lit, s);
    NotGlobTerm(scope, e, s, "*" + lit);
  }

  lemma NotInfixTerm(scope: Scope, e: Expr, s: string, lit: string)
    requires Eval(scope, e) == Some(Text(s)) && PlainGlob(lit)
    ensures Decides(scope, Not(GlobOf(e, "*" + (lit + "*"))), !Contains(s, lit))
  {
    GlobInfix(lit, s);
    NotGlobTerm(scope, e, s, "*" + (lit + "*"));
  }

  lemma NeTerm(scope: Scope, e: Expr, s: string, lit: string)
    requires Eval(scope, e) == Some(Text(s))
    ensures Decides(scope, Ne(e, Str(lit)), s != lit)
  {
  }

  lemma LowerColumn(scope: Scope, c: Column, s: string)
    requires ColumnOf(scope.row, c) == Text(s)
    ensures Eval(scope, LowerOf(Col(scope.aliased, c))) == Some(Text(Lower(s)))
  {
    assert Eval(scope, Col(scope.aliased, c)) == Some(Text(s));
  }

  lemma NeLowerTerm(scope: Scope, c: Column, s: string, lit: string)
    requires ColumnOf(scope.row, c) == Text(s)
    ensures Decides(scope, Ne(LowerOf(Col(scope.aliased, c)), Str(lit)), Lower(s) != lit)
  {
    LowerColumn(scope, c, s);
    NeTerm(scope, LowerOf(Col(scope.aliased, c)), Lower(s), lit);
  }

  lemma SafeDocEval(scope: Scope)
    ensures Eval(scope, SafeDoc(scope.aliased)) ==
            Some(Doc(if scope.row.metadata.Malformed? then Object(map[]) else scope.row.metadata))
  {
    var col := Col(scope.aliased, MetadataCol);
    assert Eval(scope, JsonValid(col)) == Some(Bit(!scope.row.metadata.Malformed?));
  }

  lemma ExtractEval(scope: Scope, k: Key)
    ensures Eval(scope, JsonExtract(SafeDoc(scope.aliased), k)) ==
            Some(if k in Members(scope.row) then Extracted(Members(scope.row)[k]) else Null)
  {
    SafeDocEval(scope);
  }

  lemma CoalesceEval(scope: Scope, e: Expr, d: Expr)
    ensures Eval(scope, Coalesce(e, d)) == if Eval(scope, e) == Some(Null) then Eval(scope, d) else Eval(scope, e)
  {
  }

  lemma FlagTerm(scope: Scope, k: Key)
    ensures Decides(scope, FlagUnset(scope.aliased, k), !MetadataBoolOrOne(scope.row, k))
  {
    ExtractEval(scope, k);
    var x := JsonExtract(SafeDoc(scope.aliased), k);
    CoalesceEval(scope, x, Num(0));
    assert Eval(scope, Num(0)) == Some(Int(0)) && Eval(scope, Num(1)) == Some(Int(1));
  }

  lemma LowerConstant(lit: string)
    requires forall i | 0 <= i < |lit| :: LowerOnly(lit[i])
    ensures forall s :: EqIgnoreCase(s, lit) <==> Lower(s) == lit
  {
    LowerFixed(lit);
  }

  /** What the lower-cased cache key reads as: the empty text when there is none. */
  function CacheKeyText(row: Row): Option<Value> {
    if CacheKey in Members(row) && Members(row)[CacheKey] != JNull then LowerText(Extracted(Members(row)[CacheKey]))
    else Some(Text(""))
  }

  /** A JSON number, array or object never renders as the cache key, so only a JSON string can match. */
  lemma CacheKeyMatches(n: Names, row: Row)
    requires ValidNames(n)
    requires ValidRow(row)
    ensures CacheKeyText(row).Some? && CacheKeyText(row).value.Text?
    ensures CacheKeyText(row).value.s == n.foundryCache <==> MetadataTextIs(row, CacheKey, n.foundryCache)
  {
    LowerConstant(n.foundryCache);
    if CacheKey in Members(row) { assert Rendered(Members(row)[CacheKey]); }
  }

  lemma CacheKeyTerm(n: Names, scope: Scope)
    requires ValidNames(n)
    requires ValidRow(scope.row)
    ensures Decides(scope,
                    Ne(LowerOf(Coalesce(JsonExtract(SafeDoc(scope.aliased), CacheKey), Str(""))), Str(n.foundryCache)),
                    !MetadataTextIs(scope.row, CacheKey, n.foundryCache))
  {
    var x := JsonExtract(SafeDoc(scope.aliased), CacheKey);
    ExtractEval(scope, CacheKey);
    CoalesceEval(scope, x, Str(""));
    CacheKeyMatches(n, scope.row);
    LowerFixed("");
    assert Eval(scope, LowerOf(Coalesce(x, Str("")))) == CacheKeyText(scope.row);
    NeTerm(scope, LowerOf(Coalesce(x, Str(""))), CacheKeyText(scope.row).value.s, n.foundryCache);
  }

  lemma ReservedIdIsPrefix(n: Names, id: string)
    requires ValidNames(n)
    ensures IsReservedWikiRemId(n, id) <==> StartsWith(Lower(id), n.wikiRemPrefix)
  {
    LowerConstant(n.wikiRemPrefix);
    BytePrefixFolds(id, n.wikiRemPrefix);
  }

  /** Slicing by bytes and then folding finds the same ASCII prefix as folding and then comparing. */
  lemma {:induction false} BytePrefixFolds(s: string, lit: string)
    requires AsciiLower(lit)
    ensures BytePrefix(s, |lit|).Some? && Lower(BytePrefix(s, |lit|).value) == lit <==> StartsWith(Lower(s), lit)
  {
    if lit == "" {
      assert BytePrefix(s, 0) == Some("");
    } else if s != "" {
      StartsWithStep(Lower(s), lit);
      assert Lower(s)[1..] == Lower(s[1..]);
      if LowerChar(s[0]) == lit[0] {
        BytePrefixFolds(s[1..], lit[1..]);
        BytePrefixMatch(s, lit);
      } else {
        BytePrefixMismatch(s, lit);
      }
    }
  }

  lemma BytePrefixMatch(s: string, lit: string)
    requires lit != "" && s != "" && LowerChar(s[0]) == lit[0] && lit[0] as int < 0x80
    ensures var (r, t) := (BytePrefix(s, |lit|), BytePrefix(s[1..], |lit| - 1));
            r.Some? && Lower(r.value) == lit <==> t.Some? && Lower(t.value) == lit[1..]
  {
    var (r, t) := (BytePrefix(s, |lit|), BytePrefix(s[1..], |lit| - 1));
    assert r == if t.Some? then Some([s[0]] + t.value) else None;
    if t.Some? {
      LowerCons(s[0], t.value);
      ConsEquals(lit[0], Lower(t.value), lit);
    }
  }

  lemma ConsEquals(c: char, t: string, s: string)
    requires s != "" && s[0] == c
    ensures [c] + t == s <==> t == s[1..]
  {
    assert s == [s[0]] + s[1..];
  }

  lemma BytePrefixMismatch(s: string, lit: string)
    requires lit != "" && s != "" && LowerChar(s[0]) != lit[0]
    ensures var r := BytePrefix(s, |lit|); !(r.Some? && Lower(r.value) == lit)
  {
    var r := BytePrefix(s, |lit|);
    assert r.Some? ==> r.value != "" && r.value[0] == s[0];
  }

  lemma LowerCons(c: char, t: string)
    ensures Lower([c] + t) == [LowerChar(c)] + Lower(t)
  {
    assert ([c] + t)[1..] == t;
  }

  // ----- The two sides agree -----

  lemma PlainSlash(lit: string)
    requires PlainGlob(lit)
    ensures PlainGlob(lit + "/")
  {
  }

  lemma WikiLogTerm(n: Names, scope: Scope, i: nat)
    requires ValidNames(n) && i < 3
    ensures Decides(scope, ExceptRecallCache(n, scope.aliased)[i], ExceptRecallCacheBits(n, scope.row)[i])
  {
    var (row, q) := (scope.row, scope.aliased);
    if i == 0 {
      NeTerm(scope, Col(q, PathCol), row.path, n.wikiLogPath);
    } else if i == 1 {
      PlainSlash(n.wikiLogPath);
      NotPrefixTerm(scope, Col(q, PathCol), row.path, n.wikiLogPath + "/");
    } else {
      NeLowerTerm(scope, TopicCol, row.topic, n.wikiLogTopic);
    }
  }

  lemma ExceptRecallCacheTerm(n: Names, scope: Scope, i: nat)
    requires ValidNames(n) && i < 8
    ensures Decides(scope, ExceptRecallCache(n, scope.aliased)[i], ExceptRecallCacheBits(n, scope.row)[i])
  {
    var (row, q) := (scope.row, scope.aliased);
    if i < 3 {
      WikiLogTerm(n, scope, i);
    } else if i == 3 {
      NotPrefixTerm(scope, LowerOf(Col(q, IdCol)), Lower(row.id), n.wikiRemPrefix);
    } else if i == 4 {
      NotPrefixTerm(scope, Col(q, IdCol), row.id, n.anchorPrefix);
    } else if i == 5 {
      NeTerm(scope, Col(q, PathCol), row.path, n.anchorsPath);
    } else if i == 6 {
      PlainSlash(n.anchorsPath);
      NotPrefixTerm(scope, Col(q, PathCol), row.path, n.anchorsPath + "/");
    } else {
      FlagTerm(scope, WikiLog);
    }
  }

  lemma ExceptRecallCacheDecides(n: Names, scope: Scope)
    requires ValidNames(n)
    ensures EvalAnd(scope, ExceptRecallCache(n, scope.aliased)) ==
            Some(Bit(IsUserFacingAllowingRecallCache(n, scope.row)))
  {
    var (es, bs) := (ExceptRecallCache(n, scope.aliased), ExceptRecallCacheBits(n, scope.row));
    forall i | 0 <= i < |es| ensures Decides(scope, es[i], bs[i]) { ExceptRecallCacheTerm(n, scope, i); }
    AndDecides(scope, es, bs);
    ExceptRecallCacheMeans(n, scope.row);
  }

  function ExceptRecallCacheBits(n: Names, row: Row): seq<bool> {
    [ row.path != n.wikiLogPath, !StartsWith(row.path, n.wikiLogPath + "/"), Lower(row.topic) != n.wikiLogTopic,
      !StartsWith(Lower(row.id), n.wikiRemPrefix), !StartsWith(row.id, n.anchorPrefix),
      row.path != n.anchorsPath, !StartsWith(row.path, n.anchorsPath + "/"), !MetadataBoolOrOne(row, WikiLog) ]
  }

  lemma ExceptRecallCacheMeans(n: Names, row: Row)
    requires ValidNames(n)
    ensures var bs := ExceptRecallCacheBits(n, row);
            (forall i | 0 <= i < |bs| :: bs[i]) <==> IsUserFacingAllowingRecallCache(n, row)
  {
    var bs := ExceptRecallCacheBits(n, row);
    LowerConstant(n.wikiLogTopic);
    ReservedIdIsPrefix(n, row.id);
    assert (forall i | 0 <= i < |bs| :: bs[i]) <==>
        bs[0] && bs[1] && bs[2] && bs[3] && bs[4] && bs[5] && bs[6] && bs[7];
  }

  /** Each conjunct evaluates to the truth of the matching condition. */
  ghost predicate AllDecide(scope: Scope, es: seq<Expr>, bs: seq<bool>) {
    |es| == |bs| && forall i | 0 <= i < |es| :: Decides(scope, es[i], bs[i])
  }

  ghost predicate AllTrue(bs: seq<bool>) { forall i | 0 <= i < |bs| :: bs[i] }

  lemma AllDecideConcat(scope: Scope, ea: seq<Expr>, ba: seq<bool>, eb: seq<Expr>, bb: seq<bool>)
    requires AllDecide(scope, ea, ba) && AllDecide(scope, eb, bb)
    ensures AllDecide(scope, ea + eb, ba + bb) && (AllTrue(ba + bb) <==> AllTrue(ba) && AllTrue(bb))
  {
    var (e, b) := (ea + eb, ba + bb);
    forall i | 0 <= i < |e| ensures Decides(scope, e[i], b[i]) {
      if i < |ea| { assert Decides(scope, ea[i], ba[i]); } else { assert Decides(scope, eb[i - |ea|], bb[i - |ea|]); }
    }
    if AllTrue(b) {
      forall i | 0 <= i < |ba| ensures ba[i] { assert b[i] == ba[i]; }
      forall i | 0 <= i < |bb| ensures bb[i] { assert b[|ba| + i] == bb[i]; }
    }
  }

  function NotCacheIdBits(n: Names, row: Row): seq<bool> {
    [ Lower(row.id) != n.foundryCache, !StartsWith(Lower(row.id), n.cacheIdPrefix) ]
  }

  function NotCachePathBits(n: Names, row: Row): seq<bool> {
    [ !EndsWith(row.path, n.cacheSegment), !Contains(row.path, n.cacheSegment + "/"),
     !Contains(row.path, n.foundryCache) ]
  }

  function NotCacheNameBits(n: Names, row: Row): seq<bool> {
    [ Lower(row.source) != n.foundryCache, Lower(row.topic) != n.foundryCache, Lower(row.topic) != n.rerankCache ]
  }

  function NotCacheMetadataBits(n: Names, row: Row): seq<bool> {
    [ !MetadataBoolOrOne(row, RecallRerankCache), !MetadataTextIs(row, CacheKey, n.foundryCache) ]
  }

  function NotRecallCacheBits(n: Names, row: Row): seq<bool> {
    NotCacheIdBits(n, row) + NotCachePathBits(n, row) + NotCacheNameBits(n, row) + NotCacheMetadataBits(n, row)
  }

  lemma InstrTerm(scope: Scope, e: Expr, s: string, needle: string)
    requires Eval(scope, e) == Some(Text(s))
    ensures Decides(scope, Eq(Instr(e, needle), Num(0)), !Contains(s, needle))
  {
    PositionFinds(s, needle);
    assert Eval(scope, Instr(e, needle)) == Some(Int(Position(s, needle)));
  }

  lemma NotCacheIdTerms(n: Names, scope: Scope)
    requires ValidNames(n)
    ensures AllDecide(scope, NotCacheId(n, scope.aliased), NotCacheIdBits(n, scope.row))
  {
    NeLowerTerm(scope, IdCol, scope.row.id, n.foundryCache);
    LowerColumn(scope, IdCol, scope.row.id);
    NotPrefixTerm(scope, LowerOf(Col(scope.aliased, IdCol)), Lower(scope.row.id), n.cacheIdPrefix);
  }

  lemma NotCachePathTerms(n: Names, scope: Scope)
    requires ValidNames(n)
    ensures AllDecide(scope, NotCachePath(n, scope.aliased), NotCachePathBits(n, scope.row))
  {
    var (row, path) := (scope.row, Col(scope.aliased, PathCol));
    NotSuffixTerm(scope, path, row.path, n.cacheSegment);
    PlainSlash(n.cacheSegment);
    NotInfixTerm(scope, path, row.path, n.cacheSegment + "/");
    InstrTerm(scope, path, row.path, n.foundryCache);
  }

  lemma NotCacheNameTerms(n: Names, scope: Scope)
    requires ValidNames(n)
    ensures AllDecide(scope, NotCacheName(n, scope.aliased), NotCacheNameBits(n, scope.row))
  {
    NeLowerTerm(scope, SourceCol, scope.row.source, n.foundryCache);
    NeLowerTerm(scope, TopicCol, scope.row.topic, n.foundryCache);
    NeLowerTerm(scope, TopicCol, scope.row.topic, n.rerankCache);
  }

  lemma NotCacheMetadataTerms(n: Names, scope: Scope)
    requires ValidNames(n) && ValidRow(scope.row)
    ensures AllDecide(scope, NotCacheMetadata(n, scope.aliased), NotCacheMetadataBits(n, scope.row))
  {
    FlagTerm(scope, RecallRerankCache);
    CacheKeyTerm(n, scope);
  }

  lemma NotRecallCacheTerms(n: Names, scope: Scope)
    requires ValidNames(n) && ValidRow(scope.row)
    ensures AllDecide(scope, NotRecallCache(n, scope.aliased), NotRecallCacheBits(n, scope.row))
    ensures AllTrue(NotRecallCacheBits(n, scope.row)) <==>
            AllTrue(NotCacheIdBits(n, scope.row)) && AllTrue(NotCachePathBits(n, scope.row)) &&
            AllTrue(NotCacheNameBits(n, scope.row)) && AllTrue(NotCacheMetadataBits(n, scope.row))
  {
    var (q, row) := (scope.aliased, scope.row);
    var (e1, e2, e3, e4) := (NotCacheId(n, q), NotCachePath(n, q), NotCacheName(n, q), NotCacheMetadata(n, q));
    var (b1, b2, b3, b4) :=
        (NotCacheIdBits(n, row), NotCachePathBits(n, row), NotCacheNameBits(n, row), NotCacheMetadataBits(n, row));
    NotCacheIdTerms(n, scope);
    NotCachePathTerms(n, scope);
    NotCacheNameTerms(n, scope);
    NotCacheMetadataTerms(n, scope);
    AllDecideConcat(scope, e1, b1, e2, b2);
    AllDecideConcat(scope, e1 + e2, b1 + b2, e3, b3);
    AllDecideConcat(scope, e1 + e2 + e3, b1 + b2 + b3, e4, b4);
  }

  lemma AllTrueOfTwo(a: bool, b: bool)
    ensures AllTrue([a, b]) <==> a && b
  {
    var s := [a, b];
    assert AllTrue(s) ==> s[0] && s[1];
  }

  lemma AllTrueOfThree(a: bool, b: bool, c: bool)
    ensures AllTrue([a, b, c]) <==> a && b && c
  {
    var s := [a, b, c];
    assert AllTrue(s) ==> s[0] && s[1] && s[2];
  }

  lemma NotRecallCacheMeans(n: Names, row: Row)
    requires ValidNames(n)
    ensures (&& AllTrue(NotCacheIdBits(n, row)) && AllTrue(NotCachePathBits(n, row))
             && AllTrue(NotCacheNameBits(n, row)) && AllTrue(NotCacheMetadataBits(n, row)))
            <==> !IsRecallCacheEntry(n, row)
  {
    LowerConstant(n.foundryCache);
    LowerConstant(n.rerankCache);
    AllTrueOfTwo(Lower(row.id) != n.foundryCache, !StartsWith(Lower(row.id), n.cacheIdPrefix));
    AllTrueOfThree(!EndsWith(row.path, n.cacheSegment), !Contains(row.path, n.cacheSegment + "/"),
                   !Contains(row.path, n.foundryCache));
    AllTrueOfThree(Lower(row.source) != n.foundryCache, Lower(row.topic) != n.foundryCache,
                   Lower(row.topic) != n.rerankCache);
    AllTrueOfTwo(!MetadataBoolOrOne(row, RecallRerankCache), !MetadataTextIs(row, CacheKey, n.foundryCache));
  }

  /**
   For every row, both column qualifications and both recall-cache settings, the SQL predicate evaluates without
   error, never to NULL, and to true exactly when the matching classifier accepts the row.
   */
  lemma UserFacingWikiAgrees(n: Names, row: Row, qualified: bool, allowRecallCache: bool)
    requires ValidNames(n) && ValidRow(row)
    ensures EvalAnd(Scope(row, qualified), UserFacingWikiWhere(n, qualified, allowRecallCache)) ==
            Some(Bit(if allowRecallCache then IsUserFacingAllowingRecallCache(n, row) else IsUserFacing(n, row)))
  {
    var scope := Scope(row, qualified);
    if allowRecallCache {
      ExceptRecallCacheDecides(n, scope);
    } else {
      var (ea, eb) := (ExceptRecallCache(n, qualified), NotRecallCache(n, qualified));
      var (ba, bb) := (ExceptRecallCacheBits(n, row), NotRecallCacheBits(n, row));
      forall i | 0 <= i < |ea| ensures Decides(scope, ea[i], ba[i]) { ExceptRecallCacheTerm(n, scope, i); }
      NotRecallCacheTerms(n, scope);
      AllDecideConcat(scope, ea, ba, eb, bb);
      AndDecides(scope, ea + eb, ba + bb);
      ExceptRecallCacheMeans(n, row);
      NotRecallCacheMeans(n, row);
    }
  }

  /** The same, for the names the store really uses. */
  lemma UserFacingWikiSqlMirrorsRust(row: Row, qualified: bool, allowRecallCache: bool)
    requires ValidRow(row)
    ensures EvalAnd(Scope(row, qualified), UserFacingWikiWhere(NAMES, qualified, allowRecallCache)) ==
            Some(Bit(if allowRecallCache then IsUserFacingAllowingRecallCache(NAMES, row)
                     else IsUserFacing(NAMES, row)))
  {
    NamesAreValid();
    UserFacingWikiAgrees(NAMES, row, qualified, allowRecallCache);
  }

  // ----- What both sides hide, one condition after the other -----

  /** The metadata of the row is an object with `k` set to true or to the number one. */
  predicate Flagged(row: Row, k: Key) {
    && row.metadata.Object? && k in row.metadata.members
    && var v := row.metadata.members[k];
       v == JBool(true) || v == JInt(1) || (v.JReal? && v.r == 1.0)
  }

  /** Bookkeeping that is never shown: the wiki log, wiki maintenance operations and anchors. */
  predicate Bookkeeping(n: Names, row: Row) {
    || row.path == n.wikiLogPath || StartsWith(row.path, n.wikiLogPath + "/")
    || Lower(row.topic) == n.wikiLogTopic || Flagged(row, WikiLog)
    || StartsWith(Lower(row.id), n.wikiRemPrefix)
    || StartsWith(row.id, n.anchorPrefix) || row.path == n.anchorsPath || StartsWith(row.path, n.anchorsPath + "/")
  }

  /** A row of the recall cache, by its id, source, topic, path or metadata. */
  predicate Cached(n: Names, row: Row) {
    || Lower(row.id) == n.foundryCache || Lower(row.source) == n.foundryCache || Lower(row.topic) == n.foundryCache
    || Lower(row.topic) == n.rerankCache || StartsWith(Lower(row.id), n.cacheIdPrefix)
    || EndsWith(row.path, n.cacheSegment) || Contains(row.path, n.cacheSegment + "/")
    || Contains(row.path, n.foundryCache) || Flagged(row, RecallRerankCache)
    || (row.metadata.Object? && CacheKey in row.metadata.members && row.metadata.members[CacheKey].JString?
        && Lower(row.metadata.members[CacheKey].s) == n.foundryCache)
  }

  lemma FlaggedMeans(row: Row, k: Key)
    ensures MetadataBoolOrOne(row, k) <==> Flagged(row, k)
  {
  }

  lemma BookkeepingMeans(n: Names, row: Row)
    requires ValidNames(n)
    ensures IsUserFacingAllowingRecallCache(n, row) <==> !Bookkeeping(n, row)
  {
    LowerConstant(n.wikiLogTopic);
    ReservedIdIsPrefix(n, row.id);
    FlaggedMeans(row, WikiLog);
  }

  lemma CachedMeans(n: Names, row: Row)
    requires ValidNames(n)
    ensures IsRecallCacheEntry(n, row) <==> Cached(n, row)
  {
    LowerConstant(n.foundryCache);
    LowerConstant(n.rerankCache);
    FlaggedMeans(row, RecallRerankCache);
  }

  /** The SQL predicate shows a row exactly when it is no bookkeeping and, unless asked for, not of the recall cache. */
  lemma UserFacingWikiMeans(n: Names, row: Row, qualified: bool, allowRecallCache: bool)
    requires ValidNames(n) && ValidRow(row)
    ensures Selects(EvalAnd(Scope(row, qualified), UserFacingWikiWhere(n, qualified, allowRecallCache))) <==>
            !Bookkeeping(n, row) && (allowRecallCache || !Cached(n, row))
  {
    UserFacingWikiAgrees(n, row, qualified, allowRecallCache);
    BookkeepingMeans(n, row);
    CachedMeans(n, row);
  }

  /** The names of the store, as the queries spell them. */
  lemma NamesAreSpelled()
    ensures NAMES.wikiLogPath == "/wiki/_log" && NAMES.wikiLogTopic == "wiki_log" && NAMES.wikiRemPrefix == "wiki-rem:"
    ensures NAMES.anchorPrefix == "anchor:" && NAMES.anchorsPath == "/anchors"
    ensures NAMES.foundryCache == "foundry_recall_rerank_cache" && NAMES.rerankCache == "recall_rerank_cache"
    ensures NAMES.cacheIdPrefix == "foundry:recall-cache:" && NAMES.cacheSegment == "/recall-cache"
    ensures NAMES.wiki == "wiki" && NAMES.guide == "guide"
  {
  }

  // ----- Retrieval surfaces -----

  datatype Surface = Docs | Memory

  function WikiPath(n: Names): string { "/" + n.wiki }

  predicate IsWikiEntry(n: Names, row: Row) {
    || InNamespace(row.path, WikiPath(n)) || EqIgnoreCase(row.source, n.wiki) || EqIgnoreCase(row.category, n.wiki)
    || (row.domain.Some? && EqIgnoreCase(row.domain.value, n.wiki)) || MetadataBool(row, Wiki)
  }

  function SurfaceOf(n: Names, row: Row): Surface {
    if IsWikiEntry(n, row) || EqIgnoreCase(row.category, n.guide) then Docs else Memory
  }

  function DocsWhere(n: Names, q: bool): seq<Expr> {
    [ Eq(Col(q, PathCol), Str(WikiPath(n))),
      LikeOf(Col(q, PathCol), (WikiPath(n) + "/") + "%"),
      Eq(LowerOf(Col(q, SourceCol)), Str(n.wiki)),
      Eq(LowerOf(Col(q, CategoryCol)), Str(n.wiki)),
      Eq(LowerOf(Col(q, CategoryCol)), Str(n.guide)),
      Eq(LowerOf(Col(q, DomainCol)), Str(n.wiki)),
      Eq(JsonType(Col(q, MetadataCol), Wiki), Str("true")) ]
  }

  /** `COALESCE((docs_where), 0)`. */
  function DocsValue(n: Names, scope: Scope): Option<Value> {
    var v := EvalOr(scope, DocsWhere(n, scope.aliased));
    if v == Some(Null) then Some(Int(0)) else v
  }

  /** What the spliced clause lets through: everything when no surface is asked for. */
  predicate ClauseSelects(n: Names, surface: Option<Surface>, scope: Scope) {
    match surface
    case None => true
    case Some(Docs) => Selects(DocsValue(n, scope))
    case Some(Memory) => var v := DocsValue(n, scope); v.Some? && TruthOf(Negate(v.value)) == True
  }

  /** The signals the SQL sees; only the path term differs from the classifier, by folding case. */
  predicate FoldedWikiPath(n: Names, row: Row) {
    row.path == WikiPath(n) || StartsWith(Lower(row.path), WikiPath(n) + "/")
  }

  predicate OtherDocsSignal(n: Names, row: Row) {
    || EqIgnoreCase(row.source, n.wiki) || EqIgnoreCase(row.category, n.wiki) || EqIgnoreCase(row.category, n.guide)
    || (row.domain.Some? && EqIgnoreCase(row.domain.value, n.wiki))
  }

  lemma EqLowerTerm(scope: Scope, c: Column, v: Option<string>, lit: string)
    requires AsciiLower(lit) && ColumnOf(scope.row, c) == (if v.Some? then Text(v.value) else Null)
    ensures var e := Eq(LowerOf(Col(scope.aliased, c)), Str(lit));
            Eval(scope, e).Some? && (Holds(scope, e) <==> v.Some? && EqIgnoreCase(v.value, lit))
  {
    LowerConstant(lit);
    var e := LowerOf(Col(scope.aliased, c));
    assert Eval(scope, Col(scope.aliased, c)) == Some(ColumnOf(scope.row, c));
    assert Eval(scope, e) == Some(if v.Some? then Text(Lower(v.value)) else Null);
  }

  lemma WikiPrefixIsPlain(n: Names)
    requires ValidNames(n)
    ensures PlainLike(WikiPath(n) + "/") && Lower(WikiPath(n) + "/") == WikiPath(n) + "/"
  {
    var lit := WikiPath(n) + "/";
    assert forall i | 0 <= i < |lit| :: LowerOnly(lit[i]);
    LowerFixed(lit);
  }

  lemma PathTerms(n: Names, scope: Scope)
    requires ValidNames(n)
    ensures var (e0, e1) := (DocsWhere(n, scope.aliased)[0], DocsWhere(n, scope.aliased)[1]);
            && Eval(scope, e0).Some? && Eval(scope, e1).Some?
            && (Holds(scope, e0) || Holds(scope, e1) <==> FoldedWikiPath(n, scope.row))
  {
    var (row, path, lit) := (scope.row, Col(scope.aliased, PathCol), WikiPath(n) + "/");
    WikiPrefixIsPlain(n);
    LikePrefix(lit, row.path);
    assert Eval(scope, path) == Some(Text(row.path));
    assert Eval(scope, LikeOf(path, lit + "%")) == Some(Bit(Like(lit + "%", row.path)));
  }

  lemma TypeTerm(n: Names, scope: Scope)
    requires !scope.row.metadata.Malformed?
    ensures var e := DocsWhere(n, scope.aliased)[6];
            Eval(scope, e).Some? && (Holds(scope, e) <==> MetadataBool(scope.row, Wiki))
  {
    var (row, doc) := (scope.row, Col(scope.aliased, MetadataCol));
    assert Eval(scope, doc) == Some(Doc(row.metadata));
    var t := if Wiki in Members(row) then Text(TypeName(Members(row)[Wiki])) else Null;
    assert Eval(scope, JsonType(doc, Wiki)) == Some(t);
    if Wiki in Members(row) { TypeNameTrue(Members(row)[Wiki]); }
  }

  lemma TypeNameTrue(j: Json)
    ensures TypeName(j) == "true" <==> j == JBool(true)
  {
    assert "null"[0] == 'n' && "false"[0] == 'f' && "integer"[0] == 'i' && "real"[0] == 'r' && "array"[0] == 'a'
        && "object"[0] == 'o';
    assert "text"[1] == 'e' && "true"[1] == 'r';
  }

  lemma OtherTerms(n: Names, scope: Scope)
    requires ValidNames(n)
    ensures var es := DocsWhere(n, scope.aliased);
            && Eval(scope, es[2]).Some? && Eval(scope, es[3]).Some? && Eval(scope, es[4]).Some?
            && Eval(scope, es[5]).Some?
            && (Holds(scope, es[2]) || Holds(scope, es[3]) || Holds(scope, es[4]) || Holds(scope, es[5]) <==>
                OtherDocsSignal(n, scope.row))
  {
    var row := scope.row;
    EqLowerTerm(scope, SourceCol, Some(row.source), n.wiki);
    EqLowerTerm(scope, CategoryCol, Some(row.category), n.wiki);
    EqLowerTerm(scope, CategoryCol, Some(row.category), n.guide);
    EqLowerTerm(scope, DomainCol, row.domain, n.wiki);
  }

  /** The guarded disjunction never errs on well-formed metadata and is true exactly on the folded signals. */
  lemma DocsValueMeans(n: Names, scope: Scope)
    requires ValidNames(n) && !scope.row.metadata.Malformed?
    ensures var v := DocsValue(n, scope);
            && v.Some? && v.value != Null
            && (Selects(v) <==>
                FoldedWikiPath(n, scope.row) || OtherDocsSignal(n, scope.row) || MetadataBool(scope.row, Wiki))
  {
    var es := DocsWhere(n, scope.aliased);
    PathTerms(n, scope);
    OtherTerms(n, scope);
    TypeTerm(n, scope);
    forall i | 0 <= i < |es| ensures Eval(scope, es[i]).Some? {
      assert i == 0 || i == 1 || i == 2 || i == 3 || i == 4 || i == 5 || i == 6;
    }
    OrSelects(scope, es);
    assert (exists i | 0 <= i < |es| :: Holds(scope, es[i])) <==>
      Holds(scope, es[0]) || Holds(scope, es[1]) || Holds(scope, es[2]) || Holds(scope, es[3]) || Holds(scope, es[4])
          || Holds(scope, es[5]) || Holds(scope, es[6]);
  }

  /** Every term but the metadata one, on any metadata. */
  lemma FirstSixTerms(n: Names, scope: Scope)
    requires ValidNames(n)
    ensures var v := EvalOr(scope, DocsWhere(n, scope.aliased)[..6]);
            v.Some? && (Selects(v) <==> FoldedWikiPath(n, scope.row) || OtherDocsSignal(n, scope.row))
  {
    var es := DocsWhere(n, scope.aliased)[..6];
    PathTerms(n, scope);
    OtherTerms(n, scope);
    forall i | 0 <= i < |es| ensures Eval(scope, es[i]).Some? {
      assert i == 0 || i == 1 || i == 2 || i == 3 || i == 4 || i == 5;
    }
    OrSelects(scope, es);
    assert (exists i | 0 <= i < |es| :: Holds(scope, es[i])) <==>
      Holds(scope, es[0]) || Holds(scope, es[1]) || Holds(scope, es[2]) || Holds(scope, es[3]) || Holds(scope, es[4])
          || Holds(scope, es[5]);
  }

  lemma EvalOrLast(scope: Scope, es: seq<Expr>)
    requires es != []
    ensures EvalOr(scope, es) == Either(EvalOr(scope, es[..|es| - 1]), Eval(scope, es[|es| - 1]))
  {
  }

  lemma MalformedTerm(scope: Scope)
    requires scope.row.metadata.Malformed?
    ensures Eval(scope, Eq(JsonType(Col(scope.aliased, MetadataCol), Wiki), Str("true"))).None?
  {
    assert Eval(scope, Col(scope.aliased, MetadataCol)) == Some(Doc(Malformed));
    assert Eval(scope, JsonType(Col(scope.aliased, MetadataCol), Wiki)).None?;
  }

  /**
   On malformed metadata the clause is an SQL error unless an earlier term already made it true: never a silent
   answer.
   */
  lemma MalformedMetadataErrs(n: Names, scope: Scope)
    requires ValidNames(n) && scope.row.metadata.Malformed?
    ensures DocsValue(n, scope).None? <==> !FoldedWikiPath(n, scope.row) && !OtherDocsSignal(n, scope.row)
    ensures DocsValue(n, scope).Some? ==> Selects(DocsValue(n, scope))
    ensures !ClauseSelects(n, Some(Memory), scope)
  {
    FirstSixTerms(n, scope);
    MalformedTerm(scope);
    EvalOrLast(scope, DocsWhere(n, scope.aliased));
  }

  /**
   A search without a surface lets every row through. No row is in both surfaces, whatever its domain, and every row is
   in one, except where the query fails: on malformed metadata without any other docs signal.
   */
  lemma SurfacesPartition(n: Names, row: Row, qualified: bool)
    requires ValidNames(n)
    ensures var (scope, fails) :=
            (Scope(row, qualified), row.metadata.Malformed? && !FoldedWikiPath(n, row) && !OtherDocsSignal(n, row));
            && ClauseSelects(n, None, scope)
            && !(ClauseSelects(n, Some(Docs), scope) && ClauseSelects(n, Some(Memory), scope))
            && (ClauseSelects(n, Some(Docs), scope) || ClauseSelects(n, Some(Memory), scope) <==> !fails)
            && (fails <==> DocsValue(n, scope).None?)
  {
    if row.metadata.Malformed? {
      MalformedMetadataErrs(n, Scope(row, qualified));
    } else {
      DocsValueMeans(n, Scope(row, qualified));
    }
  }

  /** The SQL and the classifier disagree exactly on a wiki path in foreign case with no other docs signal. */
  lemma SurfaceAgreesExactly(n: Names, row: Row, qualified: bool)
    requires ValidNames(n) && !row.metadata.Malformed?
    ensures (ClauseSelects(n, Some(SurfaceOf(n, row)), Scope(row, qualified))) <==>
            !(FoldedWikiPath(n, row) && !InNamespace(row.path, WikiPath(n)) && !OtherDocsSignal(n, row)
              && !MetadataBool(row, Wiki))
  {
    DocsValueMeans(n, Scope(row, qualified));
    if InNamespace(row.path, WikiPath(n)) { FoldedIncludes(n, row); }
  }

  lemma FoldedIncludes(n: Names, row: Row)
    requires ValidNames(n) && InNamespace(row.path, WikiPath(n))
    ensures FoldedWikiPath(n, row)
  {
    var lit := WikiPath(n) + "/";
    if StartsWith(row.path, lit) {
      assert forall i | 0 <= i < |lit| :: LowerOnly(lit[i]);
      LowerFixed(lit);
      assert Lower(row.path)[..|lit|] == Lower(lit) by {
        assert forall i | 0 <= i < |lit| :: row.path[i] == row.path[..|lit|][i] == lit[i];
      }
    }
  }

  lemma FoldedPrefix(path: string, lit: string)
    requires StartsWith(Lower(path), lit)
    ensures |lit| <= |path| && forall i | 0 <= i < |lit| :: LowerChar(path[i]) == lit[i]
  {
    StartsWithAt(Lower(path), lit);
  }

  lemma StartsWithAt(s: string, lit: string)
    requires StartsWith(s, lit)
    ensures |lit| <= |s| && forall i | 0 <= i < |lit| :: s[i] == lit[i]
  {
    forall i | 0 <= i < |lit| ensures s[i] == lit[i] { assert s[..|lit|][i] == s[i]; }
  }

  /** A path that folds onto `/wiki/` has a first segment that folds onto `wiki`. */
  lemma FoldedSegment(wiki: string, path: string, lit: string)
    requires '/' !in wiki && lit == "/" + wiki + "/" && |lit| <= |path| && forall i | 0 <= i < |lit| ::
             LowerChar(path[i]) == lit[i]
    ensures path[0] == '/' && path[|wiki| + 1] == '/'
    ensures forall j | 0 <= j < |wiki| :: LowerChar(path[1..][j]) == wiki[j] && path[1..][j] != '/'
  {
    assert lit[0] == '/' && lit[|wiki| + 1] == '/';
    forall j | 0 <= j < |wiki| ensures LowerChar(path[1..][j]) == wiki[j] && path[1..][j] != '/' {
      assert lit[j + 1] == wiki[j] && wiki[j] in wiki && path[1..][j] == path[j + 1];
    }
  }

  /** Folding case adds nothing on a normalized path. */
  lemma NormalizedPathDoesNotFold(n: Names, path: string)
    requires ValidNames(n) && PathRouter.NormalForm(path) && StartsWith(Lower(path), WikiPath(n) + "/")
    ensures StartsWith(path, WikiPath(n) + "/")
  {
    var (wiki, k, tail) := (n.wiki, |n.wiki|, path[1..]);
    FoldedPrefix(path, "/" + wiki + "/");
    FoldedSegment(wiki, path, "/" + wiki + "/");
    PathRouter.SegmentLengthUnique(tail, k);
    forall j | 0 <= j < k ensures tail[j] == wiki[j] { assert LowerOnly(path[j + 1]); }
    assert tail[..k] == wiki;
    assert path[..k + 2] == "/" + tail[..k] + "/";
  }

  /** On every row whose path is normalized the clause of a surface selects exactly the rows of that surface. */
  lemma SurfaceSqlMirrorsRust(row: Row, path: string, surface: Surface, qualified: bool)
    requires !row.metadata.Malformed? && row.path == PathRouter.Normalized(path)
    ensures ClauseSelects(NAMES, Some(surface), Scope(row, qualified)) <==> SurfaceOf(NAMES, row) == surface
  {
    NamesAreValid();
    SurfaceAgreesOnNormal(NAMES, row, path, surface, qualified);
  }

  lemma SurfaceAgreesOnNormal(n: Names, row: Row, path: string, surface: Surface, qualified: bool)
    requires ValidNames(n) && !row.metadata.Malformed? && row.path == PathRouter.Normalized(path)
    ensures ClauseSelects(n, Some(surface), Scope(row, qualified)) <==> SurfaceOf(n, row) == surface
  {
    SurfaceAgreesExactly(n, row, qualified);
    SurfacesPartition(n, row, qualified);
    PathRouter.NormalizedIsNormal(path);
    if FoldedWikiPath(n, row) && row.path != WikiPath(n) { NormalizedPathDoesNotFold(n, row.path); }
  }

  /** The wiki path with its first letter capitalised folds onto the wiki path and is not it. */
  lemma ForeignCasePath(wiki: string, c: char)
    requires wiki != "" && c != wiki[0] && LowerChar(c) == wiki[0] && forall i | 0 <= i < |wiki| :: LowerOnly(wiki[i])
    ensures var (path, lit) := ("/" + [c] + wiki[1..] + "/", "/" + wiki + "/");
            StartsWith(Lower(path), lit) && !StartsWith(path, lit) && path != "/" + wiki
  {
    var (path, lit) := ("/" + [c] + wiki[1..] + "/", "/" + wiki + "/");
    assert forall i | 0 <= i < |lit| :: lit[i] == if i == 0 || i == |lit| - 1 then '/' else wiki[i - 1];
    assert forall i | 0 <= i < |lit| :: LowerChar(path[i]) == lit[i];
    assert Lower(path)[..|lit|] == lit;
    assert path[..|lit|][1] == c != lit[1];
    assert |"/" + wiki| != |path|;
  }

  /** A path in foreign case that nobody normalized: docs for the SQL, memory for the classifier. */
  lemma ForeignCaseDisagrees(n: Names, c: char, qualified: bool)
    requires ValidNames(n) && n.wiki != "" && 'A' <= c <= 'Z' && LowerChar(c) == n.wiki[0] && !EqIgnoreCase("", n.guide)
    ensures var row := Row("", "/" + [c] + n.wiki[1..] + "/", "", "", "", None, Object(map[]));
            SurfaceOf(n, row) == Memory && ClauseSelects(n, Some(Docs), Scope(row, qualified))
  {
    var row := Row("", "/" + [c] + n.wiki[1..] + "/", "", "", "", None, Object(map[]));
    assert n.wiki[0] in n.wiki;
    ForeignCasePath(n.wiki, c);
    assert Lower("") == "" && |Lower(n.wiki)| > 0;
    assert !OtherDocsSignal(n, row) && !IsWikiEntry(n, row);
    SurfaceAgreesExactly(n, row, qualified);
    SurfacesPartition(n, row, qualified);
  }

  /** The same with the names of the store: `/Wiki/` as nobody normalized it. */
  lemma ForeignCaseExample(qualified: bool)
    ensures var row := Row("", "/" + ['W'] + NAMES.wiki[1..] + "/", "", "", "", None, Object(map[]));
            SurfaceOf(NAMES, row) == Memory && ClauseSelects(NAMES, Some(Docs), Scope(row, qualified))
  {
    NamesAreValid();
    GuideIsNotEmpty();
    ForeignCaseDisagrees(NAMES, 'W', qualified);
  }

  lemma GuideIsNotEmpty()
    ensures !EqIgnoreCase("", NAMES.guide) && NAMES.wiki != "" && NAMES.wiki[0] == 'w' && LowerChar('W') == 'w'
  {
    assert |Lower(NAMES.guide)| > 0;
  }
}
