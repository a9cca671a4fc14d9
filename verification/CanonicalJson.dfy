/**
 Canonical JSON: objects sorted by key at every depth, arrays left in order (crates/memcore/src/canonical_digest.rs).
 */
module CanonicalJson {
  import opened Prelude

  datatype Scalar = Null | Bool(b: bool) | Number(text: string) | Text(s: string)

  datatype Member = Member(key: string, value: Json)

  /** An object keeps its members in the order they were written. */
  datatype Json = Atom(scalar: Scalar) | Array(items: seq<Json>) | Object(members: seq<Member>)

  predicate DistinctKeys(ms: seq<Member>) { forall i, j | 0 <= i < j < |ms| :: ms[i].key != ms[j].key }

  /** Keys are distinct in every object, as in every map. */
  predicate WellFormed(v: Json) {
    match v
    case Atom(_) => true
    case Array(items) => forall i | 0 <= i < |items| :: WellFormed(items[i])
    case Object(ms) => DistinctKeys(ms) && forall i | 0 <= i < |ms| :: WellFormed(ms[i].value)
  }

  /** Equal up to reordering the members of objects, at every depth; the order of arrays counts. */
  predicate SameContent(a: Json, b: Json)
    decreases a, 1
  {
    match (a, b)
    case (Atom(x), Atom(y)) => x == y
    case (Array(xs), Array(ys)) => |xs| == |ys| && forall i | 0 <= i < |xs| :: SameContent(xs[i], ys[i])
    case (Object(ms), Object(ns)) =>
      (forall i | 0 <= i < |ms| :: FoundIn(a, i, b)) && (forall j | 0 <= j < |ns| :: FoundFor(a, b, j))
    case _ => false
  }

  predicate SameMember(m: Member, n: Member)
    decreases m, 0
  {
    m.key == n.key && SameContent(m.value, n.value)
  }

  /** Member `i` of the first object has its like in the second. */
  predicate FoundIn(a: Json, i: nat, b: Json)
    requires a.Object? && b.Object? && i < |a.members|
    decreases a, 0
  {
    exists j | 0 <= j < |b.members| :: SameMember(a.members[i], b.members[j])
  }

  /** Member `j` of the second object has its like in the first. */
  predicate FoundFor(a: Json, b: Json, j: nat)
    requires a.Object? && b.Object? && j < |b.members|
    decreases a, 0
  {
    exists i | 0 <= i < |a.members| :: SameMember(a.members[i], b.members[j])
  }

  // ----- Sorting by key -----

  predicate Ascending(ms: seq<Member>) { forall i, j | 0 <= i < j < |ms| :: Less(ms[i].key, ms[j].key) }

  /** Insertion into an ordered map: a member with the same key is replaced. */
  function Inserted(ms: seq<Member>, m: Member): seq<Member> {
    if ms == [] || Less(m.key, ms[0].key) then [m] + ms
    else if ms[0].key == m.key then [m] + ms[1..]
    else [ms[0]] + Inserted(ms[1..], m)
  }

  function Sorted(ms: seq<Member>): seq<Member> {
    if ms == [] then [] else Inserted(Sorted(ms[..|ms| - 1]), ms[|ms| - 1])
  }

  function Canonical(v: Json): Json {
    match v
    case Atom(_) => v
    case Array(items) => Array(seq(|items|, i requires 0 <= i < |items| => Canonical(items[i])))
    case Object(ms) => Object(Sorted(seq(|ms|, i requires 0 <= i < |ms| => Member(ms[i].key, Canonical(ms[i].value)))))
  }

  predicate CanonicalEq(a: Json, b: Json) { Canonical(a) == Canonical(b) }

  /** The members with their values made canonical, before sorting. */
  function CanonicalMembers(ms: seq<Member>): (r: seq<Member>)
    ensures |r| == |ms| && forall i | 0 <= i < |ms| :: r[i] == Member(ms[i].key, Canonical(ms[i].value))
  {
    seq(|ms|, i requires 0 <= i < |ms| => Member(ms[i].key, Canonical(ms[i].value)))
  }

  predicate FreshKey(ms: seq<Member>, key: string) { forall i | 0 <= i < |ms| :: ms[i].key != key }

  lemma {:induction false} InsertedMeans(ms: seq<Member>, m: Member)
    requires Ascending(ms) && FreshKey(ms, m.key)
    ensures Ascending(Inserted(ms, m)) && |Inserted(ms, m)| == |ms| + 1
    ensures forall x :: x in Inserted(ms, m) <==> x == m || x in ms
  {
    if ms != [] {
      var (r, rest) := (Inserted(ms, m), ms[1..]);
      LessTotal(ms[0].key, m.key);
      assert ms == [ms[0]] + rest;
      if Less(m.key, ms[0].key) {
        forall i, j | 0 <= i < j < |r| ensures Less(r[i].key, r[j].key) {
          if i == 0 && j > 1 { LessTransitive(m.key, ms[0].key, ms[j - 1].key); }
        }
      } else {
        InsertedMeans(rest, m);
        var tail := Inserted(rest, m);
        forall i, j | 0 <= i < j < |r| ensures Less(r[i].key, r[j].key) {
          if i == 0 {
            assert tail[j - 1] in tail;
            if tail[j - 1] != m { var k :| 0 <= k < |rest| && rest[k] == tail[j - 1]; assert ms[k + 1] == rest[k]; }
          } else {
            assert Less(tail[i - 1].key, tail[j - 1].key);
          }
        }
      }
    }
  }

  ghost predicate SameElements(a: seq<Member>, b: seq<Member>) { forall x :: x in a <==> x in b }

  lemma FreshKeyMoves(a: seq<Member>, b: seq<Member>, key: string)
    requires SameElements(a, b) && FreshKey(b, key)
    ensures FreshKey(a, key)
  {
    forall i | 0 <= i < |a| ensures a[i].key != key {
      assert a[i] in a;
      assert a[i] in b;
    }
  }

  lemma AppendElements(ms: seq<Member>, init: seq<Member>, last: Member, s: seq<Member>, r: seq<Member>)
    requires ms == init + [last] && SameElements(s, init) && forall x :: x in r <==> x == last || x in s
    ensures SameElements(r, ms)
  {
  }

  /** Sorting keeps exactly the members, in ascending order of key. */
  lemma {:induction false} SortedMeans(ms: seq<Member>)
    requires DistinctKeys(ms)
    ensures Ascending(Sorted(ms)) && |Sorted(ms)| == |ms| && SameElements(Sorted(ms), ms)
  {
    if ms != [] {
      var (init, last) := (ms[..|ms| - 1], ms[|ms| - 1]);
      SortedMeans(init);
      FreshKeyMoves(Sorted(init), init, last.key);
      InsertedMeans(Sorted(init), last);
      AppendElements(ms, init, last, Sorted(init), Sorted(ms));
    }
  }

  lemma AscendingDistinct(ms: seq<Member>)
    requires Ascending(ms)
    ensures DistinctKeys(ms)
  {
    forall i, j | 0 <= i < j < |ms| ensures ms[i].key != ms[j].key { LessTotal(ms[i].key, ms[j].key); }
  }

  lemma FirstIsSmallest(a: seq<Member>, x: Member)
    requires Ascending(a) && x in a
    ensures x == a[0] || Less(a[0].key, x.key)
  {
  }

  lemma RestOfListing(a: seq<Member>, b: seq<Member>, x: Member)
    requires Ascending(a) && a != [] && b != [] && a[0] == b[0] && x in a[1..] && x in b
    ensures x in b[1..]
  {
    var k :| 0 < k < |a| && a[k] == x;
    LessTotal(a[0].key, a[k].key);
    var j :| 0 <= j < |b| && b[j] == x;
    assert b[1..][j - 1] == x;
  }

  /** Ascending listings of the same members are equal. */
  lemma {:induction false} AscendingUnique(a: seq<Member>, b: seq<Member>)
    requires Ascending(a) && Ascending(b) && SameElements(a, b)
    ensures a == b
  {
    if b != [] { assert b[0] in b; }
    if a != [] {
      assert a[0] in a;
      assert a[0] in b && b[0] in b;
      FirstIsSmallest(a, b[0]);
      FirstIsSmallest(b, a[0]);
      LessTotal(a[0].key, b[0].key);
      forall x ensures x in a[1..] <==> x in b[1..] {
        if x in a[1..] { RestOfListing(a, b, x); }
        if x in b[1..] { RestOfListing(b, a, x); }
      }
      AscendingUnique(a[1..], b[1..]);
      assert a == [a[0]] + a[1..] && b == [b[0]] + b[1..];
    }
  }

  // ----- Canonical forms -----

  /** Every object is in ascending order of key, at every depth. */
  predicate IsCanonical(v: Json) {
    match v
    case Atom(_) => true
    case Array(items) => forall i | 0 <= i < |items| :: IsCanonical(items[i])
    case Object(ms) => Ascending(ms) && forall i | 0 <= i < |ms| :: IsCanonical(ms[i].value)
  }

  lemma CanonicalMembersDistinct(ms: seq<Member>)
    requires DistinctKeys(ms)
    ensures DistinctKeys(CanonicalMembers(ms))
  {
  }

  lemma {:induction false} CanonicalIsCanonical(v: Json)
    requires WellFormed(v)
    ensures IsCanonical(Canonical(v))
  {
    match v
    case Atom(_) =>
    case Array(items) =>
      forall i | 0 <= i < |items| ensures IsCanonical(Canonical(items[i])) { CanonicalIsCanonical(items[i]); }
    case Object(ms) =>
      var (cs, r) := (CanonicalMembers(ms), Sorted(CanonicalMembers(ms)));
      CanonicalMembersDistinct(ms);
      SortedMeans(cs);
      forall k | 0 <= k < |r| ensures IsCanonical(r[k].value) {
        assert r[k] in r;
        var i :| 0 <= i < |cs| && cs[i] == r[k];
        CanonicalIsCanonical(ms[i].value);
      }
      assert Canonical(v) == Object(r);
  }

  lemma SortedFixed(ms: seq<Member>)
    requires Ascending(ms)
    ensures Sorted(ms) == ms
  {
    AscendingDistinct(ms);
    SortedMeans(ms);
    AscendingUnique(Sorted(ms), ms);
  }

  /** A canonical value is its own canonical form. */
  lemma {:induction false} CanonicalFixed(v: Json)
    requires IsCanonical(v)
    ensures Canonical(v) == v
  {
    match v
    case Atom(_) =>
    case Array(items) =>
      forall i | 0 <= i < |items| ensures Canonical(items[i]) == items[i] { CanonicalFixed(items[i]); }
      assert seq(|items|, i requires 0 <= i < |items| => Canonical(items[i])) == items;
    case Object(ms) =>
      forall i | 0 <= i < |ms| ensures CanonicalMembers(ms)[i] == ms[i] { CanonicalFixed(ms[i].value); }
      assert CanonicalMembers(ms) == ms;
      SortedFixed(ms);
      assert Canonical(v) == Object(Sorted(CanonicalMembers(ms)));
  }

  lemma CanonicalIdempotent(v: Json)
    requires WellFormed(v)
    ensures Canonical(Canonical(v)) == Canonical(v)
  {
    CanonicalIsCanonical(v);
    CanonicalFixed(Canonical(v));
  }

  // ----- Equal canonical forms are exactly equal contents -----

  lemma {:induction false} SameHasSameForm(a: Json, b: Json)
    requires WellFormed(a) && WellFormed(b) && SameContent(a, b)
    ensures Canonical(a) == Canonical(b)
  {
    match (a, b)
    case (Atom(_), Atom(_)) =>
    case (Array(xs), Array(ys)) =>
      forall i | 0 <= i < |xs| ensures Canonical(xs[i]) == Canonical(ys[i]) { SameHasSameForm(xs[i], ys[i]); }
    case (Object(ms), Object(ns)) =>
      forall i | 0 <= i < |ms| ensures FormIn(ms[i], ns) {
        assert FoundIn(a, i, b);
        var j :| 0 <= j < |ns| && SameMember(ms[i], ns[j]);
        SameHasSameForm(ms[i].value, ns[j].value);
        assert SameForm(ms[i], ns[j]);
      }
      forall j | 0 <= j < |ns| ensures FormIn(ns[j], ms) {
        assert FoundFor(a, b, j);
        var i :| 0 <= i < |ms| && SameMember(ms[i], ns[j]);
        SameHasSameForm(ms[i].value, ns[j].value);
        assert SameForm(ns[j], ms[i]);
      }
      SameMembersSameSort(ms, ns);
  }

  predicate SameForm(m: Member, n: Member) { m.key == n.key && Canonical(m.value) == Canonical(n.value) }

  predicate FormIn(m: Member, ns: seq<Member>) { exists j | 0 <= j < |ns| :: SameForm(m, ns[j]) }

  predicate FormsIn(ms: seq<Member>, ns: seq<Member>) { forall i | 0 <= i < |ms| :: FormIn(ms[i], ns) }

  lemma FormsIncluded(ms: seq<Member>, ns: seq<Member>, x: Member)
    requires FormsIn(ms, ns) && x in CanonicalMembers(ms)
    ensures x in CanonicalMembers(ns)
  {
    var i :| 0 <= i < |ms| && CanonicalMembers(ms)[i] == x;
    assert FormIn(ms[i], ns);
    var j :| 0 <= j < |ns| && SameForm(ms[i], ns[j]);
    assert CanonicalMembers(ns)[j] == x;
  }

  lemma SameMembersSameSort(ms: seq<Member>, ns: seq<Member>)
    requires DistinctKeys(ms) && DistinctKeys(ns) && FormsIn(ms, ns) && FormsIn(ns, ms)
    ensures Canonical(Object(ms)) == Canonical(Object(ns))
  {
    var (cs, ds) := (CanonicalMembers(ms), CanonicalMembers(ns));
    CanonicalMembersDistinct(ms);
    CanonicalMembersDistinct(ns);
    SortedMeans(cs);
    SortedMeans(ds);
    forall x ensures x in Sorted(cs) <==> x in Sorted(ds) {
      if x in cs { FormsIncluded(ms, ns, x); }
      if x in ds { FormsIncluded(ns, ms, x); }
    }
    AscendingUnique(Sorted(cs), Sorted(ds));
    assert Canonical(Object(ms)) == Object(Sorted(cs)) && Canonical(Object(ns)) == Object(Sorted(ds));
  }

  lemma SameSortSameForms(ms: seq<Member>, ns: seq<Member>, i: nat)
    requires DistinctKeys(ms) && DistinctKeys(ns) && Canonical(Object(ms)) == Canonical(Object(ns)) && i < |ms|
    ensures FormIn(ms[i], ns)
  {
    var (cs, ds) := (CanonicalMembers(ms), CanonicalMembers(ns));
    CanonicalMembersDistinct(ms);
    CanonicalMembersDistinct(ns);
    SortedMeans(cs);
    SortedMeans(ds);
    assert Canonical(Object(ms)) == Object(Sorted(cs)) && Canonical(Object(ns)) == Object(Sorted(ds));
    assert cs[i] in cs;
    assert cs[i] in ds;
    var j :| 0 <= j < |ds| && ds[j] == cs[i];
    assert SameForm(ms[i], ns[j]);
  }

  lemma {:induction false} SameFormIsSame(a: Json, b: Json)
    requires WellFormed(a) && WellFormed(b) && Canonical(a) == Canonical(b)
    ensures SameContent(a, b)
  {
    match (a, b)
    case (Array(xs), Array(ys)) =>
      var (cx, cy) := (Canonical(a).items, Canonical(b).items);
      forall i | 0 <= i < |xs| ensures SameContent(xs[i], ys[i]) {
        assert cx[i] == Canonical(xs[i]) && cy[i] == Canonical(ys[i]);
        SameFormIsSame(xs[i], ys[i]);
      }
    case (Object(ms), Object(ns)) =>
      forall i | 0 <= i < |ms| ensures FoundIn(a, i, b) {
        SameSortSameForms(ms, ns, i);
        var j :| 0 <= j < |ns| && SameForm(ms[i], ns[j]);
        SameFormIsSame(ms[i].value, ns[j].value);
        assert SameMember(a.members[i], b.members[j]);
      }
      forall j | 0 <= j < |ns| ensures FoundFor(a, b, j) {
        SameSortSameForms(ns, ms, j);
        var i :| 0 <= i < |ms| && SameForm(ns[j], ms[i]);
        SameFormIsSame(ms[i].value, ns[j].value);
        assert SameMember(a.members[i], b.members[j]);
      }
    case _ =>
  }

  /** The equality test decides exactly equality up to member order at every depth. */
  lemma CanonicalEqDecides(a: Json, b: Json)
    requires WellFormed(a) && WellFormed(b)
    ensures CanonicalEq(a, b) <==> SameContent(a, b)
  {
    if CanonicalEq(a, b) { SameFormIsSame(a, b); }
    if SameContent(a, b) { SameHasSameForm(a, b); }
  }

  lemma {:induction false} CanonicalWellFormed(v: Json)
    requires IsCanonical(v)
    ensures WellFormed(v)
  {
    match v
    case Atom(_) =>
    case Array(items) => forall i | 0 <= i < |items| ensures WellFormed(items[i]) { CanonicalWellFormed(items[i]); }
    case Object(ms) =>
      AscendingDistinct(ms);
      forall i | 0 <= i < |ms| ensures WellFormed(ms[i].value) { CanonicalWellFormed(ms[i].value); }
  }

  /** The canonical form is a representative: it has the same content and every value with that content leads to it. */
  lemma CanonicalRepresents(v: Json)
    requires WellFormed(v)
    ensures SameContent(v, Canonical(v)) && IsCanonical(Canonical(v))
  {
    CanonicalIsCanonical(v);
    CanonicalWellFormed(Canonical(v));
    CanonicalIdempotent(v);
    SameFormIsSame(v, Canonical(v));
  }

  /** The order of an array is content: reversing two different elements is seen. */
  lemma ArrayOrderCounts(x: Json, y: Json)
    requires WellFormed(x) && WellFormed(y)
    ensures CanonicalEq(Array([x, y]), Array([y, x])) <==> SameContent(x, y)
  {
    var (a, b) := (Array([x, y]), Array([y, x]));
    if CanonicalEq(a, b) {
      CanonicalEqDecides(a, b);
      assert SameContent(a.items[0], b.items[0]);
    }
    if SameContent(x, y) {
      SameHasSameForm(x, y);
      assert Canonical(a).items[0] == Canonical(b).items[0] && Canonical(a).items[1] == Canonical(b).items[1];
    }
  }
}
