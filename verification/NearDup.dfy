/**
 Near-duplicate detection over raw rows: an inverted index with a counter array, against the nested loop it replaces
 (crates/memcore/src/near_dup.rs).
 */
module NearDup {
  import opened Prelude

  const SCAN_CAP: nat := 500

  /** The gap between 1 and the next double, 2^-52. */
  const EPSILON: real := 1.0 / 4503599627370496.0

  /** A memory row: its tier, and the set of tokens its text splits into. */
  datatype Entry = Entry(tier: string, tokens: set<string>)

  datatype Pair = Pair(left: nat, right: nat, similarity: real)

  // ----- The nested loop -----

  function TokenSetJaccard(a: set<string>, b: set<string>): (r: real)
    ensures 0.0 <= r <= 1.0
  {
    if a == {} || b == {} then 0.0
    else
      assert a * b <= a + b && a <= a + b;
      CardinalityMonotone(a * b, a + b);
      CardinalityMonotone(a, a + b);
      Ratio(|a * b|, |a + b|)
  }

  function Ratio(part: nat, whole: nat): (r: real)
    ensures r >= 0.0 && (part <= whole ==> r <= 1.0)
  {
    part as real / (if whole > 1 then whole else 1) as real
  }

  predicate IsRaw(entry: Entry) { Lower(entry.tier) == "raw" }

  function RawBefore(entries: seq<Entry>, n: nat): (r: seq<nat>)
    requires n <= |entries|
    ensures |r| <= n && forall k | 0 <= k < |r| :: r[k] < n && IsRaw(entries[r[k]])
  {
    if n == 0 then [] else RawBefore(entries, n - 1) + if IsRaw(entries[n - 1]) then [n - 1] else []
  }

  /** The rows compared: the first raw ones, at most the cap. */
  function RawIndices(entries: seq<Entry>): (r: seq<nat>)
    ensures |r| <= SCAN_CAP && forall k | 0 <= k < |r| :: r[k] < |entries| && IsRaw(entries[r[k]])
  {
    var all := RawBefore(entries, |entries|);
    if |all| > SCAN_CAP then all[..SCAN_CAP] else all
  }

  /** What one comparison contributes. */
  function Compared(indices: seq<nat>, sets: seq<set<string>>, left: nat, right: nat, threshold: real): seq<Pair>
    requires left < |indices| == |sets| && right < |indices|
  {
    var similarity := TokenSetJaccard(sets[left], sets[right]);
    if similarity + EPSILON >= threshold then [Pair(indices[left], indices[right], similarity)] else []
  }

  /** The lists `parts(from)` to `parts(until - 1)`, one after the other. */
  function Gathered<T>(parts: nat -> seq<T>, from: nat, until: nat): seq<T> {
    if until <= from then [] else Gathered(parts, from, until - 1) + parts(until - 1)
  }

  /** What row `left` gives against each row. */
  function ComparedWith(indices: seq<nat>, sets: seq<set<string>>, left: nat, threshold: real): nat -> seq<Pair>
    requires left < |indices| == |sets|
  {
    (right: nat) => if right < |indices| then Compared(indices, sets, left, right, threshold) else []
  }

  function PairsOf(indices: seq<nat>, sets: seq<set<string>>, left: nat, until: nat, threshold: real): seq<Pair>
    requires left < |indices| == |sets| && until <= |indices|
  {
    Gathered(ComparedWith(indices, sets, left, threshold), left + 1, until)
  }

  /** What each row gives against all rows behind it. */
  function PairsOfEach(indices: seq<nat>, sets: seq<set<string>>, threshold: real): nat -> seq<Pair>
    requires |indices| == |sets|
  {
    (left: nat) => if left < |indices| then PairsOf(indices, sets, left, |indices|, threshold) else []
  }

  function PairsUpTo(indices: seq<nat>, sets: seq<set<string>>, n: nat, threshold: real): seq<Pair>
    requires n <= |indices| == |sets|
  {
    Gathered(PairsOfEach(indices, sets, threshold), 0, n)
  }

  function TokenSets(entries: seq<Entry>, indices: seq<nat>): (r: seq<set<string>>)
    requires forall k | 0 <= k < |indices| :: indices[k] < |entries|
    ensures |r| == |indices| && forall k | 0 <= k < |r| :: r[k] == entries[indices[k]].tokens
  {
    seq(|indices|, k requires 0 <= k < |indices| => entries[indices[k]].tokens)
  }

  /** Every pair of compared rows, in order, through `TokenSetJaccard`. */
  function NaivePairs(entries: seq<Entry>, threshold: real): seq<Pair> {
    var indices := RawIndices(entries);
    PairsUpTo(indices, TokenSets(entries, indices), |indices|, threshold)
  }

  // ----- What the nested loop returns -----

  /** Row `i` is raw and fewer raw rows than the cap come before it. */
  predicate InWindow(entries: seq<Entry>, i: nat) {
    i < |entries| && IsRaw(entries[i]) && |RawBefore(entries, i)| < SCAN_CAP
  }

  lemma {:induction false} RawAscends(entries: seq<Entry>, n: nat, a: nat, b: nat)
    requires n <= |entries| && a < b < |RawBefore(entries, n)|
    ensures RawBefore(entries, n)[a] < RawBefore(entries, n)[b]
  {
    if b < |RawBefore(entries, n - 1)| { RawAscends(entries, n - 1, a, b); }
  }

  /** A raw row stands at the position given by the raw rows before it. */
  lemma {:induction false} RawPosition(entries: seq<Entry>, i: nat, n: nat)
    requires i < n <= |entries| && IsRaw(entries[i])
    ensures |RawBefore(entries, i)| < |RawBefore(entries, n)| && RawBefore(entries, n)[|RawBefore(entries, i)|] == i
  {
    if i < n - 1 { RawPosition(entries, i, n - 1); }
  }

  lemma {:induction false} RawRank(entries: seq<Entry>, n: nat, k: nat)
    requires n <= |entries| && k < |RawBefore(entries, n)|
    ensures |RawBefore(entries, RawBefore(entries, n)[k])| == k
  {
    if k < |RawBefore(entries, n - 1)| { RawRank(entries, n - 1, k); }
  }

  lemma WindowIsIndices(entries: seq<Entry>, i: nat)
    ensures InWindow(entries, i) <==> i in RawIndices(entries)
  {
    var all := RawBefore(entries, |entries|);
    if InWindow(entries, i) {
      RawPosition(entries, i, |entries|);
      assert RawIndices(entries)[|RawBefore(entries, i)|] == i;
    }
    if i in RawIndices(entries) {
      var k :| 0 <= k < |RawIndices(entries)| && RawIndices(entries)[k] == i;
      RawRank(entries, |entries|, k);
    }
  }

  /** An element of the gathered lists comes from one of them. */
  lemma {:induction false} PartOf<T>(parts: nat -> seq<T>, from: nat, until: nat, x: T) returns (k: nat)
    requires x in Gathered(parts, from, until)
    ensures from <= k < until && x in parts(k)
  {
    k := until - 1;
    if x !in parts(k) { k := PartOf(parts, from, k, x); }
  }

  lemma {:induction false} PartIsGathered<T>(parts: nat -> seq<T>, from: nat, until: nat, k: nat, x: T)
    requires from <= k < until && x in parts(k)
    ensures x in Gathered(parts, from, until)
  {
    if k < until - 1 { PartIsGathered(parts, from, until - 1, k, x); }
  }

  /** The comparison a pair comes from. */
  lemma ComparisonOf(indices: seq<nat>, sets: seq<set<string>>, threshold: real, p: Pair)
    returns (left: nat, right: nat)
    requires |indices| == |sets| && p in PairsUpTo(indices, sets, |indices|, threshold)
    ensures left < right < |indices| && p in Compared(indices, sets, left, right, threshold)
  {
    left := PartOf(PairsOfEach(indices, sets, threshold), 0, |indices|, p);
    right := PartOf(ComparedWith(indices, sets, left, threshold), left + 1, |indices|, p);
  }

  lemma ComparisonIsListed(indices: seq<nat>, sets: seq<set<string>>, threshold: real, left: nat, right: nat, p: Pair)
    requires left < right < |indices| == |sets| && p in Compared(indices, sets, left, right, threshold)
    ensures p in PairsUpTo(indices, sets, |indices|, threshold)
  {
    PartIsGathered(ComparedWith(indices, sets, left, threshold), left + 1, |indices|, right, p);
    PartIsGathered(PairsOfEach(indices, sets, threshold), 0, |indices|, left, p);
  }

  /**
   A pair is returned exactly when both rows are in the window, in order, with the true similarity at the threshold.
   */
  predicate IsNearPair(entries: seq<Entry>, threshold: real, p: Pair) {
    && p.left < p.right && InWindow(entries, p.left) && InWindow(entries, p.right)
    && p.similarity == TokenSetJaccard(entries[p.left].tokens, entries[p.right].tokens)
    && p.similarity + EPSILON >= threshold
  }

  lemma PairIsNear(entries: seq<Entry>, threshold: real, p: Pair, left: nat, right: nat)
    requires left < right < |RawIndices(entries)|
    requires p in Compared(RawIndices(entries), TokenSets(entries, RawIndices(entries)), left, right, threshold)
    ensures IsNearPair(entries, threshold, p)
  {
    RawAscends(entries, |entries|, left, right);
    WindowIsIndices(entries, RawIndices(entries)[left]);
    WindowIsIndices(entries, RawIndices(entries)[right]);
  }

  lemma NearIsCompared(entries: seq<Entry>, threshold: real, p: Pair) returns (left: nat, right: nat)
    requires IsNearPair(entries, threshold, p)
    ensures left < right < |RawIndices(entries)|
    ensures p in Compared(RawIndices(entries), TokenSets(entries, RawIndices(entries)), left, right, threshold)
  {
    var indices := RawIndices(entries);
    WindowIsIndices(entries, p.left);
    WindowIsIndices(entries, p.right);
    left :| left < |indices| && indices[left] == p.left;
    right :| right < |indices| && indices[right] == p.right;
    if right < left { RawAscends(entries, |entries|, right, left); }
  }

  lemma NaivePairsMeans(entries: seq<Entry>, threshold: real, p: Pair)
    ensures p in NaivePairs(entries, threshold) <==> IsNearPair(entries, threshold, p)
  {
    var indices := RawIndices(entries);
    var sets := TokenSets(entries, indices);
    if p in NaivePairs(entries, threshold) {
      var left, right := ComparisonOf(indices, sets, threshold, p);
      PairIsNear(entries, threshold, p, left, right);
    }
    if IsNearPair(entries, threshold, p) {
      var left, right := NearIsCompared(entries, threshold, p);
      ComparisonIsListed(indices, sets, threshold, left, right, p);
    }
  }

  // ----- The same in terms of the rows alone -----

  predicate RawTier(entry: Entry) { EqualsIgnoringCase(entry.tier, "raw") }

  predicate EqualsIgnoringCase(s: string, lower: string) {
    |s| == |lower| && forall i | 0 <= i < |s| :: LowerChar(s[i]) == lower[i]
  }

  /** The raw rows before row `n`. */
  function RawRows(entries: seq<Entry>, n: nat): set<nat>
    requires n <= |entries|
  {
    set k | 0 <= k < n && RawTier(entries[k])
  }

  lemma RawTierMeans(entry: Entry)
    ensures IsRaw(entry) <==> RawTier(entry)
  {
    var raw := "raw";
    assert Lower(entry.tier) == raw <==> EqualsIgnoringCase(entry.tier, raw);
  }

  lemma RawRowsNext(entries: seq<Entry>, n: nat)
    requires n < |entries|
    ensures RawRows(entries, n + 1) ==
            if RawTier(entries[n]) then RawRows(entries, n) + {n} else RawRows(entries, n)
    ensures n !in RawRows(entries, n)
  {
  }

  lemma OneMoreRow(rows: set<nat>, n: nat)
    requires n !in rows
    ensures |rows + {n}| == |rows| + 1
  {
  }

  lemma {:induction false} RawBeforeCounts(entries: seq<Entry>, n: nat)
    requires n <= |entries|
    ensures |RawBefore(entries, n)| == |RawRows(entries, n)|
  {
    if n == 0 {
      assert RawRows(entries, 0) == {};
    } else {
      RawBeforeCounts(entries, n - 1);
      RawTierMeans(entries[n - 1]);
      RawRowsCount(entries, n - 1);
    }
  }

  lemma RawRowsCount(entries: seq<Entry>, n: nat)
    requires n < |entries|
    ensures |RawRows(entries, n + 1)| == |RawRows(entries, n)| + if RawTier(entries[n]) then 1 else 0
  {
    RawRowsNext(entries, n);
    OneMoreRow(RawRows(entries, n), n);
  }

  /** Raw, and among the first five hundred raw rows. */
  ghost predicate Scanned(entries: seq<Entry>, i: nat) {
    i < |entries| && RawTier(entries[i]) && |RawRows(entries, i)| < 500
  }

  /** The share of common tokens among all tokens of the two rows; none when one of them has no tokens. */
  ghost predicate ShareIs(a: set<string>, b: set<string>, similarity: real) {
    if a == {} || b == {} then similarity == 0.0 else similarity * |a + b| as real == |a * b| as real
  }

  ghost predicate NearRows(entries: seq<Entry>, threshold: real, p: Pair) {
    && p.left < p.right && Scanned(entries, p.left) && Scanned(entries, p.right)
    && ShareIs(entries[p.left].tokens, entries[p.right].tokens, p.similarity)
    && p.similarity + 1.0 / 4503599627370496.0 >= threshold
  }

  lemma WindowMeans(entries: seq<Entry>, i: nat)
    ensures InWindow(entries, i) <==> Scanned(entries, i)
  {
    if i < |entries| {
      RawTierMeans(entries[i]);
      RawBeforeCounts(entries, i);
    }
  }

  lemma ShareIsRatio(part: nat, whole: nat, similarity: real)
    requires whole > 0
    ensures similarity == Ratio(part, whole) <==> similarity * whole as real == part as real
  {
  }

  lemma JaccardIsShare(a: set<string>, b: set<string>, similarity: real)
    ensures similarity == TokenSetJaccard(a, b) <==> ShareIs(a, b, similarity)
  {
    if a != {} && b != {} {
      CardinalityMonotone(a, a + b);
      ShareIsRatio(|a * b|, |a + b|, similarity);
    }
  }

  /** A pair is returned exactly when both rows are scanned, in order, with their true share at the threshold. */
  lemma PairsMean(entries: seq<Entry>, threshold: real, p: Pair)
    ensures p in NaivePairs(entries, threshold) <==> NearRows(entries, threshold, p)
  {
    NaivePairsMeans(entries, threshold, p);
    WindowMeans(entries, p.left);
    WindowMeans(entries, p.right);
    if p.left < |entries| && p.right < |entries| {
      JaccardIsShare(entries[p.left].tokens, entries[p.right].tokens, p.similarity);
    }
  }

  predicate Precedes(p: Pair, q: Pair) { p.left < q.left || (p.left == q.left && p.right < q.right) }

  /** Lists that are each in order, and stand in order to each other, are in order when gathered. */
  lemma {:induction false} GatheredInOrder(parts: nat -> seq<Pair>, from: nat, until: nat, i: nat, j: nat)
    requires forall k | from <= k < until :: InOrder(parts(k))
    requires forall k, m | from <= k < m < until :: AllPrecede(parts(k), parts(m))
    requires i < j < |Gathered(parts, from, until)|
    ensures Precedes(Gathered(parts, from, until)[i], Gathered(parts, from, until)[j])
  {
    var (init, last) := (Gathered(parts, from, until - 1), parts(until - 1));
    if j < |init| {
      GatheredInOrder(parts, from, until - 1, i, j);
    } else if i < |init| {
      var k := PartOf(parts, from, until - 1, init[i]);
      assert AllPrecede(parts(k), last) && init[i] in parts(k) && last[j - |init|] in last;
    } else {
      assert InOrder(last);
    }
  }

  ghost predicate InOrder(pairs: seq<Pair>) { forall i, j | 0 <= i < j < |pairs| :: Precedes(pairs[i], pairs[j]) }

  ghost predicate AllPrecede(a: seq<Pair>, b: seq<Pair>) { forall p, q | p in a && q in b :: Precedes(p, q) }

  lemma ComparedEnds(indices: seq<nat>, sets: seq<set<string>>, left: nat, right: nat, threshold: real)
    requires left < |indices| == |sets| && right < |indices|
    ensures InOrder(Compared(indices, sets, left, right, threshold))
    ensures forall p | p in Compared(indices, sets, left, right, threshold) ::
            p.left == indices[left] && p.right == indices[right]
  {
  }

  ghost predicate Ascends(indices: seq<nat>) { forall a, b | 0 <= a < b < |indices| :: indices[a] < indices[b] }

  lemma PairsOfInOrder(indices: seq<nat>, sets: seq<set<string>>, left: nat, threshold: real)
    requires left < |indices| == |sets| && Ascends(indices)
    ensures InOrder(PairsOf(indices, sets, left, |indices|, threshold))
    ensures forall p | p in PairsOf(indices, sets, left, |indices|, threshold) :: p.left == indices[left]
  {
    var parts := ComparedWith(indices, sets, left, threshold);
    forall k | left + 1 <= k < |indices| ensures InOrder(parts(k)) { ComparedEnds(indices, sets, left, k, threshold); }
    forall k, m | left + 1 <= k < m < |indices| ensures AllPrecede(parts(k), parts(m)) {
      ComparedPrecede(indices, sets, left, k, m, threshold);
    }
    PairsStartAt(indices, sets, left, threshold);
    var all := PairsOf(indices, sets, left, |indices|, threshold);
    forall i, j | 0 <= i < j < |all| ensures Precedes(all[i], all[j]) {
      GatheredInOrder(parts, left + 1, |indices|, i, j);
    }
  }

  lemma ComparedPrecede(indices: seq<nat>, sets: seq<set<string>>, left: nat, k: nat, m: nat, threshold: real)
    requires left < |indices| == |sets| && k < m < |indices| && Ascends(indices)
    ensures AllPrecede(Compared(indices, sets, left, k, threshold), Compared(indices, sets, left, m, threshold))
  {
    ComparedEnds(indices, sets, left, k, threshold);
    ComparedEnds(indices, sets, left, m, threshold);
  }

  lemma PairsStartAt(indices: seq<nat>, sets: seq<set<string>>, left: nat, threshold: real)
    requires left < |indices| == |sets|
    ensures forall p | p in PairsOf(indices, sets, left, |indices|, threshold) :: p.left == indices[left]
  {
    forall p | p in PairsOf(indices, sets, left, |indices|, threshold) ensures p.left == indices[left] {
      var k := PartOf(ComparedWith(indices, sets, left, threshold), left + 1, |indices|, p);
      ComparedEnds(indices, sets, left, k, threshold);
    }
  }

  /** The pairs come row by row, each once. */
  lemma PairsInOrder(entries: seq<Entry>, threshold: real)
    ensures InOrder(NaivePairs(entries, threshold))
  {
    var indices := RawIndices(entries);
    var sets := TokenSets(entries, indices);
    var each := PairsOfEach(indices, sets, threshold);
    forall a, b | 0 <= a < b < |indices| ensures indices[a] < indices[b] { RawAscends(entries, |entries|, a, b); }
    forall k | 0 <= k < |indices| ensures InOrder(each(k)) { PairsOfInOrder(indices, sets, k, threshold); }
    forall k, m | 0 <= k < m < |indices| ensures AllPrecede(each(k), each(m)) {
      PairsOfInOrder(indices, sets, k, threshold);
      PairsOfInOrder(indices, sets, m, threshold);
    }
    var all := NaivePairs(entries, threshold);
    forall i, j | 0 <= i < j < |all| ensures Precedes(all[i], all[j]) {
      GatheredInOrder(each, 0, |indices|, i, j);
    }
  }

  // ----- Cardinalities -----

  lemma {:induction false} CardinalityMonotone<T>(a: set<T>, b: set<T>)
    requires a <= b
    ensures |a| <= |b|
  {
    if a != {} {
      var x :| x in a;
      CardinalityMonotone(a - {x}, b - {x});
    }
  }

  lemma UnionSize<T>(a: set<T>, b: set<T>)
    ensures |a + b| == |a| + |b| - |a * b|
  {
    assert a + b == a + (b - a) && b == (b - a) + (a * b);
    assert a !! (b - a) && (b - a) !! (a * b);
  }

  /** The cardinality formula, also on empty sets, is the Jaccard similarity. */
  lemma CountsGiveJaccard(a: set<string>, b: set<string>)
    ensures |a * b| <= |a| + |b|
    ensures Ratio(|a * b|, |a| + |b| - |a * b|) == TokenSetJaccard(a, b)
  {
    UnionSize(a, b);
    if a == {} || b == {} { assert a * b == {}; }
  }

  // ----- The inverted index -----

  /** The rows below `n` that contain a token. */
  function RowsWith(sets: seq<set<string>>, token: string, n: nat): seq<nat>
    requires n <= |sets|
  {
    if n == 0 then [] else RowsWith(sets, token, n - 1) + if token in sets[n - 1] then [n - 1] else []
  }

  predicate Ascending(rows: seq<nat>) { forall i, j | 0 <= i < j < |rows| :: rows[i] < rows[j] }

  lemma {:induction false} RowsWithMeans(sets: seq<set<string>>, token: string, n: nat)
    requires n <= |sets|
    ensures Ascending(RowsWith(sets, token, n))
    ensures forall row: nat :: row in RowsWith(sets, token, n) <==> row < n && token in sets[row]
  {
    if n > 0 {
      RowsWithMeans(sets, token, n - 1);
      var init := RowsWith(sets, token, n - 1);
      forall i | 0 <= i < |init| ensures init[i] < n - 1 { assert init[i] in init; }
    }
  }

  function PostingOf(postings: map<string, seq<nat>>, token: string): seq<nat> {
    if token in postings then postings[token] else []
  }

  /** The posting of a token over the rows before `row`, and over `row` itself when the token is in `done`. */
  ghost predicate IndexedAt(postings: map<string, seq<nat>>, sets: seq<set<string>>, row: nat, done: set<string>,
                            token: string)
    requires row <= |sets| && (done != {} ==> row < |sets|)
  {
    PostingOf(postings, token) == RowsWith(sets, token, if token in done then row + 1 else row)
  }

  ghost predicate Indexed(postings: map<string, seq<nat>>, sets: seq<set<string>>, row: nat, done: set<string>)
    requires row <= |sets| && (done != {} ==> row < |sets|)
  {
    forall token :: IndexedAt(postings, sets, row, done, token)
  }

  lemma IndexToken(postings: map<string, seq<nat>>, sets: seq<set<string>>, row: nat, done: set<string>, token: string)
    requires row < |sets| && Indexed(postings, sets, row, done) && token in sets[row] && token !in done
    ensures Indexed(postings[token := PostingOf(postings, token) + [row]], sets, row, done + {token})
  {
    var after := postings[token := PostingOf(postings, token) + [row]];
    forall t ensures IndexedAt(after, sets, row, done + {token}, t) { assert IndexedAt(postings, sets, row, done, t); }
  }

  lemma RowIndexed(postings: map<string, seq<nat>>, sets: seq<set<string>>, row: nat)
    requires row < |sets| && Indexed(postings, sets, row, sets[row])
    ensures Indexed(postings, sets, row + 1, {})
  {
    var next := row + 1;
    forall t ensures IndexedAt(postings, sets, next, {}, t) { assert IndexedAt(postings, sets, row, sets[row], t); }
  }

  method BuildPostings(sets: seq<set<string>>) returns (postings: map<string, seq<nat>>)
    ensures Indexed(postings, sets, |sets|, {})
  {
    postings := map[];
    for row := 0 to |sets|
      invariant Indexed(postings, sets, row, {})
    {
      var todo := sets[row];
      ghost var done: set<string> := {};
      while todo != {}
        invariant done + todo == sets[row] && done !! todo
        invariant Indexed(postings, sets, row, done)
        decreases todo
      {
        var token :| token in todo;
        IndexToken(postings, sets, row, done, token);
        postings := postings[token := PostingOf(postings, token) + [row]];
        done, todo := done + {token}, todo - {token};
      }
      RowIndexed(postings, sets, row);
    }
  }

  /** Where the rows after `left` begin in an ascending posting. */
  method PartitionPoint(posting: seq<nat>, left: nat) returns (k: nat)
    requires Ascending(posting)
    ensures k <= |posting|
    ensures (forall i | 0 <= i < k :: posting[i] <= left) && (forall i | k <= i < |posting| :: posting[i] > left)
  {
    var hi := |posting|;
    k := 0;
    while k < hi
      invariant k <= hi <= |posting|
      invariant (forall i | 0 <= i < k :: posting[i] <= left) && (forall i | hi <= i < |posting| :: posting[i] > left)
    {
      var mid := (k + hi) / 2;
      if posting[mid] <= left { k := mid + 1; } else { hi := mid; }
    }
  }

  /** Counts one token: adds one to the counter of every row after `left` in its posting. */
  method CountToken(intersections: array<nat>, posting: seq<nat>, left: nat)
    requires Ascending(posting)
    requires forall row | row in posting :: row < intersections.Length
    modifies intersections
    ensures forall row | 0 <= row < intersections.Length ::
              intersections[row] == old(intersections[row]) + if row in posting && row > left then 1 else 0
  {
    var first := PartitionPoint(posting, left);
    for k := first to |posting|
      invariant forall row | 0 <= row < intersections.Length ::
                  intersections[row] == old(intersections[row]) + if row in posting[first..k] then 1 else 0
    {
      assert posting[first..k + 1] == posting[first..k] + [posting[k]];
      assert posting[k] in posting && posting[k] !in posting[first..k];
      intersections[posting[k]] := intersections[posting[k]] + 1;
    }
    assert forall row :: row in posting[first..] <==> row in posting && row > left;
  }

  /** The counters of the rows after `left`, once the tokens in `done` were counted. */
  ghost predicate Counted(counters: seq<nat>, sets: seq<set<string>>, left: nat, done: set<string>)
    requires |counters| == |sets|
  {
    forall right {:trigger CountedAt(counters, sets, done, right)} | left < right < |sets| ::
      CountedAt(counters, sets, done, right)
  }

  ghost predicate CountedAt(counters: seq<nat>, sets: seq<set<string>>, done: set<string>, right: nat)
    requires right < |sets| == |counters|
  {
    counters[right] == |done * sets[right]|
  }

  lemma CountedToken(a: seq<nat>, b: seq<nat>, sets: seq<set<string>>, left: nat, done: set<string>, token: string)
    requires |a| == |b| == |sets| && Counted(a, sets, left, done) && token !in done
    requires forall row | 0 <= row < |b| ::
             b[row] == a[row] + if row in RowsWith(sets, token, |sets|) && row > left then 1 else 0
    ensures Counted(b, sets, left, done + {token})
  {
    RowsWithMeans(sets, token, |sets|);
    forall right | left < right < |sets| ensures CountedAt(b, sets, done + {token}, right) {
      assert CountedAt(a, sets, done, right);
      OneMoreToken(done, token, sets[right]);
    }
  }

  lemma OneMoreToken(done: set<string>, token: string, s: set<string>)
    requires token !in done
    ensures |(done + {token}) * s| == |done * s| + if token in s then 1 else 0
  {
    assert (done + {token}) * s == if token in s then (done * s) + {token} else done * s;
  }

  lemma NothingCounted(counters: seq<nat>, sets: seq<set<string>>, left: nat)
    requires |counters| == |sets| && forall row | 0 <= row < |counters| :: counters[row] == 0
    ensures Counted(counters, sets, left, {})
  {
    forall right | left < right < |sets| ensures |{} * sets[right]| == 0 { assert {} * sets[right] == {}; }
  }

  method Clear(counters: array<nat>, ghost sets: seq<set<string>>, ghost left: nat)
    requires counters.Length == |sets|
    modifies counters
    ensures Counted(counters[..], sets, left, {})
  {
    for row := 0 to counters.Length
      invariant forall k | 0 <= k < row :: counters[k] == 0
    {
      counters[row] := 0;
    }
    NothingCounted(counters[..], sets, left);
  }

  method CountPosting(counters: array<nat>, ghost sets: seq<set<string>>, posting: seq<nat>, left: nat,
                      ghost done: set<string>, ghost token: string)
    requires counters.Length == |sets| && Counted(counters[..], sets, left, done) && token !in done
    requires posting == RowsWith(sets, token, |sets|)
    modifies counters
    ensures Counted(counters[..], sets, left, done + {token})
  {
    RowsWithMeans(sets, token, |sets|);
    ghost var before := counters[..];
    CountToken(counters, posting, left);
    CountedToken(before, counters[..], sets, left, done, token);
  }

  /** After the tokens of one row are counted, each later counter is the size of the intersection. */
  method CountRow(intersections: array<nat>, sets: seq<set<string>>, postings: map<string, seq<nat>>, left: nat)
    requires left < |sets| == intersections.Length && Indexed(postings, sets, |sets|, {})
    modifies intersections
    ensures Counted(intersections[..], sets, left, sets[left])
  {
    Clear(intersections, sets, left);
    var todo := sets[left];
    ghost var done: set<string> := {};
    while todo != {}
      invariant done + todo == sets[left] && done !! todo
      invariant Counted(intersections[..], sets, left, done)
      decreases todo
    {
      var token :| token in todo;
      assert IndexedAt(postings, sets, |sets|, {}, token);
      CountPosting(intersections, sets, PostingOf(postings, token), left, done, token);
      done, todo := done + {token}, todo - {token};
    }
  }

  /** The indexed join returns the same sequence of pairs as the nested loop, for every input and threshold. */
  method NearDuplicateRawPairs(entries: seq<Entry>, threshold: real) returns (pairs: seq<Pair>)
    ensures pairs == NaivePairs(entries, threshold)
  {
    var indices := RawIndices(entries);
    ghost var all := TokenSets(entries, indices);
    if |indices| < 2 {
      FewRowsNoPairs(indices, all, threshold);
      return [];
    }
    var sets := TokenSets(entries, indices);
    var postings := BuildPostings(sets);
    pairs := [];
    var intersections := new nat[|indices|];
    for left := 0 to |indices| - 1
      invariant pairs == PairsUpTo(indices, sets, left, threshold)
    {
      CountRow(intersections, sets, postings, left);
      pairs := PairsAfter(indices, sets, intersections, left, threshold, pairs);
    }
  }

  lemma FewRowsNoPairs(indices: seq<nat>, sets: seq<set<string>>, threshold: real)
    requires |indices| == |sets| && |indices| < 2
    ensures PairsUpTo(indices, sets, |indices|, threshold) == []
  {
    if |indices| == 1 { assert PairsOf(indices, sets, 0, 1, threshold) == []; }
  }

  /** One comparison, with its similarity taken from the counter and the two set sizes. */
  lemma ComparedByCounts(indices: seq<nat>, sets: seq<set<string>>, left: nat, right: nat, threshold: real, count: nat)
    requires left < |indices| == |sets| && right < |indices| && count == |sets[left] * sets[right]|
    ensures count <= |sets[left]| + |sets[right]|
    ensures var similarity := Ratio(count, |sets[left]| + |sets[right]| - count);
            Compared(indices, sets, left, right, threshold) ==
            if similarity + EPSILON >= threshold then [Pair(indices[left], indices[right], similarity)] else []
  {
    CountsGiveJaccard(sets[left], sets[right]);
  }

  /** Appends the pairs of one row, reading their similarity off the counters. */
  method PairsAfter(indices: seq<nat>, sets: seq<set<string>>, intersections: array<nat>, left: nat, threshold: real,
                    before: seq<Pair>)
    returns (pairs: seq<Pair>)
    requires left < |indices| == |sets| == intersections.Length
    requires Counted(intersections[..], sets, left, sets[left])
    ensures pairs == before + PairsOf(indices, sets, left, |indices|, threshold)
  {
    pairs := CompareRow(indices, sets, intersections, left, threshold, before);
    OntoIsAfter(before, ComparedWith(indices, sets, left, threshold), left + 1, |indices|);
  }

  method CompareRow(indices: seq<nat>, sets: seq<set<string>>, intersections: array<nat>, left: nat, threshold: real,
                    before: seq<Pair>)
    returns (pairs: seq<Pair>)
    requires left < |indices| == |sets| == intersections.Length
    requires Counted(intersections[..], sets, left, sets[left])
    ensures pairs == GatheredOnto(before, ComparedWith(indices, sets, left, threshold), left + 1, |indices|)
  {
    pairs := before;
    ghost var parts := ComparedWith(indices, sets, left, threshold);
    for right := left + 1 to |indices|
      invariant pairs == GatheredOnto(before, parts, left + 1, right)
    {
      var near := CompareCounted(indices, sets, intersections, left, right, threshold);
      pairs := pairs + near;
    }
  }

  /** The lists `parts(from)` to `parts(until - 1)`, appended to `before` one by one. */
  function GatheredOnto<T>(before: seq<T>, parts: nat -> seq<T>, from: nat, until: nat): seq<T> {
    if until <= from then before else GatheredOnto(before, parts, from, until - 1) + parts(until - 1)
  }

  lemma {:induction false} OntoIsAfter<T>(before: seq<T>, parts: nat -> seq<T>, from: nat, until: nat)
    ensures GatheredOnto(before, parts, from, until) == before + Gathered(parts, from, until)
  {
    if until > from { OntoIsAfter(before, parts, from, until - 1); }
  }

  /** One comparison through the counter: the pair, when its similarity is at the threshold. */
  method CompareCounted(indices: seq<nat>, sets: seq<set<string>>, intersections: array<nat>, left: nat, right: nat,
                        threshold: real)
    returns (near: seq<Pair>)
    requires left < right < |indices| == |sets| == intersections.Length
    requires CountedAt(intersections[..], sets, sets[left], right)
    ensures near == ComparedWith(indices, sets, left, threshold)(right)
  {
    var intersection := intersections[..][right];
    ComparedByCounts(indices, sets, left, right, threshold, intersection);
    var union := |sets[left]| + |sets[right]| - intersection;
    var similarity := Ratio(intersection, union);
    near := if similarity + EPSILON >= threshold then [Pair(indices[left], indices[right], similarity)] else [];
  }
}
