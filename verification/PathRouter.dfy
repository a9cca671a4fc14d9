/**
 Normal form and routing of memory paths (crates/memcore/src/path_router.rs).
 White space and case are ASCII.
 */
module PathRouter {
  import opened Prelude

  // ----- Trimming -----

  function TrimStart(s: string): (r: string)
    ensures |r| <= |s| && r == s[|s| - |r|..] && (r != "" ==> !IsSpace(r[0]))
    ensures forall i | 0 <= i < |s| - |r| :: IsSpace(s[i])
  {
    if s != "" && IsSpace(s[0]) then TrimStart(s[1..]) else s
  }

  function TrimEnd(s: string): (r: string)
    ensures r <= s && (r != "" ==> !IsSpace(r[|r| - 1]))
    ensures forall i | |r| <= i < |s| :: IsSpace(s[i])
  {
    if s != "" && IsSpace(s[|s| - 1]) then TrimEnd(s[..|s| - 1]) else s
  }

  function Trim(s: string): string { TrimEnd(TrimStart(s)) }

  /** `trim_end_matches('/')`. */
  function DropSlashes(s: string): (r: string)
    ensures r <= s && (r != "" ==> r[|r| - 1] != '/')
    ensures forall i | |r| <= i < |s| :: s[i] == '/'
  {
    if s != "" && s[|s| - 1] == '/' then DropSlashes(s[..|s| - 1]) else s
  }

  // ----- normalize_path -----

  /** Every slash that follows a slash is dropped. */
  function Collapse(s: string): (r: string)
    ensures |r| <= |s| && (s != "" ==> r != "" && r[0] == s[0] && r[|r| - 1] == s[|s| - 1])
  {
    if |s| <= 1 then s
    else
      var init := Collapse(s[..|s| - 1]);
      if s[|s| - 1] == '/' && s[|s| - 2] == '/' then init else init + [s[|s| - 1]]
  }

  /** The length of the part of `s` before its first slash. */
  function SegmentLength(s: string): (n: nat)
    ensures n <= |s| && '/' !in s[..n] && (n < |s| ==> s[n] == '/')
  {
    if s == "" || s[0] == '/' then 0 else
      var n := SegmentLength(s[1..]);
      assert s[..n + 1] == [s[0]] + s[1..][..n];
      n + 1
  }

  function LowerSegment(s: string): string {
    Lower(s[..SegmentLength(s)]) + s[SegmentLength(s)..]
  }

  function WithLead(s: string): string { if s != "" && s[0] == '/' then s else "/" + s }

  function Finish(stripped: string): string {
    if stripped == "" then "/" else "/" + LowerSegment(stripped[1..])
  }

  function Normalized(p: string): string {
    var t := Trim(p);
    if t == "" then "/" else Finish(DropSlashes(Collapse(WithLead(t))))
  }

  method CollapseSlashes(s: string) returns (collapsed: string)
    ensures collapsed == Collapse(s)
  {
    var lastWasSlash := false;
    collapsed := "";
    for i := 0 to |s|
      invariant collapsed == Collapse(s[..i])
      invariant lastWasSlash <==> i > 0 && s[i - 1] == '/'
    {
      var ch := s[i];
      assert s[..i + 1][..i] == s[..i];
      if ch == '/' {
        if !lastWasSlash { collapsed := collapsed + ['/']; }
        lastWasSlash := true;
      } else {
        collapsed := collapsed + [ch];
        lastWasSlash := false;
      }
    }
    assert s[..|s|] == s;
  }

  method NormalizePath(p: string) returns (r: string)
    ensures r == Normalized(p)
  {
    var trimmed := Trim(p);
    if trimmed == "" { return "/"; }
    var collapsed := CollapseSlashes(WithLead(trimmed));
    var stripped := if |collapsed| > 1 then DropSlashes(collapsed) else collapsed;
    if stripped == "" || stripped == "/" { return "/"; }
    var rest := stripped[1..];
    var idx := SegmentLength(rest);
    r := "/" + (Lower(rest[..idx]) + rest[idx..]);
  }

  // ----- The normal form -----

  predicate SlashPair(s: string, i: nat) { i + 1 < |s| && s[i] == '/' && s[i + 1] == '/' }

  predicate NoDoubleSlash(s: string) { forall i: nat | i < |s| :: !SlashPair(s, i) }

  lemma {:induction false} CollapseHasNoDouble(s: string)
    ensures NoDoubleSlash(Collapse(s))
  {
    if |s| > 1 {
      var init := s[..|s| - 1];
      CollapseHasNoDouble(init);
      forall i: nat | i < |Collapse(s)| ensures !SlashPair(Collapse(s), i) {
        if i < |Collapse(init)| { assert !SlashPair(Collapse(init), i); }
      }
    }
  }

  predicate FirstSegmentLower(n: string) {
    |n| >= 1 && forall i | 1 <= i <= SegmentLength(n[1..]) :: LowerOnly(n[i])
  }

  /** A leading slash, no empty segment, no trailing slash except root, a lower-case first segment. */
  predicate NormalForm(n: string) {
    && n != "" && n[0] == '/' && NoDoubleSlash(n)
    && (n == "/" || n[|n| - 1] != '/')
    && FirstSegmentLower(n)
  }

  lemma LowerSegmentShape(s: string)
    ensures |LowerSegment(s)| == |s| && SegmentLength(LowerSegment(s)) == SegmentLength(s)
    ensures forall i | 0 <= i < |s| :: LowerSegment(s)[i] == if i < SegmentLength(s) then LowerChar(s[i]) else s[i]
    ensures forall i | 0 <= i < |s| ::
            (LowerSegment(s)[i] == '/' <==> s[i] == '/') && (IsSpace(LowerSegment(s)[i]) <==> IsSpace(s[i]))
  {
    SegmentLengthUnique(LowerSegment(s), SegmentLength(s));
  }

  lemma {:induction false} SegmentLengthUnique(s: string, n: nat)
    requires n <= |s| && (forall i | 0 <= i < n :: s[i] != '/') && (n < |s| ==> s[n] == '/')
    ensures SegmentLength(s) == n
  {
    if n > 0 { SegmentLengthUnique(s[1..], n - 1); }
  }

  lemma FinishIsNormal(c: string)
    requires c != "" && c[0] == '/' && NoDoubleSlash(c)
    ensures NormalForm(Finish(DropSlashes(c)))
  {
    var stripped := DropSlashes(c);
    if stripped != "" {
      var (n, rest) := (Finish(stripped), stripped[1..]);
      LowerSegmentShape(rest);
      assert n[1..] == LowerSegment(rest);
      forall i: nat | i < |n| ensures !SlashPair(n, i) {
        assert !SlashPair(c, i);
        assert i > 0 ==> n[i] == LowerSegment(rest)[i - 1];
        assert i + 1 < |n| ==> n[i + 1] == LowerSegment(rest)[i];
      }
    }
  }

  /** Every result is in normal form. */
  lemma NormalizedIsNormal(p: string)
    ensures NormalForm(Normalized(p))
  {
    var t := Trim(p);
    if t != "" {
      CollapseHasNoDouble(WithLead(t));
      FinishIsNormal(Collapse(WithLead(t)));
    }
  }

  // ----- How far from idempotent -----

  lemma {:induction false} CollapseOfNormal(s: string)
    requires NoDoubleSlash(s)
    ensures Collapse(s) == s
  {
    if |s| > 1 {
      var init := s[..|s| - 1];
      forall i: nat | i < |init| ensures !SlashPair(init, i) { assert !SlashPair(s, i); }
      CollapseOfNormal(init);
      assert !SlashPair(s, |s| - 2);
    }
  }

  lemma LowerSegmentOfNormal(n: string, s: string)
    requires FirstSegmentLower(n) && s <= n && s != ""
    ensures LowerSegment(s[1..]) == s[1..]
  {
    var rest := s[1..];
    var k := SegmentLength(rest);
    SegmentPrefix(rest, n[1..]);
    forall i | 0 <= i < k ensures LowerOnly(rest[..k][i]) { assert rest[i] == n[i + 1]; }
    LowerFixed(rest[..k]);
  }

  lemma TrimOfNormal(n: string)
    requires NormalForm(n)
    ensures Trim(n) == TrimEnd(n) != "" && WithLead(TrimEnd(n)) == TrimEnd(n) && NoDoubleSlash(TrimEnd(n))
  {
    assert TrimStart(n) == n;
    var t := TrimEnd(n);
    assert !IsSpace(n[0]);
    forall i: nat | i < |t| ensures !SlashPair(t, i) { assert !SlashPair(n, i); }
  }

  /** On a normal form only the end can change: trailing white space, then a trailing slash. */
  lemma NormalizedOfNormal(n: string)
    requires NormalForm(n)
    ensures var s := DropSlashes(TrimEnd(n)); Normalized(n) == if s == "" then "/" else s
  {
    TrimOfNormal(n);
    NormalizedIsCleaned(n, TrimEnd(n));
    CleanedOfNormal(n, TrimEnd(n));
  }

  lemma CleanedOfNormal(n: string, t: string)
    requires FirstSegmentLower(n) && t <= n && t != "" && WithLead(t) == t && NoDoubleSlash(t)
    ensures var s := DropSlashes(t); Cleaned(t) == if s == "" then "/" else s
  {
    CollapseOfNormal(t);
    FinishOfNormal(n, DropSlashes(t));
  }

  lemma FinishOfNormal(n: string, s: string)
    requires FirstSegmentLower(n) && s <= n && (s != "" ==> s[0] == '/')
    ensures Finish(s) == if s == "" then "/" else s
  {
    if s != "" {
      LowerSegmentOfNormal(n, s);
      FinishFixed(s, s[1..]);
    }
  }

  lemma FinishFixed(s: string, rest: string)
    requires s != "" && s[0] == '/' && rest == s[1..] && LowerSegment(rest) == rest
    ensures Finish(s) == s
  {
    assert s == "/" + rest;
  }

  lemma {:induction false} SegmentPrefix(a: string, b: string)
    requires a <= b
    ensures SegmentLength(a) <= SegmentLength(b)
  {
    if a != "" && a[0] != '/' {
      assert a[1..] <= b[1..];
      SegmentPrefix(a[1..], b[1..]);
    }
  }

  predicate EndsInSpace(s: string) { s != "" && IsSpace(s[|s| - 1]) }

  lemma UnspacedIsFixed(n: string)
    requires NormalForm(n) && !EndsInSpace(n)
    ensures Normalized(n) == n
  {
    NormalizedOfNormal(n);
    assert TrimEnd(n) == n;
    if n == "/" { assert n[..0] == ""; }
  }

  lemma SpacedShrinks(n: string)
    requires NormalForm(n) && EndsInSpace(n)
    ensures |Normalized(n)| < |n|
  {
    NormalizedOfNormal(n);
    assert TrimEnd(n) == TrimEnd(n[..|n| - 1]);
    assert |n| > 1;
  }

  /** A second application changes a result exactly when it ends in white space, and then shortens it. */
  lemma SecondApplication(p: string)
    ensures var n := Normalized(p);
            && (Normalized(n) == n <==> !EndsInSpace(n))
            && (EndsInSpace(n) ==> |Normalized(n)| < |n|)
  {
    var n := Normalized(p);
    NormalizedIsNormal(p);
    if EndsInSpace(n) { SpacedShrinks(n); } else { UnspacedIsFixed(n); }
  }

  lemma {:induction false} DropSlashesThenCollapse(s: string)
    ensures DropSlashes(Collapse(s)) == Collapse(DropSlashes(s))
  {
    if |s| > 1 && s[|s| - 1] == '/' {
      var init := s[..|s| - 1];
      DropSlashesThenCollapse(init);
      if s[|s| - 2] != '/' {
        assert (Collapse(init) + ['/'])[..|Collapse(init)|] == Collapse(init);
      }
    }
  }

  lemma {:induction false} DropSlashesConcat(a: string, b: string)
    ensures DropSlashes(a + b) == if DropSlashes(b) == "" then DropSlashes(a) else a + DropSlashes(b)
  {
    if b == "" {
      assert a + b == a;
    } else if b[|b| - 1] == '/' {
      assert (a + b)[..|a + b| - 1] == a + b[..|b| - 1];
      DropSlashesConcat(a, b[..|b| - 1]);
    }
  }

  /**
   What a caller can look at beforehand: without its outer white space and trailing slashes, does the path still end
   in white space?
   */
  predicate SpacedTail(p: string) { EndsInSpace(DropSlashes(Trim(p))) }

  lemma FinishKeepsTail(x: string)
    requires x == "" || x[0] == '/'
    ensures EndsInSpace(Finish(x)) <==> EndsInSpace(x)
  {
    if |x| > 1 { LowerSegmentShape(x[1..]); }
  }

  lemma CollapseKeepsTail(w: string)
    ensures EndsInSpace(Collapse(w)) <==> EndsInSpace(w)
  {
  }

  lemma LeadKeepsTail(t: string)
    ensures EndsInSpace(DropSlashes(WithLead(t))) <==> EndsInSpace(DropSlashes(t))
  {
    if t == "" || t[0] != '/' {
      DropSlashesConcat("/", t);
      SlashThenTail(DropSlashes(t));
    }
  }

  lemma SlashThenTail(d: string)
    ensures EndsInSpace(if d == "" then DropSlashes("/") else "/" + d) <==> EndsInSpace(d)
  {
    assert "/"[..0] == "";
  }

  lemma CleanedKeepsTail(t: string)
    ensures EndsInSpace(DropSlashes(Collapse(WithLead(t)))) <==> EndsInSpace(DropSlashes(t))
  {
    DropSlashesThenCollapse(WithLead(t));
    CollapseKeepsTail(DropSlashes(WithLead(t)));
    LeadKeepsTail(t);
  }

  /** What `Normalized` makes of a trimmed path. */
  function Cleaned(t: string): string { if t == "" then "/" else Finish(DropSlashes(Collapse(WithLead(t)))) }

  lemma StrippedLead(w: string)
    requires w != "" && w[0] == '/'
    ensures var d := DropSlashes(Collapse(w)); d == "" || d[0] == '/'
  {
  }

  lemma CleanedTail(t: string)
    ensures EndsInSpace(Cleaned(t)) <==> EndsInSpace(DropSlashes(t))
  {
    if t != "" {
      CleanedKeepsTail(t);
      StrippedLead(WithLead(t));
      FinishKeepsTail(DropSlashes(Collapse(WithLead(t))));
    }
  }

  lemma NormalizedTail(p: string)
    ensures EndsInSpace(Normalized(p)) <==> SpacedTail(p)
  {
    CleanedTail(Trim(p));
  }

  /** The documented idempotence holds exactly for paths without a spaced tail. */
  lemma IdempotentIffNoSpacedTail(p: string)
    ensures Normalized(Normalized(p)) == Normalized(p) <==> !SpacedTail(p)
  {
    SecondApplication(p);
    NormalizedTail(p);
  }

  /**
   Not idempotent, against the comment on the function: white space behind a name survives when a slash follows it.
   */
  lemma NotIdempotent(name: string)
    requires PlainName(name)
    ensures Normalized(Normalized(Spaced(name))) != Normalized(Spaced(name))
  {
    SpacedNormalized(name);
    SecondApplication(Spaced(name));
    assert EndsInSpace("/" + (name + " "));
  }

  lemma NotIdempotentExample(p: string)
    requires p == "/a /"
    ensures Normalized(Normalized(p)) != Normalized(p)
  {
    var name := "a";
    assert Spaced(name) == p;
    NotIdempotent(name);
  }

  function DropBoth(s: string): (r: string)
    ensures r <= s && (r != "" ==> r[|r| - 1] != '/' && !IsSpace(r[|r| - 1]))
    ensures forall i | |r| <= i < |s| :: s[i] == '/' || IsSpace(s[i])
  {
    if s != "" && (s[|s| - 1] == '/' || IsSpace(s[|s| - 1])) then DropBoth(s[..|s| - 1]) else s
  }

  /** Normalizing until nothing changes. */
  function Settled(n: string): string
    requires NormalForm(n)
    decreases |n|
  {
    NormalizedIsNormal(n);
    NormalizedOfNormal(n);
    var m := Normalized(n);
    if m == n then n else Settled(m)
  }

  lemma {:induction false} DropBothAfter(s: string)
    ensures DropBoth(TrimEnd(s)) == DropBoth(s) && DropBoth(DropSlashes(s)) == DropBoth(s)
  {
    if s != "" { DropBothAfter(s[..|s| - 1]); }
  }

  lemma {:induction false} DropBothMaximal(s: string, r: string)
    requires r <= s && (r != "" ==> r[|r| - 1] != '/' && !IsSpace(r[|r| - 1]))
    requires forall i | |r| <= i < |s| :: s[i] == '/' || IsSpace(s[i])
    ensures DropBoth(s) == r
  {
    if |r| < |s| { DropBothMaximal(s[..|s| - 1], r); }
  }

  function OrRoot(s: string): string { if s == "" then "/" else s }

  lemma RootDropsToNothing()
    ensures DropBoth("/") == ""
  {
    assert "/"[..0] == "";
  }

  /** A second application drops nothing that is not dropped in the end. */
  lemma NormalizedDropsSame(n: string)
    requires NormalForm(n)
    ensures DropBoth(Normalized(n)) == DropBoth(n)
  {
    NormalizedOfNormal(n);
    DropBothAfter(n);
    DropBothAfter(TrimEnd(n));
    RootDropsToNothing();
  }

  lemma FixedDropsNothing(n: string)
    requires NormalForm(n) && Normalized(n) == n
    ensures n == OrRoot(DropBoth(n))
  {
    RootDropsToNothing();
    if n != "/" {
      if EndsInSpace(n) { SpacedShrinks(n); }
      DropBothMaximal(n, n);
    }
  }

  /** Iteration reaches a fixed point, which is the path without any trailing white space or slash. */
  lemma {:induction false} SettledIsFixed(n: string)
    requires NormalForm(n)
    ensures Normalized(Settled(n)) == Settled(n) && NormalForm(Settled(n))
    ensures Settled(n) == OrRoot(DropBoth(n))
    decreases |n|
  {
    NormalizedIsNormal(n);
    if Normalized(n) == n {
      FixedDropsNothing(n);
    } else {
      ChangedIsShorter(n);
      SettledIsFixed(Normalized(n));
      NormalizedDropsSame(n);
    }
  }

  lemma ChangedIsShorter(n: string)
    requires NormalForm(n) && Normalized(n) != n
    ensures |Normalized(n)| < |n|
  {
    if EndsInSpace(n) { SpacedShrinks(n); } else { UnspacedIsFixed(n); }
  }

  // ----- What the normal form forgets -----

  lemma Assoc(a: string, b: string, c: string)
    ensures a + (b + c) == (a + b) + c
  {
  }

  lemma CollapseLast(s: string, c: char)
    ensures Collapse(s + [c]) == if c == '/' && s != "" && s[|s| - 1] == '/' then Collapse(s) else Collapse(s) + [c]
  {
    assert (s + [c])[..|s|] == s;
  }

  lemma {:induction false} CollapseSplit(x: string, y: string)
    requires x != "" && x[|x| - 1] != '/'
    ensures Collapse(x + y) == Collapse(x) + Collapse(y)
  {
    if y == "" {
      assert x + y == x;
    } else {
      var (init, c) := (y[..|y| - 1], y[|y| - 1]);
      assert y == init + [c];
      CollapseSplit(x, init);
      Assoc(x, init, [c]);
      CollapseLast(x + init, c);
      CollapseLast(init, c);
      Assoc(Collapse(x), Collapse(init), [c]);
    }
  }

  lemma {:induction false} CollapseAppend(x: string, seg: string)
    requires '/' !in seg
    ensures Collapse(x + seg) == Collapse(x) + seg
  {
    if seg == "" {
      assert x + seg == x;
    } else {
      var (init, c) := (seg[..|seg| - 1], seg[|seg| - 1]);
      assert seg == init + [c];
      CollapseAppend(x, init);
      Assoc(x, init, [c]);
      CollapseLast(x + init, c);
      Assoc(Collapse(x), init, [c]);
    }
  }

  predicate AllSlashes(k: string) { forall i | 0 <= i < |k| :: k[i] == '/' }

  lemma {:induction false} CollapseSlashRun(k: string)
    requires AllSlashes(k) && k != ""
    ensures Collapse(k) == "/"
  {
    if |k| > 1 { CollapseSlashRun(k[..|k| - 1]); }
  }

  /** A trimmed path: leading slashes, a first segment, and a rest that is empty or starts with a slash. */
  predicate Segmented(k: string, seg: string, rest: string) {
    && AllSlashes(k) && seg != "" && '/' !in seg && (rest == "" || rest[0] == '/')
    && Trim(k + seg + rest) == k + seg + rest
  }

  lemma FinishSegment(seg: string, tail: string)
    requires seg != "" && '/' !in seg && (tail == "" || tail[0] == '/')
    ensures Finish("/" + seg + tail) == "/" + Lower(seg) + tail
  {
    var x := seg + tail;
    assert ("/" + seg + tail)[1..] == x;
    forall i | 0 <= i < |seg| ensures x[i] != '/' { assert x[i] == seg[i]; }
    SegmentLengthUnique(x, |seg|);
    assert x[..|seg|] == seg && x[|seg|..] == tail;
  }

  lemma LeadOf(k: string, seg: string, rest: string)
    requires AllSlashes(k) && seg != "" && '/' !in seg
    ensures WithLead(k + seg + rest) == (if k == "" then "/" else k) + seg + rest
  {
    var t := k + seg + rest;
    if k == "" {
      assert t == seg + rest && t[0] == seg[0];
      assert seg[0] in seg;
    } else {
      assert t[0] == k[0];
    }
  }

  lemma CollapseSegmented(lead: string, seg: string, rest: string)
    requires AllSlashes(lead) && lead != "" && seg != "" && '/' !in seg
    ensures Collapse(lead + seg + rest) == "/" + seg + Collapse(rest)
  {
    CollapseSlashRun(lead);
    CollapseAppend(lead, seg);
    assert seg[|seg| - 1] in seg && (lead + seg)[|lead + seg| - 1] == seg[|seg| - 1];
    CollapseSplit(lead + seg, rest);
  }

  lemma DropSegmented(seg: string, c: string)
    requires seg != "" && '/' !in seg
    ensures DropSlashes("/" + seg + c) == "/" + seg + DropSlashes(c)
  {
    DropSlashesConcat("/" + seg, c);
    assert seg[|seg| - 1] in seg && ("/" + seg)[|seg|] == seg[|seg| - 1];
    assert ("/" + seg) + "" == "/" + seg;
  }

  /**
   The result in closed form: one slash, the first segment in lower case, the collapsed rest without trailing slashes.
   */
  lemma NormalizedShape(k: string, seg: string, rest: string)
    requires Segmented(k, seg, rest)
    ensures Normalized(k + seg + rest) == "/" + Lower(seg) + DropSlashes(Collapse(rest))
  {
    LeadOf(k, seg, rest);
    CollapseSegmented(if k == "" then "/" else k, seg, rest);
    DropSegmented(seg, Collapse(rest));
    var tail := DropSlashes(Collapse(rest));
    assert tail == "" || tail[0] == Collapse(rest)[0];
    FinishSegment(seg, tail);
  }

  /** Extra leading slashes, a missing one, and the case of the first segment are all forgotten. */
  lemma LeadAndCaseForgotten(k: string, seg: string, rest: string, k': string, seg': string)
    requires Segmented(k, seg, rest) && Segmented(k', seg', rest) && Lower(seg) == Lower(seg')
    ensures Normalized(k + seg + rest) == Normalized(k' + seg' + rest)
  {
    NormalizedShape(k, seg, rest);
    NormalizedShape(k', seg', rest);
  }

  lemma CollapseBoth(s: string, t: string, c: char)
    requires s != "" && t != "" && s[|s| - 1] == t[|t| - 1] && Collapse(s) == Collapse(t)
    ensures Collapse(s + [c]) == Collapse(t + [c])
  {
    CollapseLast(s, c);
    CollapseLast(t, c);
  }

  lemma {:induction false} CollapseSame(s: string, t: string, b: string)
    requires s != "" && t != "" && s[|s| - 1] == t[|t| - 1] && Collapse(s) == Collapse(t)
    ensures Collapse(s + b) == Collapse(t + b)
    decreases |b|
  {
    if b == "" {
      assert s + b == s && t + b == t;
    } else {
      CollapseBoth(s, t, b[0]);
      CollapseSame(s + [b[0]], t + [b[0]], b[1..]);
      AppendOne(s, b);
      AppendOne(t, b);
    }
  }

  lemma AppendOne(s: string, b: string)
    requires b != ""
    ensures (s + [b[0]]) + b[1..] == s + b
  {
  }

  lemma CollapseDouble(a: string, b: string)
    requires a != "" && a[|a| - 1] == '/'
    ensures Collapse(a + "/" + b) == Collapse(a + b)
  {
    CollapseLast(a, '/');
    CollapseSame(a + "/", a, b);
  }

  lemma {:induction false} TrimStartAt(a: string, b: string)
    requires b != "" && !IsSpace(b[0])
    ensures TrimStart(a + b) == TrimStart(a) + b
  {
    if a == "" {
      assert a + b == b;
    } else if IsSpace(a[0]) {
      assert (a + b)[1..] == a[1..] + b;
      TrimStartAt(a[1..], b);
    }
  }

  lemma {:induction false} TrimEndAt(a: string, b: string)
    requires a != "" && !IsSpace(a[|a| - 1])
    ensures TrimEnd(a + b) == a + TrimEnd(b)
  {
    if b == "" {
      assert a + b == a;
    } else if IsSpace(b[|b| - 1]) {
      assert (a + b)[..|a + b| - 1] == a + b[..|b| - 1];
      TrimEndAt(a, b[..|b| - 1]);
    }
  }

  lemma TrimAround(a: string, mid: string, b: string)
    requires mid != "" && !IsSpace(mid[0]) && !IsSpace(mid[|mid| - 1])
    ensures Trim(a + mid + b) == TrimStart(a) + mid + TrimEnd(b)
  {
    Assoc(a, mid, b);
    TrimStartAt(a, mid + b);
    Assoc(TrimStart(a), mid, b);
    assert (TrimStart(a) + mid)[|TrimStart(a) + mid| - 1] == mid[|mid| - 1];
    TrimEndAt(TrimStart(a) + mid, b);
  }

  lemma {:induction false} SpaceThenTrim(a: string, s: string)
    requires Blank(a)
    ensures TrimStart(a + s) == TrimStart(s)
  {
    if a == "" {
      assert a + s == s;
    } else {
      assert (a + s)[1..] == a[1..] + s;
      SpaceThenTrim(a[1..], s);
    }
  }

  lemma {:induction false} TrimThenSpace(s: string, b: string)
    requires Blank(b)
    ensures TrimEnd(s + b) == TrimEnd(s)
  {
    if b == "" {
      assert s + b == s;
    } else {
      assert (s + b)[..|s + b| - 1] == s + b[..|b| - 1];
      TrimThenSpace(s, b[..|b| - 1]);
    }
  }

  /** Trimming the start of a text that ends in white space. */
  lemma {:induction false} TrimStartThenSpace(s: string, b: string)
    requires Blank(b)
    ensures TrimEnd(TrimStart(s + b)) == TrimEnd(TrimStart(s))
  {
    if s == "" {
      assert s + b == b;
      SpaceThenTrim(b, "");
      assert b + "" == b;
    } else if IsSpace(s[0]) {
      assert (s + b)[1..] == s[1..] + b;
      TrimStartThenSpace(s[1..], b);
    } else {
      TrimThenSpace(s, b);
    }
  }

  /** White space around a path is forgotten. */
  lemma OuterSpaceForgotten(a: string, p: string, b: string)
    requires Blank(a) && Blank(b)
    ensures Normalized(a + p + b) == Normalized(p)
  {
    Assoc(a, p, b);
    SpaceThenTrim(a, p + b);
    TrimStartThenSpace(p, b);
    NormalizedIsCleaned(a + p + b, Trim(p));
    NormalizedIsCleaned(p, Trim(p));
  }

  lemma LeadAround(a: string, mid: string, b: string)
    requires mid != "" && mid[0] == '/'
    ensures WithLead(a + mid + b) == (if a == "" || a[0] == '/' then a else "/" + a) + mid + b
  {
    assert (a + mid + b)[0] == if a == "" then mid[0] else a[0];
  }

  lemma CleanedForgets(a: string, b: string)
    ensures Cleaned(a + "//" + b) == Cleaned(a + "/" + b)
  {
    LeadAround(a, "//", b);
    LeadAround(a, "/", b);
    var lead := (if a == "" || a[0] == '/' then a else "/" + a);
    CollapseDouble(lead + "/", b);
    assert lead + "//" == lead + "/" + "/";
  }

  lemma NormalizedIsCleaned(p: string, t: string)
    requires Trim(p) == t
    ensures Normalized(p) == Cleaned(t)
  {
  }

  /** Doubling any slash of any path is forgotten. */
  lemma ExtraSlashForgotten(a: string, b: string)
    ensures Normalized(a + "//" + b) == Normalized(a + "/" + b)
  {
    var (s, t) := (TrimStart(a), TrimEnd(b));
    TrimAround(a, "//", b);
    NormalizedIsCleaned(a + "//" + b, s + "//" + t);
    TrimAround(a, "/", b);
    NormalizedIsCleaned(a + "/" + b, s + "/" + t);
    CleanedForgets(s, t);
  }

  // ----- Routing -----

  datatype Routing = Project | WikiOnly | AnyDb

  datatype RoutingError =
    | RetiredStickyPath(path: string)
    | RetiredStickyCategory(category: string)
    | WikiPathInNonWikiDb(path: string, dbLabel: string)

  /** The routing of a path that is already normalized. */
  function RouteOf(n: string): Routing {
    if InNamespace(n, "/wiki") then WikiOnly
    else if InNamespace(n, "/handoff") || InNamespace(n, "/agents") || InNamespace(n, "/kanban") then Project
    else if StartsWith(n, "/domain/") then AnyDb
    else Project
  }

  function ClassifyPath(p: string): Routing { RouteOf(Normalized(p)) }

  /** The verdict on a normalized path; classifying it normalizes it once more. */
  function PathVerdict(n: string, dbLabel: string, allowCrossProject: bool): Result<(), RoutingError> {
    if InNamespace(n, "/sticky") then Err(RetiredStickyPath(n))
    else if allowCrossProject then Ok(())
    else if ClassifyPath(n) == WikiOnly && dbLabel != "wiki" then Err(WikiPathInNonWikiDb(n, dbLabel))
    else Ok(())
  }

  function ValidatePathForDb(path: string, dbLabel: string, allowCrossProject: bool): Result<(), RoutingError> {
    PathVerdict(Normalized(path), dbLabel, allowCrossProject)
  }

  /** The retirement check that comes before: `category` is the category after its own normalization. */
  function RetiredVerdict(n: string, category: string): Result<(), RoutingError> {
    if category == "sticky" then Err(RetiredStickyCategory(category))
    else if InNamespace(n, "/sticky") then Err(RetiredStickyPath(n))
    else Ok(())
  }

  function WriteVerdict(n: string, category: string, dbLabel: string,
                        allowCrossProject: bool): Result<(), RoutingError> {
    if RetiredVerdict(n, category).Err? then RetiredVerdict(n, category) else PathVerdict(n, dbLabel, allowCrossProject)
  }

  function ValidateMemoryWrite(path: string, category: string, dbLabel: string,
                               allowCrossProject: bool): Result<(), RoutingError> {
    var retired := RetiredVerdict(Normalized(path), category);
    if retired.Err? then retired else ValidatePathForDb(path, dbLabel, allowCrossProject)
  }

  lemma WriteIsVerdict(path: string, category: string, dbLabel: string, allow: bool)
    ensures ValidateMemoryWrite(path, category, dbLabel, allow) ==
            WriteVerdict(Normalized(path), category, dbLabel, allow)
  {
  }

  /**
   What each write gets: the retired category and the retired namespace are refused for every label, a wiki path for
   every label but the wiki's unless crossing is allowed, and nothing else is. The wiki test sees the path normalized
   twice, the error and the other test once.
   */
  lemma WriteVerdictMeans(p: string, category: string, dbLabel: string, allow: bool)
    ensures var (verdict, n) := (ValidateMemoryWrite(p, category, dbLabel, allow), Normalized(p));
            if category == "sticky" then verdict == Err(RetiredStickyCategory(category))
            else if n == "/sticky" || StartsWith(n, "/sticky" + "/") then verdict == Err(RetiredStickyPath(n))
            else if !allow && dbLabel != "wiki" && InNamespace(Normalized(n), "/wiki")
            then verdict == Err(WikiPathInNonWikiDb(n, dbLabel))
            else verdict == Ok(())
  {
    WriteIsVerdict(p, category, dbLabel, allow);
    RouteMeans(Normalized(Normalized(p)));
  }

  /** Which paths only the wiki may hold, which any database may, and that all others belong to a project. */
  lemma RouteMeans(n: string)
    ensures RouteOf(n) == WikiOnly <==> InNamespace(n, "/wiki")
    ensures RouteOf(n) == AnyDb <==> StartsWith(n, "/domain/")
  {
    if StartsWith(n, "/domain/") { DomainIsApart(n); }
  }

  lemma SecondLetter(n: string, prefix: string)
    requires StartsWith(n, prefix) && |prefix| > 1
    ensures |n| > 1 && n[1] == prefix[1]
  {
    assert n[1] == n[..|prefix|][1];
  }

  lemma DomainIsApart(n: string)
    requires StartsWith(n, "/domain/")
    ensures !InNamespace(n, "/wiki") && !InNamespace(n, "/handoff") && !InNamespace(n, "/agents")
    ensures !InNamespace(n, "/kanban")
  {
    SecondLetter(n, "/domain/");
    if InNamespace(n, "/wiki") { SecondOfNamespace(n, "/wiki"); }
    if InNamespace(n, "/handoff") { SecondOfNamespace(n, "/handoff"); }
    if InNamespace(n, "/agents") { SecondOfNamespace(n, "/agents"); }
    if InNamespace(n, "/kanban") { SecondOfNamespace(n, "/kanban"); }
  }

  /**
   Of the writes that settle in `/wiki`, exactly those are refused that go to another database without leave to cross,
   unless two normalizations leave white space behind the name.
   */
  lemma WikiWriteRefused(p: string, category: string, dbLabel: string, allow: bool)
    requires category != "sticky" && InNamespace(SettledPath(p), "/wiki")
    ensures ValidateMemoryWrite(p, category, dbLabel, allow).Err? <==>
            dbLabel != "wiki" && !allow && !SpacedName(Normalized(Normalized(p)), "/wiki")
  {
    WikiSettles(p);
    WikiVerdict(p, category, dbLabel, allow);
  }

  lemma WikiSettles(p: string)
    ensures InNamespace(SettledPath(p), "/wiki") ==>
              && (InNamespace(Normalized(Normalized(p)), "/wiki") <==> !SpacedName(Normalized(Normalized(p)), "/wiki"))
              && !InNamespace(Normalized(p), "/sticky")
  {
    var (wiki, sticky) := ("/wiki", "/sticky");
    assert NamespaceName(wiki) && wiki[1] != sticky[1];
    if InNamespace(SettledPath(p), wiki) { SettlesTwiceApart(p, wiki, sticky); }
  }

  lemma SettlesTwiceApart(p: string, ns: string, other: string)
    requires NamespaceName(ns) && InNamespace(SettledPath(p), ns) && |other| > 1 && ns[1] != other[1]
    ensures InNamespace(Normalized(Normalized(p)), ns) <==> !SpacedName(Normalized(Normalized(p)), ns)
    ensures !InNamespace(Normalized(p), other)
  {
    TwiceSettles(p, ns);
    NormalizedIsNormal(p);
    SettledApart(Normalized(p), ns, other);
  }

  /** The verdict on a path outside the retired namespace. */
  lemma WikiVerdict(p: string, category: string, dbLabel: string, allow: bool)
    requires category != "sticky" && !InNamespace(Normalized(p), "/sticky")
    ensures ValidateMemoryWrite(p, category, dbLabel, allow).Err? <==>
            !allow && dbLabel != "wiki" && InNamespace(Normalized(Normalized(p)), "/wiki")
  {
    WriteVerdictMeans(p, category, dbLabel, allow);
  }

  /** Normalized twice, a path is outside the namespace it settles in exactly when white space follows the name. */
  lemma TwiceSettles(p: string, ns: string)
    requires NamespaceName(ns) && InNamespace(SettledPath(p), ns)
    ensures InNamespace(Normalized(Normalized(p)), ns) <==> !SpacedName(Normalized(Normalized(p)), ns)
  {
    var n := Normalized(p);
    NormalizedIsNormal(p);
    SettledIsFixed(n);
    NormalizedDropsSame(n);
    SlipsAt(Normalized(n), ns);
    if SpacedName(Normalized(n), ns) { SpacedNameOutside(Normalized(n), ns); }
  }

  /** A path that settles in one namespace is not in another one. */
  lemma SettledApart(n: string, ns: string, other: string)
    requires NormalForm(n) && InNamespace(Settled(n), ns) && |ns| > 1 && |other| > 1 && ns[1] != other[1]
    ensures !InNamespace(n, other)
  {
    SettledIsFixed(n);
    DroppedApart(n, DropBoth(n), ns, other);
  }

  lemma DroppedApart(n: string, d: string, ns: string, other: string)
    requires d <= n && InNamespace(OrRoot(d), ns) && |ns| > 1 && |other| > 1 && ns[1] != other[1]
    ensures !InNamespace(n, other)
  {
    SecondOfNamespace(OrRoot(d), ns);
    assert d[1] == n[1];
    if InNamespace(n, other) { SecondOfNamespace(n, other); }
  }

  /** A verdict looks at the normalized path only. */
  lemma VerdictOfNormalized(p: string, q: string, category: string, dbLabel: string, allow: bool)
    requires Normalized(p) == Normalized(q)
    ensures ValidateMemoryWrite(p, category, dbLabel, allow) == ValidateMemoryWrite(q, category, dbLabel, allow)
  {
    WriteIsVerdict(p, category, dbLabel, allow);
    WriteIsVerdict(q, category, dbLabel, allow);
  }

  /** Verdicts ignore leading slashes, first-segment case and doubled slashes. */
  lemma VerdictForgets(k: string, seg: string, rest: string, k': string, seg': string, a: string, b: string,
                       category: string, dbLabel: string, allow: bool)
    requires Segmented(k, seg, rest) && Segmented(k', seg', rest) && Lower(seg) == Lower(seg')
    ensures ValidateMemoryWrite(k + seg + rest, category, dbLabel, allow) ==
            ValidateMemoryWrite(k' + seg' + rest, category, dbLabel, allow)
    ensures ValidateMemoryWrite(a + "//" + b, category, dbLabel, allow) ==
            ValidateMemoryWrite(a + "/" + b, category, dbLabel, allow)
  {
    LeadAndCaseForgotten(k, seg, rest, k', seg');
    VerdictOfNormalized(k + seg + rest, k' + seg' + rest, category, dbLabel, allow);
    ExtraSlashForgotten(a, b);
    VerdictOfNormalized(a + "//" + b, a + "/" + b, category, dbLabel, allow);
  }

  /** The settled path of any input. */
  function SettledPath(p: string): string {
    NormalizedIsNormal(p);
    Settled(Normalized(p))
  }

  /** `n` is `ns` followed by white space and then nothing but white space and slashes. */
  predicate SpacedName(n: string, ns: string) {
    |n| > |ns| && n[..|ns|] == ns && IsSpace(n[|ns|]) && forall i | |ns| <= i < |n| :: n[i] == '/' || IsSpace(n[i])
  }

  lemma PrefixOfNamespace(d: string, n: string, ns: string)
    requires d <= n && StartsWith(d, ns + "/")
    ensures InNamespace(n, ns)
  {
    assert n[..|ns + "/"|] == d[..|ns + "/"|];
  }

  lemma SpacedNameOutside(n: string, ns: string)
    requires SpacedName(n, ns)
    ensures !InNamespace(n, ns)
  {
    assert (ns + "/")[|ns|] == '/' && |n| > |ns|;
  }

  lemma DroppedToName(n: string, ns: string)
    requires ns != "" && DropBoth(n) == ns && !InNamespace(n, ns)
    ensures SpacedName(n, ns)
  {
    assert ns <= n && n != ns;
    assert n[..|ns| + 1] == ns + [n[|ns|]];
  }

  predicate NamespaceName(ns: string) { |ns| > 1 && ns[|ns| - 1] != '/' && !IsSpace(ns[|ns| - 1]) }

  /** The same of any string and what is left when its trailing white space and slashes are dropped. */
  lemma SlipsAt(n: string, ns: string)
    requires NamespaceName(ns)
    ensures InNamespace(OrRoot(DropBoth(n)), ns) && !InNamespace(n, ns) <==> SpacedName(n, ns)
  {
    if SpacedName(n, ns) {
      SpacedNameOutside(n, ns);
      DropBothMaximal(n, ns);
    } else if InNamespace(OrRoot(DropBoth(n)), ns) && !InNamespace(n, ns) {
      NameIsDropped(n, ns);
      DroppedToName(n, ns);
    }
  }

  lemma NameIsDropped(n: string, ns: string)
    requires NamespaceName(ns) && InNamespace(OrRoot(DropBoth(n)), ns) && !InNamespace(n, ns)
    ensures DropBoth(n) == ns
  {
    var d := DropBoth(n);
    if StartsWith(d, ns + "/") { PrefixOfNamespace(d, n, ns); }
  }

  /**
   A path that settles in a namespace is outside it after one normalization exactly when white space follows its name.
   */
  lemma SettlesButSlips(p: string, ns: string)
    requires NamespaceName(ns)
    ensures InNamespace(SettledPath(p), ns) && !InNamespace(Normalized(p), ns) <==> SpacedName(Normalized(p), ns)
  {
    NormalizedIsNormal(p);
    SettledIsFixed(Normalized(p));
    SlipsAt(Normalized(p), ns);
  }

  lemma SecondOfNamespace(m: string, ns: string)
    requires InNamespace(m, ns) && |ns| > 1
    ensures |m| > 1 && m[1] == ns[1]
  {
    if StartsWith(m, ns + "/") { assert m[1] == m[..|ns + "/"|][1] == (ns + "/")[1]; }
  }

  lemma NoWikiRoute(m: string)
    requires |m| > 1 ==> m[1] == 's'
    ensures RouteOf(m) != WikiOnly
  {
    if InNamespace(m, "/wiki") { SecondOfNamespace(m, "/wiki"); }
  }

  /** A normal form that starts like `/sticky` stays outside `/wiki` when it is normalized again. */
  lemma SpacedStickyIsNoWiki(n: string)
    requires NormalForm(n) && |n| > 1 && n[1] == 's'
    ensures ClassifyPath(n) != WikiOnly
  {
    NormalizedOfNormal(n);
    assert Normalized(n) == "/" || Normalized(n) <= n;
    NoWikiRoute(Normalized(n));
  }

  lemma AcceptedOutsideSticky(n: string, category: string, dbLabel: string, allow: bool)
    requires category != "sticky" && ClassifyPath(n) != WikiOnly
    ensures WriteVerdict(n, category, dbLabel, allow) == Ok(()) <==> !InNamespace(n, "/sticky")
  {
  }

  lemma RefusedInSticky(n: string, category: string, dbLabel: string, allow: bool)
    requires InNamespace(n, "/sticky")
    ensures WriteVerdict(n, category, dbLabel, allow).Err?
  {
  }

  /** The verdict on a normal form that is in `/sticky` or only white space away from it. */
  lemma SpacedStickyVerdict(n: string, category: string, dbLabel: string, allow: bool)
    requires category != "sticky" && NormalForm(n) && (SpacedName(n, "/sticky") <==> !InNamespace(n, "/sticky"))
    ensures WriteVerdict(n, category, dbLabel, allow) == Ok(()) <==> SpacedName(n, "/sticky")
  {
    if SpacedName(n, "/sticky") {
      SecondOfSpaced(n, "/sticky");
      SpacedStickyIsNoWiki(n);
      AcceptedOutsideSticky(n, category, dbLabel, allow);
    } else {
      RefusedInSticky(n, category, dbLabel, allow);
    }
  }

  lemma SecondOfSpaced(n: string, ns: string)
    requires SpacedName(n, ns) && |ns| > 1
    ensures |n| > 1 && n[1] == ns[1]
  {
    assert n[1] == n[..|ns|][1];
  }

  /**
   Both retirement checks look at one normalization of the raw path. Of the writes that settle in `/sticky`, and whose
   category is not retired, exactly those are accepted whose path keeps white space behind its last segment.
   */
  lemma RetiredPathSlips(p: string, category: string, dbLabel: string, allow: bool)
    requires category != "sticky" && InNamespace(SettledPath(p), "/sticky")
    ensures ValidateMemoryWrite(p, category, dbLabel, allow) == Ok(()) <==> SpacedName(Normalized(p), "/sticky")
  {
    SettlesButSlips(p, "/sticky");
    NormalizedIsNormal(p);
    WriteIsVerdict(p, category, dbLabel, allow);
    SpacedStickyVerdict(Normalized(p), category, dbLabel, allow);
  }

  /** A first segment with one trailing space, and a slash behind it. */
  function Spaced(name: string): string { "/" + (name + " ") + "/" }

  predicate PlainName(name: string) {
    name != "" && '/' !in name && !IsSpace(name[|name| - 1]) && forall i | 0 <= i < |name| :: LowerOnly(name[i])
  }

  lemma TrimNothing(p: string)
    requires p != "" && !IsSpace(p[0]) && !IsSpace(p[|p| - 1])
    ensures Trim(p) == p
  {
  }

  lemma SpacedNormalized(name: string)
    requires PlainName(name)
    ensures Normalized(Spaced(name)) == "/" + (name + " ")
  {
    var seg := name + " ";
    TrimNothing("/" + seg + "/");
    NormalizedShape("/", seg, "/");
    LowerFixed(seg);
    assert DropSlashes(Collapse("/")) == "";
  }

  lemma OneSpaceIsSpaced(ns: string)
    ensures SpacedName(ns + " ", ns)
  {
  }

  lemma SpacedSettles(name: string)
    requires PlainName(name)
    ensures SpacedName(Normalized(Spaced(name)), "/" + name) && InNamespace(SettledPath(Spaced(name)), "/" + name)
  {
    SpacedNormalized(name);
    var ns := "/" + name;
    Assoc("/", name, " ");
    OneSpaceIsSpaced(ns);
    assert ns[|ns| - 1] == name[|name| - 1] && name[|name| - 1] in name;
    SettlesButSlips(Spaced(name), ns);
  }

  /** The smallest retired path that slips through is accepted for every label, across projects or not. */
  lemma RetiredPathSlipsExample(category: string, dbLabel: string, allow: bool)
    requires category != "sticky"
    ensures InNamespace(SettledPath(Spaced("sticky")), "/sticky")
    ensures ValidateMemoryWrite(Spaced("sticky"), category, dbLabel, allow) == Ok(())
  {
    assert "/" + "sticky" == "/sticky";
    SpacedSettles("sticky");
    RetiredPathSlips(Spaced("sticky"), category, dbLabel, allow);
  }

  /** A first segment with one trailing space, and a second one that is a space. */
  function TwiceSpaced(name: string): string { "/" + (name + " ") + "/ /" }

  lemma TwiceSpacedNormalized(name: string)
    requires PlainName(name)
    ensures Normalized(TwiceSpaced(name)) == "/" + (name + " ") + "/ "
  {
    var (lead, seg, rest) := ("/", name + " ", "/ /");
    TrimNothing(lead + seg + rest);
    NormalizedShape(lead, seg, rest);
    LowerFixed(seg);
    SpaceSegment(rest);
  }

  lemma SpaceSegment(rest: string)
    requires rest == "/ /"
    ensures DropSlashes(Collapse(rest)) == "/ "
  {
    var (two, one) := (rest[..2], rest[..1]);
    assert Collapse(one) == one && two[..1] == one;
    assert Collapse(two) == two;
    assert Collapse(rest) == rest;
  }

  lemma TwiceSpacedTwice(name: string)
    requires PlainName(name)
    ensures Normalized(Normalized(TwiceSpaced(name))) == "/" + (name + " ")
  {
    TwiceSpacedNormalized(name);
    NormalizedIsNormal(TwiceSpaced(name));
    var (n, s) := (Normalized(TwiceSpaced(name)), "/" + (name + " "));
    NormalizedOfNormal(n);
    SlashSpaceDropped(n, s);
  }

  lemma SlashSpaceDropped(n: string, s: string)
    requires n == s + "/ " && s != "" && s[|s| - 1] != '/'
    ensures DropSlashes(TrimEnd(n)) == s
  {
    var t := s + "/";
    assert n == t + " ";
    TrimEndAt(t, " ");
    assert TrimEnd(" ") == "" by { assert " "[..0] == ""; }
    assert t + "" == t && t[..|s|] == s;
  }

  lemma TwiceSpacedSettles(name: string)
    requires PlainName(name)
    ensures InNamespace(SettledPath(TwiceSpaced(name)), "/" + name)
    ensures SpacedName(Normalized(Normalized(TwiceSpaced(name))), "/" + name)
  {
    var (p, ns) := (TwiceSpaced(name), "/" + name);
    TwiceSpacedTwice(name);
    Assoc("/", name, " ");
    OneSpaceIsSpaced(ns);
    assert ns[|ns| - 1] == name[|name| - 1] && name[|name| - 1] in name;
    SettlesAfterTwo(p, ns);
  }

  lemma SettlesAfterTwo(p: string, ns: string)
    requires SpacedName(Normalized(Normalized(p)), ns) && ns != "" && ns[|ns| - 1] != '/' && !IsSpace(ns[|ns| - 1])
    ensures SettledPath(p) == ns
  {
    NormalizedIsNormal(p);
    SettledIsFixed(Normalized(p));
    NormalizedDropsSame(Normalized(p));
    DropBothMaximal(Normalized(Normalized(p)), ns);
  }

  /** So a path that settles in `/wiki` can be written to any database without leave to cross. */
  lemma WikiPathSlipsExample(p: string, category: string, dbLabel: string, allow: bool)
    requires p == TwiceSpaced("wiki") && category != "sticky"
    ensures InNamespace(SettledPath(p), "/wiki") && ValidateMemoryWrite(p, category, dbLabel, allow).Ok?
  {
    var name := "wiki";
    assert "/" + name == "/wiki";
    TwiceSpacedSettles(name);
    WikiWriteRefused(p, category, dbLabel, allow);
  }
}
