/** Small shared vocabulary: optional values, outcomes and plain string predicates. */
module Prelude {

  datatype Option<+T> = None | Some(value: T)

  datatype Result<+T, +E> = Ok(value: T) | Err(error: E)

  predicate StartsWith(s: string, prefix: string) {
    |prefix| <= |s| && s[..|prefix|] == prefix
  }

  predicate EndsWith(s: string, suffix: string) {
    |suffix| <= |s| && s[|s| - |suffix|..] == suffix
  }

  /** `infix` occurs in `s` at position `k`. */
  predicate OccursAt(s: string, infix: string, k: nat) {
    k + |infix| <= |s| && s[k..k + |infix|] == infix
  }

  predicate Contains(s: string, infix: string) {
    exists k: nat | k <= |s| :: OccursAt(s, infix, k)
  }

  /** The namespace itself, or a path below it. */
  predicate InNamespace(path: string, namespace: string) { path == namespace || StartsWith(path, namespace + "/") }

  // ----- UTF-8 -----

  function CharOctets(c: char): nat {
    if c as int < 0x80 then 1 else if c as int < 0x800 then 2 else if c as int < 0x10000 then 3 else 4
  }

  // ----- ASCII case and white space -----

  predicate Blank(s: string) { forall i | 0 <= i < |s| :: IsSpace(s[i]) }

  predicate IsSpace(c: char) {
    c == ' ' || c == '\t' || c == '\n' || c == '\r' || c == '\U{0B}' || c == '\U{0C}'
  }

  function LowerChar(c: char): (r: char)
    ensures LowerOnly(r) && (LowerOnly(c) ==> r == c)
    ensures IsSpace(c) <==> IsSpace(r)
    ensures c == '/' <==> r == '/'
  {
    if 'A' <= c <= 'Z' then (c as int + 32) as char else c
  }

  predicate LowerOnly(c: char) { !('A' <= c <= 'Z') }

  function Lower(s: string): (r: string)
    ensures |r| == |s| && forall i | 0 <= i < |s| :: r[i] == LowerChar(s[i])
  {
    if s == "" then "" else [LowerChar(s[0])] + Lower(s[1..])
  }

  lemma LowerFixed(s: string)
    requires forall i | 0 <= i < |s| :: LowerOnly(s[i])
    ensures Lower(s) == s
  {
  }

  // ----- Order -----

  /** Byte order of UTF-8 text, which is the order of its code points. */
  predicate Less(a: string, b: string) {
    b != "" && (a == "" || a[0] < b[0] || (a[0] == b[0] && Less(a[1..], b[1..])))
  }

  lemma {:induction false} LessTotal(a: string, b: string)
    ensures a != b ==> Less(a, b) || Less(b, a)
    ensures !(Less(a, b) && Less(b, a)) && !Less(a, a)
  {
    if a != "" { LessTotal(a[1..], a[1..]); }
    if a != "" && b != "" {
      LessTotal(a[1..], b[1..]);
      if a[0] == b[0] && a[1..] == b[1..] { assert a == [a[0]] + a[1..] && b == [b[0]] + b[1..]; }
    }
  }

  lemma {:induction false} LessTransitive(a: string, b: string, c: string)
    requires Less(a, b) && Less(b, c)
    ensures Less(a, c)
  {
    if a != "" && a[0] == b[0] == c[0] { LessTransitive(a[1..], b[1..], c[1..]); }
  }
}
