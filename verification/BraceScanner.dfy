/** The string-aware scan that cuts one JSON object out of an event stream (tools/recall-eval/mcp_client.py). */
module BraceScanner {
  import opened Prelude

  // ----- Lexing -----

  /** Where a character stands: in a string or not, and whether a backslash came just before. */
  datatype Mode = Outside | Inside | EscapedOutside | EscapedInside

  function NextMode(m: Mode, c: char): Mode {
    match m
    case EscapedOutside => Outside
    case EscapedInside => Inside
    case Outside => if c == '\\' then EscapedOutside else if c == '"' then Inside else Outside
    case Inside => if c == '\\' then EscapedInside else if c == '"' then Outside else Inside
  }

  /** What a character adds to the nesting depth; only braces outside strings count. */
  function Delta(m: Mode, c: char): int {
    if m != Outside then 0 else if c == '{' then 1 else if c == '}' then -1 else 0
  }

  function ModeAfter(t: string): Mode {
    if t == "" then Outside else NextMode(ModeAfter(t[..|t| - 1]), t[|t| - 1])
  }

  function DepthAfter(t: string): int {
    if t == "" then 0 else DepthAfter(t[..|t| - 1]) + Delta(ModeAfter(t[..|t| - 1]), t[|t| - 1])
  }

  /** The last character is a brace outside strings that brings the depth back to zero. */
  predicate Closes(t: string) {
    t != "" && t[|t| - 1] == '}' && ModeAfter(t[..|t| - 1]) == Outside && DepthAfter(t) == 0
  }

  /** One more character. */
  lemma OneMore(t: string, c: char)
    ensures ModeAfter(t + [c]) == NextMode(ModeAfter(t), c)
    ensures DepthAfter(t + [c]) == DepthAfter(t) + Delta(ModeAfter(t), c)
    ensures Closes(t + [c]) <==> c == '}' && ModeAfter(t) == Outside && DepthAfter(t) == 1
  {
    assert (t + [c])[..|t|] == t;
  }

  lemma ReadOne(text: string, start: nat, i: nat)
    requires start <= i < |text|
    ensures var (seen, next, c) := (text[start..i], text[start..i + 1], text[i]);
            && ModeAfter(next) == NextMode(ModeAfter(seen), c)
            && DepthAfter(next) == DepthAfter(seen) + Delta(ModeAfter(seen), c)
            && (Closes(next) <==> c == '}' && ModeAfter(seen) == Outside && DepthAfter(seen) == 1)
  {
    assert text[start..i + 1] == text[start..i] + [text[i]];
    OneMore(text[start..i], text[i]);
  }

  // ----- The scan -----

  /** `r` is the shortest beginning of the text at `start` that closes, or nothing when none does. */
  ghost predicate IsBalanced(text: string, start: nat, r: Option<string>) {
    if r.Some? then
      && start + |r.value| <= |text| && r.value == text[start..start + |r.value|] && Closes(r.value)
      && forall k | start <= k < start + |r.value| :: !Closes(text[start..k])
    else forall k | start <= k <= |text| :: !Closes(text[start..k])
  }

  method BalancedJson(text: string, start: nat) returns (r: Option<string>)
    ensures IsBalanced(text, start, r)
  {
    if start >= |text| { return None; }
    var depth, inStr, esc := 0, false, false;
    for i := start to |text|
      invariant forall k | start <= k <= i :: !Closes(text[start..k])
      invariant depth == DepthAfter(text[start..i])
      invariant ModeAfter(text[start..i]) ==
                if esc then (if inStr then EscapedInside else EscapedOutside) else if inStr then Inside else Outside
    {
      var c := text[i];
      ghost var next := text[start..i + 1];
      ReadOne(text, start, i);
      if esc {
        esc := false;
      } else if c == '\\' {
        esc := true;
      } else if c == '"' {
        inStr := !inStr;
      } else if !inStr {
        if c == '{' {
          depth := depth + 1;
        } else if c == '}' {
          depth := depth - 1;
          if depth == 0 {
            assert Closes(next);
            return Some(text[start..i + 1]);
          }
        }
      }
    }
    return None;
  }

  // ----- The same by counting -----

  /** A character after `t` would be escaped: `t` ends in a backslash that is not escaped itself. */
  predicate Escapes(t: string) { t != "" && t[|t| - 1] == '\\' && !Escapes(t[..|t| - 1]) }

  /** How often `c` occurs in `t` without being escaped. */
  function Unescaped(t: string, c: char): nat {
    if t == "" then 0
    else
      Unescaped(t[..|t| - 1], c) + if t[|t| - 1] == c && !Escapes(t[..|t| - 1]) then 1 else 0
  }

  /** A character after `t` would stand outside strings: an even number of quotes came before it. */
  predicate OutsideStrings(t: string) { Unescaped(t, '"') % 2 == 0 }

  /** How often `c` occurs in `t`, neither escaped nor in a string. */
  function Live(t: string, c: char): nat {
    if t == "" then 0
    else
      var init := t[..|t| - 1];
      Live(init, c) + if t[|t| - 1] == c && !Escapes(init) && OutsideStrings(init) then 1 else 0
  }

  lemma {:induction false} ModeMeans(t: string)
    ensures ModeAfter(t) ==
            if Escapes(t) then (if OutsideStrings(t) then EscapedOutside else EscapedInside)
            else if OutsideStrings(t) then Outside else Inside
  {
    if t != "" { ModeMeans(t[..|t| - 1]); }
  }

  lemma {:induction false} DepthMeans(t: string)
    ensures DepthAfter(t) == Live(t, '{') - Live(t, '}')
  {
    if t != "" {
      DepthMeans(t[..|t| - 1]);
      ModeMeans(t[..|t| - 1]);
    }
  }

  /** A text closes exactly when it ends in a live closing brace and has as many live braces of either kind. */
  lemma ClosesMeans(t: string)
    ensures Closes(t) <==>
            && t != "" && t[|t| - 1] == '}' && !Escapes(t[..|t| - 1]) && OutsideStrings(t[..|t| - 1])
            && Live(t, '{') == Live(t, '}')
  {
    DepthMeans(t);
    if t != "" { ModeMeans(t[..|t| - 1]); }
  }

  // ----- Text that the scan passes -----

  /** After any text that ends in mode `from`, reading `s` leads to mode `to`, changes the depth by `gain`
      and never takes it below `low`. */
  ghost predicate Passes(s: string, from: Mode, to: Mode, gain: int, low: int) {
    forall p {:trigger PassesAfter(p, s, to, gain, low)} | ModeAfter(p) == from :: PassesAfter(p, s, to, gain, low)
  }

  ghost predicate PassesAfter(p: string, s: string, to: Mode, gain: int, low: int) {
    && ModeAfter(p + s) == to && DepthAfter(p + s) == DepthAfter(p) + gain
    && forall k | 0 <= k <= |s| :: DepthAfter(p + s[..k]) >= DepthAfter(p) + low
  }

  lemma PassesNothing(from: Mode)
    ensures Passes("", from, from, 0, 0)
  {
    forall p | ModeAfter(p) == from ensures PassesAfter(p, "", from, 0, 0) { assert p + "" == p; }
  }

  lemma CharPassesAfter(p: string, c: char)
    ensures var (m, d) := (ModeAfter(p), Delta(ModeAfter(p), c));
            PassesAfter(p, [c], NextMode(m, c), d, if d < 0 then -1 else 0)
  {
    OneMore(p, c);
    forall k | 0 <= k <= 1 ensures DepthAfter(p + [c][..k]) == if k == 0 then DepthAfter(p) else DepthAfter(p + [c]) {
      if k == 0 { assert p + [c][..0] == p; } else { assert [c][..1] == [c]; }
    }
  }

  lemma PassesChar(c: char, from: Mode)
    ensures Passes([c], from, NextMode(from, c), Delta(from, c), if Delta(from, c) < 0 then -1 else 0)
  {
    forall p | ModeAfter(p) == from
      ensures PassesAfter(p, [c], NextMode(from, c), Delta(from, c), if Delta(from, c) < 0 then -1 else 0) {
      CharPassesAfter(p, c);
    }
  }

  function Min(a: int, b: int): int { if a <= b then a else b }

  lemma PrefixOfTwo(p: string, a: string, b: string, k: nat)
    requires k <= |a| + |b|
    ensures p + (a + b)[..k] == if k <= |a| then p + a[..k] else (p + a) + b[..k - |a|]
  {
    if k > |a| { assert (a + b)[..k] == a + b[..k - |a|]; }
  }

  lemma PassesThenAfter(p: string, a: string, b: string, mid: Mode, to: Mode, g1: int, l1: int, g2: int, l2: int)
    requires PassesAfter(p, a, mid, g1, l1) && PassesAfter(p + a, b, to, g2, l2)
    ensures PassesAfter(p, a + b, to, g1 + g2, Min(l1, g1 + l2))
  {
    assert p + (a + b) == (p + a) + b;
    forall k | 0 <= k <= |a + b| ensures DepthAfter(p + (a + b)[..k]) >= DepthAfter(p) + Min(l1, g1 + l2) {
      PrefixOfTwo(p, a, b, k);
    }
  }

  /** Passing one text and then another. */
  lemma PassesThen(a: string, b: string, from: Mode, mid: Mode, to: Mode, g1: int, l1: int, g2: int, l2: int)
    requires Passes(a, from, mid, g1, l1) && Passes(b, mid, to, g2, l2)
    ensures Passes(a + b, from, to, g1 + g2, Min(l1, g1 + l2))
  {
    forall p | ModeAfter(p) == from ensures PassesAfter(p, a + b, to, g1 + g2, Min(l1, g1 + l2)) {
      assert PassesAfter(p, a, mid, g1, l1);
      assert PassesAfter(p + a, b, to, g2, l2);
      PassesThenAfter(p, a, b, mid, to, g1, l1, g2, l2);
    }
  }

  /** Text that leaves the scan where it was, at no lower depth in between. */
  ghost predicate Neutral(s: string) { Passes(s, Outside, Outside, 0, 0) }

  lemma NeutralThen(a: string, b: string)
    requires Neutral(a) && Neutral(b)
    ensures Neutral(a + b)
  {
    PassesThen(a, b, Outside, Outside, Outside, 0, 0, 0, 0);
  }

  predicate Harmless(c: char) { c != '"' && c != '\\' && c != '{' && c != '}' }

  lemma {:induction false} HarmlessIsNeutral(s: string)
    requires forall i | 0 <= i < |s| :: Harmless(s[i])
    ensures Neutral(s)
  {
    if s == "" {
      PassesNothing(Outside);
    } else {
      HarmlessIsNeutral(s[1..]);
      PassesChar(s[0], Outside);
      NeutralThen([s[0]], s[1..]);
      assert s == [s[0]] + s[1..];
    }
  }

  // ----- Printed JSON -----

  /**
   A character of a string as written: itself, or after a backslash. A `\u` escape is `Escaped('u')` and four digits.
   */
  datatype Chunk = Plain(c: char) | Escaped(c: char)

  /** A JSON text with all its white space, as in section 2 of RFC 8259. */
  datatype Json = Literal(text: string) | Str(chunks: seq<Chunk>) | Array(inner: string, items: seq<Item>)
    | Object(inner: string, fields: seq<Field>)

  datatype Item = Item(before: string, value: Json, after: string)

  datatype Field = Field(before: string, name: seq<Chunk>, beforeColon: string, afterColon: string, value: Json,
                         after: string)

  predicate IsGap(s: string) { forall i | 0 <= i < |s| :: s[i] == ' ' || s[i] == '\t' || s[i] == '\n' || s[i] == '\r' }

  /**
   A string may hold any character but an unescaped quote or backslash: also raw line breaks, which section 7 forbids.
   */
  predicate ValidChunks(chunks: seq<Chunk>) {
    forall i | 0 <= i < |chunks| && chunks[i].Plain? :: chunks[i].c != '"' && chunks[i].c != '\\'
  }

  /** Numbers and the three names contain no quote, backslash or brace; nothing else about them matters here. */
  predicate Valid(v: Json) {
    match v
    case Literal(text) => forall i | 0 <= i < |text| :: Harmless(text[i])
    case Str(chunks) => ValidChunks(chunks)
    case Array(inner, items) =>
      && IsGap(inner)
      && forall i | 0 <= i < |items| :: IsGap(items[i].before) && Valid(items[i].value) && IsGap(items[i].after)
    case Object(inner, fields) => IsGap(inner) && forall i | 0 <= i < |fields| :: ValidField(fields[i])
  }

  predicate ValidField(f: Field) {
    IsGap(f.before) && ValidChunks(f.name) && IsGap(f.beforeColon) && IsGap(f.afterColon) && Valid(f.value)
        && IsGap(f.after)
  }

  function PrintChunks(chunks: seq<Chunk>): string {
    if chunks == [] then ""
    else (if chunks[0].Plain? then [chunks[0].c] else ['\\', chunks[0].c]) + PrintChunks(chunks[1..])
  }

  function PrintString(chunks: seq<Chunk>): string { "\"" + (PrintChunks(chunks) + "\"") }

  function Print(v: Json): string
    decreases v, 0
  {
    match v
    case Literal(text) => text
    case Str(chunks) => PrintString(chunks)
    case Array(inner, items) => "[" + (inner + (PrintItems(v, |items|) + "]"))
    case Object(inner, fields) => "{" + (PrintBody(v) + "}")
  }

  /** Everything between the braces. */
  function PrintBody(v: Json): string
    requires v.Object?
    decreases v, 0, |v.fields| + 1
  {
    v.inner + PrintFields(v, |v.fields|)
  }

  function PrintItems(v: Json, n: nat): string
    requires v.Array? && n <= |v.items|
    decreases v, 0, n
  {
    if n == 0 then ""
    else
      var item := v.items[n - 1];
      PrintItems(v, n - 1) + ((if n == 1 then "" else ",") + (item.before + (Print(item.value) + item.after)))
  }

  function PrintFields(v: Json, n: nat): string
    requires v.Object? && n <= |v.fields|
    decreases v, 0, n
  {
    if n == 0 then ""
    else PrintFields(v, n - 1) + ((if n == 1 then "" else ",") + PrintField(v.fields[n - 1]))
  }

  function PrintField(f: Field): string
    decreases f
  {
    f.before + (PrintString(f.name) + (f.beforeColon + (":" + (f.afterColon + (Print(f.value) + f.after)))))
  }

  // ----- Printed values are passed over -----

  lemma {:induction false} ChunksPass(chunks: seq<Chunk>)
    requires ValidChunks(chunks)
    ensures Passes(PrintChunks(chunks), Inside, Inside, 0, 0)
  {
    if chunks == [] {
      PassesNothing(Inside);
    } else {
      ChunksPass(chunks[1..]);
      var c := chunks[0].c;
      if chunks[0].Plain? {
        PassesChar(c, Inside);
        PassesThen([c], PrintChunks(chunks[1..]), Inside, Inside, Inside, 0, 0, 0, 0);
      } else {
        PassesChar('\\', Inside);
        PassesChar(c, EscapedInside);
        PassesThen(['\\'], [c], Inside, EscapedInside, Inside, 0, 0, 0, 0);
        assert ['\\'] + [c] == ['\\', c];
        PassesThen(['\\', c], PrintChunks(chunks[1..]), Inside, Inside, Inside, 0, 0, 0, 0);
      }
    }
  }

  lemma StringIsNeutral(chunks: seq<Chunk>)
    requires ValidChunks(chunks)
    ensures Neutral(PrintString(chunks))
  {
    ChunksPass(chunks);
    PassesChar('"', Outside);
    PassesChar('"', Inside);
    PassesThen(PrintChunks(chunks), "\"", Inside, Inside, Outside, 0, 0, 0, 0);
    PassesThen("\"", PrintChunks(chunks) + "\"", Outside, Inside, Outside, 0, 0, 0, 0);
  }

  lemma GapIsNeutral(s: string)
    requires IsGap(s)
    ensures Neutral(s)
  {
    HarmlessIsNeutral(s);
  }

  /** A pair of braces around neutral text is neutral. */
  lemma BracesAreNeutral(body: string)
    requires Neutral(body)
    ensures Neutral("{" + (body + "}"))
  {
    PassesChar('{', Outside);
    PassesChar('}', Outside);
    PassesThen(body, "}", Outside, Outside, Outside, 0, 0, -1, -1);
    PassesThen("{", body + "}", Outside, Outside, Outside, 1, 0, -1, -1);
  }

  /** Every printed value leaves the scan where it was. */
  lemma {:induction false} PrintIsNeutral(v: Json)
    requires Valid(v)
    ensures Neutral(Print(v))
    decreases v, 0
  {
    match v
    case Literal(text) => HarmlessIsNeutral(text);
    case Str(chunks) => StringIsNeutral(chunks);
    case Array(inner, items) =>
      ItemsAreNeutral(v, |items|);
      GapIsNeutral(inner);
      HarmlessIsNeutral("[");
      HarmlessIsNeutral("]");
      NeutralThen(PrintItems(v, |items|), "]");
      NeutralThen(inner, PrintItems(v, |items|) + "]");
      NeutralThen("[", inner + (PrintItems(v, |items|) + "]"));
    case Object(_, _) =>
      BodyIsNeutral(v);
      BracesAreNeutral(PrintBody(v));
  }

  lemma BodyIsNeutral(v: Json)
    requires Valid(v) && v.Object?
    ensures Neutral(PrintBody(v))
    decreases v, 0, |v.fields| + 1
  {
    FieldsAreNeutral(v, |v.fields|);
    GapIsNeutral(v.inner);
    NeutralThen(v.inner, PrintFields(v, |v.fields|));
  }

  lemma SeparatorIsNeutral(first: bool)
    ensures Neutral(if first then "" else ",")
  {
    HarmlessIsNeutral("");
    HarmlessIsNeutral(",");
  }

  lemma {:induction false} ItemsAreNeutral(v: Json, n: nat)
    requires Valid(v) && v.Array? && n <= |v.items|
    ensures Neutral(PrintItems(v, n))
    decreases v, 0, n
  {
    if n == 0 {
      HarmlessIsNeutral("");
    } else {
      var (item, sep) := (v.items[n - 1], if n == 1 then "" else ",");
      ItemsAreNeutral(v, n - 1);
      SeparatorIsNeutral(n == 1);
      GapIsNeutral(item.before);
      GapIsNeutral(item.after);
      PrintIsNeutral(item.value);
      NeutralThen(Print(item.value), item.after);
      NeutralThen(item.before, Print(item.value) + item.after);
      NeutralThen(sep, item.before + (Print(item.value) + item.after));
      NeutralThen(PrintItems(v, n - 1), sep + (item.before + (Print(item.value) + item.after)));
    }
  }

  lemma {:induction false} FieldsAreNeutral(v: Json, n: nat)
    requires Valid(v) && v.Object? && n <= |v.fields|
    ensures Neutral(PrintFields(v, n))
    decreases v, 0, n
  {
    if n == 0 {
      HarmlessIsNeutral("");
    } else {
      var (f, sep) := (v.fields[n - 1], if n == 1 then "" else ",");
      FieldsAreNeutral(v, n - 1);
      SeparatorIsNeutral(n == 1);
      FieldIsNeutral(f);
      NeutralThen(sep, PrintField(f));
      NeutralThen(PrintFields(v, n - 1), sep + PrintField(f));
    }
  }

  lemma FieldIsNeutral(f: Field)
    requires ValidField(f)
    ensures Neutral(PrintField(f))
    decreases f
  {
    GapIsNeutral(f.before);
    StringIsNeutral(f.name);
    GapIsNeutral(f.beforeColon);
    HarmlessIsNeutral(":");
    GapIsNeutral(f.afterColon);
    PrintIsNeutral(f.value);
    GapIsNeutral(f.after);
    var rest := Print(f.value) + f.after;
    NeutralThen(Print(f.value), f.after);
    NeutralThen(f.afterColon, rest);
    NeutralThen(":", f.afterColon + rest);
    NeutralThen(f.beforeColon, ":" + (f.afterColon + rest));
    NeutralThen(PrintString(f.name), f.beforeColon + (":" + (f.afterColon + rest)));
    NeutralThen(f.before, PrintString(f.name) + (f.beforeColon + (":" + (f.afterColon + rest))));
  }

  // ----- The scan finds exactly the printed object -----

  /** No proper beginning of a braced neutral text closes; the whole does. */
  lemma BracedClosesOnce(body: string, k: nat)
    requires Neutral(body) && k <= |body| + 2
    ensures var t := "{" + (body + "}"); Closes(t[..k]) <==> k == |t|
  {
    var t := "{" + (body + "}");
    assert ModeAfter("{") == Outside && DepthAfter("{") == 1 by { assert "{"[..0] == ""; }
    assert PassesAfter("{", body, Outside, 0, 0);
    if k == |t| {
      assert t[..k] == t && t[..|t| - 1] == "{" + body;
    } else if k > 0 {
      assert t[..k] == "{" + body[..k - 1];
    }
  }

  /** For every printed object, whatever precedes and follows it, the scan from its brace returns exactly it. */
  lemma PrintedObjectIsFound(before: string, v: Json, after: string, r: Option<string>)
    requires Valid(v) && v.Object? && IsBalanced(before + Print(v) + after, |before|, r)
    ensures r == Some(Print(v))
  {
    var (text, start, t) := (before + Print(v) + after, |before|, Print(v));
    BodyIsNeutral(v);
    assert text[start..start + |t|] == t;
    BracedClosesOnce(PrintBody(v), |t|);
    assert t[..|t|] == t;
    if r.Some? {
      var n := |r.value|;
      if n <= |t| {
        assert text[start..start + n] == t[..n];
        BracedClosesOnce(PrintBody(v), n);
      }
    }
  }

  // ----- The envelope -----

  datatype EnvelopeError = NoObject | Unterminated

  const MARKER: string := "{\"jsonrpc\""

  ghost predicate FirstAt(text: string, pattern: string, k: nat) {
    OccursAt(text, pattern, k) && forall j | 0 <= j < k :: !OccursAt(text, pattern, j)
  }

  method Find(text: string, pattern: string) returns (r: Option<nat>)
    ensures r.Some? ==> FirstAt(text, pattern, r.value)
    ensures r.None? ==> !Contains(text, pattern)
  {
    for k := 0 to |text| + 1
      invariant forall j | 0 <= j < k :: !OccursAt(text, pattern, j)
    {
      if OccursAt(text, pattern, k) { return Some(k); }
    }
    return None;
  }

  /** Where the envelope is taken to begin: the first marker, or else the first brace. */
  ghost predicate BeginsAt(text: string, k: nat) {
    FirstAt(text, MARKER, k) || (!Contains(text, MARKER) && FirstAt(text, "{", k))
  }

  ghost predicate IsEnvelope(text: string, r: Result<string, EnvelopeError>) {
    match r
    case Ok(payload) => exists k :: BeginsAt(text, k) && IsBalanced(text, k, Some(payload))
    case Err(Unterminated) => exists k :: BeginsAt(text, k) && IsBalanced(text, k, None)
    case Err(NoObject) => !Contains(text, MARKER) && !Contains(text, "{")
  }

  method ParseSseEnvelope(text: string) returns (r: Result<string, EnvelopeError>)
    ensures IsEnvelope(text, r)
  {
    var marker := Find(text, MARKER);
    if marker.None? { marker := Find(text, "{"); }
    if marker.None? { return Err(NoObject); }
    assert BeginsAt(text, marker.value);
    var payload := BalancedJson(text, marker.value);
    if payload.None? { return Err(Unterminated); }
    return Ok(payload.value);
  }

  lemma BraceAt(text: string, k: nat)
    ensures OccursAt(text, "{", k) <==> k < |text| && text[k] == '{'
  {
    if k < |text| { assert text[k..k + 1] == [text[k]]; }
  }

  lemma MarkerHasBrace(text: string, k: nat)
    requires OccursAt(text, MARKER, k)
    ensures k < |text| && text[k] == '{'
  {
    assert text[k] == text[k..k + |MARKER|][0];
  }

  /**
   An object after text without braces is where the envelope begins, if it starts with the marker or there is no
   marker at all.
   */
  lemma EnvelopeBegins(before: string, t: string, after: string, k: nat)
    requires '{' !in before && t != "" && t[0] == '{' && BeginsAt(before + t + after, k)
    requires StartsWith(t, MARKER) || !Contains(before + t + after, MARKER)
    ensures k == |before|
  {
    var text := before + t + after;
    assert text[|before|] == t[0];
    BraceAt(text, |before|);
    if StartsWith(t, MARKER) {
      assert text[|before|..|before| + |MARKER|] == t[..|MARKER|];
      assert OccursAt(text, MARKER, |before|);
    }
    if k < |before| {
      assert text[k] == before[k] && before[k] in before;
      if OccursAt(text, MARKER, k) { MarkerHasBrace(text, k); } else { BraceAt(text, k); }
    }
  }

  /** The envelope is exactly the printed object, for every text before it without a brace and every text after it. */
  lemma PrintedEnvelopeIsFound(before: string, v: Json, after: string, r: Result<string, EnvelopeError>)
    requires '{' !in before && Valid(v) && v.Object? && IsEnvelope(before + Print(v) + after, r)
    requires StartsWith(Print(v), MARKER) || !Contains(before + Print(v) + after, MARKER)
    ensures r == Ok(Print(v))
  {
    var text := before + Print(v) + after;
    assert Print(v)[0] == '{' && text[|before|] == '{';
    BraceAt(text, |before|);
    if r.Ok? || r.error.Unterminated? {
      var found := if r.Ok? then Some(r.value) else None;
      var k :| BeginsAt(text, k) && IsBalanced(text, k, found);
      EnvelopeBegins(before, Print(v), after, k);
      PrintedObjectIsFound(before, v, after, found);
    }
  }
}
