/**
 * The gateway's extraction of a JSON array from an LLM reply
 * (`_parse_json_array`): Markdown fences are removed when the reply starts
 * with one, the span from the first `[` to the last `]` is decoded, the whole
 * text is decoded when there is no such span, and on a decode error the
 * reply's flat `{...}` runs are decoded one by one.
 */
module GatewayParse {
  import opened Wrappers
  import opened PyStr
  import opened Json

  const Fence := "```"

  /**
   * `re.sub('```' + tag + r'\s*', '', s)`: every leftmost, non-overlapping
   * occurrence of the fence and tag, with the whitespace run after it, is
   * deleted.
   */
  function RemoveFences(s: string, tag: string): (r: string)
    ensures |r| <= |s|
    decreases |s|
  {
    if |s| == 0 then ""
    else if StartsWith(s, Fence + tag) then
      var rest := s[|Fence + tag|..];
      RemoveFences(rest[StripStart(rest)..], tag)
    else [s[0]] + RemoveFences(s[1..], tag)
  }

  /** Text with no backtick passes through fence removal unchanged, in front of anything. */
  lemma {:induction false} RemoveFencesKeepsPlainPrefix(a: string, b: string, tag: string)
    requires '`' !in a
    ensures RemoveFences(a + b, tag) == a + RemoveFences(b, tag)
    decreases |a|
  {
    if a == [] {
      assert a + b == b;
    } else {
      assert a[0] in a;
      assert (a + b)[0] == a[0] && (a + b)[1..] == a[1..] + b;
      RemoveFencesPlainStep(a + b, tag);
      NotInSlice('`', a, 1, |a|);
      RemoveFencesKeepsPlainPrefix(a[1..], b, tag);
      assert a == [a[0]] + a[1..];
    }
  }

  /** A first character that is not a backtick is kept. */
  lemma RemoveFencesPlainStep(t: string, tag: string)
    requires t != [] && t[0] != '`'
    ensures RemoveFences(t, tag) == [t[0]] + RemoveFences(t[1..], tag)
  {
    var p := Fence + tag;
    assert p[0] == '`';
    assert !StartsWith(t, p) by {
      if |p| <= |t| { assert t[..|p|][0] == t[0]; }
    }
  }

  /** Fence removal leaves text without a backtick as it is. */
  lemma RemoveFencesPlain(s: string, tag: string)
    requires '`' !in s
    ensures RemoveFences(s, tag) == s
  {
    RemoveFencesKeepsPlainPrefix(s, "", tag);
    assert s + "" == s;
  }

  /**
   * Lines 559-564: the reply is stripped; only if it then starts with "```"
   * are the "```json" fences and then all other fences removed, each with the
   * whitespace that follows it, and the result stripped again.
   */
  function CleanReply(response: string): (cleaned: string)
    ensures !StartsWith(Strip(response), Fence) ==> cleaned == Strip(response)
    ensures Strip(cleaned) == cleaned
  {
    var stripped := Strip(response);
    StripIdempotent(response);
    if StartsWith(stripped, Fence) then
      var c := Strip(RemoveFences(RemoveFences(stripped, "json"), ""));
      StripIdempotent(RemoveFences(RemoveFences(stripped, "json"), ""));
      c
    else stripped
  }

  /**
   * A reply wrapped in a json-tagged fence is cleaned to exactly the text
   * inside the fence.
   */
  lemma FencedReplyCleaned(body: string)
    requires body != [] && '`' !in body
    requires !IsSpace(body[0]) && !IsSpace(body[|body| - 1])
    ensures CleanReply("```json\n" + body + "\n```") == body
  {
    var reply := "```json\n" + body + "\n```";
    StripTrimmed(reply);
    assert StartsWith(reply, Fence);
    OpeningFenceRemoved(body);
    ClosingFenceRemoved(body);
    StripPadded("", body, "\n");
    assert "" + body + "\n" == body + "\n";
    StripTrimmed(body);
  }

  /** The first pass deletes the json-tagged opening fence and the newline after it. */
  lemma OpeningFenceRemoved(body: string)
    requires body != [] && '`' !in body && !IsSpace(body[0])
    ensures RemoveFences("```json\n" + body + "\n```", "json") == body + "\n```"
  {
    var reply := "```json\n" + body + "\n```";
    assert StartsWith(reply, Fence + "json");
    var rest := reply[7..];
    assert rest == "\n" + body + "\n```";
    assert rest[1..] == body + "\n```";
    assert StripStart(rest) == 1 by {
      assert IsSpace(rest[0]);
      assert StripStart(rest[1..]) == 0;
    }
    RemoveFencesKeepsPlainPrefix(body, "\n```", "json");
    assert RemoveFences("\n```", "json") == "\n```" by {
      assert !StartsWith("\n```", Fence + "json");
      assert !StartsWith("```", Fence + "json");
      assert "\n```"[1..] == "```";
      assert RemoveFences("```", "json") == "```" by {
        assert "```"[1..] == "``";
        assert !StartsWith("``", Fence + "json");
        assert "``"[1..] == "`";
        assert !StartsWith("`", Fence + "json");
        assert "`"[1..] == "";
      }
    }
  }

  /** The second pass deletes the closing fence. */
  lemma ClosingFenceRemoved(body: string)
    requires '`' !in body
    ensures RemoveFences(body + "\n```", "") == body + "\n"
  {
    RemoveFencesKeepsPlainPrefix(body + "\n", "```", "");
    assert body + "\n```" == (body + "\n") + "```";
    assert RemoveFences("```", "") == "" by {
      assert StartsWith("```", Fence + "");
      assert "```"[3..] == "";
    }
  }

  /**
   * Lines 567-570: with `start = s.find('[')` and `end = s.rfind(']') + 1`,
   * the span `s[start:end]` is decoded when `start >= 0 and end > start`.
   */
  function BracketSpan(s: string): (span: Option<string>)
    ensures span.None? <==> forall i, j :: 0 <= i < j < |s| && s[i] == '[' ==> s[j] != ']'
    ensures span.Some? ==> |span.value| >= 2 && span.value[0] == '[' && span.value[|span.value| - 1] == ']'
  {
    var start := Find(s, '[');
    var end := RFind(s, ']') + 1;
    if start >= 0 && end > start then Some(s[start..end])
    else
      assert forall i, j :: 0 <= i < j < |s| && s[i] == '[' ==> s[j] != ']' by {
        forall i, j | 0 <= i < j < |s| && s[i] == '[' ensures s[j] != ']' {
          assert s[i] in s && s[i] !in s[..start] ==> i >= start;
          assert s[j] in s && s[j] !in s[end..] ==> j < end;
        }
      }
      None
  }

  /**
   * The span decoded is exactly the one from the first `[` through the last
   * `]`: whatever text stands around it is not looked at.
   */
  lemma BracketSpanIsOutermost(s: string, i: nat, j: nat)
    requires i < j < |s| && s[i] == '[' && s[j] == ']'
    requires '[' !in s[..i] && ']' !in s[j + 1..]
    ensures BracketSpan(s) == Some(s[i..j + 1])
  {
    var start := Find(s, '[');
    var end := RFind(s, ']') + 1;
    assert s[i] in s && s[j] in s;
    assert start >= 0 ==> s[start] !in s[..i] ==> start >= i;
    assert s[i] !in s[..start] ==> start <= i;
    assert end - 1 >= 0 ==> s[end - 1] !in s[j + 1..] ==> end - 1 <= j;
    assert s[j] !in s[end..] ==> end - 1 >= j;
  }

  /** A flat object run: `{`, then no brace, then `}` (the regex `\{[^{}]*\}`). */
  predicate FlatObject(t: string) {
    && |t| >= 2 && t[0] == '{' && t[|t| - 1] == '}'
    && forall m :: 0 < m < |t| - 1 ==> t[m] != '{' && t[m] != '}'
  }

  /** The first index at or after `k` that holds a brace, or |s|. */
  function NextBrace(s: string, k: nat): (j: nat)
    requires k <= |s|
    ensures k <= j <= |s|
    ensures forall m :: k <= m < j ==> s[m] != '{' && s[m] != '}'
    ensures j < |s| ==> s[j] == '{' || s[j] == '}'
    decreases |s| - k
  {
    if k == |s| || s[k] == '{' || s[k] == '}' then k else NextBrace(s, k + 1)
  }

  /**
   * `re.findall(r'\{[^{}]*\}', s[from:])` as (start, end) positions in `s`:
   * the scan tries each position left to right, a match ends at the first
   * brace after its `{` when that brace is `}`, and the scan resumes after it.
   */
  function FlatObjectSpans(s: string, from: nat): (spans: seq<(nat, nat)>)
    requires from <= |s|
    ensures forall n :: 0 <= n < |spans| ==> from <= spans[n].0 < spans[n].1 <= |s|
    ensures forall n :: 0 < n < |spans| ==> spans[n - 1].1 <= spans[n].0
    decreases |s| - from
  {
    if from == |s| then []
    else if s[from] != '{' then FlatObjectSpans(s, from + 1)
    else
      var j := NextBrace(s, from + 1);
      if j < |s| && s[j] == '}' then
        [(from, j + 1)] + FlatObjectSpans(s, j + 1)
      else FlatObjectSpans(s, from + 1)
  }

  /** Every span the scan reports is a flat object run. */
  lemma {:induction false} FlatObjectSpansSound(s: string, from: nat)
    requires from <= |s|
    ensures forall n :: 0 <= n < |FlatObjectSpans(s, from)| ==> SpanIsFlat(s, FlatObjectSpans(s, from)[n])
    decreases |s| - from
  {
    if from < |s| {
      var j := NextBrace(s, from + 1);
      if s[from] == '{' && j < |s| && s[j] == '}' {
        NextBraceRunIsFlat(s, from, j);
        FlatObjectSpansSound(s, j + 1);
        AllFlatPrepend(s, (from, j + 1), FlatObjectSpans(s, j + 1));
        assert FlatObjectSpans(s, from) == [(from, j + 1)] + FlatObjectSpans(s, j + 1);
      } else {
        FlatObjectSpansSound(s, from + 1);
        assert FlatObjectSpans(s, from) == FlatObjectSpans(s, from + 1);
      }
    }
  }

  /** A flat span in front of flat spans keeps them all flat. */
  lemma AllFlatPrepend(s: string, head: (nat, nat), tail: seq<(nat, nat)>)
    requires SpanIsFlat(s, head)
    requires forall n :: 0 <= n < |tail| ==> SpanIsFlat(s, tail[n])
    ensures forall n :: 0 <= n < |[head] + tail| ==> SpanIsFlat(s, ([head] + tail)[n])
  {
    forall n | 0 <= n < |[head] + tail| ensures SpanIsFlat(s, ([head] + tail)[n]) {
      if n > 0 {
        assert ([head] + tail)[n] == tail[n - 1];
      }
    }
  }

  /** The span lies in `s` and its text is a flat object run. */
  predicate SpanIsFlat(s: string, span: (nat, nat)) {
    span.0 <= span.1 <= |s| && FlatObject(s[span.0..span.1])
  }

  /** A `{` followed by no brace up to a `}` is a flat object run. */
  lemma NextBraceRunIsFlat(s: string, from: nat, j: nat)
    requires from < j < |s| && s[from] == '{' && s[j] == '}'
    requires forall m :: from < m < j ==> s[m] != '{' && s[m] != '}'
    ensures FlatObject(s[from..j + 1])
  {
    var t := s[from..j + 1];
    forall m | 0 < m < |t| - 1 ensures t[m] != '{' && t[m] != '}' {
      assert t[m] == s[from + m];
    }
  }

  /** From the `{` of a flat object the next brace is its `}`. */
  lemma FlatObjectEnd(s: string, i: nat, j: nat)
    requires i < j <= |s| && FlatObject(s[i..j])
    ensures NextBrace(s, i + 1) == j - 1
    ensures FlatObjectSpans(s, i)[0] == (i, j)
  {
    assert s[i] == s[i..j][0];
    assert s[j - 1] == s[i..j][j - 1 - i];
    assert forall m :: i < m < j - 1 ==> s[m] == s[i..j][m - i];
  }

  /** Every flat object occurrence in `s[from:]` is found by the scan. */
  lemma {:induction false} FlatObjectSpansComplete(s: string, from: nat, i: nat, j: nat)
    requires from <= i < j <= |s| && FlatObject(s[i..j])
    ensures (i, j) in FlatObjectSpans(s, from)
    decreases |s| - from
  {
    if from == i {
      FlatObjectEnd(s, i, j);
    } else {
      var next := SpansResume(s, from, i, j);
      FlatObjectSpansComplete(s, next, i, j);
    }
  }

  /**
   * Before a flat object starting at `i`, the scan resumes at a position no
   * later than `i` with the spans found on the way in front.
   */
  lemma SpansResume(s: string, from: nat, i: nat, j: nat) returns (next: nat)
    requires from < i < j <= |s| && FlatObject(s[i..j])
    ensures from < next <= i
    ensures exists front :: FlatObjectSpans(s, from) == front + FlatObjectSpans(s, next)
  {
    assert s[i] == s[i..j][0];
    if s[from] != '{' {
      next := from + 1;
      assert FlatObjectSpans(s, from) == [] + FlatObjectSpans(s, next);
    } else {
      var k := NextBrace(s, from + 1);
      if k < |s| && s[k] == '}' {
        next := k + 1;
        assert FlatObjectSpans(s, from) == [(from, k + 1)] + FlatObjectSpans(s, next);
      } else {
        next := from + 1;
        assert FlatObjectSpans(s, from) == [] + FlatObjectSpans(s, next);
      }
    }
  }

  /** The texts `re.findall(r'\{[^{}]*\}', s)` returns, in order. */
  function FlatObjectRuns(s: string): (runs: seq<string>)
    ensures forall n :: 0 <= n < |runs| ==> FlatObject(runs[n])
  {
    var spans := FlatObjectSpans(s, 0);
    FlatObjectSpansSound(s, 0);
    seq(|spans|, n requires 0 <= n < |spans| => s[spans[n].0..spans[n].1])
  }

  /** A reply without `{` has no flat object run. */
  lemma NoBraceNoRuns(s: string)
    requires '{' !in s
    ensures FlatObjectRuns(s) == []
  {
    NoBraceNoSpans(s, 0);
  }

  lemma {:induction false} NoBraceNoSpans(s: string, from: nat)
    requires '{' !in s && from <= |s|
    ensures FlatObjectSpans(s, from) == []
    decreases |s| - from
  {
    if from < |s| {
      assert s[from] in s;
      NoBraceNoSpans(s, from + 1);
    }
  }

  /**
   * Lines 587-592: the runs that decode, in order; the runs that do not are
   * skipped.
   */
  function DecodedRuns(decode: Decoder, runs: seq<string>): (parsed: seq<Value>)
    ensures |parsed| <= |runs|
  {
    if runs == [] then []
    else
      var init := DecodedRuns(decode, runs[..|runs| - 1]);
      match decode(runs[|runs| - 1])
      case Some(v) => init + [v]
      case None => init
  }

  /** Everything kept is the decoding of some run. */
  lemma {:induction false} DecodedRunsSound(decode: Decoder, runs: seq<string>, x: Value)
    requires x in DecodedRuns(decode, runs)
    ensures exists n :: 0 <= n < |runs| && decode(runs[n]) == Some(x)
  {
    if runs != [] {
      var init := runs[..|runs| - 1];
      if x in DecodedRuns(decode, init) {
        DecodedRunsSound(decode, init, x);
        var n :| 0 <= n < |init| && decode(init[n]) == Some(x);
        assert runs[n] == init[n];
      } else {
        assert decode(runs[|runs| - 1]) == Some(x);
      }
    }
  }

  /** When every run decodes, all of them are kept, in order. */
  lemma {:induction false} DecodedRunsAll(decode: Decoder, runs: seq<string>)
    requires forall n :: 0 <= n < |runs| ==> decode(runs[n]).Some?
    ensures |DecodedRuns(decode, runs)| == |runs|
    ensures forall n :: 0 <= n < |runs| ==> Some(DecodedRuns(decode, runs)[n]) == decode(runs[n])
  {
    if runs != [] {
      var init := runs[..|runs| - 1];
      DecodedRunsAll(decode, init);
    }
  }

  /**
   * The loop at lines 587-592: `parsed_objects.append(json.loads(obj_str))`
   * for every run, with a failed decode skipped.
   */
  method CollectParsedObjects(decode: Decoder, runs: seq<string>) returns (parsed: seq<Value>)
    ensures parsed == DecodedRuns(decode, runs)
  {
    parsed := [];
    var i := 0;
    while i < |runs|
      invariant 0 <= i <= |runs|
      invariant parsed == DecodedRuns(decode, runs[..i])
    {
      assert runs[..i + 1][..i] == runs[..i];
      match decode(runs[i]) {
        case Some(v) => parsed := parsed + [v];
        case None =>
      }
      i := i + 1;
    }
    assert runs[..|runs|] == runs;
  }

  /**
   * Lines 578-599: after a decode error the ORIGINAL reply (not the cleaned
   * one) is scanned for flat objects and those that decode are returned;
   * `[]` when none does.
   */
  function ObjectFallback(decode: Decoder, response: string): (parsed: seq<Value>)
    ensures |parsed| <= |FlatObjectRuns(response)|
  {
    DecodedRuns(decode, FlatObjectRuns(response))
  }

  /** The one `json.loads` call of the main path: the span if there is one, else the whole cleaned text. */
  function MainDecode(decode: Decoder, response: string): Option<Value> {
    var cleaned := CleanReply(response);
    match BracketSpan(cleaned)
    case Some(span) => decode(span)
    case None => decode(cleaned)
  }

  /**
   * `_parse_json_array` (lines 553-599). A decoded array is returned; a
   * decoded non-array (possible only without a span) gives `[]`; a decode
   * error gives the object fallback. No exception escapes.
   */
  function ParsedArray(decode: Decoder, response: string): (parsed: seq<Value>)
    requires ArraySyntax(decode)
    ensures BracketSpan(CleanReply(response)).Some? && MainDecode(decode, response).Some? ==>
      MainDecode(decode, response) == Some(JArray(parsed))
  {
    match MainDecode(decode, response)
    case Some(JArray(items)) => items
    case Some(_) => []
    case None => ObjectFallback(decode, response)
  }

  /** The imperative form of `_parse_json_array`, with the fallback loop. */
  method ParseJsonArray(decode: Decoder, response: string) returns (parsed: seq<Value>)
    requires ArraySyntax(decode)
    ensures parsed == ParsedArray(decode, response)
  {
    var attempt := MainDecode(decode, response);
    match attempt {
      case Some(v) =>
        parsed := if v.JArray? then v.items else [];
      case None =>
        parsed := CollectParsedObjects(decode, FlatObjectRuns(response));
    }
  }

  /**
   * Prose around the array is ignored: for a reply `prose + body + trailer`
   * where `body` is bracketed, the prose has no `[` and no backtick and the
   * trailer no `]`, the result is the array `body` decodes to.
   */
  lemma SurroundingProseIgnored(decode: Decoder, prose: string, body: string, trailer: string, items: seq<Value>)
    requires ArraySyntax(decode)
    requires |body| >= 2 && body[0] == '[' && body[|body| - 1] == ']'
    requires '[' !in prose && '`' !in prose && ']' !in trailer
    requires decode(body) == Some(JArray(items))
    ensures ParsedArray(decode, prose + body + trailer) == items
  {
    ProseSpan(prose, body, trailer);
    SpanDecoded(decode, prose + body + trailer, body, items);
  }

  /** When the span decodes to an array, that array is the result. */
  lemma SpanDecoded(decode: Decoder, response: string, span: string, items: seq<Value>)
    requires ArraySyntax(decode)
    requires BracketSpan(CleanReply(response)) == Some(span)
    requires decode(span) == Some(JArray(items))
    ensures ParsedArray(decode, response) == items
  {
  }

  /** The span found in the cleaned `prose + body + trailer` is `body`. */
  lemma ProseSpan(prose: string, body: string, trailer: string)
    requires |body| >= 2 && body[0] == '[' && body[|body| - 1] == ']'
    requires '[' !in prose && '`' !in prose && ']' !in trailer
    ensures BracketSpan(CleanReply(prose + body + trailer)) == Some(body)
  {
    var reply := prose + body + trailer;
    var a, b := ProseStripBounds(prose, body, trailer);
    var c := reply[a..b];
    ProseSlices(prose, body, trailer, a, b);
    UnfencedClean(reply, c);
    var i, j := |prose| - a, |prose| + |body| - 1 - a;
    assert c[i] == body[0] && c[j] == body[|body| - 1];
    assert c[j + 1..] == c[|prose| + |body| - a..];
    BracketSpanIsOutermost(c, i, j);
  }

  /** A reply whose stripped form does not start with a backtick is cleaned to that stripped form. */
  lemma UnfencedClean(response: string, stripped: string)
    requires Strip(response) == stripped && stripped != [] && stripped[0] != '`'
    ensures CleanReply(response) == stripped
  {
    assert !StartsWith(stripped, Fence) by {
      if |Fence| <= |stripped| { assert stripped[..|Fence|][0] == stripped[0]; }
    }
  }

  /** Where the strip of `prose + body + trailer` cuts. */
  lemma ProseStripBounds(prose: string, body: string, trailer: string) returns (a: nat, b: nat)
    requires |body| >= 2 && body[0] == '[' && body[|body| - 1] == ']'
    ensures a == StripStart(prose + body + trailer) && a <= |prose|
    ensures |prose| + |body| <= b <= |prose + body + trailer|
    ensures Strip(prose + body + trailer) == (prose + body + trailer)[a..b]
  {
    var reply := prose + body + trailer;
    assert reply[|prose|] == '[' && reply[|prose| + |body| - 1] == ']';
    StripKeeps(reply, |prose|, |prose| + |body|);
    a := StripStart(reply);
    b := StripEndFrom(reply, a);
  }

  /** The three parts of `(prose + body + trailer)[a..b]`. */
  lemma ProseSlices(prose: string, body: string, trailer: string, a: nat, b: nat)
    requires '[' !in prose && ']' !in trailer
    requires a <= |prose| && |prose| + |body| <= b <= |prose + body + trailer|
    requires '`' !in prose && body != [] && body[0] == '['
    ensures var c := (prose + body + trailer)[a..b];
      && c != [] && c[0] != '`'
      && c[..|prose| - a] == prose[a..] && '[' !in c[..|prose| - a]
      && c[|prose| - a..|prose| + |body| - a] == body
      && ']' !in c[|prose| + |body| - a..]
  {
    var reply := prose + body + trailer;
    var c := reply[a..b];
    assert reply[..|prose|] == prose;
    assert reply[|prose|..|prose| + |body|] == body;
    assert reply[|prose| + |body|..] == trailer;
    assert c[..|prose| - a] == reply[..|prose|][a..];
    NotInSlice('[', prose, a, |prose|);
    assert c[|prose| + |body| - a..] == reply[|prose| + |body|..][..b - |prose| - |body|];
    NotInSlice(']', trailer, 0, b - |prose| - |body|);
    assert c[0] == reply[a];
    assert a < |prose| ==> reply[a] == prose[a] && prose[a] in prose;
    assert a == |prose| ==> reply[a] == body[0];
  }

  /**
   * Without an ordered bracket pair the whole cleaned text is decoded, and a
   * value that is not a list (a lone JSON object, say) yields `[]`: no
   * decode error occurred, so the object fallback does not run.
   */
  lemma LoneValueYieldsEmpty(decode: Decoder, response: string, v: Value)
    requires ArraySyntax(decode)
    requires BracketSpan(CleanReply(response)).None?
    requires decode(CleanReply(response)) == Some(v) && !v.JArray?
    ensures ParsedArray(decode, response) == []
  {
  }

  /**
   * A decode error never escapes: the result is then exactly the flat runs
   * of the original reply that decode, in order.
   */
  lemma DecodeErrorFallsBackToObjects(decode: Decoder, response: string)
    requires ArraySyntax(decode)
    requires MainDecode(decode, response).None?
    ensures ParsedArray(decode, response) == DecodedRuns(decode, FlatObjectRuns(response))
    ensures forall x :: x in ParsedArray(decode, response) ==>
      exists n :: 0 <= n < |FlatObjectRuns(response)| && decode(FlatObjectRuns(response)[n]) == Some(x)
  {
    forall x | x in ParsedArray(decode, response)
      ensures exists n :: 0 <= n < |FlatObjectRuns(response)| && decode(FlatObjectRuns(response)[n]) == Some(x)
    {
      DecodedRunsSound(decode, FlatObjectRuns(response), x);
    }
  }

  /**
   * A reply that does not decode and holds no `{` gives `[]` (the case of
   * the plain sentence "This is not JSON").
   */
  lemma UndecodableWithoutObjectsIsEmpty(decode: Decoder, response: string)
    requires ArraySyntax(decode)
    requires MainDecode(decode, response).None? && '{' !in response
    ensures ParsedArray(decode, response) == []
  {
    NoBraceNoRuns(response);
  }

  /** Text without `[` has no span. */
  lemma NoBracketNoSpan(s: string)
    requires '[' !in s
    ensures BracketSpan(s) == None
  {
    assert Find(s, '[') == -1;
  }
}
