/** What the extractor promises: its three error exits, the shape of the span it cuts,
    which characters the depth count looks at, fence handling, and idempotence. */
module JsonParserProperties {
  import opened Wrappers
  import opened JavaString
  import opened JsonParser

  /** A span opened by its first character and first balanced at its last. */
  ghost predicate BalancedSpan(j: string)
  {
    |j| >= 1 && IsOpener(j[0]) &&
    Depth(j, j[0], CloserOf(j[0])) == 0 &&
    forall k :: 0 < k < |j| ==> Depth(j[..k], j[0], CloserOf(j[0])) > 0
  }

  /** No opener anywhere in the cleaned text is exactly the "No JSON object or array"
      failure. */
  lemma NoJsonIff(text: string)
    ensures JsonSpan(text) == Failure(NoJsonFound) <==>
            forall i :: 0 <= i < |Clean(text)| ==> !IsOpener(Clean(text)[i])
  {
    var w := Clean(text);
    var start := FirstOpener(w);
    if start != -1 {
      BalanceEndBounds(w, start, w[start], CloserOf(w[start]));
    }
  }

  /** "Unmatched brackets" is exactly: an opener exists and the depth from it never comes
      back to zero. */
  lemma UnmatchedIff(text: string)
    ensures var w := Clean(text); var start := FirstOpener(w);
      JsonSpan(text) == Failure(UnmatchedBrackets) <==>
      (start >= 0 && NeverBalances(w, start, w[start], CloserOf(w[start])))
  {
    var w := Clean(text);
    var start := FirstOpener(w);
    if start != -1 {
      BalanceEndSpec(w, start, w[start], CloserOf(w[start]));
    }
  }

  /** The successful span: it starts at the least opener of the cleaned text, opens with
      that opener, closes with its partner, is balanced, and every proper non-empty prefix
      is still open, so its end is the first balance point. */
  lemma SpanShape(text: string, j: string)
    requires JsonSpan(text) == Success(j)
    ensures var w := Clean(text); var start := FirstOpener(w);
      0 <= start && start + |j| <= |w| && j == w[start..start + |j|] &&
      (forall i :: 0 <= i < start ==> !IsOpener(w[i])) &&
      |j| >= 2 && j[0] == w[start] && j[|j| - 1] == CloserOf(j[0]) &&
      Count(j, j[0]) == Count(j, CloserOf(j[0])) &&
      BalancedSpan(j)
  {
    SpanInShape(Clean(text), j);
  }

  lemma SpanInShape(w: string, j: string)
    requires SpanIn(w) == Success(j)
    ensures var start := FirstOpener(w);
      0 <= start && start + |j| <= |w| && j == w[start..start + |j|] &&
      (forall i :: 0 <= i < start ==> !IsOpener(w[i])) &&
      |j| >= 2 && j[0] == w[start] && j[|j| - 1] == CloserOf(j[0]) &&
      Count(j, j[0]) == Count(j, CloserOf(j[0])) &&
      BalancedSpan(j)
  {
    var start := FirstOpener(w);
    var open := w[start];
    var close := CloserOf(open);
    var end := BalanceEnd(w, start, open, close);
    BalanceEndSpec(w, start, open, close);
    assert j == w[start..end];
    FirstBalanceShape(w, start, end, open, close);
    PrefixesOfSpan(w, start, j);
  }

  /** A first balance point closes a span of at least two characters with the closer. */
  lemma FirstBalanceShape(s: string, start: nat, end: int, open: char, close: char)
    requires start < |s| && s[start] == open && open != close
    requires FirstBalance(s, start, end, open, close)
    ensures end > start + 1 && s[end - 1] == close
  {
    DepthSnoc(s, start, start, open, close);
    assert Depth(s[start..start], open, close) == 0;
    DepthSnoc(s, start, end - 1, open, close);
  }

  /** The prefixes of a span cut from `w` at `start` are the cuts of `w` from `start`. */
  lemma PrefixesOfSpan(w: string, start: nat, j: string)
    requires start + |j| <= |w| && j == w[start..start + |j|]
    ensures forall k :: 0 < k <= |j| ==> j[..k] == w[start..start + k]
    ensures j[..|j|] == j
  {
    forall k | 0 < k <= |j|
      ensures j[..k] == w[start..start + k]
    {
    }
  }

  /** The depth count looks only at the chosen pair: two texts that agree on where that
      pair's characters stand (the other bracket kind and quoted characters may differ)
      give the same end. */
  lemma {:induction false} ScanIgnoresOthers(s: string, t: string, i: nat, d: int, open: char, close: char)
    requires |s| == |t| && i <= |s|
    requires forall k :: i <= k < |s| ==> (s[k] == open <==> t[k] == open) && (s[k] == close <==> t[k] == close)
    ensures ScanFrom(s, i, d, open, close) == ScanFrom(t, i, d, open, close)
    decreases |s| - i
  {
    if i < |s| {
      var d' := if s[i] == open then d + 1 else if s[i] == close then d - 1 else d;
      ScanIgnoresOthers(s, t, i + 1, d', open, close);
    }
  }

  /** A bracketed value with only bracket-free prose before it is found exactly, whatever
      follows it. */
  lemma ExtractsEmbedded(text: string, pre: string, j: string, post: string)
    requires Clean(text) == pre + j + post
    requires forall i :: 0 <= i < |pre| ==> !IsOpener(pre[i])
    requires BalancedSpan(j)
    ensures JsonSpan(text) == Success(j)
  {
    EmbeddedIn(pre, j, post);
  }

  lemma EmbeddedIn(pre: string, j: string, post: string)
    requires forall i :: 0 <= i < |pre| ==> !IsOpener(pre[i])
    requires BalancedSpan(j)
    ensures SpanIn(pre + j + post) == Success(j)
  {
    var w := pre + j + post;
    var start := |pre|;
    assert w[start] == j[0];
    assert FirstOpener(w) == start;
    var open := j[0];
    var close := CloserOf(open);
    forall k | 0 < k <= |j|
      ensures w[start..start + k] == j[..k]
    {
    }
    assert j[..|j|] == j;
    forall k | start < k < start + |j|
      ensures Depth(w[start..k], open, close) > 0
    {
      assert w[start..k] == j[..k - start];
    }
    assert FirstBalance(w, start, start + |j|, open, close);
    BalanceEndSpec(w, start, open, close);
    var end := BalanceEnd(w, start, open, close);
    assert end != -1;
    FirstBalanceUnique(w, start, end, start + |j|, open, close);
    assert w[start..start + |j|] == j;
  }

  /** Cutting the span out of a span gives it back. */
  lemma SpanIdempotent(text: string, j: string)
    requires JsonSpan(text) == Success(j)
    ensures JsonSpan(j) == Success(j)
  {
    SpanInIdempotent(Clean(text), j);
  }

  lemma SpanInIdempotent(w: string, j: string)
    requires SpanIn(w) == Success(j)
    ensures JsonSpan(j) == Success(j)
  {
    var none: string := [];
    assert none + j + none == j;
    SpanInShape(w, j);
    CleanFixesSpan(j);
    EmbeddedIn(none, j, none);
  }

  /** A string that opens with a bracket and closes with one has nothing to clean. */
  lemma CleanFixesSpan(j: string)
    requires |j| >= 2 && IsOpener(j[0]) && j[|j| - 1] == CloserOf(j[0])
    ensures Clean(j) == j
  {
    StripOfUnspaced(j);
    assert !StartsWith(j, JsonFence) by { assert j[0] != JsonFence[0]; }
    assert !StartsWith(j, Fence) by { assert j[0] != Fence[0]; }
    assert !EndsWith(j, Fence) by { assert j[|j| - 1] != Fence[2]; }
    assert StripFences(j) == j;
  }

  /** Once the span is found, the rest of the text no longer matters: extracting from the
      span alone gives the same tree, or the same parse failure. */
  lemma ExtractSeesOnlySpan<Tree>(text: string, readTree: string -> Result<Tree, Option<string>>)
    requires JsonSpan(text).Success?
    ensures Extract(text, readTree) == Extract(JsonSpan(text).value, readTree)
  {
    SpanIdempotent(text, JsonSpan(text).value);
  }

  /** The first character of the message, and the seventh for the two "Error ..." ones, tell
      which stage failed. */
  lemma MessageStage(e: ExtractError)
    ensures var m := e.Message();
      |m| > 6 &&
      (m[0] == 'N' <==> e.NoJsonFound?) && (m[0] == 'U' <==> e.UnmatchedBrackets?) &&
      (m[0] == 'E' && m[6] == 'p' <==> e.ParseFailed?) && (m[0] == 'E' && m[6] == 'c' <==> e.ConversionFailed?)
  {
    match e
    case NoJsonFound =>
      assert NoJsonMessage[0] == 'N';
    case UnmatchedBrackets =>
      assert UnmatchedMessage[0] == 'U';
    case ParseFailed(d) =>
      assert (ParseErrorPrefix + NullableText(d))[..|ParseErrorPrefix|] == ParseErrorPrefix;
      assert ParseErrorPrefix[0] == 'E' && ParseErrorPrefix[6] == 'p';
    case ConversionFailed(d) =>
      assert (ConversionErrorPrefix + NullableText(d))[..|ConversionErrorPrefix|] == ConversionErrorPrefix;
      assert ConversionErrorPrefix[0] == 'E' && ConversionErrorPrefix[6] == 'c';
  }

  /** The four messages never coincide across stages: a caller reading only the exception
      message knows whether no JSON was found, the brackets did not match, the parser
      failed or the conversion failed. */
  lemma MessagesDistinguishStages(e1: ExtractError, e2: ExtractError)
    requires e1.Message() == e2.Message()
    ensures e1.NoJsonFound? == e2.NoJsonFound? && e1.UnmatchedBrackets? == e2.UnmatchedBrackets?
    ensures e1.ParseFailed? == e2.ParseFailed? && e1.ConversionFailed? == e2.ConversionFailed?
  {
    MessageStage(e1);
    MessageStage(e2);
  }

  /** A leading ```` ```json ```` wins over a bare fence, and one trailing fence goes,
      even when the body itself ends with another. */
  lemma JsonFenceStripped(body: string)
    ensures StripFences(JsonFence + body + Fence) == body
  {
    var s := JsonFence + body + Fence;
    assert s[..|JsonFence|] == JsonFence;
    assert s[|JsonFence|..] == body + Fence;
    assert (body + Fence)[|body + Fence| - |Fence|..] == Fence;
    assert (body + Fence)[..|body|] == body;
  }

  /** A bare fence without the json tag is stripped at both ends. */
  lemma BareFenceStripped(body: string)
    requires !StartsWith(body, "json")
    ensures StripFences(Fence + body + Fence) == body
  {
    var s := Fence + body + Fence;
    assert !StartsWith(s, JsonFence) by {
      if |body| >= 4 {
        assert body[..4] != "json";
        var i :| 0 <= i < 4 && body[i] != "json"[i];
        assert s[3 + i] == body[i];
        assert JsonFence[3 + i] == "json"[i];
      } else {
        assert s[3 + |body|] == '`';
        assert JsonFence[3 + |body|] != '`';
      }
    }
    assert s[..|Fence|] == Fence;
    assert s[|Fence|..] == body + Fence;
    assert (body + Fence)[|body + Fence| - |Fence|..] == Fence;
    assert (body + Fence)[..|body|] == body;
  }

  /** A fenced answer is cleaned to its stripped body. */
  lemma FencedClean(body: string)
    ensures Clean(JsonFence + body + Fence) == Strip(body)
  {
    var s := JsonFence + body + Fence;
    assert s[0] == '`' && s[|s| - 1] == '`';
    StripOfUnspaced(s);
    JsonFenceStripped(body);
  }

  /** The cleaned text is stripped again: it never starts or ends with whitespace. */
  lemma CleanIsStripped(text: string)
    ensures NoOuterSpace(Clean(text), IsJavaWhitespace)
  {
    StripShape(StripFences(Strip(text)));
  }
}
