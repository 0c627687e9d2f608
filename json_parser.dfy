/** The extractor of JsonParser.java: trim the model's text, peel one layer of markdown
    code fence, find the first `{` or `[`, count depth on that delimiter pair alone until it
    returns to zero, and hand the span to the JSON parser; the typed variant then converts the
    tree. Jackson's readTree and treeToValue are function parameters that may fail. */
module JsonParser {
  import opened Wrappers
  import opened JavaString

  const JsonFence: string := "```json"
  const Fence: string := "```"

  const NoJsonMessage: string := "No JSON object or array found in input"
  const UnmatchedMessage: string := "Unmatched brackets in JSON"
  const ParseErrorPrefix: string := "Error parsing JSON: "
  const ConversionErrorPrefix: string := "Error converting JSON to target class: "

  /** Why extraction failed. Every case is thrown as an IllegalArgumentException. */
  datatype ExtractError =
    | NoJsonFound
    | UnmatchedBrackets
    | ParseFailed(detail: Option<string>)
    | ConversionFailed(detail: Option<string>)
  {
    /** The message of the IllegalArgumentException thrown for this failure; a null detail
        message from Jackson is written as "null" by string concatenation. */
    function Message(): string {
      match this
      case NoJsonFound => NoJsonMessage
      case UnmatchedBrackets => UnmatchedMessage
      case ParseFailed(d) => ParseErrorPrefix + NullableText(d)
      case ConversionFailed(d) => ConversionErrorPrefix + NullableText(d)
    }
  }

  predicate IsOpener(c: char) {
    c == '{' || c == '['
  }

  /** The closing delimiter the first opener fixes. */
  function CloserOf(open: char): char
    requires IsOpener(open)
  {
    if open == '{' then '}' else ']'
  }

  // ---------------------------------------------------------------------------
  // Cleaning

  /** One leading fence (```` ```json ```` before a bare ```` ``` ````) and one trailing
      ```` ``` ```` are removed. */
  function StripFences(s: string): string {
    var unfenced := if StartsWith(s, JsonFence) then s[|JsonFence|..]
                  else if StartsWith(s, Fence) then s[|Fence|..]
                  else s;
    if EndsWith(unfenced, Fence) then unfenced[..|unfenced| - |Fence|] else unfenced
  }

  /** The `working` string the bracket scan runs over. */
  function Clean(text: string): string {
    Strip(StripFences(Strip(text)))
  }

  // ---------------------------------------------------------------------------
  // Depth

  function Count(s: string, c: char): nat {
    if |s| == 0 then 0 else (if s[0] == c then 1 else 0) + Count(s[1..], c)
  }

  /** Opens minus closes of the chosen pair; nothing else moves it. */
  function Depth(s: string, open: char, close: char): int {
    Count(s, open) - Count(s, close)
  }

  /** `end` is the first point after `start` at which the depth is back to zero. */
  ghost predicate FirstBalance(s: string, start: int, end: int, open: char, close: char)
    requires 0 <= start < |s|
  {
    start < end <= |s| &&
    Depth(s[start..end], open, close) == 0 &&
    forall k :: start < k < end ==> Depth(s[start..k], open, close) > 0
  }

  /** The depth never returns to zero before the text ends. */
  ghost predicate NeverBalances(s: string, start: int, open: char, close: char)
    requires 0 <= start < |s|
  {
    forall k :: start < k <= |s| ==> Depth(s[start..k], open, close) > 0
  }

  // ---------------------------------------------------------------------------
  // Scans, as functions

  /** Least index holding `{` or `[`; -1 when there is none. */
  function FirstOpener(s: string): (start: int)
    ensures -1 <= start < |s|
    ensures start == -1 <==> forall i :: 0 <= i < |s| ==> !IsOpener(s[i])
    ensures start >= 0 ==> IsOpener(s[start]) && forall i :: 0 <= i < start ==> !IsOpener(s[i])
  {
    if |s| == 0 then -1
    else if IsOpener(s[0]) then 0
    else
      var k := FirstOpener(s[1..]);
      assert forall i :: 1 <= i < |s| ==> s[i] == s[1..][i - 1];
      if k == -1 then -1 else k + 1
  }

  /** The depth loop from index i with the counter at `depth`: the exclusive end of the
      span, or -1 if the text runs out first. */
  function ScanFrom(s: string, i: nat, depth: int, open: char, close: char): int
    requires i <= |s|
    decreases |s| - i
  {
    if i == |s| then -1
    else if s[i] == open then ScanFrom(s, i + 1, depth + 1, open, close)
    else if s[i] == close then
      (if depth - 1 == 0 then i + 1 else ScanFrom(s, i + 1, depth - 1, open, close))
    else ScanFrom(s, i + 1, depth, open, close)
  }

  function BalanceEnd(s: string, start: nat, open: char, close: char): int
    requires start <= |s|
  {
    ScanFrom(s, start, 0, open, close)
  }

  /** The span `working[start..end)` of the text the scan runs over, or the error the two
      scans throw. */
  function JsonSpan(text: string): Result<string, ExtractError> {
    SpanIn(Clean(text))
  }

  function SpanIn(w: string): Result<string, ExtractError> {
    var start := FirstOpener(w);
    if start == -1 then Failure(NoJsonFound)
    else
      var end := BalanceEnd(w, start, w[start], CloserOf(w[start]));
      if end == -1 then Failure(UnmatchedBrackets)
      else
        BalanceEndBounds(w, start, w[start], CloserOf(w[start]));
        Success(w[start..end])
  }

  /** extractJsonFromLlmOutput(String). */
  function Extract<Tree>(text: string, readTree: string -> Result<Tree, Option<string>>)
    : Result<Tree, ExtractError>
  {
    match JsonSpan(text)
    case Failure(e) => Failure(e)
    case Success(j) =>
      match readTree(j)
      case Success(t) => Success(t)
      case Failure(d) => Failure(ParseFailed(d))
  }

  /** extractJsonFromLlmOutput(String, Class). */
  function ExtractAs<Tree, V>(text: string, readTree: string -> Result<Tree, Option<string>>,
                              treeToValue: Tree -> Result<V, Option<string>>)
    : Result<V, ExtractError>
  {
    match Extract(text, readTree)
    case Failure(e) => Failure(e)
    case Success(t) =>
      match treeToValue(t)
      case Success(v) => Success(v)
      case Failure(d) => Failure(ConversionFailed(d))
  }

  // ---------------------------------------------------------------------------
  // The Java methods

  /** The first loop: finds `start` and fixes the delimiter pair. */
  method FindStart(working: string) returns (start: int, openChar: char, closeChar: char)
    ensures -1 <= start < |working|
    ensures start == -1 <==> forall i :: 0 <= i < |working| ==> !IsOpener(working[i])
    ensures start >= 0 ==> IsOpener(working[start]) &&
                           (forall i :: 0 <= i < start ==> !IsOpener(working[i])) &&
                           openChar == working[start] && closeChar == CloserOf(openChar)
    ensures start == -1 ==> openChar == 0 as char && closeChar == 0 as char
    ensures start == FirstOpener(working)
  {
    start := -1;
    openChar, closeChar := 0 as char, 0 as char;
    var i := 0;
    while i < |working|
      invariant 0 <= i <= |working|
      invariant forall k :: 0 <= k < i ==> !IsOpener(working[k])
    {
      var ch := working[i];
      if ch == '{' {
        start, openChar, closeChar := i, '{', '}';
        break;
      } else if ch == '[' {
        start, openChar, closeChar := i, '[', ']';
        break;
      }
      i := i + 1;
    }
  }

  /** The second loop: counts depth on the chosen pair from `start` until it is zero. */
  method FindEnd(working: string, start: nat, openChar: char, closeChar: char)
    returns (end: int)
    requires start < |working| && working[start] == openChar && openChar != closeChar
    ensures end == BalanceEnd(working, start, openChar, closeChar)
    ensures end == -1 <==> NeverBalances(working, start, openChar, closeChar)
    ensures end != -1 ==> FirstBalance(working, start, end, openChar, closeChar)
  {
    var depth := 0;
    end := -1;
    var i := start;
    while i < |working|
      invariant start <= i <= |working|
      invariant depth == Depth(working[start..i], openChar, closeChar)
      invariant i > start ==> depth > 0
      invariant forall k :: start < k <= i ==> Depth(working[start..k], openChar, closeChar) > 0
      invariant ScanFrom(working, i, depth, openChar, closeChar) == BalanceEnd(working, start, openChar, closeChar)
    {
      var ch := working[i];
      DepthSnoc(working, start, i, openChar, closeChar);
      if ch == openChar {
        depth := depth + 1;
      } else if ch == closeChar {
        depth := depth - 1;
        if depth == 0 {
          end := i + 1;
          break;
        }
      }
      i := i + 1;
    }
  }

  /** extractJsonFromLlmOutput(String): the `working` string is reassigned as in the source. */
  method ExtractJsonFromLlmOutput<Tree>(text: string, readTree: string -> Result<Tree, Option<string>>)
    returns (r: Result<Tree, ExtractError>)
    ensures r == Extract(text, readTree)
  {
    assert |JsonFence| == 7 && |Fence| == 3;
    var working := Strip(text);
    ghost var stripped := working;
    if StartsWith(working, JsonFence) {
      working := working[7..];
    } else if StartsWith(working, Fence) {
      working := working[3..];
    }
    if EndsWith(working, Fence) {
      working := working[..|working| - 3];
    }
    assert working == StripFences(stripped);
    working := Strip(working);

    var start, openChar, closeChar := FindStart(working);
    if start == -1 {
      return Failure(NoJsonFound);
    }
    var end := FindEnd(working, start, openChar, closeChar);
    if end == -1 {
      return Failure(UnmatchedBrackets);
    }
    var jsonStr := working[start..end];
    assert SpanIn(working) == Success(jsonStr);
    var parsed := readTree(jsonStr);
    match parsed
    case Success(t) => r := Success(t);
    case Failure(d) => r := Failure(ParseFailed(d));
  }

  /** extractJsonFromLlmOutput(String, Class). */
  method ExtractJsonAs<Tree, V>(text: string, readTree: string -> Result<Tree, Option<string>>,
                                treeToValue: Tree -> Result<V, Option<string>>)
    returns (r: Result<V, ExtractError>)
    ensures r == ExtractAs(text, readTree, treeToValue)
  {
    var node := ExtractJsonFromLlmOutput(text, readTree);
    match node
    case Failure(e) => r := Failure(e);
    case Success(t) =>
      var converted := treeToValue(t);
      match converted
      case Success(v) => r := Success(v);
      case Failure(d) => r := Failure(ConversionFailed(d));
  }

  // ---------------------------------------------------------------------------
  // Depth arithmetic

  lemma {:induction false} CountAppend(a: string, b: string, c: char)
    ensures Count(a + b, c) == Count(a, c) + Count(b, c)
  {
    if a == [] {
      assert a + b == b;
    } else {
      assert (a + b)[1..] == a[1..] + b;
      CountAppend(a[1..], b, c);
    }
  }

  /** One more character moves the depth by at most one, and only if it is open or close. */
  lemma DepthSnoc(s: string, start: nat, i: nat, open: char, close: char)
    requires start <= i < |s| && open != close
    ensures Depth(s[start..i + 1], open, close) ==
            Depth(s[start..i], open, close) +
            (if s[i] == open then 1 else if s[i] == close then -1 else 0)
  {
    assert s[start..i + 1] == s[start..i] + [s[i]];
    CountAppend(s[start..i], [s[i]], open);
    CountAppend(s[start..i], [s[i]], close);
  }

  /** Dropping the first character of a span takes its contribution off the depth. */
  lemma DepthCons(s: string, i: nat, k: nat, open: char, close: char)
    requires i < k <= |s|
    ensures Depth(s[i..k], open, close) ==
            (if s[i] == open then 1 else 0) - (if s[i] == close then 1 else 0) +
            Depth(s[i + 1..k], open, close)
  {
    assert s[i..k][1..] == s[i + 1..k];
  }

  // ---------------------------------------------------------------------------
  // What the scans compute

  /** From a positive depth, the scan stops exactly where the depth first reaches zero. */
  lemma {:induction false} ScanFromSpec(s: string, i: nat, d: int, open: char, close: char)
    requires i <= |s| && d >= 1 && open != close
    ensures var end := ScanFrom(s, i, d, open, close);
      (end == -1 <==> forall k :: i <= k <= |s| ==> d + Depth(s[i..k], open, close) > 0) &&
      (end != -1 ==>
         i < end <= |s| && d + Depth(s[i..end], open, close) == 0 &&
         (forall k :: i <= k < end ==> d + Depth(s[i..k], open, close) > 0))
    decreases |s| - i
  {
    assert Depth(s[i..i], open, close) == 0;
    if i < |s| {
      var step := if s[i] == open then 1 else if s[i] == close then -1 else 0;
      forall k | i < k <= |s|
        ensures Depth(s[i..k], open, close) == step + Depth(s[i + 1..k], open, close)
      {
        DepthCons(s, i, k, open, close);
      }
      if d + step == 0 {
        assert s[i] == close;
        assert ScanFrom(s, i, d, open, close) == i + 1;
        assert Depth(s[i + 1..i + 1], open, close) == 0;
      } else {
        assert ScanFrom(s, i, d, open, close) == ScanFrom(s, i + 1, d + step, open, close);
        ScanFromSpec(s, i + 1, d + step, open, close);
      }
    }
  }

  /** The function form of the second loop meets the same specification as FindEnd. */
  lemma BalanceEndSpec(s: string, start: nat, open: char, close: char)
    requires start < |s| && s[start] == open && open != close
    ensures var end := BalanceEnd(s, start, open, close);
      (end == -1 <==> NeverBalances(s, start, open, close)) &&
      (end != -1 ==> FirstBalance(s, start, end, open, close))
  {
    assert BalanceEnd(s, start, open, close) == ScanFrom(s, start + 1, 1, open, close);
    forall k | start < k <= |s|
      ensures Depth(s[start..k], open, close) == 1 + Depth(s[start + 1..k], open, close)
    {
      DepthCons(s, start, k, open, close);
    }
    ScanFromSpec(s, start + 1, 1, open, close);
    var next := start + 1;
    if NeverBalances(s, start, open, close) {
      assert forall k :: next <= k <= |s| ==> 1 + Depth(s[next..k], open, close) > 0 by {
        forall k | next <= k <= |s|
          ensures 1 + Depth(s[next..k], open, close) > 0
        {
          assert Depth(s[start..k], open, close) > 0;
        }
      }
    }
  }

  lemma BalanceEndBounds(s: string, start: nat, open: char, close: char)
    requires start < |s| && s[start] == open && open != close
    ensures BalanceEnd(s, start, open, close) == -1 ||
            start < BalanceEnd(s, start, open, close) <= |s|
  {
    BalanceEndSpec(s, start, open, close);
  }

  /** The first balance point is unique. */
  lemma FirstBalanceUnique(s: string, start: nat, e1: int, e2: int, open: char, close: char)
    requires start < |s|
    requires FirstBalance(s, start, e1, open, close) && FirstBalance(s, start, e2, open, close)
    ensures e1 == e2
  {
  }
}
