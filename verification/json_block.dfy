/** `GemeniAI::parseJsonBlock`: the model's reply is trimmed, a leading
    ```` ```json ```` and a trailing ```` ``` ```` fence are cut off, and the rest
    is handed to the JSON decoder, which must produce an array. The decoder
    is a parameter: `decode` stands for `json_decode($text, true)` (None when
    `json_last_error()` reports an error) and `isArray` for `is_array`. */
module JsonBlock {
  import opened Wrappers
  import opened Text

  const OpenFence: string := "```json"
  const CloseFence: string := "```"

  /** The two fence checks on the trimmed text: the result is a contiguous
      piece of it, shorter by 0, 3, 7 or 10 characters. */
  function StripFences(t: string): (r: string)
    ensures var k := if StartsWith(t, OpenFence) then 7 else 0;
      && k + |r| <= |t|
      && r == t[k..k + |r|]
      && (|t| - |r| - k == 3 <==> EndsWith(t[k..], CloseFence))
      && (|t| - |r| - k == 0 <==> !EndsWith(t[k..], CloseFence))
    ensures var removed := |t| - |r|; removed == 0 || removed == 3 || removed == 7 || removed == 10
  {
    var t1 := if StartsWith(t, OpenFence) then t[7..] else t;
    if EndsWith(t1, CloseFence) then t1[..|t1| - 3] else t1
  }

  /** The text after the two fence checks, before the final trim. */
  function Unfenced(input: string): string
  {
    StripFences(Trim(input, Whitespace))
  }

  /** What the decoder is given: `trim($trimmed)`. */
  function DecoderInput(input: string): string
  {
    Trim(Unfenced(input), Whitespace)
  }

  datatype BlockError = InvalidJsonArray

  function ParseJsonBlock<J>(input: string, decode: string -> Option<J>, isArray: J -> bool): (r: Result<J, BlockError>)
    ensures r.Ok? <==> decode(DecoderInput(input)).Some? && isArray(decode(DecoderInput(input)).value)
    ensures r.Ok? ==> r.value == decode(DecoderInput(input)).value
  {
    var decoded := decode(Trim(Unfenced(input), Whitespace));
    if decoded.None? || !isArray(decoded.value) then Err(InvalidJsonArray) else Ok(decoded.value)
  }

  predicate AllWhitespace(s: string)
  {
    forall i :: 0 <= i < |s| ==> s[i] in Whitespace
  }

  lemma TrimPadded(pre: string, mid: string, post: string)
    requires AllWhitespace(pre) && AllWhitespace(post)
    requires |mid| > 0 && mid[0] !in Whitespace && mid[|mid| - 1] !in Whitespace
    ensures Trim(pre + mid + post, Whitespace) == mid
  {
    var s := pre + mid + post;
    var n := LeadingRun(s, Whitespace);
    assert s[|pre|] == mid[0];
    assert n == |pre|;
    var r := Trim(s, Whitespace);
    assert s[|pre| + |mid| - 1] == mid[|mid| - 1];
    assert |r| == |mid|;
    assert r == s[|pre|..|pre| + |mid|];
  }

  /** A fenced block surrounded by whitespace reaches the decoder as its
      trimmed body. */
  lemma FencedBlockReachesDecoder(pre: string, body: string, post: string)
    requires AllWhitespace(pre) && AllWhitespace(post)
    ensures DecoderInput(pre + OpenFence + body + CloseFence + post) == Trim(body, Whitespace)
  {
    var fenced := OpenFence + body + CloseFence;
    assert pre + OpenFence + body + CloseFence + post == pre + fenced + post;
    TrimPadded(pre, fenced, post);
    StripFenced(body);
  }

  lemma StripFenced(body: string)
    ensures StripFences(OpenFence + body + CloseFence) == body
  {
    var fenced := OpenFence + body + CloseFence;
    assert fenced[..7] == OpenFence;
    var t1 := fenced[7..];
    assert t1 == body + CloseFence;
    assert t1[|body|..] == CloseFence;
    assert t1[..|body|] == body;
  }

  /** Text with no fences reaches the decoder unchanged apart from trimming. */
  lemma PlainTextReachesDecoder(input: string)
    requires !StartsWith(Trim(input, Whitespace), OpenFence)
    requires !EndsWith(Trim(input, Whitespace), CloseFence)
    ensures DecoderInput(input) == Trim(input, Whitespace)
  {
    TrimIdempotent(input, Whitespace);
  }

  /** A fence without the `json` tag keeps its opening backticks, so the
      decoder is given text that starts with them. */
  lemma UntaggedFenceKeepsBackticks()
    ensures DecoderInput("```[1]```") == "```[1]"
  {
    var s, t := "```[1]```", "```[1]";
    TrimUntrimmed(s, Whitespace);
    UntaggedStrip();
    TrimUntrimmed(t, Whitespace);
    DecoderInputSteps(s, t);
  }

  lemma DecoderInputSteps(s: string, t: string)
    requires Trim(s, Whitespace) == s && StripFences(s) == t && Trim(t, Whitespace) == t
    ensures DecoderInput(s) == t
  {
  }

  lemma UntaggedStrip()
    ensures StripFences("```[1]```") == "```[1]"
  {
    var s := "```[1]```";
    assert s[3] != OpenFence[3];
    assert s[6..] == CloseFence;
    assert s[..6] == "```[1]";
  }
}
