/**
  Locating the JSON object inside the provider's free-form reply:
  `re.search(r'\{.*\}', text, re.DOTALL)` in app.py. With `.` matching every
  character and `.*` greedy, the match starts at the leftmost `{` that has a `}`
  somewhere after it and ends at the last `}` of the text.
*/
module ResponseParser {
  import opened Wrappers

  /** Positions of an opening and a closing brace, the closing one inclusive. */
  datatype Span = Span(start: nat, end: nat)

  /** `text[i..j+1]` matches the pattern `\{.*\}` (with DOTALL). */
  ghost predicate IsBraceMatch(text: string, i: int, j: int) {
    0 <= i < j < |text| && text[i] == '{' && text[j] == '}'
  }

  /** The index of the first occurrence of `c`, if any. */
  function FirstIndex(text: string, c: char): (r: Option<nat>)
    ensures r.None? <==> forall k :: 0 <= k < |text| ==> text[k] != c
    ensures r.Some? ==> r.value < |text| && text[r.value] == c
    ensures r.Some? ==> forall k :: 0 <= k < r.value ==> text[k] != c
  {
    if text == [] then None
    else if text[0] == c then Some(0)
    else match FirstIndex(text[1..], c)
      case None => None
      case Some(k) => Some(k + 1)
  }

  /** The index of the last occurrence of `c`, if any. */
  function LastIndex(text: string, c: char): (r: Option<nat>)
    ensures r.None? <==> forall k :: 0 <= k < |text| ==> text[k] != c
    ensures r.Some? ==> r.value < |text| && text[r.value] == c
    ensures r.Some? ==> forall k :: r.value < k < |text| ==> text[k] != c
  {
    if text == [] then None
    else if text[|text| - 1] == c then Some(|text| - 1)
    else LastIndex(text[..|text| - 1], c)
  }

  /** The span `re.search` reports: from the first `{` to the last `}`, when the first comes before the last. */
  function SearchBraces(text: string): (r: Option<Span>)
    ensures r.None? <==> forall i, j :: !IsBraceMatch(text, i, j)
    ensures r.Some? ==> IsBraceMatch(text, r.value.start, r.value.end)
    ensures r.Some? ==> forall k :: 0 <= k < r.value.start ==> text[k] != '{'
    ensures r.Some? ==> forall k :: r.value.end < k < |text| ==> text[k] != '}'
    ensures r.Some? ==> forall i, j :: IsBraceMatch(text, i, j) ==> r.value.start <= i && j <= r.value.end
  {
    var first, last := FirstIndex(text, '{'), LastIndex(text, '}');
    if first.Some? && last.Some? && first.value < last.value then
      assert IsBraceMatch(text, first.value, last.value);
      assert forall i, j :: IsBraceMatch(text, i, j) ==> first.value <= i && j <= last.value;
      Some(Span(first.value, last.value))
    else
      None
  }

  /** `json_match.group(0)`: the matched text, braces included. */
  function ExtractObject(text: string): (r: Option<string>)
    ensures r.None? <==> forall i, j :: !IsBraceMatch(text, i, j)
    ensures r.Some? ==> |r.value| >= 2 && r.value[0] == '{' && r.value[|r.value| - 1] == '}'
  {
    match SearchBraces(text)
    case None => None
    case Some(span) => Some(text[span.start..span.end + 1])
  }

  /**
    Prose or a code fence around the object does not disturb the extraction,
    as long as the text before it has no `{` and the text after it has no `}`.
  */
  lemma ExtractWrapped(prefix: string, body: string, suffix: string)
    requires '{' !in prefix && '}' !in suffix
    requires |body| >= 2 && body[0] == '{' && body[|body| - 1] == '}'
    ensures ExtractObject(prefix + body + suffix) == Some(body)
  {
    var text := prefix + body + suffix;
    var i, j := |prefix|, |prefix| + |body| - 1;
    assert IsBraceMatch(text, i, j);
    forall k | 0 <= k < i ensures text[k] != '{' {
      assert text[k] == prefix[k] && prefix[k] in prefix;
    }
    forall k | j < k < |text| ensures text[k] != '}' {
      assert text[k] == suffix[k - i - |body|] && suffix[k - i - |body|] in suffix;
    }
    assert SearchBraces(text) == Some(Span(i, j));
    assert text[i..j + 1] == body;
  }

  /** A reply without any `{` yields no object. */
  lemma NoOpeningBraceNoObject(text: string)
    requires '{' !in text
    ensures ExtractObject(text) == None
  {
  }
}
