/**
 * The step that finds the JSON object inside the extraction service's reply:
 * the text from the first `{` to the last `}`, both included, or nothing when
 * either brace is missing. It does not balance braces.
 */
module JsonLocator {
  import opened Wrappers
  import opened JsText

  /**
   * `rawText.indexOf("{")`, `rawText.lastIndexOf("}")`, the -1 test and
   * `rawText.substring(jsonStart, jsonEnd + 1)`.
   */
  function Locate(raw: string): (r: Option<string>)
    ensures r.None? <==> '{' !in raw || '}' !in raw
    ensures r.Some? ==> |r.value| <= |raw|
  {
    var jsonStart := IndexOf(raw, '{');
    var jsonEnd := LastIndexOf(raw, '}');
    if jsonStart == -1 || jsonEnd == -1 then None
    else Some(Substring(raw, jsonStart, jsonEnd + 1))
  }

  /** `i` is the position of the first `c` in `raw`. */
  ghost predicate FirstAt(raw: string, c: char, i: int)
  {
    0 <= i < |raw| && raw[i] == c && c !in raw[..i]
  }

  /** `j` is the position of the last `c` in `raw`. */
  ghost predicate LastAt(raw: string, c: char, j: int)
  {
    0 <= j < |raw| && raw[j] == c && c !in raw[j + 1..]
  }

  /**
   * When the first `{` comes before the last `}`, the located text is exactly
   * the slice between them, both included: it opens with `{`, closes with `}`,
   * no `{` precedes it in `raw` and no `}` follows it.
   */
  lemma LocateOrdered(raw: string, i: int, j: int)
    requires FirstAt(raw, '{', i) && LastAt(raw, '}', j) && i < j
    ensures Locate(raw) == Some(raw[i..j + 1])
    ensures raw[i..j + 1][0] == '{' && raw[i..j + 1][j - i] == '}'
    ensures '{' !in raw[..i] && '}' !in raw[j + 1..]
  {
    FirstOccurrence(raw, '{', i);
    LastOccurrence(raw, '}', j);
  }

  /**
   * When the last `}` comes before the first `{`, `substring` swaps its
   * arguments: the located text is what lies strictly between the two braces,
   * and it holds no brace at all.
   */
  lemma LocateSwapped(raw: string, i: int, j: int)
    requires FirstAt(raw, '{', i) && LastAt(raw, '}', j) && j < i
    ensures Locate(raw) == Some(raw[j + 1..i])
    ensures '{' !in raw[j + 1..i] && '}' !in raw[j + 1..i]
  {
    FirstOccurrence(raw, '{', i);
    LastOccurrence(raw, '}', j);
    assert raw[j + 1..i] == raw[..i][j + 1..];
    assert raw[j + 1..i] == raw[j + 1..][..i - j - 1];
  }

  /** An example reply: text on both sides of the object is dropped. */
  lemma LocateExample()
    ensures Locate("garbage {\"odd\":[],\"even\":[]} trailing") == Some("{\"odd\":[],\"even\":[]}")
  {
    var raw := "garbage {\"odd\":[],\"even\":[]} trailing";
    var json := "{\"odd\":[],\"even\":[]}";
    assert raw == "garbage " + json + " trailing";
    assert FirstAt(raw, '{', 8) by {
      assert raw[..8] == "garbage ";
    }
    assert LastAt(raw, '}', 27) by {
      assert raw[28..] == " trailing";
    }
    LocateOrdered(raw, 8, 27);
    assert raw[8..28] == json;
  }
}
