/**
 * `ApiDetector`: sends the text to a language-model client and reads the
 * reply as JSON; when the reply is not JSON it looks for the outermost
 * braces and tries again; when there are none it falls back to the same
 * line-by-line pattern detection as `RegexDetector`.
 *
 * JSON decoding is a parameter (`parse`), and so is the client's reply. The
 * recursion of `parse_api_response` does not always terminate, so it is
 * modelled with a fuel argument: `None` means the call has not returned
 * within that many nested calls.
 */
module ApiDetection {
  import opened Wrappers
  import opened Text
  import opened Errors
  import opened Models
  import RegexDetection

  /** `ApiPersonalInfo`, one entry of the reply's `personal_information` array. */
  datatype ApiInfo = ApiInfo(kind: string, value: string, line: nat, start: nat, end: nat)

  /** serde's `from_str::<ApiResponse>`: the entries, or `None` when the text does not decode. */
  type Decoder = string -> Option<seq<ApiInfo>>

  const NoJsonMessage := "No valid JSON found in response"
  const ApiDetectorName := "API Detector"

  // ---------------------------------------------------------------------------
  // Locating the JSON object in a reply

  /** `str::find`: the first index of `c`. */
  function Find(s: string, c: char): (r: Option<nat>)
    ensures r.Some? ==> r.value < |s| && s[r.value] == c && forall j :: 0 <= j < r.value ==> s[j] != c
    ensures r.None? ==> forall j :: 0 <= j < |s| ==> s[j] != c
  {
    var i := IndexOf(s, c);
    if i < |s| then Some(i) else None
  }

  /** `str::rfind`: the last index of `c`. */
  function RFind(s: string, c: char): (r: Option<nat>)
    ensures r.Some? ==> r.value < |s| && s[r.value] == c && forall j :: r.value < j < |s| ==> s[j] != c
    ensures r.None? ==> forall j :: 0 <= j < |s| ==> s[j] != c
  {
    if s == [] then None
    else if s[|s| - 1] == c then Some(|s| - 1)
    else RFind(s[..|s| - 1], c)
  }

  /** `extract_json_from_text`: from the first `{` to the last `}`, both included. */
  function ExtractJson(text: string): Result<string, Error>
  {
    match (Find(text, '{'), RFind(text, '}'))
    case (Some(start), Some(end)) =>
      if start < end then Ok(text[start..end + 1]) else Err(ApiError(NoJsonMessage))
    case _ => Err(ApiError(NoJsonMessage))
  }

  /**
   * Extraction succeeds exactly when some `{` comes before some `}`; it then
   * returns the slice from the first `{` to the last `}`; otherwise the error
   * is the API error "No valid JSON found in response".
   */
  lemma ExtractJsonSpec(text: string)
    ensures ExtractJson(text).Ok? <==>
      exists i, j :: 0 <= i < j < |text| && text[i] == '{' && text[j] == '}'
    ensures ExtractJson(text).Ok? ==>
      Find(text, '{').Some? && RFind(text, '}').Some? && Find(text, '{').value < RFind(text, '}').value &&
      ExtractJson(text).value == text[Find(text, '{').value..RFind(text, '}').value + 1]
    ensures ExtractJson(text).Ok? ==>
      var json := ExtractJson(text).value;
      |json| >= 2 && json[0] == '{' && json[|json| - 1] == '}'
    ensures ExtractJson(text).Err? ==> ExtractJson(text).error == ApiError(NoJsonMessage)
  {
    var f := Find(text, '{');
    var l := RFind(text, '}');
    if f.Some? && l.Some? && f.value < l.value {
      var json := text[f.value..l.value + 1];
      assert ExtractJson(text) == Ok(json);
      assert json[0] == text[f.value] && json[|json| - 1] == text[l.value];
      assert 0 <= f.value < l.value < |text| && text[f.value] == '{' && text[l.value] == '}';
    } else {
      assert ExtractJson(text) == Err(ApiError(NoJsonMessage));
      NoBracePair(text);
    }
  }

  /** Without a first `{` before a last `}`, no `{` comes before any `}`. */
  lemma NoBracePair(text: string)
    requires !(Find(text, '{').Some? && RFind(text, '}').Some? && Find(text, '{').value < RFind(text, '}').value)
    ensures forall i, j :: 0 <= i < j < |text| && text[i] == '{' ==> text[j] != '}'
  {
  }

  /** Extracting from an extracted object returns it unchanged. */
  lemma ExtractJsonIdempotent(text: string)
    requires ExtractJson(text).Ok?
    ensures ExtractJson(ExtractJson(text).value) == ExtractJson(text)
  {
    var start := Find(text, '{').value;
    var end := RFind(text, '}').value;
    var json := text[start..end + 1];
    assert json[0] == '{';
    assert json[|json| - 1] == '}';
    assert Find(json, '{') == Some(0);
    assert RFind(json, '}') == Some(|json| - 1);
    assert json[0..|json| - 1 + 1] == json;
  }

  // ---------------------------------------------------------------------------
  // Reading a reply

  /** The conversion of a decoded entry: field for field. */
  function FromApiInfo(info: ApiInfo): (f: Finding)
    ensures f.kind == info.kind && f.value == info.value
    ensures f.line == info.line && f.start == info.start && f.end == info.end
  {
    Finding(info.kind, info.value, info.line, info.start, info.end)
  }

  /** The decoded entries become findings one for one, in order. */
  function FromApiInfos(infos: seq<ApiInfo>): (fs: seq<Finding>)
    ensures |fs| == |infos|
    ensures forall k :: 0 <= k < |infos| ==> fs[k] == FromApiInfo(infos[k])
  {
    seq(|infos|, k requires 0 <= k < |infos| => FromApiInfo(infos[k]))
  }

  /**
   * `parse_api_response`: decode the reply; failing that, extract the
   * outermost braces and parse those (recursively); if that fails, detect
   * with the patterns in the original text. `None`: no result within `fuel`
   * nested calls.
   */
  function ParseApiResponse(response: string, original: string, parse: Decoder,
                            p: RegexDetection.Patterns, fuel: nat): Option<Result<seq<Finding>, Error>>
    requires RegexDetection.WellFormed(p)
    decreases fuel
  {
    if fuel == 0 then None
    else match parse(response)
      case Some(infos) => Some(Ok(FromApiInfos(infos)))
      case None =>
        match ExtractJson(response)
        case Err(_) => Some(Ok(RegexDetection.Findings(original, p)))
        case Ok(json) =>
          match ParseApiResponse(json, original, parse, p, fuel - 1)
          case None => None
          case Some(Ok(found)) => Some(Ok(found))
          case Some(Err(_)) => Some(Ok(RegexDetection.Findings(original, p)))
  }

  /**
   * What `parse_api_response` does, written without recursion: the reply
   * decodes; or extraction fails and the patterns are used; or the
   * extracted object decodes; or (`None`) the call never returns.
   */
  ghost function ParseOutcome(response: string, original: string, parse: Decoder,
                              p: RegexDetection.Patterns): Option<Result<seq<Finding>, Error>>
    requires RegexDetection.WellFormed(p)
  {
    if parse(response).Some? then Some(Ok(FromApiInfos(parse(response).value)))
    else match ExtractJson(response)
      case Err(_) => Some(Ok(RegexDetection.Findings(original, p)))
      case Ok(json) => if parse(json).Some? then Some(Ok(FromApiInfos(parse(json).value))) else None
  }

  /**
   * The extracted object does not decode: extraction of it gives it back,
   * so the recursive call receives the same text again, and no amount of
   * fuel produces a result.
   */
  lemma {:induction false} ParseDiverges(json: string, original: string, parse: Decoder,
                                         p: RegexDetection.Patterns, fuel: nat)
    requires RegexDetection.WellFormed(p)
    requires parse(json).None? && ExtractJson(json) == Ok(json)
    ensures ParseApiResponse(json, original, parse, p, fuel).None?
  {
    if fuel > 0 {
      ParseDiverges(json, original, parse, p, fuel - 1);
    }
  }

  /** With two nested calls of fuel every returning case has returned, and the others never return. */
  lemma ParseMatchesOutcome(response: string, original: string, parse: Decoder,
                            p: RegexDetection.Patterns, fuel: nat)
    requires RegexDetection.WellFormed(p) && fuel >= 2
    ensures ParseApiResponse(response, original, parse, p, fuel) == ParseOutcome(response, original, parse, p)
  {
    if parse(response).None? && ExtractJson(response).Ok? {
      var json := ExtractJson(response).value;
      ExtractJsonIdempotent(response);
      if parse(json).None? {
        ParseDiverges(json, original, parse, p, fuel - 1);
      }
    }
  }

  /** Whatever the fuel, the result is never an error: every failure ends in the pattern fallback. */
  lemma {:induction false} ParseNeverFails(response: string, original: string, parse: Decoder,
                                           p: RegexDetection.Patterns, fuel: nat)
    requires RegexDetection.WellFormed(p)
    ensures forall e :: ParseApiResponse(response, original, parse, p, fuel) != Some(Err(e))
    decreases fuel
  {
    if fuel > 0 && parse(response).None? && ExtractJson(response).Ok? {
      ParseNeverFails(ExtractJson(response).value, original, parse, p, fuel - 1);
    }
  }

  /**
   * The pattern fallback is used only when no braces can be extracted from
   * the reply: when extraction succeeds the result is a decoded reply or
   * nothing at all.
   */
  lemma FallbackOnlyWithoutJson(response: string, original: string, parse: Decoder,
                                p: RegexDetection.Patterns, fuel: nat)
    requires RegexDetection.WellFormed(p) && fuel >= 2
    requires parse(response).None?
    ensures ExtractJson(response).Err? ==>
      ParseApiResponse(response, original, parse, p, fuel) == Some(Ok(RegexDetection.Findings(original, p)))
    ensures ExtractJson(response).Ok? ==>
      var json := ExtractJson(response).value;
      ParseApiResponse(response, original, parse, p, fuel) ==
        (if parse(json).Some? then Some(Ok(FromApiInfos(parse(json).value))) else None)
  {
    ParseMatchesOutcome(response, original, parse, p, fuel);
  }

  /**
   * The smallest reply that never returns: `{}` lacks the required
   * `personal_information` field, so it does not decode, and it extracts to
   * itself.
   */
  lemma EmptyObjectDiverges(original: string, parse: Decoder, p: RegexDetection.Patterns, fuel: nat)
    requires RegexDetection.WellFormed(p)
    requires parse("{}").None?
    ensures ParseApiResponse("{}", original, parse, p, fuel).None?
  {
    assert Find("{}", '{') == Some(0);
    assert RFind("{}", '}') == Some(1);
    assert "{}"[0..2] == "{}";
    ParseDiverges("{}", original, parse, p, fuel);
  }

  /** An extracted object is the reply itself or strictly shorter. */
  lemma ExtractJsonShrinks(text: string)
    requires ExtractJson(text).Ok?
    ensures |ExtractJson(text).value| <= |text|
    ensures ExtractJson(text).value != text ==> |ExtractJson(text).value| < |text|
  {
    ExtractJsonSpec(text);
    var start := Find(text, '{').value;
    var end := RFind(text, '}').value;
    if |ExtractJson(text).value| == |text| {
      assert start == 0 && end + 1 == |text|;
      assert text[0..|text|] == text;
    }
  }

  /**
   * The parse chain as its fallback arm intends it: the nested call is made
   * only on a strictly shorter object, and an object that extracts to itself
   * without decoding goes to the pattern fallback. It always returns, it
   * agrees with the source wherever the source returns, and it uses the
   * patterns exactly where the source never returns.
   */
  function ParseRepaired(response: string, original: string, parse: Decoder,
                         p: RegexDetection.Patterns): (r: Result<seq<Finding>, Error>)
    requires RegexDetection.WellFormed(p)
    ensures r.Ok?
    ensures ParseOutcome(response, original, parse, p).Some? ==> Some(r) == ParseOutcome(response, original, parse, p)
    ensures ParseOutcome(response, original, parse, p).None? ==> r == Ok(RegexDetection.Findings(original, p))
    decreases |response|
  {
    match parse(response)
    case Some(infos) => Ok(FromApiInfos(infos))
    case None =>
      match ExtractJson(response)
      case Err(_) => Ok(RegexDetection.Findings(original, p))
      case Ok(json) =>
        if json == response then Ok(RegexDetection.Findings(original, p))
        else
          ExtractJsonShrinks(response);
          ExtractJsonIdempotent(response);
          ParseRepaired(json, original, parse, p)
  }

  // ---------------------------------------------------------------------------
  // The detector

  /** `detect_with_regex`: the same loop as `RegexDetector::detect`. */
  method DetectWithRegex(text: string, p: RegexDetection.Patterns) returns (r: Result<seq<Finding>, Error>)
    requires RegexDetection.WellFormed(p)
    ensures r == Ok(RegexDetection.Findings(text, p))
  {
    var lines := Lines(text);
    var found: seq<Finding> := [];
    for i := 0 to |lines|
      invariant found == RegexDetection.LinesFindings(lines[..i], p)
    {
      found := RegexDetection.DetectLine(lines[i], i, p, found);
      RegexDetection.LinesFindingsStep(lines, i, p);
    }
    assert lines[..|lines|] == lines;
    return Ok(found);
  }

  /**
   * `detect`: `reply` is what the client's `call` returned for `text`. A
   * client error is returned as it is; a reply is parsed.
   */
  function Detect(text: string, reply: Result<string, Error>, parse: Decoder,
                  p: RegexDetection.Patterns, fuel: nat): (r: Option<Result<seq<Finding>, Error>>)
    requires RegexDetection.WellFormed(p)
    ensures reply.Err? ==> r == Some(Err(reply.error))
    ensures reply.Ok? ==> r == ParseApiResponse(reply.value, text, parse, p, fuel)
  {
    match reply
    case Err(e) => Some(Err(e))
    case Ok(response) => ParseApiResponse(response, text, parse, p, fuel)
  }

  /** A client error is never replaced by the pattern fallback, whatever it is. */
  lemma ClientErrorPropagates(text: string, e: Error, parse: Decoder, p: RegexDetection.Patterns, fuel: nat)
    requires RegexDetection.WellFormed(p)
    ensures Detect(text, Err(e), parse, p, fuel) == Some(Err(e))
    ensures Detect(text, Err(e), parse, p, fuel) != Some(Ok(RegexDetection.Findings(text, p)))
  {
  }

  /** The client's behaviour: its reply for each text. */
  type Client = string -> Result<string, Error>

  /** `detect` returns for every text: no reply leads to an object that does not decode. */
  ghost predicate AlwaysReturns(call: Client, parse: Decoder, p: RegexDetection.Patterns)
    requires RegexDetection.WellFormed(p)
  {
    forall text {:trigger call(text)} :: Detect(text, call(text), parse, p, 2).Some?
  }

  /**
   * `ApiDetector` as a detector, when its `detect` always returns: always
   * available, and its result is what `detect` returns.
   */
  function AsDetector(call: Client, parse: Decoder, p: RegexDetection.Patterns): (d: Detector)
    requires RegexDetection.WellFormed(p) && AlwaysReturns(call, parse, p)
    ensures d.name == ApiDetectorName && d.available
    ensures forall text {:trigger call(text)} :: call(text).Err? ==> d.detect(text) == Err(call(text).error)
    ensures forall text {:trigger call(text)} :: call(text).Ok? ==>
      Some(d.detect(text)) == ParseOutcome(call(text).value, text, parse, p)
  {
    var d := Detector(ApiDetectorName, true, text => Detect(text, call(text), parse, p, 2).GetOr(Ok([])));
    assert forall text {:trigger call(text)} :: call(text).Ok? ==>
      Some(d.detect(text)) == ParseOutcome(call(text).value, text, parse, p) by {
      forall text | call(text).Ok?
        ensures Some(d.detect(text)) == ParseOutcome(call(text).value, text, parse, p)
      {
        ParseMatchesOutcome(call(text).value, text, parse, p, 2);
      }
    }
    d
  }
}
