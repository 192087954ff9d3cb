/**
 * The request/response adapter of services/geminiService.ts. The FileReader
 * read and the network call are not performed here: their outcomes are given
 * as inputs (ReadResult, Reply), and the adapter reports which of the two
 * effects it would have performed, in order, with what arguments.
 */
module GeminiService {
  import opened Wrappers

  /** The model identifier sent with every request. */
  const ModelName: string := "gemini-2.5-flash-image"

  const MissingKeyMessage: string := "API Key is missing."
  const ReadFailedMessage: string := "Failed to read file"

  /** A thrown JavaScript value; an empty message stands for an absent one. */
  datatype JsError = JsError(message: string)

  /** The selected file: its MIME type and its opaque bytes. */
  datatype File = File(mimeType: string, bytes: seq<bv8>)

  /**
   * How `FileReader.readAsDataURL` ended: a string result, a non-string result,
   * or `onerror`. The last rejects with the reader's event, which has no
   * message, so it carries no payload.
   */
  datatype ReadResult = Loaded(dataUrl: string) | NotString | ReadError

  /** One part of the request: the inline image, then the prompt text. */
  datatype RequestPart =
    | InlineImage(mimeType: string, data: Option<string>)
    | Text(text: string)

  /** The body of `generateContent`: model, ordered parts and `imageConfig.aspectRatio`. */
  datatype Request = Request(model: string, parts: seq<RequestPart>, aspectRatio: string)

  /** The fields of the service response that the adapter reads. */
  datatype Blob = Blob(mimeType: string, data: string)
  datatype Part = Part(inlineData: Option<Blob>, text: Option<string>)
  datatype Content = Content(parts: Option<seq<Part>>)
  datatype Candidate = Candidate(content: Option<Content>)
  datatype Response = Response(candidates: Option<seq<Candidate>>)

  /** How the network call ended. */
  datatype Reply = Replied(response: Response) | Failed(error: JsError)

  /** `{ image, text }` as returned to the caller. */
  datatype Output = Output(image: Option<string>, text: Option<string>)

  /** A call of `generateProductImage` either returns or throws. */
  datatype Outcome = Returned(output: Output) | Threw(error: JsError)

  /** The externally visible effects, in the order they happen. */
  datatype Effect = ReadFile(file: File) | CallModel(request: Request)

  /** `!process.env.API_KEY`: undefined and the empty string are both missing. */
  predicate KeyMissing(apiKey: Option<string>)
  {
    !Truthy(apiKey)
  }

  /** The first index at or after `from` that holds a comma, or `|s|` if none. */
  function NextComma(s: string, from: nat): (k: nat)
    requires from <= |s|
    ensures from <= k <= |s|
    ensures k < |s| ==> s[k] == ','
    ensures forall j :: from <= j < k ==> s[j] != ','
    decreases |s| - from
  {
    if from == |s| || s[from] == ',' then from else NextComma(s, from + 1)
  }

  /**
   * `s.split(',')[1]`: the segment between the first and the second comma
   * (or the end), and undefined when `s` has no comma.
   */
  function StripPrefix(s: string): (r: Option<string>)
    ensures r == None <==> ',' !in s
    ensures r.Some? ==> ',' !in r.value
  {
    var i := NextComma(s, 0);
    if i == |s| then
      assert forall j :: 0 <= j < |s| ==> s[j] != ',';
      None
    else
      var seg := s[i + 1..NextComma(s, i + 1)];
      assert forall k :: 0 <= k < |seg| ==> seg[k] == s[i + 1 + k];
      Some(seg)
  }

  /**
   * `s[i + 1..j]` is the second comma-separated field of `s`: `i` is the first
   * comma and `j` the next comma or the end.
   */
  ghost predicate SecondField(s: string, i: int, j: int)
  {
    0 <= i < j <= |s| && s[i] == ',' && ',' !in s[..i] && (j < |s| ==> s[j] == ',') && ',' !in s[i + 1..j]
  }

  /** When `s` has a comma, the stripped segment is its second field. */
  lemma StripPrefixIsSecondField(s: string)
    requires ',' in s
    ensures exists i, j :: SecondField(s, i, j) && StripPrefix(s) == Some(s[i + 1..j])
  {
    var i := NextComma(s, 0);
    var j := NextComma(s, i + 1);
    assert forall k :: 0 <= k < i ==> s[..i][k] == s[k];
    var seg := s[i + 1..j];
    assert forall k :: 0 <= k < |seg| ==> seg[k] == s[i + 1 + k];
    assert SecondField(s, i, j);
  }

  /** The data URI built for an inline-data part: `data:<mime>;base64,<data>`. */
  function DataUri(mimeType: string, data: string): string
  {
    "data:" + mimeType + ";base64," + data
  }

  /**
   * Stripping the prefix of a data URI gives back its payload, when neither
   * the MIME type nor the payload holds a comma (base64 never does).
   */
  lemma StripPrefixOfDataUri(mimeType: string, data: string)
    requires ',' !in mimeType && ',' !in data
    ensures StripPrefix(DataUri(mimeType, data)) == Some(data)
  {
    var s := DataUri(mimeType, data);
    var p := "data:" + mimeType + ";base64";
    assert s == p + "," + data;
    assert ',' !in p;
    var i := NextComma(s, 0);
    assert forall j :: 0 <= j < |p| ==> s[j] == p[j];
    assert s[|p|] == ',';
    assert forall j :: 0 <= j < |p| ==> s[j] != ',';
    assert i == |p|;
    var k := NextComma(s, i + 1);
    assert forall j :: i + 1 <= j < |s| ==> s[j] == data[j - i - 1];
    assert k == |s|;
    assert s[i + 1..k] == data;
  }

  /** The request: inline image data first, then the prompt, and the aspect ratio. */
  function BuildRequest(mimeType: string, data: Option<string>, prompt: string, aspectRatio: string): (r: Request)
    ensures r.model == ModelName
    ensures |r.parts| == 2 && r.parts[0] == InlineImage(mimeType, data) && r.parts[1] == Text(prompt)
    ensures r.aspectRatio == aspectRatio
  {
    Request(ModelName, [InlineImage(mimeType, data), Text(prompt)], aspectRatio)
  }

  /** The parts of the first candidate, or none when anything on the way is absent. */
  function FirstCandidateParts(response: Response): seq<Part>
  {
    match response.candidates
    case Some(cs) =>
      if |cs| > 0 && cs[0].content.Some? && cs[0].content.value.parts.Some?
      then cs[0].content.value.parts.value
      else []
    case None => []
  }

  /** Only `candidates[0]` is read: responses that agree on it decode alike. */
  lemma OnlyFirstCandidate(r1: Response, r2: Response)
    requires r1.candidates.Some? && r2.candidates.Some?
    requires |r1.candidates.value| > 0 && |r2.candidates.value| > 0
    requires r1.candidates.value[0] == r2.candidates.value[0]
    ensures Decode(r1) == Decode(r2)
  {
  }

  /**
   * No candidate list, an empty one, or a first candidate without content or
   * without parts decodes to `{ image: null, text: null }`.
   */
  lemma EmptyResponseDecodesToNulls(response: Response)
    requires response.candidates == None || response.candidates == Some([]) ||
             response.candidates.value[0].content == None ||
             response.candidates.value[0].content.value.parts == None
    ensures Decode(response) == Output(None, None)
  {
  }

  /** A part sets the text when it has no inline data and a truthy (non-empty) text. */
  predicate IsTextPart(p: Part)
  {
    p.inlineData.None? && Truthy(p.text)
  }

  /** The data URI of the last part carrying inline data. */
  function LastImage(parts: seq<Part>): Option<string>
  {
    if parts == [] then None
    else
      var p := parts[|parts| - 1];
      if p.inlineData.Some? then Some(DataUri(p.inlineData.value.mimeType, p.inlineData.value.data))
      else LastImage(parts[..|parts| - 1])
  }

  /** The text of the last text part. */
  function LastText(parts: seq<Part>): Option<string>
  {
    if parts == [] then None
    else
      var p := parts[|parts| - 1];
      if IsTextPart(p) then p.text
      else LastText(parts[..|parts| - 1])
  }

  /** What the parsing loop computes, as a function of the response. */
  function Decode(response: Response): Output
  {
    var parts := FirstCandidateParts(response);
    Output(LastImage(parts), LastText(parts))
  }

  /**
   * The image is absent exactly when no part carries inline data; otherwise it
   * is the data URI of the part at some index k, built from that part's own
   * MIME type and data, and no later part carries inline data.
   */
  lemma {:induction false} LastImageIsLastInlinePart(parts: seq<Part>)
    ensures LastImage(parts).None? <==> forall k :: 0 <= k < |parts| ==> parts[k].inlineData.None?
    ensures LastImage(parts).Some? ==>
              exists k :: 0 <= k < |parts| && parts[k].inlineData.Some? &&
                          LastImage(parts) == Some(DataUri(parts[k].inlineData.value.mimeType, parts[k].inlineData.value.data)) &&
                          forall j :: k < j < |parts| ==> parts[j].inlineData.None?
    decreases |parts|
  {
    if parts != [] {
      var n := |parts| - 1;
      var init := parts[..n];
      LastImageIsLastInlinePart(init);
      assert forall k :: 0 <= k < n ==> parts[k] == init[k];
      if parts[n].inlineData.None? && LastImage(parts).Some? {
        var k :| 0 <= k < n && init[k].inlineData.Some? &&
                 LastImage(init) == Some(DataUri(init[k].inlineData.value.mimeType, init[k].inlineData.value.data)) &&
                 forall j :: k < j < n ==> init[j].inlineData.None?;
        assert parts[k] == init[k];
      }
    }
  }

  /**
   * The text is absent exactly when no part is a text part; otherwise it is
   * the text of the part at some index k, and no later part is a text part.
   */
  lemma {:induction false} LastTextIsLastTextPart(parts: seq<Part>)
    ensures LastText(parts).None? <==> forall k :: 0 <= k < |parts| ==> !IsTextPart(parts[k])
    ensures LastText(parts).Some? ==>
              exists k :: 0 <= k < |parts| && IsTextPart(parts[k]) && LastText(parts) == parts[k].text &&
                          forall j :: k < j < |parts| ==> !IsTextPart(parts[j])
    decreases |parts|
  {
    if parts != [] {
      var n := |parts| - 1;
      var init := parts[..n];
      LastTextIsLastTextPart(init);
      assert forall k :: 0 <= k < n ==> parts[k] == init[k];
      if !IsTextPart(parts[n]) && LastText(parts).Some? {
        var k :| 0 <= k < n && IsTextPart(init[k]) && LastText(init) == init[k].text &&
                 forall j :: k < j < n ==> !IsTextPart(init[j]);
        assert parts[k] == init[k];
      }
    }
  }

  /** The parsing loop over the first candidate's parts. */
  method ParseResponse(response: Response) returns (output: Output)
    ensures output == Decode(response)
  {
    var generatedImage: Option<string> := None;
    var generatedText: Option<string> := None;
    if response.candidates.Some? && |response.candidates.value| > 0 {
      var content := response.candidates.value[0].content;
      if content.Some? && content.value.parts.Some? {
        var parts := content.value.parts.value;
        var i := 0;
        while i < |parts|
          invariant 0 <= i <= |parts|
          invariant generatedImage == LastImage(parts[..i])
          invariant generatedText == LastText(parts[..i])
        {
          var part := parts[i];
          assert parts[..i + 1][..i] == parts[..i];
          if part.inlineData.Some? {
            generatedImage := Some(DataUri(part.inlineData.value.mimeType, part.inlineData.value.data));
          } else if part.text.Some? && part.text.value != "" {
            generatedText := part.text;
          }
          i := i + 1;
        }
        assert parts[..i] == parts;
      }
    }
    output := Output(generatedImage, generatedText);
  }

  /**
   * `generateProductImage`: the key check, the file read, the request, the
   * call and the parse. What the read or the call rejects with is rethrown
   * unchanged; a reader error is an event without a message.
   */
  method GenerateProductImage(apiKey: Option<string>, read: ReadResult, reply: Reply,
                              imageFile: File, prompt: string, aspectRatio: string := "1:1")
    returns (outcome: Outcome, effects: seq<Effect>)
    ensures KeyMissing(apiKey) ==> outcome == Threw(JsError(MissingKeyMessage)) && effects == []
    ensures !KeyMissing(apiKey) ==> |effects| >= 1 && effects[0] == ReadFile(imageFile)
    ensures !KeyMissing(apiKey) && read.ReadError? ==>
              outcome == Threw(JsError("")) && effects == [ReadFile(imageFile)]
    ensures !KeyMissing(apiKey) && read.NotString? ==>
              outcome == Threw(JsError(ReadFailedMessage)) && effects == [ReadFile(imageFile)]
    ensures !KeyMissing(apiKey) && read.Loaded? ==>
              effects == [ReadFile(imageFile),
                          CallModel(BuildRequest(imageFile.mimeType, StripPrefix(read.dataUrl), prompt, aspectRatio))] &&
              outcome == (match reply
                          case Failed(e) => Threw(e)
                          case Replied(r) => Returned(Decode(r)))
  {
    if KeyMissing(apiKey) {
      return Threw(JsError(MissingKeyMessage)), [];
    }
    effects := [ReadFile(imageFile)];
    var base64Image: Option<string>;
    match read {
      case ReadError =>
        return Threw(JsError("")), effects;
      case NotString =>
        return Threw(JsError(ReadFailedMessage)), effects;
      case Loaded(url) =>
        base64Image := StripPrefix(url);
    }
    var request := BuildRequest(imageFile.mimeType, base64Image, prompt, aspectRatio);
    effects := effects + [CallModel(request)];
    match reply
    case Failed(e) =>
      outcome := Threw(e);
    case Replied(response) =>
      var output := ParseResponse(response);
      outcome := Returned(output);
  }
}
