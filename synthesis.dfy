/**
  Code generation from the ordered detections (`generate_code_from_detections`
  in app.py) and what the upload route makes of its result. The generative
  model is an input: it either failed, or replied with a text. `json.loads` is
  an input too: a decoder from text to a JSON object or an error message.
*/
module Synthesis {
  import opened Wrappers
  import Sequencer
  import ResponseParser

  /** A JSON value as `json.loads` produces it. */
  datatype Json =
    | JNull
    | JBool(b: bool)
    | JNumber(n: real)
    | JString(s: string)
    | JArray(items: seq<Json>)
    | JObject(fields: map<string, Json>)

  /** A Python dict with string keys, such as the one the generator returns. */
  type Dict = map<string, Json>

  /** The call to the generative model: it raised with a message, or returned a reply text. */
  datatype Provider = InvocationFailed(message: string) | Responded(text: string)

  /** `json.loads` on a text that starts with `{`: an object, or the decode error's message. */
  type Decoder = string -> Result<Dict, string>

  const NoDetectionsHtml := "<h2>No UI elements were detected.</h2>"
  const ErrorHeading := "<h2>Sorry, an error occurred during code generation.</h2>"
  const NoObjectMessage := "No valid JSON object found in the model's response."

  /** The dict `{"html": html, "css": "", "editable_elements": []}`. */
  function Artifact(html: string): (r: Dict)
    ensures r.Keys == {"html", "css", "editable_elements"}
    ensures r["html"] == JString(html) && r["css"] == JString("") && r["editable_elements"] == JArray([])
  {
    map["html" := JString(html), "css" := JString(""), "editable_elements" := JArray([])]
  }

  /** The error markup: heading, the exception's message, and the raw reply when there was one. */
  function ErrorHtml(message: string, reply: Option<string>): (html: string)
    ensures ErrorHeading + "<p>" + message + "</p>" <= html
    ensures reply.None? ==> html == ErrorHeading + "<p>" + message + "</p>"
    ensures reply.Some? ==> EndsWith(html, "<pre>Raw Response:\n" + reply.value + "</pre>")
  {
    ErrorHeading + "<p>" + message + "</p>"
      + (match reply
         case Some(text) => "<pre>Raw Response:\n" + text + "</pre>"
         case None => "")
  }

  /** The reply text, when the model returned one (`'response' in locals()`). */
  function ReplyOf(provider: Provider): Option<string> {
    match provider
    case Responded(text) => Some(text)
    case InvocationFailed(_) => None
  }

  /** The object decoded from the reply's brace span, when every step succeeds. */
  function DecodedReply(provider: Provider, decode: Decoder): Option<Dict> {
    match provider
    case InvocationFailed(_) => None
    case Responded(text) =>
      match ResponseParser.ExtractObject(text)
      case None => None
      case Some(candidate) =>
        match decode(candidate)
        case Success(d) => Some(d)
        case Failure(_) => None
  }

  /**
    The message of the step that failed: the model call's exception, the
    missing-object error, or the decoder's error. Only meaningful when no
    object was decoded.
  */
  function FailureMessage(provider: Provider, decode: Decoder): string {
    match provider
    case InvocationFailed(message) => message
    case Responded(text) =>
      match ResponseParser.ExtractObject(text)
      case None => NoObjectMessage
      case Some(candidate) =>
        match decode(candidate)
        case Success(_) => ""
        case Failure(message) => message
  }

  /**
    The fallback result the frontend can still render: three keys, empty css
    and list, and markup made of the heading, the message in a paragraph and,
    when there was a reply, the raw reply.
  */
  ghost predicate IsErrorArtifact(r: Dict, message: string, reply: Option<string>) {
    && r.Keys == {"html", "css", "editable_elements"}
    && r["css"] == JString("")
    && r["editable_elements"] == JArray([])
    && r["html"].JString?
    && var html := r["html"].s;
       && ErrorHeading + "<p>" + message + "</p>" <= html
       && (reply.Some? ==> EndsWith(html, "<pre>Raw Response:\n" + reply.value + "</pre>"))
       && (reply.None? ==> html == ErrorHeading + "<p>" + message + "</p>")
  }

  predicate EndsWith(s: string, suffix: string) {
    |suffix| <= |s| && s[|s| - |suffix|..] == suffix
  }

  /** `generate_code_from_detections(detections)` */
  function GenerateCode(detections: seq<Sequencer.Detection>, provider: Provider, decode: Decoder): (r: Dict)
    ensures detections == [] ==> r == Artifact(NoDetectionsHtml)
    ensures detections != [] && DecodedReply(provider, decode).Some? ==> r == DecodedReply(provider, decode).value
    ensures detections != [] && DecodedReply(provider, decode).None? ==>
              IsErrorArtifact(r, FailureMessage(provider, decode), ReplyOf(provider))
  {
    if detections == [] then Artifact(NoDetectionsHtml)
    else match provider
      case InvocationFailed(message) => Artifact(ErrorHtml(message, None))
      case Responded(text) =>
        match ResponseParser.ExtractObject(text)
        case None => Artifact(ErrorHtml(NoObjectMessage, Some(text)))
        case Some(candidate) =>
          match decode(candidate)
          case Success(d) => d
          case Failure(message) => Artifact(ErrorHtml(message, Some(text)))
  }

  /** With no detections the model is never consulted: the result is the same whatever it would say. */
  lemma EmptyDetectionsIgnoreProvider(p1: Provider, p2: Provider, d1: Decoder, d2: Decoder)
    ensures GenerateCode([], p1, d1) == GenerateCode([], p2, d2)
    ensures GenerateCode([], p1, d1)["html"] == JString(NoDetectionsHtml)
  {
  }

  /**
    A reply that wraps one object in prose or a code fence yields exactly the
    decoded object, with no key added, removed or checked.
  */
  lemma WrappedReplyPassesThrough(detections: seq<Sequencer.Detection>, prefix: string, body: string, suffix: string,
                                  decode: Decoder, d: Dict)
    requires detections != []
    requires '{' !in prefix && '}' !in suffix
    requires |body| >= 2 && body[0] == '{' && body[|body| - 1] == '}'
    requires decode(body) == Success(d)
    ensures GenerateCode(detections, Responded(prefix + body + suffix), decode) == d
  {
    ResponseParser.ExtractWrapped(prefix, body, suffix);
  }

  /** A reply with no `{` at all falls back to the error artifact carrying the reply. */
  lemma NoObjectFallback(detections: seq<Sequencer.Detection>, text: string, decode: Decoder)
    requires detections != []
    requires '{' !in text
    ensures GenerateCode(detections, Responded(text), decode)
         == Artifact(ErrorHtml(NoObjectMessage, Some(text)))
    ensures IsErrorArtifact(GenerateCode(detections, Responded(text), decode), NoObjectMessage, Some(text))
  {
  }

  /** The page the upload route renders: `code_data.get(key, default)` for each of the three keys. */
  datatype Page = Page(html: Json, css: Json, editableElements: Json)

  /** `d.get(key, default)`: the stored value of a present key, even `null`; the default for a missing one. */
  function Get(d: Dict, key: string, default: Json): (v: Json)
    ensures key in d ==> v == d[key]
    ensures key !in d ==> v == default
  {
    if key in d then d[key] else default
  }

  function ResultPage(codeData: Dict): (p: Page)
    ensures "html" in codeData ==> p.html == codeData["html"]
    ensures "html" !in codeData ==> p.html == JString("Error: No HTML returned.")
    ensures "css" in codeData ==> p.css == codeData["css"]
    ensures "css" !in codeData ==> p.css == JString("/* No CSS returned */")
    ensures "editable_elements" in codeData ==> p.editableElements == codeData["editable_elements"]
    ensures "editable_elements" !in codeData ==> p.editableElements == JArray([])
  {
    Page(Get(codeData, "html", JString("Error: No HTML returned.")),
         Get(codeData, "css", JString("/* No CSS returned */")),
         Get(codeData, "editable_elements", JArray([])))
  }

  /** The route's defaults are only ever used for a decoded object that lacks a key. */
  lemma DefaultsOnlyForDecodedObjects(detections: seq<Sequencer.Detection>, provider: Provider, decode: Decoder)
    ensures var r := GenerateCode(detections, provider, decode);
            (detections == [] || DecodedReply(provider, decode).None?) ==>
              ResultPage(r).css == JString("") && ResultPage(r).editableElements == JArray([])
              && ResultPage(r).html.JString?
              && ResultPage(r).html.s != "Error: No HTML returned."
  {
  }

  /**
    The upload pipeline: detection, reading order, code generation, then the
    three values the result page is rendered with.
  */
  method HandleUpload(inference: Sequencer.Inference, names: map<nat, string>, provider: Provider, decode: Decoder)
    returns (page: Page)
    requires inference.Ran? ==> Sequencer.Labelled(inference.results, names)
    ensures inference.Failed? ==> page == Page(JString(NoDetectionsHtml), JString(""), JArray([]))
    ensures inference.Ran? ==>
      page == ResultPage(GenerateCode(Sequencer.ReadingOrder(Sequencer.Collected(inference.results, names)), provider, decode))
  {
    var sortedDetections := Sequencer.GetSortedDetections(inference, names);
    var codeData := GenerateCode(sortedDetections, provider, decode);
    page := ResultPage(codeData);
  }
}
