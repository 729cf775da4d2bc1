/**
 * The `/upload` route of the documentation router: read at most 10000
 * characters of the uploaded file, ask the primary model once and, if that
 * fails, the fallback model once, and remove the temporary file on every path
 * once a file was uploaded. The two model calls are scripted outcomes.
 */
module DocRouter {
  import opened Strings
  import opened JsValues
  import opened Ai
  import Prompts
  import Upload

  const PrimaryModel := "gemini-2.0-flash"
  const FallbackModel := "gemini-2.5-flash"

  datatype RouteBody = Generated(modelUsed: string, data: string) | Failed(message: string)

  /** The reply, the temporary files left, and the (model, prompt) pairs of the calls made, in order. */
  datatype RouteResult = RouteResult(status: nat, body: RouteBody, temp: set<string>, calls: seq<(string, string)>)

  /**
   * `err?.message || err` for an `Error`: its message, or, when that is empty,
   * the error's own string form "Error".
   */
  function Describe(message: string): (d: string)
    ensures d != ""
    ensures message != "" ==> d == message
  {
    if message != "" then message else "Error"
  }

  /** The message when both models fail: the primary's reason first, then the fallback's. */
  function BothFailed(primary: string, fallback: string): string {
    "Failed to generate documentation. Primary: " + Describe(primary) + ". Fallback: " + Describe(fallback)
  }

  /** The handler. `primary` and `fallback` are what the two models would answer if asked. */
  function HandleUpload(file: Option<Upload.UploadedFile>, temp: set<string>, primary: Outcome, fallback: Outcome): (r: RouteResult)
    ensures file.None? ==> r == RouteResult(400, Failed("No file uploaded"), temp, [])
    ensures file.Some? ==> r.temp == temp - {file.value.path}
    ensures |r.calls| <= 2
    ensures r.body.Generated? <==> r.status == 200
    ensures r.status == 200 <==> file.Some? && file.value.read.Ok? && (primary.Ok? || fallback.Ok?)
    ensures file.Some? && file.value.read.Err? ==>
      r == RouteResult(500, Failed("Failed to process file: " + Describe(file.value.read.message)),
                       temp - {file.value.path}, [])
  {
    if file.None? then RouteResult(400, Failed("No file uploaded"), temp, [])
    else
      var f := file.value;
      var left := temp - {f.path};
      match f.read
      case Err(e) => RouteResult(500, Failed("Failed to process file: " + Describe(e)), left, [])
      case Ok(text) =>
        var prompt := Prompts.RoutePrompt(text);
        match primary
        case Ok(doc) => RouteResult(200, Generated(PrimaryModel, doc), left, [(PrimaryModel, prompt)])
        case Err(p) =>
          var calls := [(PrimaryModel, prompt), (FallbackModel, prompt)];
          match fallback
          case Ok(doc) => RouteResult(200, Generated(FallbackModel, doc), left, calls)
          case Err(q) => RouteResult(500, Failed(BothFailed(p, q)), left, calls)
  }

  /** A readable file always reaches the primary model first, with the route's prompt. */
  lemma PrimaryAskedFirst(f: Upload.UploadedFile, temp: set<string>, primary: Outcome, fallback: Outcome)
    requires f.read.Ok?
    ensures var r := HandleUpload(Some(f), temp, primary, fallback);
      |r.calls| >= 1 && r.calls[0] == (PrimaryModel, Prompts.RoutePrompt(f.read.text))
  {
  }

  /** A primary answer is returned as is, and the fallback is never called. */
  lemma PrimaryAnswerWins(f: Upload.UploadedFile, temp: set<string>, doc: string, fallback: Outcome)
    requires f.read.Ok?
    ensures var r := HandleUpload(Some(f), temp, Ok(doc), fallback);
      r.status == 200 && r.body == Generated(PrimaryModel, doc) && |r.calls| == 1
  {
  }

  /** After a primary failure the fallback is called exactly once, with the same prompt. */
  lemma FallbackOnce(f: Upload.UploadedFile, temp: set<string>, p: string, fallback: Outcome)
    requires f.read.Ok?
    ensures var r := HandleUpload(Some(f), temp, Err(p), fallback);
      r.calls == [(PrimaryModel, Prompts.RoutePrompt(f.read.text)), (FallbackModel, Prompts.RoutePrompt(f.read.text))]
      && (fallback.Ok? ==> r.status == 200 && r.body == Generated(FallbackModel, fallback.text))
      && (fallback.Err? ==> r.status == 500 && r.body == Failed(BothFailed(p, fallback.message)))
  {
  }

  /** The combined failure message names the primary reason before the fallback reason. */
  lemma BothFailedOrder(p: string, q: string)
    requires p != "" && q != ""
    ensures var m := BothFailed(p, q);
      var head := "Failed to generate documentation. Primary: ";
      var mid := ". Fallback: ";
      StartsWith(m, head + p + mid) && m[|head + p + mid|..] == q
  {
    var head := "Failed to generate documentation. Primary: ";
    var mid := ". Fallback: ";
    var m := BothFailed(p, q);
    assert m == (head + p + mid) + q;
  }

  /** The route's prompt never carries the file name, only the truncated text. */
  lemma PromptIgnoresName(path: string, a: string, b: string, text: string, temp: set<string>, primary: Outcome, fallback: Outcome)
    ensures HandleUpload(Some(Upload.UploadedFile(path, a, Ok(text))), temp, primary, fallback)
      == HandleUpload(Some(Upload.UploadedFile(path, b, Ok(text))), temp, primary, fallback)
  {
  }
}
