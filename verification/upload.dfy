/**
 * `uploadFile` in the documentation controller: read the uploaded file, ask the
 * model for documentation with up to three attempts, check the answer's length,
 * post-process it and store a new record. The model is a scripted service, the
 * waits between attempts are recorded instead of slept, and the upload
 * directory is the set of temporary paths that exist.
 */
module Upload {
  import opened Strings
  import opened JsValues
  import opened Ai
  import opened Docs
  import Prompts
  import PostProcess

  // ---------------------------------------------------------------------------
  // The retry loop

  const MaxAttempts := 3

  /** The wait requested after the n-th failed attempt, in milliseconds (linear, not exponential). */
  function Delay(n: nat): nat {
    1000 * n
  }

  /**
   * Reference definition of the retry loop from attempt `k` on: the outcome that
   * ends it and the number of calls made in total.
   */
  function Attempts(script: Script, k: nat): (r: (Outcome, nat))
    requires k < MaxAttempts
    ensures k < r.1 <= MaxAttempts
    ensures r.0 == script(r.1 - 1)
    ensures forall j :: k <= j < r.1 - 1 ==> script(j).Err?
    ensures r.0.Err? ==> r.1 == MaxAttempts
    decreases MaxAttempts - k
  {
    if script(k).Ok? || k + 1 == MaxAttempts then (script(k), k + 1) else Attempts(script, k + 1)
  }

  /**
   * The loop as the controller runs it: call, stop on the first answer, count
   * the failure, rethrow the third failure, otherwise request a wait of
   * `1000 * attempts` milliseconds and call again.
   */
  method GenerateWithRetry(script: Script) returns (result: Outcome, calls: nat, delays: seq<nat>)
    ensures (result, calls) == Attempts(script, 0)
    ensures 1 <= calls <= MaxAttempts
    ensures result == script(calls - 1)
    ensures forall j :: 0 <= j < calls - 1 ==> script(j).Err?
    ensures result.Err? ==> calls == MaxAttempts
    ensures |delays| == calls - 1
    ensures forall j :: 0 <= j < |delays| ==> delays[j] == Delay(j + 1)
  {
    var attempts := 0;
    delays := [];
    while true
      invariant 0 <= attempts < MaxAttempts
      invariant Attempts(script, attempts) == Attempts(script, 0)
      invariant forall j :: 0 <= j < attempts ==> script(j).Err?
      invariant |delays| == attempts
      invariant forall j :: 0 <= j < |delays| ==> delays[j] == Delay(j + 1)
      decreases MaxAttempts - attempts
    {
      var outcome := script(attempts);
      if outcome.Ok? {
        return outcome, attempts + 1, delays;
      }
      attempts := attempts + 1;
      if attempts == MaxAttempts {
        return outcome, attempts, delays;
      }
      delays := delays + [Delay(attempts)];
    }
  }

  /** k failures (k < 3) followed by an answer take exactly k + 1 calls. */
  lemma StopsAtFirstAnswer(script: Script, k: nat)
    requires k < MaxAttempts && script(k).Ok?
    requires forall j :: 0 <= j < k ==> script(j).Err?
    ensures Attempts(script, 0) == (script(k), k + 1)
  {
  }

  // ---------------------------------------------------------------------------
  // The error classifier

  const TooShortError := "AI generated documentation is too short or empty"
  const GenericFailure := "Failed to generate documentation"
  const QuotaFailure := "API quota exceeded. Please try again later."
  const SafetyFailure := "Content was blocked by safety filters. Please review your code."
  const InsufficientFailure := "Generated documentation was insufficient. Please try with a different file."

  /** The user-facing message for a failed generation: the first keyword found decides. */
  function ClassifyError(message: string): (m: string)
    ensures m in {QuotaFailure, SafetyFailure, InsufficientFailure, GenericFailure}
    ensures m == QuotaFailure <==> Contains(message, "quota")
    ensures m == SafetyFailure <==> !Contains(message, "quota") && Contains(message, "safety")
    ensures m == InsufficientFailure <==>
      !Contains(message, "quota") && !Contains(message, "safety") && Contains(message, "too short")
  {
    if Contains(message, "quota") then QuotaFailure
    else if Contains(message, "safety") then SafetyFailure
    else if Contains(message, "too short") then InsufficientFailure
    else GenericFailure
  }

  /** Minimum trimmed length of an acceptable answer. */
  const MinAnswerLength := 100

  // ---------------------------------------------------------------------------
  // The handler

  /** The uploaded file as the upload middleware hands it over; `read` is the outcome of reading it as UTF-8. */
  datatype UploadedFile = UploadedFile(path: string, originalName: string, read: Outcome)

  datatype UploadBody =
    | UploadError(error: string, details: Option<string>)
    | Created(id: DocId, doc: Doc, readTime: string)

  /** How the handler left: which of its return paths was taken. */
  datatype Exit = NoFile | ReadFailed | EmptyFile | GenerationFailed | Saved

  /** The reply, the collection afterwards, and what the model was asked and how often. */
  datatype Handled = Handled(
    exit: Exit, status: nat, body: UploadBody, store: Store,
    prompt: Option<Prompts.Request>, calls: nat, delays: seq<nat>)

  /** The reply and every effect, including the temporary files left over. */
  datatype UploadResult = UploadResult(handled: Handled, temp: set<string>)

  /**
   * The handler's decisions, without the clean-up of the temporary file. A saved
   * record gets the id `newId`, the id the database assigns to a new record.
   */
  method Handle(file: Option<UploadedFile>, store: Store, script: Script, dev: bool, now: int, newId: DocId)
    returns (h: Handled)
    requires newId !in store
    ensures h.exit == NoFile <==> file.None?
    ensures file.None? ==> h.status == 400 && h.body == UploadError("No file uploaded", None)
    ensures file.Some? && file.value.read.Err? ==> (h.exit == ReadFailed && h.status == 500
      && h.body == UploadError("File processing failed: " + file.value.read.message, None))
    ensures file.Some? && file.value.read.Ok? && Trim(file.value.read.text) == "" ==>
      (h.exit == EmptyFile && h.status == 400 && h.body == UploadError("File appears to be empty", None))
    ensures h.exit in {NoFile, ReadFailed, EmptyFile} ==> h.calls == 0 && h.prompt == None && h.delays == []
    ensures h.exit in {GenerationFailed, Saved} ==>
      (file.Some? && file.value.read.Ok? && Trim(file.value.read.text) != ""
       && h.prompt == Some(Prompts.Request(file.value.read.text, file.value.originalName, false))
       && 1 <= h.calls <= MaxAttempts && |h.delays| == h.calls - 1)
    ensures h.exit == GenerationFailed ==>
      (h.status == 500 && h.body.UploadError?
       && h.body.error in {QuotaFailure, SafetyFailure, InsufficientFailure, GenericFailure}
       && (h.body.details.Some? <==> dev))
    ensures h.exit != Saved ==> h.store == store
    ensures h.exit == Saved <==> h.status == 200
    ensures h.exit == Saved ==> file.Some? && Stored(h, file.value, store, script(h.calls - 1), now, newId)
    ensures file.Some? && file.value.read.Ok? && Trim(file.value.read.text) != "" ==>
      h.exit in {GenerationFailed, Saved} && Generated(h, file.value, store, script, dev, now, newId)
  {
    if file.None? {
      return Handled(NoFile, 400, UploadError("No file uploaded", None), store, None, 0, []);
    }
    var f := file.value;
    if f.read.Err? {
      return Handled(ReadFailed, 500, UploadError("File processing failed: " + f.read.message, None), store, None, 0, []);
    }
    var content := f.read.text;
    if Trim(content) == "" {
      return Handled(EmptyFile, 400, UploadError("File appears to be empty", None), store, None, 0, []);
    }
    h := Generate(f, store, script, dev, now, newId);
  }

  /** The record saved for upload `f` when the model answered `answer`. */
  function SavedRecord(f: UploadedFile, answer: string, now: int): (d: Doc)
    requires f.read.Ok?
    ensures d.filename == f.originalName && d.originalContent == Some(f.read.text)
    ensures d.content == PostProcess.PostProcessDocumentation(answer, f.originalName)
  {
    NewRecord(f.originalName, PostProcess.PostProcessDocumentation(answer, f.originalName), f.read.text, now)
  }

  /**
   * `h` is the reply that saves upload `f` after the model answered `answer`:
   * the answer is long enough, the new record is stored under `newId`, and the
   * reply carries it with its reading time.
   */
  predicate Stored(h: Handled, f: UploadedFile, store: Store, answer: Outcome, now: int, newId: DocId)
    requires f.read.Ok?
  {
    answer.Ok? && |Trim(answer.text)| >= MinAnswerLength
    && var doc := SavedRecord(f, answer.text, now);
    h.store == store[newId := doc]
    && h.body == Created(newId, doc, IntToString(ReadMinutes(doc.wordCount)) + " minutes")
  }

  /** The controller's acceptance test for an answer: `!text || text.trim().length < 100` rejects it. */
  predicate Accepted(answer: Outcome) {
    answer.Ok? && |Trim(answer.text)| >= MinAnswerLength
  }

  /** The message the catch clause classifies: the model's error, or the too-short error thrown for a rejected answer. */
  function FailureMessage(answer: Outcome): (m: string)
    ensures answer.Err? ==> m == answer.message
    ensures answer.Ok? ==> m == TooShortError
  {
    if answer.Err? then answer.message else TooShortError
  }

  /**
   * `h` is what the controller makes of upload `f` once the retry loop has run:
   * the calls and waits are the loop's, and the reply is a saved record exactly
   * when the loop's last outcome is an accepted answer, otherwise the classified
   * failure, with the raw message only in development.
   */
  predicate Generated(h: Handled, f: UploadedFile, store: Store, script: Script, dev: bool, now: int, newId: DocId)
    requires f.read.Ok?
  {
    var (answer, calls) := Attempts(script, 0);
    h.prompt == Some(Prompts.Request(f.read.text, f.originalName, false))
    && h.calls == calls && |h.delays| == calls - 1
    && (forall j :: 0 <= j < |h.delays| ==> h.delays[j] == Delay(j + 1))
    && (h.exit == Saved <==> Accepted(answer))
    && (if Accepted(answer) then h.status == 200 && Stored(h, f, store, answer, now, newId)
        else h.exit == GenerationFailed && h.status == 500 && h.store == store
             && h.body == UploadError(ClassifyError(FailureMessage(answer)),
                                      if dev then Some(FailureMessage(answer)) else None))
  }

  /** The handler once the file has been read and is not blank: ask the model, check the answer, save. */
  method Generate(f: UploadedFile, store: Store, script: Script, dev: bool, now: int, newId: DocId)
    returns (h: Handled)
    requires newId !in store && f.read.Ok? && Trim(f.read.text) != ""
    ensures h.exit == GenerationFailed || h.exit == Saved
    ensures h.exit == Saved <==> Accepted(Attempts(script, 0).0)
    ensures h.exit == Saved <==> h.status == 200
    ensures Generated(h, f, store, script, dev, now, newId)
  {
    var content := f.read.text;
    var prompt := Prompts.Request(content, f.originalName, false);
    var result, calls, delays := GenerateWithRetry(script);
    if result.Err? {
      h := Fail(result.message, dev, store, prompt, calls, delays);
      assert !Accepted(result) && FailureMessage(result) == result.message;
    } else if |Trim(result.text)| < MinAnswerLength {
      h := Fail(TooShortError, dev, store, prompt, calls, delays);
      assert !Accepted(result) && FailureMessage(result) == TooShortError;
    } else {
      h := Save(f, store, result, prompt, calls, delays, now, newId);
      assert Accepted(result);
    }
  }

  /** A first answer that passes the length test is saved after a single call, with no wait. */
  lemma FirstAnswerSaved(h: Handled, f: UploadedFile, store: Store, script: Script, dev: bool, now: int, newId: DocId)
    requires f.read.Ok? && Accepted(script(0))
    requires Generated(h, f, store, script, dev, now, newId)
    ensures h.exit == Saved && h.status == 200 && h.calls == 1 && h.delays == []
    ensures h.store == store[newId := SavedRecord(f, script(0).text, now)]
  {
  }

  /**
   * Three failures make three calls with waits of one and two seconds between
   * them, and the third error is the one classified.
   */
  lemma ThreeFailures(h: Handled, f: UploadedFile, store: Store, script: Script, dev: bool, now: int, newId: DocId)
    requires f.read.Ok? && script(0).Err? && script(1).Err? && script(2).Err?
    requires Generated(h, f, store, script, dev, now, newId)
    ensures h.exit == GenerationFailed && h.status == 500 && h.store == store
    ensures h.calls == 3 && h.delays == [1000, 2000]
    ensures h.body.UploadError? && h.body.error == ClassifyError(script(2).message)
  {
    assert h.delays[0] == Delay(1) && h.delays[1] == Delay(2);
  }

  /** A short answer is never saved, however many calls it took: the too-short error is classified in its place. */
  lemma ShortAnswerRejected(h: Handled, f: UploadedFile, store: Store, script: Script, dev: bool, now: int, newId: DocId)
    requires f.read.Ok? && Attempts(script, 0).0.Ok? && |Trim(Attempts(script, 0).0.text)| < MinAnswerLength
    requires Generated(h, f, store, script, dev, now, newId)
    ensures h.exit == GenerationFailed && h.store == store
    ensures h.body == UploadError(ClassifyError(TooShortError), if dev then Some(TooShortError) else None)
  {
  }

  /** The reply when generation failed with `message`: classified, with the raw message only in development. */
  method Fail(message: string, dev: bool, store: Store, prompt: Prompts.Request, calls: nat, delays: seq<nat>)
    returns (h: Handled)
    ensures h.exit == GenerationFailed && h.status == 500 && h.store == store
    ensures h.prompt == Some(prompt) && h.calls == calls && h.delays == delays
    ensures h.body == UploadError(ClassifyError(message), if dev then Some(message) else None)
  {
    var details := if dev then Some(message) else None;
    h := Handled(GenerationFailed, 500, UploadError(ClassifyError(message), details), store, Some(prompt), calls, delays);
  }

  /** The reply when the model's answer is accepted: the processed record is saved under `newId`. */
  method Save(f: UploadedFile, store: Store, result: Outcome, prompt: Prompts.Request, calls: nat, delays: seq<nat>,
              now: int, newId: DocId)
    returns (h: Handled)
    requires f.read.Ok? && result.Ok? && |Trim(result.text)| >= MinAnswerLength
    ensures h.exit == Saved && h.status == 200
    ensures h.prompt == Some(prompt) && h.calls == calls && h.delays == delays
    ensures Stored(h, f, store, result, now, newId)
  {
    var doc := SavedRecord(f, result.text, now);
    var readTime := IntToString(ReadMinutes(doc.wordCount)) + " minutes";
    h := Handled(Saved, 200, Created(newId, doc, readTime), store[newId := doc], Some(prompt), calls, delays);
  }

  /**
   * `uploadFile` as written: the temporary file is removed after a record is
   * saved and after an unexpected error, but not when the file is empty or the
   * generation fails.
   */
  method UploadFileAsWritten(file: Option<UploadedFile>, temp: set<string>, store: Store, script: Script,
                             dev: bool, now: int, newId: DocId)
    returns (r: UploadResult)
    requires newId !in store
    ensures r.handled.exit in {ReadFailed, Saved} ==> file.Some? && r.temp == temp - {file.value.path}
    ensures r.handled.exit in {NoFile, EmptyFile, GenerationFailed} ==> r.temp == temp
  {
    var h := Handle(file, store, script, dev, now, newId);
    r := UploadResult(h, TempAfterAsWritten(temp, file, h.exit));
  }

  /** An empty upload leaves its temporary file behind. */
  lemma EmptyUploadLeaks(path: string, name: string, content: string, temp: set<string>)
    requires path in temp && Trim(content) == ""
    ensures path in TempAfterAsWritten(temp, Some(UploadedFile(path, name, Ok(content))), EmptyFile)
  {
  }

  /** The temporary files `UploadFileAsWritten` leaves after exit `exit`. */
  function TempAfterAsWritten(temp: set<string>, file: Option<UploadedFile>, exit: Exit): (left: set<string>)
    requires exit != NoFile ==> file.Some?
    ensures exit in {ReadFailed, Saved} ==> left == temp - {file.value.path}
    ensures exit in {NoFile, EmptyFile, GenerationFailed} ==> left == temp
  {
    if exit == ReadFailed || exit == Saved then temp - {file.value.path} else temp
  }

  /**
   * `uploadFile` with the clean-up on every path: once a file was uploaded, its
   * temporary copy is gone whatever the outcome.
   */
  method UploadFile(file: Option<UploadedFile>, temp: set<string>, store: Store, script: Script,
                    dev: bool, now: int, newId: DocId)
    returns (r: UploadResult)
    requires newId !in store
    ensures file.Some? ==> r.temp == temp - {file.value.path}
    ensures file.None? ==> r.temp == temp
    ensures r.handled.exit == NoFile <==> file.None?
  {
    var h := Handle(file, store, script, dev, now, newId);
    var left := if file.Some? then temp - {file.value.path} else temp;
    r := UploadResult(h, left);
  }
}
