/**
 * The documentation records and the controller operations that transform the
 * document collection: building a new record, `regenerateDoc`, `updateDoc` and
 * `getDocById`. The collection is a map from document id to record; the clock
 * is a parameter (`now`), and the model's answer is a scripted outcome.
 */
module Docs {
  import opened Strings
  import opened JsValues
  import opened Ai
  import Language
  import PostProcess
  import Prompts
  import Version

  /** A stored documentation record. `generatedAt` and `lastModified` are opaque time stamps. */
  datatype Doc = Doc(
    filename: string,
    content: string,
    originalContent: Option<string>,
    language: string,
    generatedAt: int,
    version: string,
    wordCount: nat,
    codeLines: nat,
    lastModified: int)

  type DocId = nat

  type Store = map<DocId, Doc>

  /**
   * `text.split(sep).length`, the measure behind both counts: one more than the
   * number of separators, so words are spaces plus one and lines are newlines plus one.
   */
  function Pieces(text: string, sep: char): (n: nat)
    ensures n == Count(text, sep) + 1
    ensures n >= 1
  {
    SplitCount(text, sep);
    |Split(text, sep)|
  }

  /** `Math.ceil(words / 200)`: whole minutes at 200 words a minute. */
  function ReadMinutes(words: nat): (m: nat)
    ensures 200 * m >= words
    ensures m > 0 ==> 200 * (m - 1) < words
  {
    (words + 199) / 200
  }

  /** The record `uploadFile` saves for a file and its post-processed documentation. */
  function NewRecord(filename: string, processed: string, original: string, now: int): (d: Doc)
    ensures d.filename == filename && d.content == processed
    ensures d.originalContent == Some(original)
    ensures d.language == Language.DetectLanguage(filename)
    ensures d.version == Version.InitialVersion
    ensures d.wordCount == Count(processed, ' ') + 1
    ensures d.codeLines == Count(original, '\n') + 1
    ensures d.generatedAt == now && d.lastModified == now
  {
    Doc(filename, processed, Some(original), Language.DetectLanguage(filename), now,
        Version.InitialVersion, Pieces(processed, ' '), Pieces(original, '\n'), now)
  }

  // ---------------------------------------------------------------------------
  // regenerateDoc

  const NotFound := "Document not found"
  const NoOriginal := "Original code not available for regeneration"
  const RegenerateFailed := "Failed to regenerate documentation"

  datatype RegenBody = RegenError(error: string) | Regenerated(doc: Doc)

  /** The reply, the collection afterwards, and the prompt sent to the model (if any). */
  datatype RegenResult = RegenResult(status: nat, body: RegenBody, store: Store, prompt: Option<Prompts.Request>)

  /**
   * `regenerateDoc`: rebuild the documentation of one record from its stored
   * source with one model call, bumping its version.
   */
  function RegenerateDoc(store: Store, id: DocId, useAlternative: bool, answer: Outcome, now: int): (r: RegenResult)
    ensures id !in store ==> r == RegenResult(404, RegenError(NotFound), store, None)
    ensures id in store && !Truthy(store[id].originalContent) ==>
      r == RegenResult(400, RegenError(NoOriginal), store, None)
    ensures id in store && Truthy(store[id].originalContent) ==>
      r.prompt == Some(Prompts.Request(store[id].originalContent.value, store[id].filename, useAlternative))
    ensures answer.Err? ==> r.store == store && r.status != 200
    ensures r.status == 200 <==> id in store && Truthy(store[id].originalContent) && answer.Ok?
    ensures id in store && Truthy(store[id].originalContent) && answer.Err? ==> r.status == 500
    ensures r.status == 500 ==> r.body == RegenError(RegenerateFailed) && r.store == store
    ensures r.status == 200 ==> Refreshed(store, r.store, id, answer.text, now) && r.body == Regenerated(r.store[id])
  {
    if id !in store then RegenResult(404, RegenError(NotFound), store, None)
    else
      var doc := store[id];
      if !Truthy(doc.originalContent) then RegenResult(400, RegenError(NoOriginal), store, None)
      else
        var prompt := Prompts.Request(doc.originalContent.value, doc.filename, useAlternative);
        match answer
        case Err(_) => RegenResult(500, RegenError(RegenerateFailed), store, Some(prompt))
        case Ok(text) =>
          var content := PostProcess.PostProcessDocumentation(text, doc.filename);
          var doc' := doc.(content := content, version := Version.IncrementVersion(doc.version),
                           generatedAt := now, wordCount := Pieces(content, ' '));
          RegenResult(200, Regenerated(doc'), store[id := doc'], Some(prompt))
  }

  /**
   * `after` is `before` with record `id` regenerated from `text`: new content,
   * version, time stamp and word count; file name, source, language, line count
   * and every other record unchanged.
   */
  ghost predicate Refreshed(before: Store, after: Store, id: DocId, text: string, now: int) {
    id in before && after.Keys == before.Keys
    && (forall k :: k in before && k != id ==> after[k] == before[k])
    && var was := before[id]; var cur := after[id];
       cur.filename == was.filename && cur.originalContent == was.originalContent
       && cur.language == was.language && cur.codeLines == was.codeLines
       && cur.lastModified == was.lastModified
       && cur.content == PostProcess.PostProcessDocumentation(text, was.filename)
       && cur.version == Version.IncrementVersion(was.version)
       && cur.wordCount == Count(cur.content, ' ') + 1
       && cur.generatedAt == now
  }

  /** Each successful regeneration moves a numeric last version segment up by one: "1.0" goes to "1.2" in two. */
  lemma RegenerateTwice(store: Store, id: DocId, a: string, b: string, t1: int, t2: int, major: string, n: nat)
    requires id in store && Truthy(store[id].originalContent)
    requires '.' !in major && store[id].version == major + "." + NatToString(n)
    ensures var r1 := RegenerateDoc(store, id, false, Ok(a), t1);
      var r2 := RegenerateDoc(r1.store, id, true, Ok(b), t2);
      r2.status == 200 && r2.store[id].version == major + "." + NatToString(n + 2)
  {
    Version.BumpLastSegment(major, n);
    Version.BumpLastSegment(major, n + 1);
  }

  // ---------------------------------------------------------------------------
  // updateDoc and getDocById

  const UpdateFailed := "Failed to update document"

  datatype UpdateBody = UpdateError(error: string) | Updated(doc: Doc)

  datatype UpdateResult = UpdateResult(status: nat, body: UpdateBody, store: Store)

  /** `doc.version || '1.0'`: an empty version reads as the initial one. */
  function CurrentVersion(doc: Doc): (v: string)
    ensures v != ""
    ensures doc.version != "" ==> v == doc.version
  {
    if doc.version != "" then doc.version else Version.InitialVersion
  }

  /** The record after an edit: new content, the next version, a new modification stamp. */
  function Edited(doc: Doc, content: string, now: int): Doc {
    doc.(content := content, version := Version.IncrementVersion(CurrentVersion(doc)), lastModified := now)
  }

  /**
   * `updateDoc` as written: the current version is read from the looked-up record
   * before the missing-record check, so a missing id fails with a 500 and the
   * 404 branch is never reached.
   */
  function UpdateDocAsWritten(store: Store, id: DocId, content: string, now: int): (r: UpdateResult)
    ensures r.status != 404
    ensures id !in store ==> r == UpdateResult(500, UpdateError(UpdateFailed), store)
    ensures id in store ==>
      r == UpdateResult(200, Updated(Edited(store[id], content, now)), store[id := Edited(store[id], content, now)])
  {
    if id !in store then UpdateResult(500, UpdateError(UpdateFailed), store)
    else
      var doc' := Edited(store[id], content, now);
      UpdateResult(200, Updated(doc'), store[id := doc'])
  }

  /** `updateDoc` as intended: a missing record is reported as 404. */
  function UpdateDoc(store: Store, id: DocId, content: string, now: int): (r: UpdateResult)
    ensures id !in store ==> r == UpdateResult(404, UpdateError(NotFound), store)
    ensures id in store ==> (r.status == 200 && r.store.Keys == store.Keys && r.body == Updated(r.store[id]))
    ensures id in store ==> (forall k :: k in store && k != id ==> r.store[k] == store[k])
    ensures id in store ==> (r.store[id].content == content
      && r.store[id].version == Version.IncrementVersion(CurrentVersion(store[id])))
    ensures id in store ==> r.store[id] == store[id].(content := content,
      version := Version.IncrementVersion(CurrentVersion(store[id])), lastModified := now)
  {
    if id !in store then UpdateResult(404, UpdateError(NotFound), store)
    else
      var doc' := Edited(store[id], content, now);
      UpdateResult(200, Updated(doc'), store[id := doc'])
  }

  /** The two agree on every existing record; only the missing-record reply differs. */
  lemma UpdateDocFix(store: Store, id: DocId, content: string, now: int)
    ensures id in store ==> UpdateDocAsWritten(store, id, content, now) == UpdateDoc(store, id, content, now)
    ensures id !in store ==> (UpdateDocAsWritten(store, id, content, now).status == 500
      && UpdateDoc(store, id, content, now).status == 404)
  {
  }

  /** An empty stored version is treated as "1.0": the edit is the one of a "1.0" record. */
  lemma EditOfUnversionedDoc(doc: Doc, content: string, now: int)
    requires doc.version == ""
    ensures Edited(doc, content, now) == Edited(doc.(version := Version.InitialVersion), content, now)
  {
  }

  datatype FetchBody = FetchError(error: string) | Fetched(doc: Doc)

  /** `getDocById`: the record, or 404. */
  function GetDocById(store: Store, id: DocId): (r: (nat, FetchBody))
    ensures r.0 == 200 <==> id in store
    ensures id in store ==> r.1 == Fetched(store[id])
    ensures id !in store ==> r == (404, FetchError(NotFound))
  {
    if id in store then (200, Fetched(store[id])) else (404, FetchError(NotFound))
  }
}
