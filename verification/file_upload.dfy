/**
 * The upload widget: it checks a chosen or dropped file against an extension
 * allow-list, requires a stored token, posts the file, and reads the reply of
 * the upload route. The widget's state is a value; each handler maps it to the
 * next state.
 */
module FileUpload {
  import opened Strings
  import opened JsValues
  import Language
  import DocRouter

  /** The extensions the widget accepts, in display order. */
  const AllowedTypes: seq<string> := ["js", "jsx", "ts", "tsx", "py", "java", "html", "css"]

  /** `getFileExt(name).trim()`: the controller's extension, with surrounding white space dropped. */
  function FileExt(name: string): (ext: string)
    ensures '.' !in ext
  {
    Trim(Language.Extension(name))
  }

  predicate Allowed(name: string) {
    FileExt(name) in AllowedTypes
  }

  /** `exts.map(e => '.' + e).join(", ")`. */
  function DottedList(exts: seq<string>): string {
    if |exts| == 0 then ""
    else if |exts| == 1 then "." + exts[0]
    else "." + exts[0] + ", " + DottedList(exts[1..])
  }

  /** Every extension of the list appears in the text with its leading dot. */
  lemma {:induction false} DottedListMentions(exts: seq<string>, i: nat)
    requires i < |exts|
    ensures exists k :: OccursAt(DottedList(exts), "." + exts[i], k)
    decreases |exts|
  {
    var t := "." + exts[i];
    if |exts| == 1 {
      assert OccursAt(DottedList(exts), t, 0);
    } else if i == 0 {
      var d := DottedList(exts);
      assert d == t + (", " + DottedList(exts[1..]));
      assert d[0..|t|] == t;
      assert OccursAt(d, t, 0);
    } else {
      var head := "." + exts[0] + ", ";
      var rest := DottedList(exts[1..]);
      assert exts[1..][i - 1] == exts[i];
      DottedListMentions(exts[1..], i - 1);
      var k :| OccursAt(rest, t, k);
      assert DottedList(exts) == head + rest;
      assert (head + rest)[|head| + k..|head| + k + |t|] == rest[k..k + |t|];
      assert OccursAt(DottedList(exts), t, |head| + k);
    }
  }

  /** The rejection text: each allowed extension with a leading dot, joined by ", ". */
  const UnsupportedMessage := "Unsupported file type. Allowed: " + DottedList(AllowedTypes)

  /** An occurrence in `s` is still one after a prefix, shifted by its length. */
  lemma OccursAfterPrefix(prefix: string, s: string, t: string, k: int)
    requires OccursAt(s, t, k)
    ensures OccursAt(prefix + s, t, |prefix| + k)
  {
    assert (prefix + s)[|prefix| + k..|prefix| + k + |t|] == s[k..k + |t|];
  }

  /** Every listed extension appears in the text built from the list. */
  lemma MessageMentions(prefix: string, exts: seq<string>, ext: string)
    requires ext in exts
    ensures exists k :: OccursAt(prefix + DottedList(exts), "." + ext, k)
  {
    var i :| 0 <= i < |exts| && exts[i] == ext;
    DottedListMentions(exts, i);
    var k :| OccursAt(DottedList(exts), "." + ext, k);
    OccursAfterPrefix(prefix, DottedList(exts), "." + ext, k);
  }

  /** The rejection text names every allowed extension, dot included. */
  lemma MessageListsAllowed(ext: string)
    requires ext in AllowedTypes
    ensures exists k :: OccursAt(UnsupportedMessage, "." + ext, k)
  {
    MessageMentions("Unsupported file type. Allowed: ", AllowedTypes, ext);
  }

  /** A file as the widget sees it: only its name is read. */
  datatype Picked = Picked(name: string)

  datatype Widget = Widget(
    selected: Option<Picked>,
    dragActive: bool,
    uploading: bool,
    error: string,
    showLoginModal: bool)

  /** `validateFile`: whether the file passes, and the error text after the check. */
  function ValidateFile(w: Widget, file: Option<Picked>): (r: (bool, string))
    ensures r.0 <==> file.Some? && Allowed(file.value.name)
    ensures file.None? ==> r.1 == w.error
    ensures file.Some? ==> (r.1 == "" <==> r.0)
    ensures file.Some? && !r.0 ==> r.1 == UnsupportedMessage
  {
    if file.None? then (false, w.error)
    else if !Allowed(file.value.name) then (false, UnsupportedMessage)
    else (true, "")
  }

  /** `handleFileChange`: the first chosen file, kept only if it passes and a token is stored. */
  function Choose(w: Widget, file: Option<Picked>, storage: Storage): (r: Widget)
    ensures r.selected.Some? <==> file.Some? && Allowed(file.value.name) && SignedIn(storage)
    ensures r.selected.Some? ==> r.selected == file
    ensures r.showLoginModal <==> w.showLoginModal || (file.Some? && Allowed(file.value.name) && !SignedIn(storage))
    ensures r.error == ValidateFile(w, file).1
    ensures r.dragActive == w.dragActive && r.uploading == w.uploading
  {
    var (ok, error) := ValidateFile(w, file);
    var w' := w.(error := error);
    if !ok then w'.(selected := None)
    else if !SignedIn(storage) then w'.(showLoginModal := true, selected := None)
    else w'.(selected := file)
  }

  /** `handleDrop`: as choosing, and the drag highlight goes off. */
  function Drop(w: Widget, file: Option<Picked>, storage: Storage): (r: Widget)
    ensures !r.dragActive
    ensures r == Choose(w, file, storage).(dragActive := false)
  {
    Choose(w.(dragActive := false), file, storage)
  }

  /** `handleRemoveFile` */
  function Remove(w: Widget): (r: Widget)
    ensures r.selected.None? && r.error == ""
    ensures r.(selected := w.selected, error := w.error) == w
  {
    w.(selected := None, error := "")
  }

  /** The upload button is enabled with a selection and no upload in flight. */
  predicate UploadEnabled(w: Widget) {
    w.selected.Some? && !w.uploading
  }

  /**
   * The button guards what the handler does not: the handler returns early
   * without a selection, but it never reads `isUploading`, so only the disabled
   * button stops a second post while one is in flight.
   */
  lemma UploadButtonGuards(w: Widget, storage: Storage, reply: Reply)
    ensures HandleUpload(w, storage, reply).posted ==> w.selected.Some?
    ensures UploadEnabled(w) && SignedIn(storage) ==> HandleUpload(w, storage, reply).posted
    ensures w.selected.Some? && w.uploading && SignedIn(storage) ==>
      !UploadEnabled(w) && HandleUpload(w, storage, reply).posted
  {
  }

  /** What the `fetch` produced: a 401, a parsed JSON body, or a thrown error (network, bad JSON). */
  datatype Reply =
    | Unauthorized
    | Json(success: bool, data: Option<string>, message: Option<string>)
    | Thrown(reason: string)

  const NoDocsMessage := "No docs generated"
  const NetworkMessage := "Upload failed: Network Error"

  /** The widget after an upload, and the document handed to `onUploadSuccess`, if any. */
  datatype Uploaded = Uploaded(widget: Widget, delivered: Option<string>, posted: bool)

  /**
   * `handleUpload`. The catch reads `showLoginModal` as it was when the handler
   * was created; the `finally` always switches the spinner off.
   */
  function HandleUpload(w: Widget, storage: Storage, reply: Reply): (r: Uploaded)
    ensures r.posted <==> w.selected.Some? && SignedIn(storage)
    ensures !r.posted ==> r.delivered.None?
    ensures w.selected.None? ==> r.widget == w
    ensures w.selected.Some? && !SignedIn(storage) ==> r.widget == w.(showLoginModal := true)
    ensures r.posted ==> !r.widget.uploading
    ensures r.delivered.Some? <==> r.posted && reply.Json? && reply.success && Truthy(reply.data)
    ensures r.delivered.Some? ==> r.delivered == reply.data && r.widget.selected.None? && r.widget.error == ""
    ensures r.posted && r.delivered.None? ==> r.widget.selected == w.selected
    ensures r.posted && reply.Unauthorized? ==> r.widget.showLoginModal && r.widget.error == ""
    ensures r.posted && r.delivered.None? && !reply.Unauthorized? && !w.showLoginModal ==> r.widget.error != ""
    ensures r.posted && w.showLoginModal ==> r.widget.error == ""
  {
    if w.selected.None? then Uploaded(w, None, false)
    else if !SignedIn(storage) then Uploaded(w.(showLoginModal := true), None, false)
    else
      var busy := w.(uploading := true, error := "");
      var after := match reply
        case Unauthorized => Uploaded(busy.(showLoginModal := true), None, true)
        case Json(success, data, message) =>
          if success && Truthy(data) then Uploaded(busy.(selected := None), data, true)
          else Uploaded(Failure(busy, w.showLoginModal, Or(message, Some(NoDocsMessage)).value), None, true)
        case Thrown(m) => Uploaded(Failure(busy, w.showLoginModal, m), None, true);
      after.(widget := after.widget.(uploading := false))
  }

  /** The catch block: show the error unless the login dialog was already up. */
  function Failure(w: Widget, modalWasShown: bool, message: string): (r: Widget)
    ensures modalWasShown ==> r == w
    ensures !modalWasShown ==> r == w.(error := if message != "" then message else NetworkMessage)
  {
    if modalWasShown then w else w.(error := if message != "" then message else NetworkMessage)
  }

  /** The widget's invariant: whatever is selected passed the allow-list. */
  predicate SelectionAllowed(w: Widget) {
    w.selected.Some? ==> Allowed(w.selected.value.name)
  }

  /** Every handler keeps the invariant. */
  lemma HandlersKeepSelectionAllowed(w: Widget, file: Option<Picked>, storage: Storage, reply: Reply)
    requires SelectionAllowed(w)
    ensures SelectionAllowed(Choose(w, file, storage))
    ensures SelectionAllowed(Drop(w, file, storage))
    ensures SelectionAllowed(Remove(w))
    ensures SelectionAllowed(HandleUpload(w, storage, reply).widget)
  {
  }

  /** The reply the widget reads for a response of the upload route. */
  function ReplyOf(status: nat, body: DocRouter.RouteBody): (r: Reply)
    ensures r.Unauthorized? <==> status == 401
    ensures r.Json? && r.success <==> status != 401 && body.Generated?
  {
    if status == 401 then Unauthorized
    else match body
      case Generated(_, data) => Json(true, Some(data), None)
      case Failed(message) => Json(false, None, Some(message))
  }

  /**
   * An empty generated text counts as failure on the client: the route answers
   * 200 with `success: true`, but `data.data` is falsy, so the widget shows
   * "No docs generated" and keeps the file selected.
   */
  lemma EmptyDocumentRejected(w: Widget, storage: Storage, model: string)
    requires w.selected.Some? && SignedIn(storage) && !w.showLoginModal
    ensures var r := HandleUpload(w, storage, ReplyOf(200, DocRouter.Generated(model, "")));
      r.delivered.None? && r.widget.error == NoDocsMessage && r.widget.selected == w.selected
  {
  }

  /** A route failure shows the route's message. */
  lemma RouteMessageShown(w: Widget, storage: Storage, message: string)
    requires w.selected.Some? && SignedIn(storage) && !w.showLoginModal && message != ""
    ensures HandleUpload(w, storage, ReplyOf(500, DocRouter.Failed(message))).widget.error == message
  {
  }

  /** The allow-list admits ".html", which the language table does not know. */
  lemma HtmlAllowedButUnknown(stem: string)
    ensures Allowed(stem + ".html") && Language.DetectLanguage(stem + ".html") == Language.Unknown
  {
    assert stem + ".html" == stem + "." + "html";
    PlainExtension(stem, "html");
    NotInTable();
    AllowedUnknown(stem + ".html");
  }

  /** The allow-list admits ".css", which the language table does not know. */
  lemma CssAllowedButUnknown(stem: string)
    ensures Allowed(stem + ".css") && Language.DetectLanguage(stem + ".css") == Language.Unknown
  {
    assert stem + ".css" == stem + "." + "css";
    PlainExtension(stem, "css");
    NotInTable();
    AllowedUnknown(stem + ".css");
  }

  /**
   * Because of the trim the allow-list admits a name ending in "js ", whose
   * extension the language table does not match.
   */
  lemma TrailingSpaceAllowedButUnknown(stem: string)
    ensures Allowed(stem + ".js ") && Language.DetectLanguage(stem + ".js ") == Language.Unknown
  {
    NotInTable();
    TrailingSpaceExtension(stem);
    AllowedUnknown(stem + ".js ");
  }

  lemma AllowedUnknown(name: string)
    requires FileExt(name) in AllowedTypes && !Language.Listed(Language.Extension(name))
    ensures Allowed(name) && Language.DetectLanguage(name) == Language.Unknown
  {
  }

  lemma NotInTable()
    ensures !Language.Listed("html") && !Language.Listed("css") && !Language.Listed("js ")
    ensures "html" in AllowedTypes && "css" in AllowedTypes && "js" in AllowedTypes
  {
    assert AllowedTypes[0] == "js" && AllowedTypes[6] == "html" && AllowedTypes[7] == "css";
  }

  /** "x.js " has the extension "js " for the table and "js" for the allow-list. */
  lemma TrailingSpaceExtension(stem: string)
    ensures Language.Extension(stem + ".js ") == "js "
    ensures FileExt(stem + ".js ") == "js"
  {
    assert stem + ".js " == stem + "." + "js ";
    AfterLastOfJoined(stem, '.', "js ");
    assert ToLower("js ") == "js ";
    TrimDropsTrailingSpace("js", ' ');
    assert "js" + [' '] == "js ";
  }

  /** A text with non-space ends, followed by one space, trims back to itself. */
  lemma TrimDropsTrailingSpace(s: string, c: char)
    requires |s| > 0 && !IsSpace(s[0]) && !IsSpace(s[|s| - 1]) && IsSpace(c)
    ensures Trim(s + [c]) == s
  {
    var t := s + [c];
    var r := Trim(t);
    var a, b :| 0 <= a <= b <= |t| && r == t[a..b]
      && (forall i :: 0 <= i < a ==> IsSpace(t[i]))
      && (forall i :: b <= i < |t| ==> IsSpace(t[i]));
    assert t[0] == s[0] && t[|s| - 1] == s[|s| - 1];
    assert a == 0;
    assert b == |s| by {
      assert b > |s| - 1;
    }
    assert r == s;
  }

  /** A lower-case, space-free extension after a dot is the extension the code reads. */
  lemma PlainExtension(stem: string, ext: string)
    requires |ext| > 0 && '.' !in ext
    requires forall i :: 0 <= i < |ext| ==> IsLower(ext[i])
    ensures Language.Extension(stem + "." + ext) == ext
    ensures FileExt(stem + "." + ext) == ext
  {
    AfterLastOfJoined(stem, '.', ext);
    assert ToLower(ext) == ext;
    TrimOfPlain(ext);
  }

  /** A text that starts and ends with a non-space character is its own trim. */
  lemma TrimOfPlain(s: string)
    requires |s| > 0 && !IsSpace(s[0]) && !IsSpace(s[|s| - 1])
    ensures Trim(s) == s
  {
  }

  /** For the other six allowed extensions, written plainly, the table knows the language. */
  lemma AllowedCodeIsDetected(stem: string, ext: string)
    requires ext in AllowedTypes && ext != "html" && ext != "css"
    ensures Allowed(stem + "." + ext) && Language.DetectLanguage(stem + "." + ext) != Language.Unknown
  {
    assert ext in {"js", "jsx", "ts", "tsx", "py", "java"};
    PlainExtension(stem, ext);
  }
}
