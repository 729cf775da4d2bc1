# QuillStackAI core, modelled in Dafny

QuillStackAI takes an uploaded source file and asks a hosted language model to
document it. It tidies the Markdown that comes back and stores the result as a
versioned document record. The web front end guards the upload, validates the
sign-up and login forms, and hosts an admin panel for user management.

The hard work is done by the hosted model. What this project covers is the
application's own logic around it:

- the documentation pipeline helpers of the controller:
  - language detection;
  - the Markdown post-processor;
  - version bumping;
  - the two prompt templates;
  - the three-attempt retry loop;
  - the error classifier;
  - the new record;
  - regenerate, update and fetch over a document store;
- the primary/fallback upload route;
- the form validators and the upload widget's allow-list and guards;
- the admin router:
  - bearer-token extraction;
  - the admin gate;
  - login order;
  - stats;
  - the partial user update;
  - delete;
- the small client-side pieces:
  - the auth-form hook;
  - the manage-users pagination and role field;
  - the layout's token check and initials, and the navigation bar's initials and label;
  - the admin sidebar's highlight rule and logout.

Modelling choices:

- The language model is a script: `Ai.Script` maps the n-th call of a request to `Ok(text)` or `Err(message)`.
- The document store is a `map<DocId, Doc>`.
- The user collection is a `seq<User>`, so "the first match" of a lookup by address is defined.
- Temporary upload files are a set of paths.
- `setTimeout` becomes the list of delays the code asks for.
- Clocks are an opaque `now: int`.
- Browser `localStorage` is a `map<string,string>`.
- JWT signing, JWT verification and token decoding are function parameters.
- JavaScript's `undefined`, `||` truthiness and string concatenation with `undefined` are written out in `JsValues` and `Layout`.

Modules follow the source files:

| file | source |
|---|---|
| `strings.dfy` | the string builtins the code relies on |
| `js_values.dfy` | JavaScript values and storage |
| `ai.dfy` | the model service |
| `language.dfy`, `post_process.dfy`, `version.dfy`, `prompts.dfy`, `upload.dfy`, `docs.dfy` | `docsControllers.js` |
| `doc_router.dfy` | `docRouter.js` |
| `validators.dfy` | `validators.js` |
| `file_upload.dfy` | `FileUpload.jsx` |
| `auth_form.dfy` | `useAuthForm.js` |
| `admin_router.dfy` | `adminRouter.js` |
| `manage_users.dfy` | the manage-users page |
| `layout.dfy` | `layout.jsx` |
| `navbar.dfy` | `Navbar.jsx` |
| `admin_sidebar.dfy` | `AdminSidebar.jsx` |

## Model

| member | source | states |
|---|---|---|
| Language.DetectLanguage | backend/controllers/docsControllers.js:514-535 | the result is a known name exactly when the extension is one of the 15 table keys, and is then that key's name; otherwise "Unknown" |
| Language.Extension | backend/controllers/docsControllers.js:515 | the extension is the text after the last dot, so it holds no dot and is no longer than the name |
| Language.StemIsIgnored | backend/controllers/docsControllers.js:515 | only the text after the last dot matters: any stem gives the same language as the bare extension |
| Language.CaseIsIgnored | backend/controllers/docsControllers.js:515 | upper-casing the file name does not change the detected language |
| Language.DotlessExtension | backend/controllers/docsControllers.js:515 | a lower-case name without a dot is its own extension |
| Language.DotlessNameIsItsOwnExtension | backend/controllers/docsControllers.js:515-534 | a lower-case name without a dot is looked up whole in the table: it is known exactly when the whole name is a key, and then has that key's language, so "c" is detected as C |
| Language.PythonExample | backend/controllers/docsControllers.js:515-534 | every name ending in ".py" is detected as Python |
| Language.DetectLanguageAsWritten | backend/controllers/docsControllers.js:516-534 | the plain-object lookup as written: an inherited key such as "constructor" returns a non-string, every other extension agrees with the corrected lookup |
| Language.InheritedKeysUnlisted | backend/controllers/docsControllers.js:516-534 | no inherited object key is one of the table's extensions |
| Language.PrototypeKeyEscapesTable | backend/controllers/docsControllers.js:534 | "x.constructor" escapes the "Unknown" fallback as written, while the corrected lookup answers "Unknown" |
| PostProcess.Run | backend/controllers/docsControllers.js:539-542 | the length of the leading run of one character: every character in it matches and the next one does not |
| PostProcess.CollapseLeavesNoTriple | backend/controllers/docsControllers.js:539 | after the newline collapse no three consecutive newlines remain |
| PostProcess.CollapseKeepsTidyText | backend/controllers/docsControllers.js:539 | text without three consecutive newlines is left unchanged by the collapse |
| PostProcess.CollapseIdempotent | backend/controllers/docsControllers.js:539 | collapsing twice is collapsing once |
| PostProcess.ClampBoundsHeadings | backend/controllers/docsControllers.js:542 | after the heading clamp, no line starts with four or more '#' |
| PostProcess.ClampHeadingsBoundsDepth | backend/controllers/docsControllers.js:542 | the whole-text clamp leaves no heading deeper than three levels |
| PostProcess.ClampKeepsHashRun | backend/controllers/docsControllers.js:542 | a '#' run that is not a deep heading at a line start keeps its length |
| PostProcess.ReplaceLeavesNone | backend/controllers/docsControllers.js:555-556 | after the case-insensitive replacement, no bracketed pattern occurs that only occurred where the replaced pattern did |
| PostProcess.TidyLeavesNoPlaceholders | backend/controllers/docsControllers.js:550-556 | the formatting fixes leave no "[placeholder]" or "[todo]" in any letter case |
| PostProcess.PostProcessDocumentation | backend/controllers/docsControllers.js:537-559 | the post-processed text never contains a placeholder or TODO marker, in any letter case |
| PostProcess.TitleWhenNameMissing | backend/controllers/docsControllers.js:545-547 | when the normalised text lacks the file name, the output starts with "# <filename> Documentation" |
| PostProcess.TitledOutput | backend/controllers/docsControllers.js:545-556 | in that case the output is the heading followed by the tidied normalised text |
| PostProcess.NoTitleWhenNamePresent | backend/controllers/docsControllers.js:545-556 | when the normalised text names the file, no title is added and the output is the tidied text |
| PostProcess.PostProcessNotIdempotent | backend/controllers/docsControllers.js:539-547 | for "\n\n" and a plain file name, the first pass leaves four newlines after the title and the second pass collapses them, so the function is not idempotent |
| Version.ParseInt | backend/controllers/docsControllers.js:563 | `parseInt` reads a decimal numeral as its value and gives NaN for text that starts with neither a space, a sign nor a digit |
| Version.IncrementVersionSpec | backend/controllers/docsControllers.js:561-565 | the segment count and every segment but the last are kept; a numeric last segment goes up by one; an unreadable last segment becomes "NaN" |
| Version.BumpNumeral | backend/controllers/docsControllers.js:563 | the successor of a decimal numeral is the decimal numeral of its value plus one |
| Version.BumpLastSegment | backend/controllers/docsControllers.js:561-565 | "M.n" becomes "M.(n+1)", so "1.9" gives "1.10" |
| Version.InitialVersionShape | backend/controllers/docsControllers.js:401 | the initial version is "1.0", and one bump takes it to "1.1" |
| Version.NaNIsSticky | backend/controllers/docsControllers.js:561-565 | once the last segment is "NaN", bumping leaves the version unchanged |
| Prompts.ReadFill | backend/controllers/docsControllers.js:567-615 | the file text and name can be read back from a filled template |
| Prompts.ControllerPrompt | backend/controllers/docsControllers.js:567-615 | the chosen template, optimal or alternative, carries the file's full text and its name, both recoverable from the prompt |
| Prompts.Truncate | backend/routers/docRouter.js:29 | the route keeps at most the first 10000 characters, and shorter text whole |
| Prompts.RoutePrompt | backend/routers/docRouter.js:32 | the route's prompt is the fixed instruction, a blank line, then the truncated file text |
| Upload.Attempts | backend/controllers/docsControllers.js:367-382 | the loop makes at most 3 calls, stops at the first answer, and only ends on an error after the third call |
| Upload.GenerateWithRetry | backend/controllers/docsControllers.js:367-382 | the loop returns the last call's outcome; every earlier call failed; the n-th failure before the last asks for a 1000·n ms wait |
| Upload.StopsAtFirstAnswer | backend/controllers/docsControllers.js:371-374 | k failures followed by an answer mean exactly k+1 calls, ending with that answer |
| Upload.ClassifyError | backend/controllers/docsControllers.js:429-436 | the first of "quota", "safety", "too short" in the message picks the user-facing text; otherwise the generic text |
| Upload.Handle | backend/controllers/docsControllers.js:335-458 | exit conditions: no file gives 400; a read error gives 500; blank text gives 400 with no model call; a readable, non-blank file always reaches the model and ends as a classified failure or a save, exactly as `Generated` describes; only a save gives 200 and changes the store |
| Upload.Generate | backend/controllers/docsControllers.js:360-442 | from the prompt onwards: the number of calls and the waits are the retry loop's; the upload is saved exactly when the loop's last outcome is an answer whose trimmed length is at least 100; otherwise 500 with the classified model error or too-short error, and the raw message only in development |
| Upload.FirstAnswerSaved | backend/controllers/docsControllers.js:371-406 | an acceptable first answer is saved after one call and no wait, as the processed record under the new id |
| Upload.ThreeFailures | backend/controllers/docsControllers.js:371-442 | three failed calls wait 1000 and 2000 ms, leave the store alone and answer 500 with the third error classified |
| Upload.ShortAnswerRejected | backend/controllers/docsControllers.js:384-442 | an answer shorter than 100 trimmed characters is never saved; the too-short error is classified instead, and shown raw only in development |
| Upload.SavedRecord | backend/controllers/docsControllers.js:392-404 | the saved record keeps the original file text and name and holds the post-processed answer |
| Upload.UploadFileAsWritten | backend/controllers/docsControllers.js:335-458 | as written, the temp file is removed after a read error or a save, and left behind on the no-file, empty-file and generation-failure exits |
| Upload.TempAfterAsWritten | backend/controllers/docsControllers.js:345-347 | which exits remove the temp file as written |
| Upload.EmptyUploadLeaks | backend/controllers/docsControllers.js:345-347 | an empty upload leaves its temp file in place |
| Upload.UploadFile | backend/controllers/docsControllers.js:335-458 | with cleanup on every exit, an uploaded file's temp path is always removed |
| Docs.Pieces | backend/controllers/docsControllers.js:402-403 | the word count and the line count are the number of separators (spaces, newlines) plus one, so at least 1 |
| Docs.ReadMinutes | backend/controllers/docsControllers.js:421 | the reading time is the word count over 200, rounded up |
| Docs.NewRecord | backend/controllers/docsControllers.js:395-404 | a new record has version "1.0", the detected language, the counts above, the full original text, and both stamps set to now |
| Docs.RegenerateDoc | backend/controllers/docsControllers.js:461-511 | a missing id gives 404 and a missing original gives 400, neither saving; otherwise the prompt is built from the original; a model failure on a record with an original gives exactly 500 and leaves the store; 200 exactly when the record, its original and an answer exist, and then only this record is refreshed |
| Docs.RegenerateTwice | backend/controllers/docsControllers.js:495-498 | two successful regenerations move "M.n" to "M.(n+2)" |
| Docs.CurrentVersion | backend/controllers/docsControllers.js:638 | a record's version, or "1.0" when it has none |
| Docs.UpdateDocAsWritten | backend/controllers/docsControllers.js:629-653 | as written the 404 branch is unreachable: a missing id gives 500 |
| Docs.UpdateDoc | backend/controllers/docsControllers.js:629-653 | a missing id gives 404; otherwise only this record changes, and it becomes the old record with the new content, the version after its current one ("1.0" when empty) and the new modification time |
| Docs.UpdateDocFix | backend/controllers/docsControllers.js:638-646 | the two versions agree on every existing id and differ only on a missing one, 500 against 404 |
| Docs.EditOfUnversionedDoc | backend/controllers/docsControllers.js:638 | editing a record with no version behaves as if it were at "1.0" |
| Docs.GetDocById | backend/controllers/docsControllers.js:655-665 | the record is returned with 200 exactly when the id is stored, else 404 |
| DocRouter.Describe | backend/routers/docRouter.js:70 | an error's description is its message, or a non-empty stand-in |
| DocRouter.HandleUpload | backend/routers/docRouter.js:18-83 | no file gives 400 with no model call; a read error gives 500 "Failed to process file: " and the reason, with no model call; otherwise the temp file is removed on every exit; at most two calls are made; 200 exactly when the file reads and one tier answers |
| DocRouter.PrimaryAskedFirst | backend/routers/docRouter.js:35-37 | the first call goes to the primary model with the route prompt |
| DocRouter.PrimaryAnswerWins | backend/routers/docRouter.js:35-47 | a primary answer is returned raw, naming the primary model, and the fallback is never called |
| DocRouter.FallbackOnce | backend/routers/docRouter.js:48-72 | after a primary failure, the fallback is called exactly once; its answer names the fallback model; its failure gives 500 |
| DocRouter.BothFailedOrder | backend/routers/docRouter.js:70 | the combined message puts the primary's text first, then the fallback's |
| DocRouter.PromptIgnoresName | backend/routers/docRouter.js:32 | the route's outcome does not depend on the file's name |
| Validators.EmailShapeIsPattern | frontend/src/utils/validators.js:2 | the character-level check agrees with the regular expression: no whitespace, one '@', non-empty local part, a dot inside the domain |
| Validators.EmailShapeIgnoresCase | frontend/src/utils/validators.js:3 | lower-casing before the test does not change the verdict |
| Validators.ValidateEmail | frontend/src/utils/validators.js:1-4 | true exactly when the address matches the pattern |
| Validators.ScanMeaning | frontend/src/utils/validators.js:8 | the single scan finds exactly the allowed-characters rule and the four character classes |
| Validators.ValidatePassword | frontend/src/utils/validators.js:6-10 | true exactly when the password has 8+ allowed characters, with a lower-case letter, an upper-case letter, a digit and a special character |
| Validators.ValidateName | frontend/src/utils/validators.js:12-14 | true exactly when the name has two non-space characters |
| Validators.NameMeaning | frontend/src/utils/validators.js:13 | a trimmed length of at least 2 means two non-space characters |
| Validators.GetSignupErrors | frontend/src/utils/validators.js:16-35 | each key is present exactly when its field is missing or fails its check, and then carries that field's own message; confirmPassword exactly when the two passwords differ, with the mismatch message; no other key |
| Validators.SignupAcceptsIff | frontend/src/utils/validators.js:16-35 | no errors exactly when all four checks pass |
| Validators.MismatchIndependent | frontend/src/utils/validators.js:31-33 | the mismatch error depends only on the two passwords |
| Validators.GetLoginErrors | frontend/src/utils/validators.js:38-50 | email is flagged exactly when missing or invalid, password exactly when missing or empty |
| Validators.LoginSkipsStrength | frontend/src/utils/validators.js:27-46 | a weak password fails sign-up but passes login |
| FileUpload.FileExt | frontend/src/Components/FileUpload.jsx:12-14 | the lower-cased text after the last dot, without a dot |
| FileUpload.ValidateFile | frontend/src/Components/FileUpload.jsx:24-37 | true exactly when a file is present with an allowed trimmed extension; no file keeps the error; a rejection sets the message listing all eight extensions |
| FileUpload.DottedListMentions | frontend/src/Components/FileUpload.jsx:29 | the joined list names every extension with its leading dot |
| FileUpload.MessageListsAllowed | frontend/src/Components/FileUpload.jsx:28-30 | the rejection text names every allowed extension with its leading dot |
| FileUpload.Choose | frontend/src/Components/FileUpload.jsx:40-54 | a file is selected only when it is allowed and a token exists; an allowed file without a token opens the login modal |
| FileUpload.Drop | frontend/src/Components/FileUpload.jsx:66-83 | a drop ends the drag state and otherwise acts as choosing |
| FileUpload.Remove | frontend/src/Components/FileUpload.jsx:85-88 | removing clears the selection and the error, and nothing else |
| FileUpload.UploadButtonGuards | frontend/src/Components/FileUpload.jsx:286 | the button is enabled with a selection and no upload in flight; the handler posts whenever there is a selection and a token, even with an upload in flight, so only the disabled button prevents a second post |
| FileUpload.HandleUpload | frontend/src/Components/FileUpload.jsx:90-135 | the upload is posted only with a selection and a token; it succeeds only on `success` with data, which clears the selection; 401 opens the modal; other failures show an error unless the modal was open |
| FileUpload.Failure | frontend/src/Components/FileUpload.jsx:126-131 | the catch sets the message, or the network text, unless the login modal was showing |
| FileUpload.HandlersKeepSelectionAllowed | frontend/src/Components/FileUpload.jsx:40-135 | every handler keeps the invariant that a selected file has an allowed extension |
| FileUpload.ReplyOf | frontend/src/Components/FileUpload.jsx:111-117 | how a route reply reaches the widget: 401 as unauthorised, a generated body as success |
| FileUpload.EmptyDocumentRejected | frontend/src/Components/FileUpload.jsx:117-124 | an empty generated text is not a success, and the selection stays |
| FileUpload.RouteMessageShown | frontend/src/Components/FileUpload.jsx:124-129 | a route failure's message is shown as the error |
| FileUpload.AllowedUnknown | frontend/src/Components/FileUpload.jsx:8-10 | an allowed extension outside the language table is accepted and detected as "Unknown" |
| FileUpload.HtmlAllowedButUnknown | frontend/src/Components/FileUpload.jsx:8-10 | ".html" is accepted but detected as "Unknown" |
| FileUpload.CssAllowedButUnknown | frontend/src/Components/FileUpload.jsx:8-10 | ".css" is accepted but detected as "Unknown" |
| FileUpload.TrailingSpaceAllowedButUnknown | frontend/src/Components/FileUpload.jsx:26 | the widget trims the extension and the detector does not, so "x.js " is accepted but detected as "Unknown" |
| FileUpload.AllowedCodeIsDetected | frontend/src/Components/FileUpload.jsx:8-10 | every other allowed extension is detected as a known language |
| AuthForm.HandleChange | frontend/src/hooks/useAuthForm.js:8-22 | only the edited value changes, only that field's error is cleared, and the other errors stay |
| AuthForm.FormMessage | frontend/src/hooks/useAuthForm.js:40 | the form error is the thrown message, or the default text |
| AuthForm.HandleSubmitAsWritten | frontend/src/hooks/useAuthForm.js:24-46 | as written: the callback runs exactly when validation finds nothing; a throw adds the form error to the errors of the last render |
| AuthForm.HandleSubmit | frontend/src/hooks/useAuthForm.js:24-46 | corrected: a throw leaves only the form error; no stale field error is shown |
| AuthForm.SubmitAgreesUnlessRejected | frontend/src/hooks/useAuthForm.js:36-41 | the two agree unless a rejected submit follows earlier field errors |
| AuthForm.StaleErrorReappears | frontend/src/hooks/useAuthForm.js:16-41 | an error cleared by editing another field comes back after a rejected submit as written, and not once corrected |
| AdminRouter.FindById | backend/routers/adminRouter.js:26 | a user is found exactly when one has the id |
| AdminRouter.FindByEmail | backend/routers/adminRouter.js:44 | a user is found exactly when one has the address, and it has that address |
| AdminRouter.BearerToken | backend/routers/adminRouter.js:8 | the second space-separated field of the header, present whenever the header has two fields |
| AdminRouter.BearerRoundTrip | backend/routers/adminRouter.js:8 | "scheme token" gives back the token |
| AdminRouter.SchemeAloneHasNoToken | backend/routers/adminRouter.js:8-12 | a header of one field has no token |
| AdminRouter.VerifyToken | backend/routers/adminRouter.js:7-21 | no token gives 401 before verification; a token that does not verify gives 401; otherwise its claims pass |
| AdminRouter.VerifyAdmin | backend/routers/adminRouter.js:24-36 | a lookup error gives 500; a missing user or non-admin gives 403; otherwise the admin passes |
| AdminRouter.GuardAdmitsOnlyAdmins | backend/routers/adminRouter.js:7-36 | the two middlewares admit exactly a verified token whose user exists and is an admin |
| AdminRouter.Login | backend/routers/adminRouter.js:39-87 | unknown address and wrong password both give 401; a non-admin gives 403; only an admin with the right password gets a token; a signing failure gives 500 |
| AdminRouter.LoginHidesAccounts | backend/routers/adminRouter.js:44-59 | 401 exactly when the address is unknown or the password is wrong; 403 exactly for a correct non-admin |
| AdminRouter.GetStats | backend/routers/adminRouter.js:90-106 | totals count all users and the admins |
| AdminRouter.RegularUsersCounted | backend/routers/adminRouter.js:92-94 | total minus admins is the number of non-admin users, never negative |
| AdminRouter.ListUsers | backend/routers/adminRouter.js:109-117 | every user is listed in order without the password |
| AdminRouter.GetUser | backend/routers/adminRouter.js:120-131 | an unknown id gives 404; a lookup error 500; otherwise the user without the password |
| AdminRouter.UpdateData | backend/routers/adminRouter.js:135-140 | the update holds exactly the body's defined fields among name, email and isAdmin |
| AdminRouter.Apply | backend/routers/adminRouter.js:142-143 | applying the update sets just the given fields and never the password |
| AdminRouter.UpdateUser | backend/routers/adminRouter.js:134-157 | an unknown id gives 404; an address taken by another user is refused; otherwise only this user changes |
| AdminRouter.UpdateFailure | backend/routers/adminRouter.js:150-155 | error code 11000 gives 400 "Email already exists"; any other code gives 500 |
| AdminRouter.UpdateTouchesOnlyBodyFields | backend/routers/adminRouter.js:135-147 | no other user changes, no password changes, and a field absent from the body is kept |
| AdminRouter.UpdateKeepsNewEmailUnique | backend/routers/adminRouter.js:150-155 | after a successful update no other user holds the new address |
| AdminRouter.DeleteUser | backend/routers/adminRouter.js:160-171 | an unknown id gives 404; otherwise that user is removed |
| AdminRouter.DeleteRemovesOne | backend/routers/adminRouter.js:162-168 | a delete removes exactly one user and keeps all others |
| ManageUsers.Previous | frontend/src/app/admin/manage-users/page.jsx:237 | Previous goes back one page but never below 1 |
| ManageUsers.Next | frontend/src/app/admin/manage-users/page.jsx:247 | Next goes forward one page but never past the last |
| ManageUsers.PressStaysInRange | frontend/src/app/admin/manage-users/page.jsx:237-247 | from a page in range, any sequence of presses stays in range |
| ManageUsers.StepMovesAtMostOne | frontend/src/app/admin/manage-users/page.jsx:237-247 | each press moves at most one page |
| ManageUsers.BackThenForward | frontend/src/app/admin/manage-users/page.jsx:237-247 | Previous then Next returns to the page when Previous was not blocked |
| ManageUsers.Pagination | frontend/src/app/admin/manage-users/page.jsx:228-250 | controls show only with more than one page; each button is disabled at its end |
| ManageUsers.DisabledMeansNoMove | frontend/src/app/admin/manage-users/page.jsx:237-248 | a button is disabled exactly when pressing it would not move |
| ManageUsers.RoleRoundTrip | frontend/src/app/admin/manage-users/page.jsx:274-300 | the role select's default decodes back to the user's role |
| ManageUsers.OtherValuesDecodeToUser | frontend/src/app/admin/manage-users/page.jsx:274 | any value but "true" is read as a regular user |
| ManageUsers.EditBody | frontend/src/app/admin/manage-users/page.jsx:268-275 | the form sends all three fields |
| ManageUsers.EditSetsAllFields | frontend/src/app/admin/manage-users/page.jsx:268-275 | a successful edit sets name, address and role together, and never the password |
| ManageUsers.UneditedFormKeepsUser | frontend/src/app/admin/manage-users/page.jsx:268-300 | with unique addresses, submitting an untouched form leaves the users unchanged |
| Layout.UpperPair | frontend/src/app/layout.jsx:35 | adding two possibly undefined characters throws exactly when both are missing |
| Layout.GetInitialsAsWritten | frontend/src/app/layout.jsx:31-38 | as written: "U" for an empty or absent name; a single part gives its first two characters upper-cased |
| Layout.BlankNameThrows | frontend/src/app/layout.jsx:33-35 | the name " " makes the written function throw |
| Layout.TrailingSpaceInitials | frontend/src/app/layout.jsx:33-35 | a trailing space gives the first letter followed by "UNDEFINED" |
| Layout.GetInitials | frontend/src/app/layout.jsx:31-38 | corrected: one or two characters, "U" for an empty or absent name |
| Layout.InitialsComeFromWords | frontend/src/app/layout.jsx:33-37 | each corrected initial is an upper-cased character of a word of the name |
| Layout.AsWrittenAgreesOnPlainNames | frontend/src/app/layout.jsx:33-37 | when the first and last parts are non-empty, or there is one part, the written and corrected functions agree |
| Layout.DisplayName | frontend/src/app/layout.jsx:19-20 | the layout's user name is the payload's name, or its address when the name is missing or empty |
| Layout.Cleared | frontend/src/app/layout.jsx:25-26 | the catch removes both token keys and nothing else |
| Layout.LoadUserAsWritten | frontend/src/app/layout.jsx:10-29 | as written: no token leaves everything alone; any throw, decoding or initials, removes both stored tokens |
| Layout.LoadUser | frontend/src/app/layout.jsx:10-29 | corrected: only a token that fails to decode removes the stored tokens; otherwise the layout's user state holds the address, the display name and its initials |
| Layout.BlankNameSignsOut | frontend/src/app/layout.jsx:20-26 | a valid token naming " " removes the stored tokens as written, and keeps them with the initials "U" once corrected |
| Layout.LoadUserKeepsSignedIn | frontend/src/app/layout.jsx:10-29 | wherever the written effect keeps a user, the corrected one keeps one with the same name |
| Navbar.SubPageNotActive | frontend/src/Components/Navbar.jsx:29 | only an exact path match is active, so a sub-page is not |
| Navbar.FirstLetters | frontend/src/Components/Navbar.jsx:95-97 | one character per non-empty word, in order; empty parts contribute nothing |
| Navbar.Initials | frontend/src/Components/Navbar.jsx:94-98 | "U" when the name is absent or has no word, otherwise the upper-cased first letter of every word |
| Navbar.TwoWordsAgreeWithLayout | frontend/src/Components/Navbar.jsx:94-98 | the bar's own initials rule and the layout's agree on a two-word name |
| Navbar.Label | frontend/src/Components/Navbar.jsx:101 | the label is the name, else the address, else "User" |
| Navbar.NamelessContextUser | frontend/src/Components/Navbar.jsx:94-101 | the bar reads the context's user, not the layout's: for a payload with an address but no name the layout would use the address, while the bar shows the badge "U" and the address as the label |
| AdminSidebar.Render | frontend/src/Components/AdminSidebar.jsx:19 | nothing is shown exactly when the sidebar is closed; otherwise the six links in order, each highlighted by the rule |
| AdminSidebar.DashboardExactOnly | frontend/src/Components/AdminSidebar.jsx:41-44 | the dashboard is highlighted only on its own path |
| AdminSidebar.PrefixHighlights | frontend/src/Components/AdminSidebar.jsx:41-44 | every other link is highlighted on any path that starts with it |
| AdminSidebar.UsersPrefixQuirk | frontend/src/Components/AdminSidebar.jsx:41-44 | so "/admin/usersX" highlights Manage Users |
| AdminSidebar.AtMostOneActive | frontend/src/Components/AdminSidebar.jsx:7-44 | no two links are highlighted on the same path |
| AdminSidebar.Logout | frontend/src/Components/AdminSidebar.jsx:21-28 | without confirmation nothing changes; with it, the admin keys are removed, the other keys kept, and the browser goes to the admin login |
| AdminSidebar.LogoutKeepsUserToken | frontend/src/Components/AdminSidebar.jsx:21-28 | logging out of the admin panel keeps the ordinary user's token |
| AdminSidebar.LogoutIdempotent | frontend/src/Components/AdminSidebar.jsx:21-28 | a second confirmed logout changes nothing further |
| Strings.JoinSplit | backend/controllers/docsControllers.js:562-564 | joining the split parts gives back the text |
| Strings.SplitJoin | backend/controllers/docsControllers.js:562-564 | splitting joined parts that avoid the separator gives back the parts |
| Strings.Trim | backend/controllers/docsControllers.js:345 | trim removes whitespace from both ends and keeps the middle |

## Left out

- The language-model SDK: model configuration, temperatures and response objects. Each call is a scripted `Ok(text)` or `Err(message)`, so the answer text is an arbitrary input.
- MongoDB and mongoose. The schemas are used only as record shapes, and stores are maps and sequences.
  - Mongoose's update validators and unique index are not modelled. The duplicate-address refusal is modelled at the router, through error code 11000.
  - The user schema in backend/models/User.js has no `isAdmin` field, and line 11 refers to names it never defines. The router code is modelled as it reads, with `isAdmin` on every user.
- Server wiring. backend/index.js mounts only the auth routes, so the document, admin and user routers are unreachable as shipped. The handlers are modelled as functions anyway.
- Front-end wiring. The root layout (frontend/src/app/layout.jsx:50) renders the navigation bar outside any auth provider; the only provider is in frontend/src/app/(main)/layout.jsx:9. The bar's `useAuth()` throws without a provider (frontend/src/context/AuthContext.jsx:199-203), so rendering the root layout fails and its token-checking effect never runs as shipped. `Layout.LoadUserAsWritten`, `Layout.LoadUser` and `Layout.BlankNameSignsOut` model that effect taken alone.
- Failing store calls. Except where a member takes a `lookupFails` or fault flag (`AdminRouter.VerifyAdmin`, `GetUser`, `UpdateUser`, `DeleteUser`), every database call is assumed to succeed, so these catch-to-500 paths are not modelled:
  - AdminRouter.Login: the `findOne` failure caught at backend/routers/adminRouter.js:83-86.
  - AdminRouter.GetStats: a failing `countDocuments`, caught at adminRouter.js:101-104.
  - AdminRouter.ListUsers: a failing `find`, caught at adminRouter.js:113-116.
  - Docs.GetDocById: a failing `findById`, caught at docsControllers.js:663-665.
  - Docs.RegenerateDoc: a failing `findById` or `save`, caught by its 500 catch.
  - Docs.UpdateDoc: a failing `findById` or `findByIdAndUpdate` (as opposed to the missing record), caught by its 500 catch.
  - Upload.Generate: a failing `doc.save()` at docsControllers.js:406 lands in the catch at 425-442 and gives a classified 500; the model saves whenever the answer is accepted.
- The export path: PDF, DOCX and HTML conversion through foreign libraries.
- The commented-out legacy controller at the top of docsControllers.js.
- `getAllDocs` and `deleteDoc`: plain store reads and deletes with no logic of their own.
- JWT signing and verification, token payload decoding and bcrypt. They are parameters: `AdminRouter.Verifier`, the `sign` argument of `AdminRouter.Login`, and the `decode` argument of `Layout.LoadUser`.
- The auth routes and the user router.
- The auth context, beyond the user it builds from a token payload (`Navbar.ContextUserOf`), and the protected-route components. These are browser storage, time and network plumbing.
- The document route's `authMiddleware` (backend/routers/docRouter.js:6 and 18). Its source is not part of this model. `DocRouter.HandleUpload` starts after it has let the request through, and the 401 it can send reaches `FileUpload.ReplyOf` only as an input status.
- The manage-users page's list fetch. The page expects a reply with `success`, `users`, `totalPages` and `total` (frontend/src/app/admin/manage-users/page.jsx:36-39), but GET /users answers a bare array of users and ignores `page`, `limit` and `search` (backend/routers/adminRouter.js:109-113). With that reply `success` is undefined, so the list is never stored, `totalPages` stays 1, the pagination never renders and no edit form opens. The `ManageUsers` members model the pagination controls and the edit form for the data the page expects, which the router never sends.
- Docs.UpdateDoc: the new content is always a string. A PUT body without `content` (backend/controllers/docsControllers.js:632, then the update at 634-642) is not covered, and neither is what the database then stores.
- The layout's `user` state and its logout handler: the navigation bar takes no props, so neither reaches the page.
- Pure presentation: the landing page, footer, admin navbar, dashboard, animations, toasts and tailwind configuration.
- The one-off scripts in backend/ and the database connection.
- Real time. Delays are recorded as requested milliseconds, and timestamps are an opaque `now`.
- Character handling:
  - Case mapping is ASCII-only.
  - String lengths count code points, not UTF-16 units; this matters for the 10000-character cut and the 100-character minimum on astral-plane text.
  - The whitespace set is JavaScript's `\s` on the Basic Multilingual Plane.
- The router's lookup by an absent address (`findOne({email: undefined})`) is not modelled; the login body's email and password are given as strings.
- Upload.ShortAnswerRejected: the reply names `ClassifyError` of the too-short message rather than the insufficient-content text it selects; the model does not evaluate the classifier on that literal message.
- Upload.Handle: the prompt is recorded as the `Prompts.Request` that builds it (content, name, template), not as the expanded template text.
- Docs.RegenerateDoc: the same holds for its prompt.
- Version.IncrementVersionSpec: `parseInt`'s acceptance of leading whitespace, a sign, or trailing non-digits is modelled in `ParseInt`. The contract only states the numeral and unreadable cases.
- `postProcessDocumentation` is not idempotent, so no idempotence is claimed. `PostProcess.PostProcessNotIdempotent` exhibits the counterexample instead.
- Version.ParseInt: results are exact integers, while `parseInt` returns an IEEE double. From 2^53 on the digits are rounded, so "9007199254740993" reads as 9007199254740992.
- Version.IncrementVersionSpec: the bumped segment is the exact successor. In the source `parseInt(..) + 1` is a double and `String` renders it, so a last segment of 9007199254740992 or more is rounded ("1.9007199254740993" gives "1.9007199254740992"), and from 10^21 on it is written in exponent form ("1.1000000000000000000000" gives "1.1e+21").
- Version.BumpNumeral: the same holds; the successor is exact only below 2^53.
- Version.BumpLastSegment: the same holds; "M.n" gives "M.(n+1)" in the source only for n + 1 <= 2^53.
- Concurrency. Each handler is one atomic step over the store, while the source interleaves requests at every `await`. In `regenerateDoc` the read, the model call and the save are separate steps, and in `updateDoc` the version is read by `findById` before `findByIdAndUpdate` writes. Two concurrent edits of a "1.3" record can therefore both write "1.4"; the model does not show this.
- DocRouter.HandleUpload: a failure of the cleanup call itself (`unlinkSync` throwing after an answer) is not modelled.

## Findings

| source | as written | input that shows it | evidently intended | confidence | as-written member | corrected member |
|---|---|---|---|---|---|---|
| backend/controllers/docsControllers.js:638-646 | `updateDoc` reads `.version` of the lookup result before its null check, so a missing id throws into the 500 catch | an id not in the store | a missing id answers 404 "Documentation not found" | not executed | Docs.UpdateDocAsWritten | Docs.UpdateDoc |
| backend/controllers/docsControllers.js:345-347, 425-442 | `uploadFile` returns on an empty file, and answers a generation failure, without deleting the temp file | an upload whose text is only whitespace | the temp file is removed on every exit, as the route in docRouter.js does | not executed | Upload.UploadFileAsWritten | Upload.UploadFile |
| backend/controllers/docsControllers.js:516-534 | `detectLanguage` indexes a plain object, so inherited keys such as "constructor" return a function instead of falling back to "Unknown" | a file named "x.constructor" | any extension outside the table gives "Unknown" | not executed | Language.DetectLanguageAsWritten | Language.DetectLanguage |
| frontend/src/hooks/useAuthForm.js:38-41 | a throwing callback spreads the errors of the last render, reviving field errors that were just cleared or replaced by validation | a field error, an edit to another field, then a submit whose callback throws | after a throw only the form error is shown | not executed | AuthForm.StaleErrorReappears | AuthForm.HandleSubmit |
| frontend/src/app/layout.jsx:33-35 | `getInitials` takes `[0]` of empty parts: a trailing space gives "XUNDEFINED", and a name of a single space throws, which the catch treats as a bad token and signs the user out (behaviour of the effect taken alone: as shipped the root layout's render fails first, see "## Left out") | a payload whose name is " " | empty parts are skipped; the user stays signed in | not executed | Layout.BlankNameThrows | Layout.LoadUser |
