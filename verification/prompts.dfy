/**
 * Prompt construction. The documentation controller has two templates that
 * embed the file name and the full file text (`getOptimalPrompt`,
 * `getAlternativePrompt`); the upload route has a third that embeds only the
 * first 10000 characters of the file and no file name.
 */
module Prompts {
  import opened Strings
  import opened JsValues

  /** A template `intro + filename + middle + content + outro`. */
  datatype Template = Template(intro: string, middle: string, outro: string) {
    /** The file name ends at the first newline, so the template can be read back. */
    predicate WellFormed() {
      |middle| > 0 && middle[0] == '\n'
    }
  }

  function Fill(t: Template, content: string, filename: string): string {
    t.intro + filename + t.middle + content + t.outro
  }

  /** Reads a filled template back into `(content, filename)`; the inverse of `Fill`. */
  function Read(t: Template, prompt: string): Option<(string, string)> {
    if |prompt| < |t.intro| + |t.outro| || !StartsWith(prompt, t.intro)
      || prompt[|prompt| - |t.outro|..] != t.outro
    then None
    else
      var body := prompt[|t.intro|..|prompt| - |t.outro|];
      var i := FirstIndex(body, '\n');
      var rest := body[i..];
      if StartsWith(rest, t.middle) then Some((rest[|t.middle|..], body[..i])) else None
  }

  /** A prompt determines the file text and the file name it was built from. */
  lemma ReadFill(t: Template, content: string, filename: string)
    requires t.WellFormed()
    ensures '\n' !in filename ==> Read(t, Fill(t, content, filename)) == Some((content, filename))
  {
    if '\n' in filename { return; }
    var p := Fill(t, content, filename);
    assert p == t.intro + (filename + t.middle + content) + t.outro;
    var body := filename + (t.middle + content);
    assert p[|t.intro|..|p| - |t.outro|] == body;
    assert p[..|t.intro|] == t.intro;
    assert p[|p| - |t.outro|..] == t.outro;
    FirstIndexOfJoined(filename, t.middle + content, '\n');
    assert body[|filename|..] == t.middle + content;
    assert body[..|filename|] == filename;
  }

  /** `getOptimalPrompt`. */
  const Optimal := Template(
    "Generate comprehensive technical documentation for the following code file:\n\nFilename: ",
    "\n\nCode:\n```\n",
    "\n```\n\nPlease include:\n- Overview and purpose\n- Key functionality\n"
    + "- Architecture and design decisions\n- Usage examples\n- Error handling and edge cases\n"
    + "- Integration notes\n- Maintenance tips\n\nFormat your response in Markdown.")

  /** `getAlternativePrompt`. */
  const Alternative := Template(
    "As a technical documentation specialist, create detailed documentation for this code file:\n\nFILENAME: ",
    "\nCODE:\n```\n",
    "\n```\n\nFocus on creating documentation that answers these key questions:\n"
    + "1. What problem does this code solve?\n"
    + "2. How does it solve the problem (architecture/approach)?\n"
    + "3. What are the key components and how do they interact?\n"
    + "4. What are the inputs, outputs, and side effects?\n"
    + "5. What could go wrong and how is it handled?\n"
    + "6. How would someone use/integrate this code?\n"
    + "7. What should developers know for maintenance?\n\n"
    + "Structure your response as a comprehensive technical reference document with:\n"
    + "- Executive summary\n- Detailed technical analysis\n- Usage examples with real code\n"
    + "- Troubleshooting guide\n- Integration notes\n\n"
    + "Be specific and avoid generic statements. Use actual function names, variables, and logic from the code.")

  /** The prompt the controller sends: the standard template, or the alternative one on request. */
  function ControllerPrompt(content: string, filename: string, alternative: bool): (p: string)
    ensures '\n' !in filename ==>
      Read(if alternative then Alternative else Optimal, p) == Some((content, filename))
  {
    var t := if alternative then Alternative else Optimal;
    ReadFill(t, content, filename);
    Fill(t, content, filename)
  }

  /** The controller prompt for one call, named by its inputs rather than spelled out. */
  datatype Request = Request(content: string, filename: string, alternative: bool) {
    /** The prompt text the model receives. */
    function Text(): string {
      ControllerPrompt(content, filename, alternative)
    }
  }

  // ---------------------------------------------------------------------------
  // The upload route's prompt

  const RouteInstruction :=
    "Generate well-structured documentation for the following code. Explain functions, logic flow, and usage in a clear, concise way."

  /** The route reads at most this many characters of the file. */
  const MaxFileChars := 10000

  /** `fileContent.slice(0, 10000)`. */
  function Truncate(content: string): (r: string)
    ensures |r| <= MaxFileChars
    ensures StartsWith(content, r)
    ensures |content| <= MaxFileChars ==> r == content
    ensures |content| > MaxFileChars ==> |r| == MaxFileChars
  {
    if |content| <= MaxFileChars then content else content[..MaxFileChars]
  }

  /** The route's prompt: the fixed instruction, a blank line, then the (truncated) file text. */
  function RoutePrompt(content: string): (p: string)
    ensures StartsWith(p, RouteInstruction + "\n\n")
    ensures p[|RouteInstruction| + 2..] == Truncate(content)
    ensures |p| <= |RouteInstruction| + 2 + MaxFileChars
  {
    RouteInstruction + "\n\n" + Truncate(content)
  }
}
