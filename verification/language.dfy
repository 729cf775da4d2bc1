/**
 * Language detection from a file name (`detectLanguage` in the documentation
 * controller): the text after the last '.', lower-cased, looked up in a fixed
 * table of fifteen extensions.
 */
module Language {
  import opened Strings
  import opened JsValues

  /** The extension table, keyed by lower-case extension: the language name, if listed. */
  function Table(ext: string): (name: Option<string>)
    ensures name.Some? ==> name.value != "" && name.value != Unknown
  {
    if ext == "js" then Some("JavaScript")
    else if ext == "jsx" then Some("JavaScript (React)")
    else if ext == "ts" then Some("TypeScript")
    else if ext == "tsx" then Some("TypeScript (React)")
    else if ext == "py" then Some("Python")
    else if ext == "java" then Some("Java")
    else if ext == "go" then Some("Go")
    else if ext == "php" then Some("PHP")
    else if ext == "rb" then Some("Ruby")
    else if ext == "cs" then Some("C#")
    else if ext == "cpp" then Some("C++")
    else if ext == "c" then Some("C")
    else if ext == "sql" then Some("SQL")
    else if ext == "vue" then Some("Vue.js")
    else if ext == "svelte" then Some("Svelte")
    else None
  }

  /** Whether the table lists an extension. */
  predicate Listed(ext: string) {
    Table(ext).Some?
  }

  const Unknown := "Unknown"

  /** The extension as the controller computes it: `filename.split('.').pop().toLowerCase()`. */
  function Extension(filename: string): (ext: string)
    ensures '.' !in ext
    ensures |ext| <= |filename|
  {
    ToLower(AfterLast(filename, '.'))
  }

  /** The detected language: one of the fifteen table names, or "Unknown". */
  function DetectLanguage(filename: string): (lang: string)
    ensures lang != Unknown <==> Listed(Extension(filename))
    ensures Listed(Extension(filename)) ==> lang == Table(Extension(filename)).value
  {
    match Table(Extension(filename))
    case Some(name) => name
    case None => Unknown
  }

  /** Only the part after the last '.' matters: any stem gives the same answer. */
  lemma StemIsIgnored(stem: string, ext: string)
    requires '.' !in ext
    ensures DetectLanguage(stem + "." + ext) == DetectLanguage(ext)
  {
    AfterLastOfJoined(stem, '.', ext);
    AfterLastOfPlain(ext, '.');
  }

  /** Case-insensitivity: an ASCII upper-cased name is detected as the same language. */
  lemma CaseIsIgnored(filename: string)
    ensures DetectLanguage(ToUpper(filename)) == DetectLanguage(filename)
  {
    AfterLastOfUpper(filename);
    var e := AfterLast(filename, '.');
    assert ToLower(ToUpper(e)) == ToLower(e) by {
      forall i | 0 <= i < |e| ensures ToLowerChar(ToUpperChar(e[i])) == ToLowerChar(e[i]) {
        var c := e[i];
        if IsLower(c) {
          assert ToLowerChar(ToUpperChar(c)) as int == c as int;
        }
      }
    }
  }

  /** Upper-casing commutes with taking the text after the last '.', since '.' has no case. */
  lemma AfterLastOfUpper(s: string)
    ensures AfterLast(ToUpper(s), '.') == ToUpper(AfterLast(s, '.'))
  {
    var u := ToUpper(s);
    var r := AfterLast(s, '.');
    var ur := ToUpper(r);
    assert forall i :: 0 <= i < |s| ==> (u[i] == '.' <==> s[i] == '.');
    assert forall i :: 0 <= i < |r| ==> ur[i] == u[|u| - |r| + i] by {
      forall i | 0 <= i < |r| ensures ur[i] == u[|u| - |r| + i] {
        assert r[i] == s[|s| - |r| + i];
      }
    }
    assert u[|u| - |ur|..] == ur;
    assert '.' !in ur by {
      forall i | 0 <= i < |r| ensures ur[i] != '.' {
        assert r[i] != '.';
      }
    }
    AfterLastUnique(u, '.', ur);
  }

  /** A name with no dot is an extension by itself. */
  lemma DotlessExtension(filename: string)
    requires '.' !in filename
    requires forall i :: 0 <= i < |filename| ==> !IsUpper(filename[i])
    ensures Extension(filename) == filename
  {
    AfterLastOfPlain(filename, '.');
  }

  /** After a dot, a dot-free extension without capitals is read as it is written. */
  lemma PlainExtension(stem: string, ext: string)
    requires '.' !in ext
    requires forall i :: 0 <= i < |ext| ==> !IsUpper(ext[i])
    ensures Extension(stem + "." + ext) == ext
  {
    AfterLastOfJoined(stem, '.', ext);
  }

  /** A dot-less lower-case name is looked up whole, so "c" is C. */
  lemma DotlessNameIsItsOwnExtension(filename: string)
    requires '.' !in filename
    requires forall i :: 0 <= i < |filename| ==> !IsUpper(filename[i])
    ensures DetectLanguage(filename) != Unknown <==> Listed(filename)
    ensures Listed(filename) ==> DetectLanguage(filename) == Table(filename).value
    ensures DetectLanguage("c") == "C"
  {
    DotlessExtension(filename);
    DotlessExtension("c");
  }

  /** The stem is ignored and the extension decides: any "<stem>.py" is Python. */
  lemma PythonExample(stem: string)
    ensures DetectLanguage(stem + ".py") == "Python"
  {
    assert stem + ".py" == stem + "." + "py";
    PlainExtension(stem, "py");
  }

  // ---------------------------------------------------------------------------
  // The lookup as written: `languageMap[extension] || 'Unknown'` on a plain object
  // literal also finds the properties it inherits from `Object.prototype`.

  /** What a property read on the table can produce. */
  datatype Lookup = Name(name: string) | Inherited(key: string)

  /** The lower-case property names every plain object inherits (`Object` and `Object.prototype`). */
  const InheritedKeys: set<string> := {"constructor", "__proto__"}

  /** `detectLanguage` as written: an inherited property is truthy and is returned in place of a name. */
  function DetectLanguageAsWritten(filename: string): (r: Lookup)
    ensures r.Inherited? <==> Extension(filename) in InheritedKeys
    ensures r.Name? ==> r.name == DetectLanguage(filename)
  {
    var ext := Extension(filename);
    InheritedKeysUnlisted(ext);
    if Listed(ext) then Name(Table(ext).value)
    else if ext in InheritedKeys then Inherited(ext)
    else Name(Unknown)
  }

  lemma InheritedKeysUnlisted(ext: string)
    ensures ext in InheritedKeys ==> !Listed(ext)
  {
    if ext == "constructor" {
      assert |ext| == 11;
    } else if ext == "__proto__" {
      assert |ext| == 9;
    }
  }

  /** Any "<stem>.constructor" yields the inherited `Object` constructor, not a language name. */
  lemma PrototypeKeyEscapesTable(stem: string)
    ensures DetectLanguageAsWritten(stem + ".constructor") == Inherited("constructor")
    ensures DetectLanguage(stem + ".constructor") == Unknown
  {
    assert stem + ".constructor" == stem + "." + "constructor";
    PlainExtension(stem, "constructor");
    InheritedKeysUnlisted("constructor");
  }
}
