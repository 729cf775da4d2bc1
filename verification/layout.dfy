/**
 * The root layout (`app/layout.jsx`): on load it reads the stored token, takes
 * the user's name (or, failing that, the e-mail address) from its payload, and
 * computes initials for it. The user lands in the layout's own state and is
 * passed as a prop the navigation bar never reads, so the load's one visible
 * effect is that a failure removes both stored tokens. Decoding the token's
 * payload is a parameter.
 */
module Layout {
  import opened Strings
  import opened JsValues

  // ---------------------------------------------------------------------------
  // getInitials as written

  /** `part[0]`: the first character, or `undefined` for an empty part. */
  function FirstChar(part: string): (c: Option<char>)
    ensures c.Some? <==> |part| > 0
    ensures c.Some? ==> c.value == part[0]
  {
    if |part| > 0 then Some(part[0]) else None
  }

  /** The text JavaScript gives `undefined` when it is added to a string. */
  const UndefinedText := "undefined"

  /** What `getInitials` produces: a string, or the `TypeError` it throws. */
  datatype Initials = Value(text: string) | Throws

  /**
   * `a + b` for two characters that may be `undefined`, followed by
   * `.toUpperCase()`. Adding `undefined` to a string gives the text
   * "undefined"; adding two `undefined`s gives `NaN`, a number, which has no
   * `toUpperCase` and throws.
   */
  function UpperPair(a: Option<char>, b: Option<char>): (r: Initials)
    ensures r.Throws? <==> a.None? && b.None?
    ensures a.Some? && b.Some? ==> r == Value(ToUpper([a.value, b.value]))
  {
    match (a, b)
    case (Some(x), Some(y)) => Value(ToUpper([x, y]))
    case (None, Some(y)) => Value(ToUpper(UndefinedText + [y]))
    case (Some(x), None) => Value(ToUpper([x] + UndefinedText))
    case (None, None) => Throws
  }

  /** `name.substring(0, 2)`. */
  function Prefix2(s: string): (r: string)
    ensures |r| == if |s| < 2 then |s| else 2
    ensures r == s[..|r|]
  {
    if |s| < 2 then s else s[..2]
  }

  /** `getInitials` as written: the parts of a name are taken without checking that they are non-empty. */
  function GetInitialsAsWritten(name: Option<string>): (r: Initials)
    ensures !Truthy(name) ==> r == Value("U")
    ensures Truthy(name) && |Split(name.value, ' ')| < 2 ==> r == Value(ToUpper(Prefix2(name.value)))
  {
    if !Truthy(name) then Value("U")
    else
      var names := Split(name.value, ' ');
      if |names| >= 2 then UpperPair(FirstChar(names[0]), FirstChar(Last(names)))
      else Value(ToUpper(Prefix2(name.value)))
  }

  /** A name made only of one space has two empty parts, and `getInitials` throws. */
  lemma BlankNameThrows()
    ensures GetInitialsAsWritten(Some(" ")) == Throws
  {
    assert Split(" ", ' ') == ["", ""] by {
      assert Join(["", ""], ' ') == " " by {
        assert ["", ""][1..] == [""];
      }
      SplitJoin(["", ""], ' ');
    }
  }

  /** A trailing space leaves an empty last part, whose initial is the text "undefined". */
  lemma TrailingSpaceInitials(word: string)
    requires |word| > 0 && ' ' !in word
    ensures GetInitialsAsWritten(Some(word + " ")) == Value(ToUpper([word[0]] + UndefinedText))
  {
    assert Split(word + " ", ' ') == [word, ""] by {
      assert Join([word, ""], ' ') == word + " " by {
        assert [word, ""][1..] == [""];
      }
      SplitJoin([word, ""], ' ');
    }
  }

  // ---------------------------------------------------------------------------
  // getInitials with the empty parts skipped

  /** The non-empty parts, in order. */
  function Words(parts: seq<string>): (w: seq<string>)
    ensures forall i :: 0 <= i < |w| ==> w[i] != "" && w[i] in parts
    ensures |w| <= |parts|
    decreases |parts|
  {
    if |parts| == 0 then []
    else if parts[0] == "" then Words(parts[1..])
    else [parts[0]] + Words(parts[1..])
  }

  /**
   * `getInitials` as evidently intended: the first letters of the first and
   * last words, or the first two characters of a single word, or "U".
   */
  function GetInitials(name: Option<string>): (r: string)
    ensures 1 <= |r| <= 2
    ensures !Truthy(name) ==> r == "U"
  {
    if !Truthy(name) then "U"
    else
      var words := Words(Split(name.value, ' '));
      if |words| >= 2 then ToUpper([words[0][0], Last(words)[0]])
      else if |words| == 1 then ToUpper(Prefix2(words[0]))
      else "U"
  }

  /** The corrected initials never throw, and each character comes from a word of the name. */
  lemma InitialsComeFromWords(name: string, i: nat)
    requires i < |GetInitials(Some(name))|
    requires |Words(Split(name, ' '))| > 0
    ensures exists w :: w in Words(Split(name, ' ')) && exists j :: 0 <= j < |w| && GetInitials(Some(name))[i] == ToUpperChar(w[j])
  {
    var words := Words(Split(name, ' '));
    var r := GetInitials(Some(name));
    if |words| >= 2 {
      if i == 0 {
        assert r[0] == ToUpperChar(words[0][0]);
      } else {
        assert r[1] == ToUpperChar(Last(words)[0]);
        assert Last(words) in words;
      }
    } else {
      assert r[i] == ToUpperChar(words[0][i]);
    }
  }

  /** A non-empty last part is the last word. */
  lemma {:induction false} WordsLast(parts: seq<string>)
    requires |parts| > 0 && Last(parts) != ""
    ensures |Words(parts)| > 0 && Last(Words(parts)) == Last(parts)
    decreases |parts|
  {
    if |parts| > 1 {
      WordsLast(parts[1..]);
      assert Last(parts[1..]) == Last(parts);
    }
  }

  /**
   * Where the first and last parts are non-empty, or there is a single part,
   * the written function already computes the intended initials.
   */
  lemma AsWrittenAgreesOnPlainNames(name: string)
    requires name != ""
    requires var parts := Split(name, ' ');
      |parts| == 1 || (parts[0] != "" && Last(parts) != "")
    ensures GetInitialsAsWritten(Some(name)) == Value(GetInitials(Some(name)))
  {
    var parts := Split(name, ' ');
    if |parts| == 1 {
      JoinSplit(name, ' ');
      assert parts[0] == name;
      assert Words(parts) == [name] by {
        assert parts[1..] == [];
      }
    } else {
      WordsLast(parts[1..]);
      assert Last(parts[1..]) == Last(parts);
      assert Words(parts) == [parts[0]] + Words(parts[1..]);
    }
  }

  // ---------------------------------------------------------------------------
  // The effect that loads the user

  /** The token payload's fields the layout reads. */
  datatype Payload = Payload(name: Option<string>, email: Option<string>)

  /** The user the layout keeps in its state (the navigation bar ignores it). */
  datatype ShownUser = ShownUser(email: Option<string>, name: Option<string>, initials: string)

  /** The layout's user name, and the one initials are made from: `payload.name || payload.email`. */
  function DisplayName(p: Payload): (n: Option<string>)
    ensures Truthy(p.name) ==> n == p.name
    ensures !Truthy(p.name) ==> n == p.email
  {
    Or(p.name, p.email)
  }

  /** The stored user after the effect, and the storage it leaves. */
  datatype Loaded = Loaded(user: Option<ShownUser>, storage: Storage)

  /** The two token keys the catch clause removes. */
  function Cleared(storage: Storage): (s: Storage)
    ensures "token" !in s && "userToken" !in s
    ensures forall k :: k in storage && k != "token" && k != "userToken" ==> k in s && s[k] == storage[k]
    ensures s.Keys <= storage.Keys
  {
    storage - {"token", "userToken"}
  }

  /**
   * The effect as written. `decode` stands for `JSON.parse(atob(token.split('.')[1]))`
   * and gives `None` where that throws; a throw from `getInitials` lands in the
   * same catch and removes both stored tokens.
   */
  function LoadUserAsWritten(storage: Storage, decode: string -> Option<Payload>): (r: Loaded)
    ensures !SignedIn(storage) ==> r == Loaded(None, storage)
    ensures r.user.None? && SignedIn(storage) ==> r.storage == Cleared(storage)
    ensures r.user.Some? ==> r.storage == storage
  {
    var token := Token(storage);
    if !Truthy(token) then Loaded(None, storage)
    else
      match decode(token.value)
      case None => Loaded(None, Cleared(storage))
      case Some(p) =>
        var name := DisplayName(p);
        match GetInitialsAsWritten(name)
        case Throws => Loaded(None, Cleared(storage))
        case Value(initials) => Loaded(Some(ShownUser(p.email, name, initials)), storage)
  }

  /** The effect with the corrected initials: only a token that cannot be decoded removes the stored tokens. */
  function LoadUser(storage: Storage, decode: string -> Option<Payload>): (r: Loaded)
    ensures !SignedIn(storage) ==> r == Loaded(None, storage)
    ensures SignedIn(storage) ==>
      (r.user.Some? <==> decode(Token(storage).value).Some?)
    ensures r.user.None? && SignedIn(storage) ==> r.storage == Cleared(storage)
    ensures r.user.Some? ==>
      var p := decode(Token(storage).value).value;
      r.storage == storage && r.user.value == ShownUser(p.email, DisplayName(p), GetInitials(DisplayName(p)))
  {
    var token := Token(storage);
    if !Truthy(token) then Loaded(None, storage)
    else
      match decode(token.value)
      case None => Loaded(None, Cleared(storage))
      case Some(p) =>
        var name := DisplayName(p);
        Loaded(Some(ShownUser(p.email, name, GetInitials(name))), storage)
  }

  /** A valid token whose payload names the user " " loses its stored tokens as written, but not once corrected. */
  lemma BlankNameSignsOut(storage: Storage, decode: string -> Option<Payload>)
    requires SignedIn(storage)
    requires decode(Token(storage).value) == Some(Payload(Some(" "), None))
    ensures LoadUserAsWritten(storage, decode) == Loaded(None, Cleared(storage))
    ensures LoadUser(storage, decode).user == Some(ShownUser(None, Some(" "), "U"))
  {
    BlankNameThrows();
    assert Words(Split(" ", ' ')) == [] by {
      assert Split(" ", ' ') == ["", ""] by {
        assert Join(["", ""], ' ') == " " by {
          assert ["", ""][1..] == [""];
        }
        SplitJoin(["", ""], ' ');
      }
    }
  }

  /** Wherever the written effect keeps a user, the corrected one keeps a user for the same token and name. */
  lemma LoadUserKeepsSignedIn(storage: Storage, decode: string -> Option<Payload>)
    ensures LoadUserAsWritten(storage, decode).user.Some? ==> LoadUser(storage, decode).user.Some?
    ensures LoadUserAsWritten(storage, decode).user.Some? ==>
      LoadUser(storage, decode).user.value.name == LoadUserAsWritten(storage, decode).user.value.name
  {
  }
}
