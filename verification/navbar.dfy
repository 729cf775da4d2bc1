/**
 * The navigation bar (`Navbar.jsx`): which link is highlighted, the initials
 * badge, and the label next to it.
 */
module Navbar {
  import opened Strings
  import opened JsValues
  import Layout

  /** `isActive(href)`: only an exact match of the current path. */
  predicate IsActive(pathname: string, href: string) {
    pathname == href
  }

  /** On a sub-page no main link is highlighted, not even its parent page. */
  lemma SubPageNotActive(href: string, rest: string)
    requires rest != ""
    ensures !IsActive(href + rest, href)
  {
    assert |href + rest| > |href|;
  }

  /** `parts.map(n => n[0]).join("")`: an empty part maps to `undefined`, which `join` writes as nothing. */
  function FirstLetters(parts: seq<string>): (r: string)
    ensures |r| == |Layout.Words(parts)|
    ensures forall i :: 0 <= i < |r| ==> r[i] == Layout.Words(parts)[i][0]
    decreases |parts|
  {
    if |parts| == 0 then ""
    else if parts[0] == "" then FirstLetters(parts[1..])
    else [parts[0][0]] + FirstLetters(parts[1..])
  }

  /** The badge: `user?.name?.split(" ").map(n => n[0]).join("").toUpperCase() || "U"`. */
  function Initials(name: Option<string>): (r: string)
    ensures |r| > 0
    ensures name.None? ==> r == "U"
    ensures name.Some? && |Layout.Words(Split(name.value, ' '))| == 0 ==> r == "U"
    ensures name.Some? && |Layout.Words(Split(name.value, ' '))| > 0 ==>
      |r| == |Layout.Words(Split(name.value, ' '))|
      && forall i :: 0 <= i < |r| ==> r[i] == ToUpperChar(Layout.Words(Split(name.value, ' '))[i][0])
  {
    if name.None? then "U"
    else
      var joined := ToUpper(FirstLetters(Split(name.value, ' ')));
      if joined == "" then "U" else joined
  }

  /** A name of one or more words gets one letter per word, so two-word names agree with the layout's initials. */
  lemma TwoWordsAgreeWithLayout(name: string)
    requires |Layout.Words(Split(name, ' '))| == 2
    ensures Initials(Some(name)) == Layout.GetInitials(Some(name))
  {
    var words := Layout.Words(Split(name, ' '));
    assert Last(words) == words[1];
  }

  /** The label: `user?.name || user?.email || "User"`. */
  function Label(name: Option<string>, email: Option<string>): (r: string)
    ensures Truthy(name) ==> r == name.value
    ensures !Truthy(name) && Truthy(email) ==> r == email.value
    ensures !Truthy(name) && !Truthy(email) ==> r == "User"
    ensures r != ""
  {
    var n := Or(Or(name, email), Some("User"));
    n.value
  }

  /**
   * The user the bar reads from the authentication context, which builds it
   * from the token payload's `name` and `email` as they are, with no fallback.
   * The layout's `user` prop is never read.
   */
  datatype ContextUser = ContextUser(name: Option<string>, email: Option<string>)

  function ContextUserOf(p: Layout.Payload): (u: ContextUser)
    ensures u.name == p.name && u.email == p.email
  {
    ContextUser(p.name, p.email)
  }

  /**
   * A payload with an address but no name: the layout would fall back to the
   * address, but the bar, reading the context's user, shows the badge "U" and
   * the address as its label.
   */
  lemma NamelessContextUser(p: Layout.Payload)
    requires !Truthy(p.name) && Truthy(p.email)
    ensures Initials(ContextUserOf(p).name) == "U"
    ensures Label(ContextUserOf(p).name, ContextUserOf(p).email) == p.email.value
    ensures Layout.DisplayName(p) == p.email
  {
  }
}
