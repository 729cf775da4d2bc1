/**
 * The admin user-management page (`manage-users/page.jsx`): the Previous/Next
 * pagination buttons and the edit form, whose role select carries `isAdmin` as
 * the text "true" or "false".
 */
module ManageUsers {
  import opened JsValues
  import AdminRouter

  /** Previous: `Math.max(1, currentPage - 1)`. */
  function Previous(page: int): (p: int)
    ensures p >= 1
    ensures p == page - 1 || p == 1
    ensures page > 1 ==> p == page - 1
    ensures page <= 1 ==> p == 1
  {
    if page - 1 > 1 then page - 1 else 1
  }

  /** Next: `Math.min(totalPages, currentPage + 1)`. */
  function Next(page: int, totalPages: int): (p: int)
    ensures p <= totalPages
    ensures page < totalPages ==> p == page + 1
    ensures page >= totalPages ==> p == totalPages
  {
    if page + 1 < totalPages then page + 1 else totalPages
  }

  datatype Move = Back | Forward

  function Step(page: int, totalPages: int, m: Move): int {
    match m
    case Back => Previous(page)
    case Forward => Next(page, totalPages)
  }

  /** The page after pressing the buttons in order. */
  function Press(page: int, totalPages: int, moves: seq<Move>): int
    decreases |moves|
  {
    if |moves| == 0 then page else Press(Step(page, totalPages, moves[0]), totalPages, moves[1..])
  }

  /** Starting on a page in range, no sequence of presses leaves the range. */
  lemma {:induction false} PressStaysInRange(page: int, totalPages: int, moves: seq<Move>)
    requires 1 <= page <= totalPages
    ensures 1 <= Press(page, totalPages, moves) <= totalPages
    decreases |moves|
  {
    if |moves| > 0 {
      PressStaysInRange(Step(page, totalPages, moves[0]), totalPages, moves[1..]);
    }
  }

  /** Each press moves at most one page. */
  lemma StepMovesAtMostOne(page: int, totalPages: int, m: Move)
    requires 1 <= page <= totalPages
    ensures var p := Step(page, totalPages, m); page - 1 <= p <= page + 1
  {
  }

  /** Previous then Next returns to the page, unless the first press was blocked. */
  lemma BackThenForward(page: int, totalPages: int)
    requires 1 < page <= totalPages
    ensures Next(Previous(page), totalPages) == page
  {
  }

  /** The controls shown: nothing with a single page; otherwise each button is disabled at its end. */
  datatype Controls = Hidden | Shown(previousDisabled: bool, nextDisabled: bool)

  function Pagination(page: int, totalPages: int): (c: Controls)
    ensures c.Shown? <==> totalPages > 1
    ensures c.Shown? ==> (c.previousDisabled <==> page == 1) && (c.nextDisabled <==> page == totalPages)
  {
    if totalPages > 1 then Shown(page == 1, page == totalPages) else Hidden
  }

  /** A disabled button is exactly one whose press would not change the page. */
  lemma DisabledMeansNoMove(page: int, totalPages: int)
    requires 1 <= page <= totalPages && totalPages > 1
    ensures Pagination(page, totalPages).previousDisabled <==> Previous(page) == page
    ensures Pagination(page, totalPages).nextDisabled <==> Next(page, totalPages) == page
  {
  }

  // ---------------------------------------------------------------------------
  // The edit form

  /** The role select's default: `isAdmin.toString()`. */
  function EncodeRole(isAdmin: bool): (v: string)
    ensures v == "true" || v == "false"
  {
    if isAdmin then "true" else "false"
  }

  /** The submitted role: `formData.get('isAdmin') === 'true'`. */
  function DecodeRole(v: string): (isAdmin: bool)
    ensures isAdmin ==> v == "true"
  {
    v == "true"
  }

  /** Submitting the form unchanged keeps the role. */
  lemma RoleRoundTrip(isAdmin: bool)
    ensures DecodeRole(EncodeRole(isAdmin)) == isAdmin
  {
  }

  /** Any value other than "true", including the empty string, is read as a regular user. */
  lemma OtherValuesDecodeToUser(v: string)
    requires v != "true"
    ensures !DecodeRole(v)
  {
  }

  /** The three form values sent: the two text inputs as typed, and the decoded role. */
  function EditBody(name: string, email: string, role: string): (b: AdminRouter.Body)
    ensures b.name == Some(name) && b.email == Some(email) && b.isAdmin == Some(DecodeRole(role))
  {
    AdminRouter.Body(Some(name), Some(email), Some(DecodeRole(role)))
  }

  /**
   * The form always defines all three fields, so an edit that succeeds sets
   * the name, address and role together, even those the admin did not touch.
   */
  lemma EditSetsAllFields(users: seq<AdminRouter.User>, id: AdminRouter.UserId, name: string, email: string, role: string)
    ensures var (reply, after) := AdminRouter.UpdateUser(users, id, EditBody(name, email, role), false);
      reply.Found? ==>
        var k := AdminRouter.IndexOfId(users, id);
        after[k].name == Some(name) && after[k].email == email && after[k].isAdmin == DecodeRole(role)
        && after[k].password == users[k].password
  {
  }

  /** With addresses unique, as the schema's index keeps them, an unedited form writes back the user unchanged. */
  lemma UneditedFormKeepsUser(users: seq<AdminRouter.User>, id: AdminRouter.UserId, name: string)
    requires AdminRouter.UniqueEmails(users)
    requires AdminRouter.FindById(users, id).Some?
    requires AdminRouter.FindById(users, id).value.name == Some(name)
    ensures var u := AdminRouter.FindById(users, id).value;
      var (reply, after) := AdminRouter.UpdateUser(users, id, EditBody(name, u.email, EncodeRole(u.isAdmin)), false);
      reply.Found? && after == users
  {
    var k := AdminRouter.IndexOfId(users, id);
    var u := users[k];
    var body := EditBody(name, u.email, EncodeRole(u.isAdmin));
    RoleRoundTrip(u.isAdmin);
    assert !AdminRouter.EmailHeldByOther(users, k, u.email);
    var v := AdminRouter.Apply(u, AdminRouter.UpdateData(body));
    assert v == u;
  }
}
