/**
 * JavaScript value conventions shared by the model: an absent property
 * (`undefined`), the truthiness of a string-valued field, and the browser's
 * `localStorage` with the user token the front end keeps there.
 */
module JsValues {

  /** `None` is `undefined`. */
  datatype Option<T> = None | Some(value: T)

  /** A string field is truthy when it is present and not the empty string. */
  predicate Truthy(f: Option<string>) {
    f.Some? && f.value != ""
  }

  /** `a || b` on two string fields. */
  function Or(a: Option<string>, b: Option<string>): (r: Option<string>)
    ensures Truthy(a) ==> r == a
    ensures !Truthy(a) ==> r == b
  {
    if Truthy(a) then a else b
  }

  /** `localStorage`: a key that was never set reads as `null`. */
  type Storage = map<string, string>

  function Get(storage: Storage, key: string): Option<string> {
    if key in storage then Some(storage[key]) else None
  }

  /** `localStorage.getItem("token") || localStorage.getItem("userToken")` */
  function Token(storage: Storage): Option<string> {
    Or(Get(storage, "token"), Get(storage, "userToken"))
  }

  predicate SignedIn(storage: Storage) {
    Truthy(Token(storage))
  }
}
