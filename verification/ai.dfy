/**
 * The hosted language model, seen from the application: each `generateContent`
 * call either answers with text or fails with an error message. A scripted
 * service stands in for it: `script(n)` is the outcome of the n-th call
 * (counting from 0) within one request.
 */
module Ai {
  datatype Outcome = Ok(text: string) | Err(message: string)

  type Script = nat -> Outcome
}
