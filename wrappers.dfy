/** Small value wrappers shared by the components. */
module Wrappers {

  /** An optional value: `undefined`/`null` in the JavaScript code. */
  datatype Option<+T> = None | Some(value: T)

  /**
   * What an awaited request handed back to a handler: either a successful
   * response with its decoded JSON body, or a failure (a rejected `fetch`,
   * a non-2xx status or an unparsable body are treated alike by the source).
   */
  datatype Reply<+T> = Ok(body: T) | Failed
}
