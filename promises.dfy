/** The settle semantics of a JavaScript promise built with
    `new Promise((resolve, reject) => ...)`: the first call to `resolve` or
    `reject` settles it, and every later call is ignored. The workflows rely
    on this in two places: the delete helper resolves before the unlink
    callback rejects, and the reset commands reject and then resolve. */
module Promises {

  datatype State<+E> = Pending | Fulfilled | Rejected(reason: E)

  /** A promise whose fulfilment value is `undefined`, as in every promise of
      the workflows. */
  class Promise<E> {
    var state: State<E>

    constructor ()
      ensures state == Pending
    {
      state := Pending;
    }

    /** `resolve(undefined)`: settles a pending promise, otherwise no effect. */
    method Resolve()
      modifies this
      ensures state == if old(state).Pending? then Fulfilled else old(state)
    {
      if state.Pending? {
        state := Fulfilled;
      }
    }

    /** `reject(reason)`: settles a pending promise, otherwise no effect. */
    method Reject(reason: E)
      modifies this
      ensures state == if old(state).Pending? then Rejected(reason) else old(state)
    {
      if state.Pending? {
        state := Rejected(reason);
      }
    }
  }
}
