/** Small value types shared by the three pages. */
module Common {

  /** A JavaScript value that may be `undefined` or `null`. */
  datatype Option<T> = None | Some(value: T)

  /** How an awaited promise settles: with its value, or by rejecting. */
  datatype Settled<T> = Resolved(value: T) | Rejected

  /** A notification raised through the `useToast` hook; only its variant and title are kept. */
  datatype Toast = Toast(destructive: bool, title: string)
}
