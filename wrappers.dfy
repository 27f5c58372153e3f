/** An optional value: an absent field, a failed request, a lookup that found nothing. */
module Wrappers {
  datatype Option<+T> = None | Some(value: T)
}
