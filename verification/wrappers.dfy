/** An optional result, used wherever the deployment script can run out of input or
    raise an exception. */
module Wrappers {

  datatype Option<+T> = None | Some(value: T)
}
