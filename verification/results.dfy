/** Optional values, the exceptions the converter can raise, and a failure-compatible
    result type, so that `:-` aborts a conversion at the first exception as Python does. */
module Results {

  datatype Option<+T> = None | Some(value: T)

  /** The exceptions of the converter, each named after the situation that raises it. */
  datatype Error =
    | KeyMissing(key: string)            // KeyError: `d[key]` on a dict without that key
    | NotAMapping                        // AttributeError: `.items()` on a value that is not a dict
    | NotSubscriptable                   // TypeError: `x["key"]` on a value that is not a dict
    | NotIterable                        // TypeError: `for ... in x` on a number, bool, None or datetime
    | NotOneEntry                        // ValueError: a list-container element that is not a one-key object
    | NotAPair(text: string)             // ValueError: a child name that does not unpack into two characters
    | Unhashable(name: string)           // TypeError: adding a pair whose value is a dict to a set
    | MalformedTimestamp(text: string)   // ValueError: `datetime.fromisoformat` refuses a timestamp-shaped string
    | UnsupportedLogType(typeName: string) // ValueError raised by log_to_jxes for any other log class
    | NotATrace                          // AttributeError: an event where a trace is expected
    | NotAnEvent                         // AttributeError: a trace where an event mapping is expected
    | NotCopyable                        // AttributeError: `.copy()` on a scalar
    | OutsideModel                       // a shape whose Python behaviour this model does not follow

  datatype Result<+T> = Ok(value: T) | Err(error: Error) {
    predicate IsFailure() { Err? }

    function PropagateFailure<U>(): Result<U>
      requires Err?
    {
      Err(error)
    }

    function Extract(): T
      requires Ok?
    {
      value
    }
  }
}
