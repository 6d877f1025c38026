/** The exceptions the broker and the worker can raise, by Python class. */
module Faults {

  datatype Fault =
    | KeyError(key: string)      // a stream entry or request without the named field
    | JsonDecodeError            // `json.loads` refused the text
    | IndexError                 // `choices` is an empty list
    | AttributeError             // `.get` called on something that is not an object
    | TypeError                  // `in` or `[...]` applied to a value that does not support it
    | DataError                  // redis-py refuses a field value it cannot send (bool or None)
    | NoGroupError               // Redis answers NOGROUP: the stream or its consumer group is missing
    | InferenceError             // the model call failed
}
