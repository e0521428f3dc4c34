/**
 * The process-wide last-error slot: a code and an optional message.
 * The slot is one object that every operation which reports an error
 * receives and updates.
 */
module ErrorSlot {
  import opened Wrappers

  // The error codes the core reports (values as in the public enumeration).
  const NONE: int := 0
  const NO_MEMORY: int := 1
  const NEW_OBJECT: int := 2
  const INVALID_ID: int := 3
  const INVALID_OBJECT: int := 4
  const INVALID_STATE: int := 5
  const CONFLICT: int := 6
  const NOT_FOUND: int := 7
  const IMPORT: int := 8
  // Codes the .c files use beyond the enumeration shown in the header; any
  // distinct values serve, the model only compares them.
  const NO_PLUGIN: int := 12
  const NO_EXTPOINT: int := 13
  const LOAD: int := 14
  const NO_OBJECT: int := 15
  const NO_FILE: int := 16
  const OPEN_FILE: int := 17
  const NO_ATTRIBUTE: int := 18
  const INVALID_ATTRIBUTE: int := 19
  const NO_TYPE: int := 20

  class LastError {
    var code: int
    var message: Option<string>

    /** The slot before any error was reported: code 0 and no message. */
    constructor ()
      ensures code == NONE && message == None
    {
      code := NONE;
      message := None;
    }

    /** gimo_set_error_full: the code always; the message only when one is given. */
    method SetErrorFull(c: int, format: Option<string>)
      modifies this
      ensures code == c
      ensures message == if format.Some? then format else old(message)
    {
      code := c;
      if format.Some? {
        message := format;
      }
    }

    /** gimo_set_error: a new code, and any earlier message stays. */
    method SetError(c: int)
      modifies this
      ensures code == c && message == old(message)
    {
      SetErrorFull(c, None);
    }

    /** gimo_set_error_string: a new code and message. */
    method SetErrorString(c: int, s: Option<string>)
      modifies this
      ensures code == c
      ensures message == if s.Some? then s else old(message)
    {
      SetErrorFull(c, s);
    }

    /** gimo_set_error_return_val: report the code, then hand back the value. */
    method SetErrorReturnVal<T>(c: int, v: T) returns (r: T)
      modifies this
      ensures r == v && code == c && message == old(message)
    {
      SetError(c);
      r := v;
    }

    /** gimo_get_error: the code most recently set. */
    function GetError(): int
      reads this
    {
      code
    }

    /**
     * gimo_dup_error_string: the stored message if any, otherwise the code's
     * name from the error table (NULL for a code the table lacks).
     */
    function DupErrorString(names: int -> Option<string>): (r: Option<string>)
      reads this
      ensures message.Some? ==> r == message
      ensures message.None? ==> r == names(code)
    {
      if message.Some? then message else names(code)
    }

    /** gimo_clear_error */
    method ClearError()
      modifies this
      ensures code == NONE && message == None
    {
      code := NONE;
      message := None;
    }
  }

  /** Reporting a code, then reading it back, gives that code; a later plain code keeps the message. */
  method SetThenGet(e: LastError, c1: int, c2: int, m: string) returns (first: int, second: int, text: Option<string>)
    modifies e
    ensures first == c1 && second == c2 && text == Some(m)
  {
    e.SetErrorFull(c1, Some(m));
    first := e.GetError();
    e.SetError(c2);
    second := e.GetError();
    text := e.DupErrorString(_ => None);
  }
}
