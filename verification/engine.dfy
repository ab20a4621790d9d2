/**
 * What the two façades share: the error results they return, and the
 * observable effect of one call on the store.
 */
module Engine {
  import opened Wrappers
  import opened Database

  datatype Error =
    | UndefinedEvent(event: string)
    | Store(cause: DbError)
    | Open(message: string)
  {
    /** `errors.New("undefined event: " + event)`; other messages come from the driver. */
    function Message(): string
      requires !Store?
    {
      match this
      case UndefinedEvent(event) => "undefined event: " + event
      case Open(message) => message
    }
  }

  /** The table after a call, the error it returned, and the statements it sent. */
  datatype Effect = Effect(table: Table, err: Option<Error>, sent: seq<string>)

  /** `DB.Exec` of one statement: one round trip; a failed statement changes nothing. */
  function Send(t: Table, text: string): (r: Effect)
    ensures r.sent == [text]
    ensures r.err.Some? ==> r.table == t && r.err.value.Store?
  {
    match Exec(t, text)
    case Success(t') => Effect(t', None, [text])
    case Failure(e) => Effect(t, Some(Store(e)), [text])
  }

  /**
   * Calls made one after another on one store, stopping at the first error
   * as a caller checking `err` would: the table the last call leaves, its
   * error, and every statement sent.
   */
  function Serial(call: (Table, string) -> Effect, t: Table, names: seq<string>): Effect
    decreases |names|
  {
    if |names| == 0 then Effect(t, None, [])
    else
      var first := call(t, names[0]);
      if first.err.Some? then first
      else
        var rest := Serial(call, first.table, names[1..]);
        Effect(rest.table, rest.err, first.sent + rest.sent)
  }
}
