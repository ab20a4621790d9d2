/**
 * The reference meaning of the state machine, independent of SQL: what one
 * event does to an entity's stored state, and what a sequence of events does.
 */
module Machine {
  import opened Wrappers
  import opened EventTable

  /**
   * The state after `ev` fires on an entity whose stored state is `current`
   * (`None` when it has no row yet): first contact creates the entity at
   * `init`, without applying the transition; afterwards a source state moves
   * to `ev.dst` and any other state stays.
   */
  function Next(current: Option<string>, init: string, ev: Event): string
  {
    match current
    case None => init
    case Some(s) => if s in ev.src then ev.dst else s
  }

  /** The stored state after `events` fire one after another. */
  function Run(current: Option<string>, init: string, events: seq<Event>): Option<string>
    decreases |events|
  {
    if |events| == 0 then current
    else Run(Some(Next(current, init, events[0])), init, events[1..])
  }

  function Repeat(ev: Event, n: nat): (r: seq<Event>)
    ensures |r| == n && forall i :: 0 <= i < n ==> r[i] == ev
  {
    if n == 0 then [] else [ev] + Repeat(ev, n - 1)
  }

  /**
   * Convergence: however many times an event fires on an entity that is in one
   * of its sources, the entity ends at the destination.
   */
  lemma {:induction false} RepeatConverges(s: string, init: string, ev: Event, n: nat)
    requires s in ev.src || s == ev.dst
    requires n > 0
    ensures Run(Some(s), init, Repeat(ev, n)) == Some(ev.dst)
    decreases n
  {
    var evs := Repeat(ev, n);
    assert evs[0] == ev && evs[1..] == Repeat(ev, n - 1);
    if n > 1 {
      RepeatConverges(Next(Some(s), init, ev), init, ev, n - 1);
    }
  }

  /** A run never loses the entity once it exists, and never creates it from nothing. */
  lemma {:induction false} RunDefined(current: Option<string>, init: string, events: seq<Event>)
    ensures Run(current, init, events).Some? <==> current.Some? || |events| > 0
    decreases |events|
  {
    if |events| > 0 {
      RunDefined(Some(Next(current, init, events[0])), init, events[1..]);
    }
  }
}
