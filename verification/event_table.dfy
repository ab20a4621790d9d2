/**
 * Transition rules and the name-indexed event table built from them
 * (the `Event` struct and the indexing loop shared by `fsm.NewConfig`
 * and `hsfsm.NewFSM`).
 */
module EventTable {
  import opened Wrappers

  /** One declared rule: event `name` moves any state in `src` to `dst`. */
  datatype Event = Event(name: string, src: seq<string>, dst: string)

  /** Go's zero `Event`, what a map index yields for a missing key. */
  const ZeroEvent := Event("", [], "")

  /** Go's `events[name]`: the stored event, or the zero `Event` when absent. */
  function Lookup(m: map<string, Event>, name: string): (r: Event)
    ensures name in m ==> r == m[name]
    ensures name !in m ==> r.src == [] && r.dst == ""
  {
    if name in m then m[name] else ZeroEvent
  }

  /** Reference meaning of the index: the LAST declared event carrying `name`. */
  function LastNamed(events: seq<Event>, name: string): (r: Option<Event>)
    ensures r.Some? <==> exists i :: 0 <= i < |events| && events[i].name == name
    ensures r.Some? ==> r.value.name == name
    ensures r.Some? ==>
              exists i :: 0 <= i < |events| && events[i] == r.value
                          && forall j :: i < j < |events| ==> events[j].name != name
  {
    if |events| == 0 then None
    else if events[|events| - 1].name == name then
      Some(events[|events| - 1])
    else
      var r := LastNamed(events[..|events| - 1], name);
      assert forall i :: 0 <= i < |events| - 1 ==> events[..|events| - 1][i] == events[i];
      r
  }

  /**
   * Builds the name-indexed table: every event is stored under its name, and
   * when names repeat the later declaration overwrites the earlier one.
   */
  method Index(events: seq<Event>) returns (m: map<string, Event>)
    ensures forall name :: Get(m, name) == LastNamed(events, name)
  {
    m := map[];
    var i := 0;
    while i < |events|
      invariant 0 <= i <= |events|
      invariant forall name :: Get(m, name) == LastNamed(events[..i], name)
    {
      assert events[..i + 1][..i] == events[..i];
      m := m[events[i].name := events[i]];
      i := i + 1;
    }
    assert events[..|events|] == events;
  }

  /** Two tables that agree on every lookup are the same table. */
  lemma GetExtensional(m1: map<string, Event>, m2: map<string, Event>)
    requires forall name :: Get(m1, name) == Get(m2, name)
    ensures m1 == m2
  {
    assert forall name :: name in m1 <==> Get(m1, name).Some?;
    assert m1.Keys == m2.Keys;
  }

  /** The index of a list is unique: any two tables built from it are equal. */
  lemma IndexUnique(events: seq<Event>, m1: map<string, Event>, m2: map<string, Event>)
    requires forall name :: Get(m1, name) == LastNamed(events, name)
    requires forall name :: Get(m2, name) == LastNamed(events, name)
    ensures m1 == m2
  {
    GetExtensional(m1, m2);
  }

  /** Every stored event is one of the declared events, filed under its own name. */
  lemma IndexedFromList(events: seq<Event>, m: map<string, Event>, name: string)
    requires forall n :: Get(m, n) == LastNamed(events, n)
    requires name in m
    ensures m[name].name == name
    ensures m[name] in events
  {
    assert Get(m, name) == LastNamed(events, name);
  }
}
