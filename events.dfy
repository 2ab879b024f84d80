/**
 * `EventManager` (game/src/events/events.cpp): per event type, a list of
 * handler delegates. A handle names a slot by (type, index); removal only
 * unsets the slot, so indices stay valid. An event is offered to the
 * type's delegates from the most recently created to the oldest, skipping
 * unset ones, until one returns `true`.
 *
 * A delegate is identified by `id`; what it returns for an event is the
 * parameter `respond`, and every call made is recorded in `calls`.
 */
module Events {
  import opened Wrappers

  /** `sf::Event::Count`: the number of SFML event types (SFML 2.5). */
  const EventTypeCount := 23

  datatype Delegate = Unset | Bound(id: nat)
  datatype Event = Event(eventType: nat, data: nat)
  /** `EventFuncHandle`: the event type and a `uint32_t` index. */
  datatype Handle = Handle(eventType: nat, idx: nat)

  predicate Takes(d: Delegate, e: Event, respond: (nat, Event) -> bool)
  {
    d.Bound? && respond(d.id, e)
  }

  /** Scanning `handlers[..k]` from the top: the index of the first delegate that takes the event. */
  function Responder(handlers: seq<Delegate>, k: nat, e: Event, respond: (nat, Event) -> bool): Option<nat>
    requires k <= |handlers|
    decreases k
  {
    if k == 0 then None
    else if Takes(handlers[k - 1], e, respond) then Some(k - 1)
    else Responder(handlers, k - 1, e, respond)
  }

  /** The delegates called while scanning `handlers[..k]` from the top: every set one, down to the one that takes the event. */
  function CallsMade(handlers: seq<Delegate>, k: nat, e: Event, respond: (nat, Event) -> bool): seq<nat>
    requires k <= |handlers|
    decreases k
  {
    if k == 0 then []
    else if handlers[k - 1].Unset? then CallsMade(handlers, k - 1, e, respond)
    else if respond(handlers[k - 1].id, e) then [handlers[k - 1].id]
    else [handlers[k - 1].id] + CallsMade(handlers, k - 1, e, respond)
  }

  /**
   * The most recent delegate wins: the responder takes the event and no
   * newer one does; with no responder, no delegate takes it.
   */
  lemma {:induction false} ResponderIsNewest(handlers: seq<Delegate>, k: nat, e: Event, respond: (nat, Event) -> bool)
    requires k <= |handlers|
    ensures var r := Responder(handlers, k, e, respond);
      (r.Some? ==> r.value < k && Takes(handlers[r.value], e, respond) &&
                   forall j | r.value < j < k :: !Takes(handlers[j], e, respond)) &&
      (r.None? ==> forall j | 0 <= j < k :: !Takes(handlers[j], e, respond))
    decreases k
  {
    if k > 0 && !Takes(handlers[k - 1], e, respond) {
      ResponderIsNewest(handlers, k - 1, e, respond);
    }
  }

  /** Only set delegates are ever called: each call is the id of a set slot below `k`. */
  lemma {:induction false} OnlySetDelegatesCalled(handlers: seq<Delegate>, k: nat, e: Event, respond: (nat, Event) -> bool)
    requires k <= |handlers|
    ensures forall c | c in CallsMade(handlers, k, e, respond) :: exists j | 0 <= j < k :: handlers[j] == Bound(c)
    decreases k
  {
    if k > 0 {
      OnlySetDelegatesCalled(handlers, k - 1, e, respond);
      if handlers[k - 1].Bound? {
        assert handlers[k - 1] == Bound(handlers[k - 1].id);
      }
    }
  }

  /** The handler list of a type, empty when the map has no entry (what `operator[]` inserts). */
  function ListOf(handlers: map<nat, seq<Delegate>>, t: nat): seq<Delegate>
  {
    if t in handlers then handlers[t] else []
  }

  class EventManager {
    var handlers: map<nat, seq<Delegate>>
    var renderer: Option<nat>
    var calls: seq<nat>

    constructor ()
      ensures handlers == map[] && renderer == None && calls == []
    {
      handlers := map[];
      renderer := None;
      calls := [];
    }

    method Initialize(r: nat)
      modifies this
      ensures renderer == Some(r) && handlers == old(handlers) && calls == old(calls)
    {
      renderer := Some(r);
    }

    /**
     * `ProcessEvent`: offers the event to its type's delegates from the
     * newest to the oldest and stops at the first that returns `true`.
     * Returns the index of that delegate.
     */
    method ProcessEvent(e: Event, respond: (nat, Event) -> bool) returns (takenBy: Option<nat>)
      modifies this
      ensures handlers == old(handlers) && renderer == old(renderer)
      ensures var list := ListOf(handlers, e.eventType);
        takenBy == Responder(list, |list|, e, respond) &&
        calls == old(calls) + CallsMade(list, |list|, e, respond)
    {
      var list := ListOf(handlers, e.eventType);
      var i := |list|;
      takenBy := None;
      while i > 0
        invariant 0 <= i <= |list|
        invariant handlers == old(handlers) && renderer == old(renderer)
        invariant old(calls) + CallsMade(list, |list|, e, respond) == calls + CallsMade(list, i, e, respond)
        invariant Responder(list, |list|, e, respond) == Responder(list, i, e, respond)
      {
        var handler := list[i - 1];
        if handler.Bound? {
          calls := calls + [handler.id];
          if respond(handler.id, e) {
            return Some(i - 1);
          }
        }
        i := i - 1;
      }
    }

    /** `CreateHandler`: appends an unset delegate to the type's list; the handle names it. */
    method CreateHandler(t: nat) returns (h: Handle)
      modifies this
      ensures h == Handle(t, |ListOf(old(handlers), t)|)
      ensures handlers == old(handlers)[t := ListOf(old(handlers), t) + [Unset]]
      ensures renderer == old(renderer) && calls == old(calls)
    {
      var list := ListOf(handlers, t);
      handlers := handlers[t := list + [Unset]];
      h := Handle(t, |list|);
    }

    /** The caller storing a delegate through the reference `CreateHandler` returned. */
    method Assign(h: Handle, d: Delegate)
      requires h.eventType in handlers && h.idx < |handlers[h.eventType]|
      modifies this
      ensures handlers == old(handlers)[h.eventType := old(handlers)[h.eventType][h.idx := d]]
      ensures renderer == old(renderer) && calls == old(calls)
    {
      handlers := handlers[h.eventType := handlers[h.eventType][h.idx := d]];
    }

    /**
     * `RemoveHandler`: false for a type past `Count` or an index past the
     * end of the list; otherwise unsets just that slot. Looking the type up inserts an empty
     * list for a type never seen.
     */
    method RemoveHandler(h: Handle) returns (ok: bool)
      modifies this
      ensures ok <==> h.eventType < EventTypeCount && h.idx < |ListOf(old(handlers), h.eventType)|
      ensures h.eventType >= EventTypeCount ==> handlers == old(handlers)
      ensures h.eventType < EventTypeCount && !ok ==>
        handlers == old(handlers)[h.eventType := ListOf(old(handlers), h.eventType)]
      ensures ok ==> handlers == old(handlers)[h.eventType := ListOf(old(handlers), h.eventType)[h.idx := Unset]]
      ensures renderer == old(renderer) && calls == old(calls)
    {
      if h.eventType >= EventTypeCount {
        return false;
      }
      var list := ListOf(handlers, h.eventType);
      handlers := handlers[h.eventType := list];
      if h.idx >= |list| {
        return false;
      }
      handlers := handlers[h.eventType := list[h.idx := Unset]];
      return true;
    }

    /** `Dispose`: forgets the renderer and every handler. */
    method Dispose()
      modifies this
      ensures handlers == map[] && renderer == None && calls == old(calls)
    {
      renderer := None;
      handlers := map[];
    }

    /** `ManuallyIssueEvent` is `ProcessEvent`. */
    method ManuallyIssueEvent(e: Event, respond: (nat, Event) -> bool) returns (takenBy: Option<nat>)
      modifies this
      ensures handlers == old(handlers) && renderer == old(renderer)
      ensures var list := ListOf(handlers, e.eventType);
        takenBy == Responder(list, |list|, e, respond) &&
        calls == old(calls) + CallsMade(list, |list|, e, respond)
    {
      takenBy := ProcessEvent(e, respond);
    }
  }
}
