/** The application-wide event bus and the table of event names. */
module Events {
  import opened Optional

  /** A registered callback. Callbacks are compared by identity only
      (`cb !== callback`), so an id is all the bus needs to know. */
  type CallbackId = nat

  /** The `events` dictionary: event name to the ordered list of callbacks. */
  type Registry = map<string, seq<CallbackId>>

  /** One call `callback(data)` made by `emit`. */
  datatype Invocation<D> = Invocation(callback: CallbackId, data: D)

  /** The callbacks `emit` would call for `event`. */
  function HandlersOf(r: Registry, event: string): seq<CallbackId> {
    if event in r then r[event] else []
  }

  /** Occurrences of `cb` in a handler list. */
  function Count(s: seq<CallbackId>, cb: CallbackId): nat {
    if s == [] then 0 else (if s[0] == cb then 1 else 0) + Count(s[1..], cb)
  }

  /** `list.filter(cb => cb !== callback)` */
  function Without(s: seq<CallbackId>, cb: CallbackId): (r: seq<CallbackId>)
    ensures cb !in r
    ensures |r| <= |s|
  {
    if s == [] then [] else (if s[0] == cb then [] else [s[0]]) + Without(s[1..], cb)
  }

  /** The registry after `on(event, callback)`: the callback is appended to the
      event's list (created if absent) and no other list changes. */
  function Registered(r: Registry, event: string, cb: CallbackId): (r': Registry)
    ensures event in r' && HandlersOf(r', event) == HandlersOf(r, event) + [cb]
    ensures forall e | e != event :: HandlersOf(r', e) == HandlersOf(r, e)
    ensures r'.Keys == r.Keys + {event}
  {
    r[event := HandlersOf(r, event) + [cb]]
  }

  /** The registry after `off(event, callback)`: every occurrence of the
      callback leaves the event's list; an event without a list is left alone. */
  function Unregistered(r: Registry, event: string, cb: CallbackId): (r': Registry)
    ensures HandlersOf(r', event) == Without(HandlersOf(r, event), cb)
    ensures forall e | e != event :: HandlersOf(r', e) == HandlersOf(r, e)
    ensures event !in r ==> r' == r
    ensures r'.Keys == r.Keys
  {
    if event in r then r[event := Without(r[event], cb)] else r
  }

  class EventBus<D> {
    var events: Registry

    constructor()
      ensures events == map[]
    {
      events := map[];
    }

    function Handlers(event: string): seq<CallbackId>
      reads this
    {
      HandlersOf(events, event)
    }

    /** `on(event, callback)` */
    method On(event: string, callback: CallbackId)
      modifies this
      ensures events == Registered(old(events), event, callback)
    {
      if event !in events {
        events := events[event := []];
      }
      events := events[event := events[event] + [callback]];
    }

    /** `off(event, callback)` */
    method Off(event: string, callback: CallbackId)
      modifies this
      ensures events == Unregistered(old(events), event, callback)
    {
      if event in events {
        events := events[event := Without(events[event], callback)];
      }
    }

    /** `emit(event, data)`: calls every registered callback once, in
        registration order, with the same data. It has no `modifies` clause:
        emitting never changes the registry. */
    method Emit(event: string, data: D) returns (calls: seq<Invocation<D>>)
      ensures |calls| == |Handlers(event)|
      ensures forall i | 0 <= i < |calls| :: calls[i] == Invocation(Handlers(event)[i], data)
    {
      calls := [];
      if event in events {
        var handlers := events[event];
        for i := 0 to |handlers|
          invariant |calls| == i
          invariant forall j | 0 <= j < i :: calls[j] == Invocation(handlers[j], data)
        {
          calls := calls + [Invocation(handlers[i], data)];
        }
      }
    }
  }

  // ---------------------------------------------------------------------------
  // Properties of the registry operations

  lemma {:induction false} CountAppend(a: seq<CallbackId>, b: seq<CallbackId>, cb: CallbackId)
    ensures Count(a + b, cb) == Count(a, cb) + Count(b, cb)
  {
    if a == [] {
      assert a + b == b;
    } else {
      assert (a + b)[1..] == a[1..] + b;
      CountAppend(a[1..], b, cb);
    }
  }

  /** `on` does not deduplicate: registering a callback twice makes `emit`
      call it two more times. */
  lemma OnTwiceCallsTwice(r: Registry, event: string, cb: CallbackId)
    ensures Count(HandlersOf(Registered(Registered(r, event, cb), event, cb), event), cb)
      == Count(HandlersOf(r, event), cb) + 2
  {
    var h := HandlersOf(r, event);
    assert HandlersOf(Registered(Registered(r, event, cb), event, cb), event) == h + [cb] + [cb];
    CountAppend(h + [cb], [cb], cb);
    CountAppend(h, [cb], cb);
  }

  /** Filtering distributes over concatenation, so `off` keeps the relative
      order of the callbacks it leaves. */
  lemma {:induction false} WithoutAppend(a: seq<CallbackId>, b: seq<CallbackId>, cb: CallbackId)
    ensures Without(a + b, cb) == Without(a, cb) + Without(b, cb)
  {
    if a == [] {
      assert a + b == b;
    } else {
      assert (a + b)[1..] == a[1..] + b;
      WithoutAppend(a[1..], b, cb);
    }
  }

  /** `off` removes exactly the occurrences of the callback: every other
      callback keeps its number of registrations. */
  lemma {:induction false} WithoutKeepsOthers(s: seq<CallbackId>, cb: CallbackId, other: CallbackId)
    requires other != cb
    ensures Count(Without(s, cb), other) == Count(s, other)
  {
    if s != [] {
      WithoutKeepsOthers(s[1..], cb, other);
      CountAppend(if s[0] == cb then [] else [s[0]], Without(s[1..], cb), other);
    }
  }

  lemma {:induction false} WithoutAbsent(s: seq<CallbackId>, cb: CallbackId)
    requires cb !in s
    ensures Without(s, cb) == s
  {
    if s != [] {
      assert s[0] in s;
      assert forall x | x in s[1..] :: x in s;
      WithoutAbsent(s[1..], cb);
      assert [s[0]] + s[1..] == s;
    }
  }

  /** `off` after `on` restores the list, when the callback was not there. */
  lemma OffUndoesOn(r: Registry, event: string, cb: CallbackId)
    requires cb !in HandlersOf(r, event)
    ensures HandlersOf(Unregistered(Registered(r, event, cb), event, cb), event) == HandlersOf(r, event)
  {
    var h := HandlersOf(r, event);
    WithoutAppend(h, [cb], cb);
    WithoutAbsent(h, cb);
    assert Without([cb], cb) == [];
    assert h + [] == h;
  }

  // ---------------------------------------------------------------------------
  // The EVENTS table

  datatype EventName =
    | ProfileSelected
    | NicknameSelected
    | ProfilesUpdated
    | CategoriesUpdated
    | MessageCopied
    | SettingsToggle
    | ViewChanged
    | AppReady

  /** `EVENTS[name]`; `VIEW_CHANGED` is commented out of the table, so it is
      undefined. */
  function EventValue(e: EventName): Option<string> {
    match e
    case ProfileSelected => Some("profile:selected")
    case NicknameSelected => Some("nickname:selected")
    case ProfilesUpdated => Some("profiles:updated")
    case CategoriesUpdated => Some("categories:updated")
    case MessageCopied => Some("message:copied")
    case SettingsToggle => Some("settings:toggle")
    case ViewChanged => None
    case AppReady => Some("app:ready")
  }

  /** The dictionary key the bus files an event under: an undefined name is
      converted to the property key "undefined". */
  function BusKey(e: EventName): string {
    match EventValue(e)
    case Some(s) => s
    case None => "undefined"
  }

  /** The defined names are pairwise distinct, VIEW_CHANGED is undefined, and
      no two events share a bus key (so subscribing to and emitting
      VIEW_CHANGED use the same key, and no other event). */
  lemma EventKeysDistinct(a: EventName, b: EventName)
    ensures EventValue(a).Some? && EventValue(b).Some? && a != b ==> EventValue(a) != EventValue(b)
    ensures EventValue(ViewChanged).None?
    ensures a != b ==> BusKey(a) != BusKey(b)
  {
  }
}
