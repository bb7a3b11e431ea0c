/** What the components put on the event bus: an event name with its data
    object. A component method returns the emissions it makes, in order, so
    that "emits once", "emits nothing" and "emits after the update" can be
    stated about its result. */
module Signals {
  import opened Optional
  import opened Records
  import opened Events

  /** The `{ baseLang_value, targetLang_value }` pair a phrase's `{name}` is
      filled from. */
  datatype Selection = Selection(baseValue: string, targetValue: string)

  /** `{ baseLang_value: '', targetLang_value: '' }` */
  const NoSelection := Selection("", "")

  /** The data objects passed to `emit`: a selection pair, a
      `{ profile, nickname }` choice (`null` is `None`), the
      `{ copied, original }` texts of a copy, a view name, or no data. */
  datatype Payload =
    | SelectionData(selection: Selection)
    | ChoiceData(profile: Option<Profile>, nickname: Option<Nickname>)
    | CopiedData(copied: string, original: string)
    | ViewData(view: string)
    | NoData

  datatype Emission = Emission(event: EventName, data: Payload)

  /** How many of the emissions carry the event. */
  function CountOf(es: seq<Emission>, e: EventName): (n: nat)
    ensures n <= |es|
    ensures n == 0 <==> forall i | 0 <= i < |es| :: es[i].event != e
  {
    if es == [] then 0
    else CountOf(es[..|es| - 1], e) + (if es[|es| - 1].event == e then 1 else 0)
  }

  /** Counting is additive over concatenation. */
  lemma {:induction false} CountOfAppend(a: seq<Emission>, b: seq<Emission>, e: EventName)
    ensures CountOf(a + b, e) == CountOf(a, e) + CountOf(b, e)
    decreases |b|
  {
    if b == [] {
      assert a + b == a;
    } else {
      var b' := b[..|b| - 1];
      assert (a + b)[..|a + b| - 1] == a + b';
      assert (a + b)[|a + b| - 1] == b[|b| - 1];
      CountOfAppend(a, b', e);
    }
  }
}
