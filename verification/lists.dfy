/** The two list idioms the services apply to a record's phrases or
    nicknames, by string id: `list.find(x => String(x.id) === String(id))`
    and `list.filter(x => String(x.id) !== String(id))`. */
module Lists {
  import opened Optional

  /** The position `find` stops at: the first element with the id. */
  function FindFirst<T>(xs: seq<T>, idOf: T -> string, id: string): (r: Option<nat>)
    ensures r.Some? ==> r.value < |xs| && idOf(xs[r.value]) == id
    ensures r.Some? ==> forall j | 0 <= j < r.value :: idOf(xs[j]) != id
    ensures r.None? <==> forall j | 0 <= j < |xs| :: idOf(xs[j]) != id
  {
    if xs == [] then None
    else if idOf(xs[0]) == id then Some(0)
    else
      match FindFirst(xs[1..], idOf, id)
      case None => None
      case Some(i) => Some(i + 1)
  }

  /** What `filter` keeps: every element whose id differs, in order. */
  function WithoutId<T>(xs: seq<T>, idOf: T -> string, id: string): (r: seq<T>)
    ensures forall j | 0 <= j < |r| :: idOf(r[j]) != id
    ensures |r| <= |xs|
  {
    if xs == [] then []
    else (if idOf(xs[0]) == id then [] else [xs[0]]) + WithoutId(xs[1..], idOf, id)
  }

  /** `filter` drops every element with the id and keeps every other element
      as many times as it occurs. */
  lemma {:induction false} WithoutIdCounts<T>(xs: seq<T>, idOf: T -> string, id: string)
    ensures multiset(WithoutId(xs, idOf, id)) <= multiset(xs)
    ensures forall x | x in xs :: multiset(WithoutId(xs, idOf, id))[x] == (if idOf(x) == id then 0 else multiset(xs)[x])
  {
    if xs != [] {
      var h := if idOf(xs[0]) == id then [] else [xs[0]];
      var tail := xs[1..];
      var rest := WithoutId(tail, idOf, id);
      WithoutIdCounts(tail, idOf, id);
      assert xs == [xs[0]] + tail;
      assert multiset(xs) == multiset{xs[0]} + multiset(tail);
      assert multiset(WithoutId(xs, idOf, id)) == multiset(h) + multiset(rest);
      forall x | x in xs
        ensures multiset(WithoutId(xs, idOf, id))[x] == (if idOf(x) == id then 0 else multiset(xs)[x])
      {
        if x !in tail {
          assert multiset(rest)[x] <= multiset(tail)[x] == 0;
        }
      }
    }
  }

  /** Filtering distributes over concatenation, so the kept elements keep
      their relative order. */
  lemma {:induction false} WithoutIdAppend<T>(a: seq<T>, b: seq<T>, idOf: T -> string, id: string)
    ensures WithoutId(a + b, idOf, id) == WithoutId(a, idOf, id) + WithoutId(b, idOf, id)
  {
    if a == [] {
      assert a + b == b;
    } else {
      var h := if idOf(a[0]) == id then [] else [a[0]];
      assert (a + b)[0] == a[0] && (a + b)[1..] == a[1..] + b;
      assert WithoutId(a + b, idOf, id) == h + WithoutId(a[1..] + b, idOf, id);
      WithoutIdAppend(a[1..], b, idOf, id);
      assert WithoutId(a, idOf, id) == h + WithoutId(a[1..], idOf, id);
    }
  }

  /** A list without the id comes back unchanged. */
  lemma {:induction false} WithoutIdAbsent<T>(xs: seq<T>, idOf: T -> string, id: string)
    requires forall j | 0 <= j < |xs| :: idOf(xs[j]) != id
    ensures WithoutId(xs, idOf, id) == xs
  {
    if xs != [] {
      WithoutIdAbsent(xs[1..], idOf, id);
      assert [xs[0]] + xs[1..] == xs;
    }
  }

  /** Filtering twice by the same id is filtering once. */
  lemma WithoutIdIdempotent<T>(xs: seq<T>, idOf: T -> string, id: string)
    ensures WithoutId(WithoutId(xs, idOf, id), idOf, id) == WithoutId(xs, idOf, id)
  {
    WithoutIdAbsent(WithoutId(xs, idOf, id), idOf, id);
  }

  /** Removing the id of an element just appended, when no earlier element
      has it, gives back the list before the append. */
  lemma RemoveAppended<T>(xs: seq<T>, x: T, idOf: T -> string)
    requires forall j | 0 <= j < |xs| :: idOf(xs[j]) != idOf(x)
    ensures WithoutId(xs + [x], idOf, idOf(x)) == xs
  {
    WithoutIdAppend(xs, [x], idOf, idOf(x));
    WithoutIdAbsent(xs, idOf, idOf(x));
    assert WithoutId([x], idOf, idOf(x)) == [];
    assert xs + [] == xs;
  }

  /** An element appended with a fresh id is the one `find` returns. */
  lemma FindAppended<T>(xs: seq<T>, x: T, idOf: T -> string)
    requires forall j | 0 <= j < |xs| :: idOf(xs[j]) != idOf(x)
    ensures FindFirst(xs + [x], idOf, idOf(x)) == Some(|xs|)
  {
    var r := FindFirst(xs + [x], idOf, idOf(x));
    assert (xs + [x])[|xs|] == x;
    assert forall j | 0 <= j < |xs| :: (xs + [x])[j] == xs[j];
  }
}
