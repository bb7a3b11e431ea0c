/** The application database: a `profiles` and a `categories` object store,
    the generic operations on them, the `getAllCategories` sort, and the
    schema version 2 upgrade. */
module Database {
  import opened Optional
  import opened Text
  import opened Store
  import opened Records
  import opened Events

  datatype TableName = ProfilesTable | CategoriesTable

  /** What a write did, by key. */
  datatype Write = PutRow(key: string) | UpdateRow(key: string) | DeleteRow(key: string)

  /** One observable step: a store write, or an `eventBus.emit` call. */
  datatype Effect = Wrote(table: TableName, write: Write) | Emitted(event: EventName)

  /** A write followed by an announcement, as one extension of the trace. */
  lemma TraceTwo(t: seq<Effect>, a: Effect, b: Effect)
    ensures t + [a] + [b] == t + [a, b]
  {
  }

  /** Each row is filed under the id of its record. */
  predicate KeyedById(t: Table<Profile>) {
    forall i | 0 <= i < |t| :: t[i].key == t[i].record.id
  }

  predicate CategoriesKeyedById(t: Table<Category>) {
    forall i | 0 <= i < |t| :: t[i].key == t[i].record.id
  }

  // ---------------------------------------------------------------------------
  // `getAllCategories`: a stable sort by `order`

  predicate SortedByOrder(cs: seq<Category>) {
    forall i, j | 0 <= i < j < |cs| :: cs[i].order <= cs[j].order
  }

  /** The categories with a given `order`, in sequence order. A sort is stable
      exactly when it keeps each of these subsequences. */
  function WithOrder(cs: seq<Category>, o: int): seq<Category> {
    if cs == [] then [] else (if cs[0].order == o then [cs[0]] else []) + WithOrder(cs[1..], o)
  }

  /** Places `c` before the first category whose order is not below its own. */
  function InsertByOrder(c: Category, sorted: seq<Category>): (r: seq<Category>)
    ensures multiset(r) == multiset(sorted) + multiset{c}
    ensures forall o :: WithOrder(r, o) == (if c.order == o then [c] else []) + WithOrder(sorted, o)
    ensures SortedByOrder(sorted) ==> SortedByOrder(r)
  {
    if sorted == [] || c.order <= sorted[0].order then
      assert ([c] + sorted)[1..] == sorted;
      [c] + sorted
    else
      var rest := InsertByOrder(c, sorted[1..]);
      InsertStep(c, sorted, rest);
      [sorted[0]] + rest
  }

  /** The step of `InsertByOrder` past a smaller head. */
  lemma InsertStep(c: Category, sorted: seq<Category>, rest: seq<Category>)
    requires sorted != [] && sorted[0].order < c.order
    requires multiset(rest) == multiset(sorted[1..]) + multiset{c}
    requires forall o :: WithOrder(rest, o) == (if c.order == o then [c] else []) + WithOrder(sorted[1..], o)
    requires SortedByOrder(sorted[1..]) ==> SortedByOrder(rest)
    ensures multiset([sorted[0]] + rest) == multiset(sorted) + multiset{c}
    ensures forall o :: WithOrder([sorted[0]] + rest, o) == (if c.order == o then [c] else []) + WithOrder(sorted, o)
    ensures SortedByOrder(sorted) ==> SortedByOrder([sorted[0]] + rest)
  {
    assert sorted == [sorted[0]] + sorted[1..];
    forall o ensures WithOrder([sorted[0]] + rest, o) == (if c.order == o then [c] else []) + WithOrder(sorted, o) {
      InsertStepWithOrder(c, sorted, rest, o);
    }
    InsertStepSorted(c, sorted, rest);
  }

  lemma InsertStepWithOrder(c: Category, sorted: seq<Category>, rest: seq<Category>, o: int)
    requires sorted != [] && sorted[0].order < c.order
    requires WithOrder(rest, o) == (if c.order == o then [c] else []) + WithOrder(sorted[1..], o)
    ensures WithOrder([sorted[0]] + rest, o) == (if c.order == o then [c] else []) + WithOrder(sorted, o)
  {
    assert sorted == [sorted[0]] + sorted[1..];
    WithOrderCons(sorted[0], rest, o);
    WithOrderCons(sorted[0], sorted[1..], o);
    var w := WithOrder(sorted[1..], o);
    if c.order == o {
      assert WithOrder(sorted, o) == w;
      assert WithOrder([sorted[0]] + rest, o) == [c] + w;
    } else {
      assert WithOrder(rest, o) == w;
    }
  }

  lemma WithOrderCons(x: Category, rest: seq<Category>, o: int)
    ensures WithOrder([x] + rest, o) == (if x.order == o then [x] else []) + WithOrder(rest, o)
  {
    assert ([x] + rest)[1..] == rest;
  }

  lemma InsertStepSorted(c: Category, sorted: seq<Category>, rest: seq<Category>)
    requires sorted != [] && sorted[0].order < c.order
    requires multiset(rest) == multiset(sorted[1..]) + multiset{c}
    requires SortedByOrder(sorted[1..]) ==> SortedByOrder(rest)
    ensures SortedByOrder(sorted) ==> SortedByOrder([sorted[0]] + rest)
  {
    if SortedByOrder(sorted) {
      forall x | x in rest ensures sorted[0].order <= x.order {
        assert x in multiset(rest);
        if x != c {
          assert x in sorted[1..];
          var k :| 0 <= k < |sorted[1..]| && sorted[1..][k] == x;
          assert sorted[k + 1] == x;
        }
      }
      assert SortedByOrder(sorted[1..]);
      SortedCons(sorted[0], rest);
    }
  }

  lemma SortedCons(x: Category, rest: seq<Category>)
    ensures SortedByOrder(rest) && (forall y | y in rest :: x.order <= y.order) ==> SortedByOrder([x] + rest)
  {
    if SortedByOrder(rest) && (forall y | y in rest :: x.order <= y.order) {
      forall i, j | 0 <= i < j < |[x] + rest|
        ensures ([x] + rest)[i].order <= ([x] + rest)[j].order
      {
        assert ([x] + rest)[j] == rest[j - 1];
        if i > 0 {
          assert ([x] + rest)[i] == rest[i - 1];
        } else {
          assert rest[j - 1] in rest;
        }
      }
    }
  }

  /** `categories.sort((a, b) => a.order - b.order)`: the result is ordered by
      `order`, holds the same categories, and keeps the relative order of
      categories with equal `order`. */
  function SortByOrder(cs: seq<Category>): (r: seq<Category>)
    ensures SortedByOrder(r)
    ensures multiset(r) == multiset(cs)
    ensures forall o :: WithOrder(r, o) == WithOrder(cs, o)
  {
    if cs == [] then []
    else
      assert cs == [cs[0]] + cs[1..];
      InsertByOrder(cs[0], SortByOrder(cs[1..]))
  }

  predicate StrictlyByOrder(cs: seq<Category>) {
    forall i, j | 0 <= i < j < |cs| :: cs[i].order < cs[j].order
  }

  /** The first elements agree: the smallest order is reached at the head of
      both, and only once in the strictly ordered one. */
  lemma HeadsAgree(a: seq<Category>, b: seq<Category>)
    requires SortedByOrder(a) && StrictlyByOrder(b) && multiset(a) == multiset(b) && a != []
    ensures b != [] && a[0] == b[0]
  {
    assert a[0] in multiset(a);
    assert a[0] in b;
    var i :| 0 <= i < |b| && b[i] == a[0];
    assert b[0] in multiset(b);
    assert b[0] in a;
    var j :| 0 <= j < |a| && a[j] == b[0];
    assert a[0].order <= a[j].order;
  }

  /** Two arrangements of the same categories that are both ordered, one of
      them strictly, are equal: with distinct orders the sort has one answer. */
  lemma {:induction false} SortedUnique(a: seq<Category>, b: seq<Category>)
    requires SortedByOrder(a) && StrictlyByOrder(b) && multiset(a) == multiset(b)
    ensures a == b
  {
    if a == [] {
      assert |b| == |multiset(b)|;
    } else {
      HeadsAgree(a, b);
      assert a == [a[0]] + a[1..] && b == [b[0]] + b[1..];
      assert multiset(a) == multiset{a[0]} + multiset(a[1..]);
      assert multiset(b) == multiset{b[0]} + multiset(b[1..]);
      assert multiset(a[1..]) == multiset(a) - multiset{a[0]};
      assert multiset(b[1..]) == multiset(b) - multiset{b[0]};
      SortedUnique(a[1..], b[1..]);
    }
  }

  // ---------------------------------------------------------------------------
  // The database

  class Database {
    var profiles: Table<Profile>
    var categories: Table<Category>
    /** Every write and every emit, in the order they happened. */
    var trace: seq<Effect>

    ghost predicate Valid()
      reads this
    {
      Ordered(profiles) && KeyedById(profiles) && Ordered(categories) && CategoriesKeyedById(categories)
    }

    constructor()
      ensures Valid() && profiles == [] && categories == [] && trace == []
    {
      profiles := [];
      categories := [];
      trace := [];
    }

    /** `get('profiles', id)` */
    method GetProfile(id: string) returns (p: Option<Profile>)
      requires Valid()
      ensures p == Get(profiles, id)
      ensures p.Some? <==> HasKey(profiles, id)
      ensures p.Some? ==> p.value.id == id && exists i | 0 <= i < |profiles| :: profiles[i].record == p.value
    {
      p := Get(profiles, id);
    }

    /** `get('categories', id)` */
    method GetCategory(id: string) returns (c: Option<Category>)
      requires Valid()
      ensures c == Get(categories, id)
      ensures c.Some? <==> HasKey(categories, id)
      ensures c.Some? ==> c.value.id == id && exists i | 0 <= i < |categories| :: categories[i].record == c.value
    {
      c := Get(categories, id);
    }

    /** `getAllProfiles()`: every profile, in ascending id order. */
    method GetAllProfiles() returns (ps: seq<Profile>)
      requires Valid()
      ensures |ps| == |profiles| && forall i | 0 <= i < |ps| :: ps[i] == profiles[i].record
      ensures forall i, j | 0 <= i < j < |ps| :: KeyLess(ps[i].id, ps[j].id)
    {
      ps := Values(profiles);
    }

    /** `getAllCategories()`: every category, ordered by `order`, categories
        with equal `order` in ascending id order. */
    method GetAllCategories() returns (cs: seq<Category>)
      ensures SortedByOrder(cs) && |cs| == |categories|
      ensures multiset(cs) == multiset(Values(categories))
      ensures forall o :: WithOrder(cs, o) == WithOrder(Values(categories), o)
    {
      var all := Values(categories);
      cs := SortByOrder(all);
      assert |multiset(cs)| == |cs| && |multiset(all)| == |all|;
    }

    /** `put('profiles', p)` */
    method PutProfile(p: Profile)
      requires Valid()
      modifies this
      ensures Valid()
      ensures profiles == Put(old(profiles), p.id, p) && categories == old(categories)
      ensures trace == old(trace) + [Wrote(ProfilesTable, PutRow(p.id))]
    {
      PutKeepsKeys(profiles, p);
      profiles := Put(profiles, p.id, p);
      trace := trace + [Wrote(ProfilesTable, PutRow(p.id))];
    }

    /** `put('categories', c)` */
    method PutCategory(c: Category)
      requires Valid()
      modifies this
      ensures Valid()
      ensures categories == Put(old(categories), c.id, c) && profiles == old(profiles)
      ensures trace == old(trace) + [Wrote(CategoriesTable, PutRow(c.id))]
    {
      PutKeepsCategoryKeys(categories, c);
      categories := Put(categories, c.id, c);
      trace := trace + [Wrote(CategoriesTable, PutRow(c.id))];
    }

    /** `update('profiles', id, updates)` */
    method UpdateProfile(id: string, u: ProfilePatch)
      requires Valid()
      modifies this
      ensures Valid()
      ensures profiles == Update(old(profiles), id, p => ApplyProfile(p, u)) && categories == old(categories)
      ensures trace == old(trace) + [Wrote(ProfilesTable, UpdateRow(id))]
    {
      UpdateKeepsKeys(profiles, id, u);
      profiles := Update(profiles, id, p => ApplyProfile(p, u));
      trace := trace + [Wrote(ProfilesTable, UpdateRow(id))];
    }

    /** `update('categories', id, updates)` */
    method UpdateCategory(id: string, u: CategoryPatch)
      requires Valid()
      modifies this
      ensures Valid()
      ensures categories == Update(old(categories), id, c => ApplyCategory(c, u)) && profiles == old(profiles)
      ensures trace == old(trace) + [Wrote(CategoriesTable, UpdateRow(id))]
    {
      UpdateKeepsCategoryKeys(categories, id, u);
      categories := Update(categories, id, c => ApplyCategory(c, u));
      trace := trace + [Wrote(CategoriesTable, UpdateRow(id))];
    }

    /** `delete('profiles', id)` */
    method DeleteProfile(id: string)
      requires Valid()
      modifies this
      ensures Valid()
      ensures profiles == Delete(old(profiles), id) && categories == old(categories)
      ensures trace == old(trace) + [Wrote(ProfilesTable, DeleteRow(id))]
    {
      profiles := Delete(profiles, id);
      trace := trace + [Wrote(ProfilesTable, DeleteRow(id))];
      assert forall x | x in profiles :: x in old(profiles);
      assert forall i | 0 <= i < |profiles| :: profiles[i] in profiles;
    }

    /** `delete('categories', id)` */
    method DeleteCategory(id: string)
      requires Valid()
      modifies this
      ensures Valid()
      ensures categories == Delete(old(categories), id) && profiles == old(profiles)
      ensures trace == old(trace) + [Wrote(CategoriesTable, DeleteRow(id))]
    {
      categories := Delete(categories, id);
      trace := trace + [Wrote(CategoriesTable, DeleteRow(id))];
      assert forall x | x in categories :: x in old(categories);
      assert forall i | 0 <= i < |categories| :: categories[i] in categories;
    }

    /** `eventBus.emit(event)` as the services call it. The bus is abstracted
        at this point: the trace records only the event's name, and which
        callbacks then run, in which order, is what `EventBus.Emit` states. */
    method Notify(event: EventName)
      modifies this
      ensures profiles == old(profiles) && categories == old(categories)
      ensures trace == old(trace) + [Emitted(event)]
    {
      trace := trace + [Emitted(event)];
    }
  }

  lemma PutKeepsKeys(t: Table<Profile>, p: Profile)
    requires KeyedById(t)
    ensures KeyedById(Put(t, p.id, p))
  {
    var t' := Put(t, p.id, p);
    forall i | 0 <= i < |t'| ensures t'[i].key == t'[i].record.id {
      assert t'[i] in t';
    }
  }

  lemma PutKeepsCategoryKeys(t: Table<Category>, c: Category)
    requires CategoriesKeyedById(t)
    ensures CategoriesKeyedById(Put(t, c.id, c))
  {
    var t' := Put(t, c.id, c);
    forall i | 0 <= i < |t'| ensures t'[i].key == t'[i].record.id {
      assert t'[i] in t';
    }
  }

  lemma UpdateKeepsKeys(t: Table<Profile>, id: string, u: ProfilePatch)
    requires KeyedById(t)
    ensures KeyedById(Update(t, id, p => ApplyProfile(p, u)))
  {
    match Get(t, id)
    case Some(p) =>
      PutKeepsKeys(t, ApplyProfile(p, u));
    case None =>
  }

  lemma UpdateKeepsCategoryKeys(t: Table<Category>, id: string, u: CategoryPatch)
    requires CategoriesKeyedById(t)
    ensures CategoriesKeyedById(Update(t, id, c => ApplyCategory(c, u)))
  {
    match Get(t, id)
    case Some(c) =>
      PutKeepsCategoryKeys(t, ApplyCategory(c, u));
    case None =>
  }

  // ---------------------------------------------------------------------------
  // The schema version 2 upgrade

  /** A stored object as the upgrade sees it: its string-valued fields. */
  type Fields = map<string, string>

  /** JavaScript truthiness of a string field: present and not empty. */
  predicate Truthy(f: Fields, name: string) {
    name in f && f[name] != ""
  }

  /** Field `k` is the same in both objects (present in both with the same
      value, or in neither). */
  predicate SameField(a: Fields, b: Fields, k: string) {
    (k in a <==> k in b) && (k in a ==> a[k] == b[k])
  }

  /** Moves field `from` to field `to`, holding `value`. */
  function Move(f: Fields, from: string, to: string, value: string): Fields {
    f[to := value] - {from}
  }

  /** The upgrade of one nickname: `fr_value` becomes `baseLang_value` and
      `cn_value` becomes `targetLang_value`, each only when the old field is
      truthy and the new one is not. */
  function MigrateNickname(n: Fields): (m: Fields)
    ensures Truthy(n, "fr_value") && !Truthy(n, "baseLang_value") ==>
      "baseLang_value" in m && m["baseLang_value"] == n["fr_value"] && "fr_value" !in m
    ensures !(Truthy(n, "fr_value") && !Truthy(n, "baseLang_value")) ==>
      SameField(m, n, "fr_value") && SameField(m, n, "baseLang_value")
    ensures Truthy(n, "cn_value") && !Truthy(n, "targetLang_value") ==>
      "targetLang_value" in m && m["targetLang_value"] == n["cn_value"] && "cn_value" !in m
    ensures !(Truthy(n, "cn_value") && !Truthy(n, "targetLang_value")) ==>
      SameField(m, n, "cn_value") && SameField(m, n, "targetLang_value")
    ensures forall k | k !in {"fr_value", "baseLang_value", "cn_value", "targetLang_value"} :: SameField(m, n, k)
  {
    var n1 := if Truthy(n, "fr_value") && !Truthy(n, "baseLang_value")
      then Move(n, "fr_value", "baseLang_value", n["fr_value"]) else n;
    if Truthy(n1, "cn_value") && !Truthy(n1, "targetLang_value")
    then Move(n1, "cn_value", "targetLang_value", n1["cn_value"]) else n1
  }

  /** `text.replace(/{nom}/g, '{name}')`: the result has no `{nom}` left. */
  function RenamePlaceholder(text: string): (r: string)
    ensures !Occurs(r, Token("nom"))
  {
    RewriteLeavesNoToken(text, "nom", "{name}");
    Replace(text, Placeholder("nom"), "{name}")
  }

  /** The upgrade of one phrase: `fr` becomes `baseLang` and `cn` becomes
      `targetLang` with `{nom}` rewritten to `{name}`, each only when the old
      field is truthy and the new one is not; a migrated text has no `{nom}`. */
  function MigratePhrase(p: Fields): (m: Fields)
    ensures Truthy(p, "fr") && !Truthy(p, "baseLang") ==>
      "baseLang" in m && m["baseLang"] == RenamePlaceholder(p["fr"]) && "fr" !in m
      && !Occurs(m["baseLang"], Token("nom"))
    ensures !(Truthy(p, "fr") && !Truthy(p, "baseLang")) ==>
      SameField(m, p, "fr") && SameField(m, p, "baseLang")
    ensures Truthy(p, "cn") && !Truthy(p, "targetLang") ==>
      "targetLang" in m && m["targetLang"] == RenamePlaceholder(p["cn"]) && "cn" !in m
      && !Occurs(m["targetLang"], Token("nom"))
    ensures !(Truthy(p, "cn") && !Truthy(p, "targetLang")) ==>
      SameField(m, p, "cn") && SameField(m, p, "targetLang")
    ensures forall k | k !in {"fr", "baseLang", "cn", "targetLang"} :: SameField(m, p, k)
  {
    var p1 := if Truthy(p, "fr") && !Truthy(p, "baseLang")
      then Move(p, "fr", "baseLang", RenamePlaceholder(p["fr"])) else p;
    if Truthy(p1, "cn") && !Truthy(p1, "targetLang")
    then Move(p1, "cn", "targetLang", RenamePlaceholder(p1["cn"])) else p1
  }

  /** A record that already uses the new field names is left untouched, and
      running the upgrade on its own output changes nothing more. */
  lemma UpgradeStable(n: Fields, p: Fields)
    ensures Truthy(n, "baseLang_value") && Truthy(n, "targetLang_value") ==> MigrateNickname(n) == n
    ensures Truthy(p, "baseLang") && Truthy(p, "targetLang") ==> MigratePhrase(p) == p
    ensures MigrateNickname(MigrateNickname(n)) == MigrateNickname(n)
    ensures MigratePhrase(MigratePhrase(p)) == MigratePhrase(p)
  {
  }

  /** A stored profile: its own fields and, if present, its nickname list. */
  datatype StoredProfile = StoredProfile(fields: Fields, nicknames: Option<seq<Fields>>)

  /** A stored category: its own fields and, if present, its phrase list. */
  datatype StoredCategory = StoredCategory(fields: Fields, phrases: Option<seq<Fields>>)

  function MigrateProfile(p: StoredProfile): (q: StoredProfile)
    ensures q.fields == p.fields && q.nicknames.Some? == p.nicknames.Some?
    ensures q.nicknames.Some? ==>
      (|q.nicknames.value| == |p.nicknames.value| &&
       forall i | 0 <= i < |q.nicknames.value| :: q.nicknames.value[i] == MigrateNickname(p.nicknames.value[i]))
  {
    match p.nicknames
    case None => p
    case Some(ns) => p.(nicknames := Some(seq(|ns|, i requires 0 <= i < |ns| => MigrateNickname(ns[i]))))
  }

  function MigrateCategory(c: StoredCategory): (d: StoredCategory)
    ensures d.fields == c.fields && d.phrases.Some? == c.phrases.Some?
    ensures d.phrases.Some? ==>
      (|d.phrases.value| == |c.phrases.value| &&
       forall i | 0 <= i < |d.phrases.value| :: d.phrases.value[i] == MigratePhrase(c.phrases.value[i]))
  {
    match c.phrases
    case None => c
    case Some(ps) => c.(phrases := Some(seq(|ps|, i requires 0 <= i < |ps| => MigratePhrase(ps[i]))))
  }

  /** The version 2 `upgrade`: every profile's nicknames, then every
      category's phrases, are rewritten in place, row by row in key order;
      keys and row order do not change. */
  method UpgradeToV2(profiles: Table<StoredProfile>, categories: Table<StoredCategory>)
    returns (ps: Table<StoredProfile>, cs: Table<StoredCategory>)
    ensures |ps| == |profiles| && forall i | 0 <= i < |ps| :: ps[i] == Row(profiles[i].key, MigrateProfile(profiles[i].record))
    ensures |cs| == |categories| && forall i | 0 <= i < |cs| :: cs[i] == Row(categories[i].key, MigrateCategory(categories[i].record))
  {
    ps := profiles;
    for i := 0 to |ps|
      invariant |ps| == |profiles|
      invariant forall j | 0 <= j < i :: ps[j] == Row(profiles[j].key, MigrateProfile(profiles[j].record))
      invariant forall j | i <= j < |ps| :: ps[j] == profiles[j]
    {
      var p := ps[i].record;
      if p.nicknames.Some? {
        var ns := p.nicknames.value;
        for k := 0 to |ns|
          invariant |ns| == |p.nicknames.value|
          invariant forall j | 0 <= j < k :: ns[j] == MigrateNickname(p.nicknames.value[j])
          invariant forall j | k <= j < |ns| :: ns[j] == p.nicknames.value[j]
        {
          ns := ns[k := MigrateNickname(ns[k])];
        }
        assert ns == MigrateProfile(p).nicknames.value;
        p := p.(nicknames := Some(ns));
      }
      ps := ps[i := Row(ps[i].key, p)];
    }
    cs := categories;
    for i := 0 to |cs|
      invariant |cs| == |categories|
      invariant forall j | 0 <= j < i :: cs[j] == Row(categories[j].key, MigrateCategory(categories[j].record))
      invariant forall j | i <= j < |cs| :: cs[j] == categories[j]
    {
      var c := cs[i].record;
      if c.phrases.Some? {
        var fs := c.phrases.value;
        for k := 0 to |fs|
          invariant |fs| == |c.phrases.value|
          invariant forall j | 0 <= j < k :: fs[j] == MigratePhrase(c.phrases.value[j])
          invariant forall j | k <= j < |fs| :: fs[j] == c.phrases.value[j]
        {
          fs := fs[k := MigratePhrase(fs[k])];
        }
        assert fs == MigrateCategory(c).phrases.value;
        c := c.(phrases := Some(fs));
      }
      cs := cs[i := Row(cs[i].key, c)];
    }
  }
}
