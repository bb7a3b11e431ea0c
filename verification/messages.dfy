/** `MessageService`: the categories and their phrases, kept in the
    `categories` store, with `CATEGORIES_UPDATED` announced after each
    write. `generateId()` is the parameter `newId`. */
module Messages {
  import opened Optional
  import opened Store
  import opened Records
  import opened Events
  import opened Lists
  import opened Database
  import opened Defaults

  function CategoryId(c: Category): string {
    c.id
  }

  function PhraseId(p: Phrase): string {
    p.id
  }

  /** The trace of one `put('categories', c)` per category, in order. */
  function CategoryPuts(cs: seq<Category>): (w: seq<Effect>)
    ensures |w| == |cs|
    ensures forall j | 0 <= j < |cs| :: w[j] == Wrote(CategoriesTable, PutRow(cs[j].id))
  {
    if cs == [] then [] else CategoryPuts(cs[..|cs| - 1]) + [Wrote(CategoriesTable, PutRow(cs[|cs| - 1].id))]
  }

  /** The categories store after `initialize()`: the seed categories, one
      `put` each, when it was empty, and otherwise as it was. */
  function AfterInit(t: Table<Category>): Table<Category> {
    if t == [] then PutAll([], CategoryId, DefaultCategories) else t
  }

  /** What `initialize()` writes and then emits. */
  function InitTrace(t: Table<Category>): seq<Effect> {
    (if t == [] then CategoryPuts(DefaultCategories) else []) + [Emitted(CategoriesUpdated)]
  }

  /** `initialize()`: seeds `DEFAULT_CATEGORIES` into an empty store, one
      `put` each, leaves a non-empty store alone, and emits once either way. */
  method Initialize(db: Database)
    requires db.Valid()
    modifies db
    ensures db.Valid() && db.profiles == old(db.profiles)
    ensures db.categories == AfterInit(old(db.categories))
    ensures db.trace == old(db.trace) + InitTrace(old(db.categories))
  {
    var existing := db.GetAllCategories();
    if |existing| == 0 {
      PutCategories(db, DefaultCategories);
    }
    db.Notify(CategoriesUpdated);
  }

  /** The seeding loop of `initialize`: one `put` per category, in order. */
  method PutCategories(db: Database, cs: seq<Category>)
    requires db.Valid()
    modifies db
    ensures db.Valid() && db.profiles == old(db.profiles)
    ensures db.categories == PutAll(old(db.categories), CategoryId, cs)
    ensures db.trace == old(db.trace) + CategoryPuts(cs)
  {
    for i := 0 to |cs|
      invariant db.Valid() && db.profiles == old(db.profiles)
      invariant db.categories == PutAll(old(db.categories), CategoryId, cs[..i])
      invariant db.trace == old(db.trace) + CategoryPuts(cs[..i])
    {
      assert cs[..i + 1][..i] == cs[..i];
      db.PutCategory(cs[i]);
      assert db.trace == old(db.trace) + CategoryPuts(cs[..i + 1]) by {
        assert CategoryPuts(cs[..i + 1]) == CategoryPuts(cs[..i]) + [Wrote(CategoriesTable, PutRow(cs[i].id))];
      }
    }
    assert cs[..|cs|] == cs;
  }

  /** Seeding an empty store with categories of distinct ids and strictly
      increasing orders, then reading it back with `getAllCategories`, gives
      the categories in their listed order. */
  lemma SeedReadBack(cs: seq<Category>)
    requires forall i, j | 0 <= i < j < |cs| :: cs[i].id != cs[j].id
    requires StrictlyByOrder(cs)
    ensures SortByOrder(Values(PutAll([], CategoryId, cs))) == cs
  {
    assert forall i, j | 0 <= i < j < |cs| :: CategoryId(cs[i]) != CategoryId(cs[j]);
    PutAllValues(CategoryId, cs);
    SortedUnique(SortByOrder(Values(PutAll([], CategoryId, cs))), cs);
  }

  /** ... so after `initialize` on an empty store, `getAllCategories`
      returns `DEFAULT_CATEGORIES` exactly. */
  lemma SeededCategories()
    ensures SortByOrder(Values(PutAll([], CategoryId, DefaultCategories))) == DefaultCategories
  {
    DefaultShape();
    SeedReadBack(DefaultCategories);
  }

  /** `createCategory(title)`: a new category at `order` = the number of
      categories, with no phrases, stored and then announced. */
  method CreateCategory(db: Database, title: string, newId: string) returns (c: Category)
    requires db.Valid()
    modifies db
    ensures c == Category(newId, title, |old(db.categories)|, [])
    ensures db.Valid() && db.profiles == old(db.profiles)
    ensures db.categories == Put(old(db.categories), newId, c)
    ensures db.trace == old(db.trace) + [Wrote(CategoriesTable, PutRow(newId)), Emitted(CategoriesUpdated)]
  {
    var all := db.GetAllCategories();
    c := Category(newId, title, |all|, []);
    db.PutCategory(c);
    db.Notify(CategoriesUpdated);
  }

  /** `updateCategory(id, updates)`: announces even when the id is unknown. */
  method UpdateCategory(db: Database, id: string, u: CategoryPatch)
    requires db.Valid()
    modifies db
    ensures db.Valid() && db.profiles == old(db.profiles)
    ensures db.categories == Update(old(db.categories), id, c => ApplyCategory(c, u))
    ensures db.trace == old(db.trace) + [Wrote(CategoriesTable, UpdateRow(id)), Emitted(CategoriesUpdated)]
  {
    db.UpdateCategory(id, u);
    db.Notify(CategoriesUpdated);
  }

  /** `deleteCategory(id)`: announces even when the id is unknown. */
  method DeleteCategory(db: Database, id: string)
    requires db.Valid()
    modifies db
    ensures db.Valid() && db.profiles == old(db.profiles)
    ensures db.categories == Delete(old(db.categories), id)
    ensures db.trace == old(db.trace) + [Wrote(CategoriesTable, DeleteRow(id)), Emitted(CategoriesUpdated)]
  {
    db.DeleteCategory(id);
    db.Notify(CategoriesUpdated);
  }

  /** `addPhrase(categoryId, base, target)`: on a stored category, appends the
      new phrase, stores the category, announces and returns the phrase; on a
      missing category does nothing and returns `undefined`. */
  method AddPhrase(db: Database, categoryId: string, baseText: string, targetText: string, newId: string)
    returns (r: Option<Phrase>)
    requires db.Valid()
    modifies db
    ensures db.Valid() && db.profiles == old(db.profiles)
    ensures r.Some? <==> HasKey(old(db.categories), categoryId)
    ensures match Get(old(db.categories), categoryId)
      case None =>
        db.categories == old(db.categories) && db.trace == old(db.trace)
      case Some(c) =>
        && r == Some(Phrase(newId, baseText, targetText))
        && db.categories == Put(old(db.categories), categoryId, c.(phrases := c.phrases + [r.value]))
        && db.trace == old(db.trace) + [Wrote(CategoriesTable, PutRow(categoryId)), Emitted(CategoriesUpdated)]
  {
    var found := db.GetCategory(categoryId);
    if found.Some? {
      var c := found.value;
      var phrase := Phrase(newId, baseText, targetText);
      db.PutCategory(c.(phrases := c.phrases + [phrase]));
      db.Notify(CategoriesUpdated);
      r := Some(phrase);
    } else {
      r := None;
    }
  }

  /** `updatePhrase(categoryId, phraseId, updates)`: merges the updates into
      the first phrase with the id; stores and announces only when both the
      category and the phrase are found. */
  method UpdatePhrase(db: Database, categoryId: string, phraseId: string, u: PhrasePatch)
    requires db.Valid()
    modifies db
    ensures db.Valid() && db.profiles == old(db.profiles)
    ensures match Get(old(db.categories), categoryId)
      case None =>
        db.categories == old(db.categories) && db.trace == old(db.trace)
      case Some(c) =>
        match FindFirst(c.phrases, PhraseId, phraseId)
        case None =>
          db.categories == old(db.categories) && db.trace == old(db.trace)
        case Some(i) =>
          && db.categories == Put(old(db.categories), categoryId,
                                  c.(phrases := c.phrases[i := ApplyPhrase(c.phrases[i], u)]))
          && db.trace == old(db.trace) + [Wrote(CategoriesTable, PutRow(categoryId)), Emitted(CategoriesUpdated)]
  {
    var found := db.GetCategory(categoryId);
    if found.Some? {
      var c := found.value;
      var at := FindFirst(c.phrases, PhraseId, phraseId);
      if at.Some? {
        var i := at.value;
        var t0 := db.trace;
        db.PutCategory(c.(phrases := c.phrases[i := ApplyPhrase(c.phrases[i], u)]));
        db.Notify(CategoriesUpdated);
        TraceTwo(t0, Wrote(CategoriesTable, PutRow(categoryId)), Emitted(CategoriesUpdated));
      }
    }
  }

  /** `deletePhrase(categoryId, phraseId)`: drops every phrase with the id;
      stores and announces whenever the category exists. */
  method DeletePhrase(db: Database, categoryId: string, phraseId: string)
    requires db.Valid()
    modifies db
    ensures db.Valid() && db.profiles == old(db.profiles)
    ensures match Get(old(db.categories), categoryId)
      case None =>
        db.categories == old(db.categories) && db.trace == old(db.trace)
      case Some(c) =>
        && db.categories == Put(old(db.categories), categoryId, c.(phrases := WithoutId(c.phrases, PhraseId, phraseId)))
        && db.trace == old(db.trace) + [Wrote(CategoriesTable, PutRow(categoryId)), Emitted(CategoriesUpdated)]
  {
    var found := db.GetCategory(categoryId);
    if found.Some? {
      var c := found.value;
      db.PutCategory(c.(phrases := WithoutId(c.phrases, PhraseId, phraseId)));
      db.Notify(CategoriesUpdated);
    }
  }

  /** Deleting a phrase just added with a fresh id restores the category's
      phrase list; before that, `find` locates the new phrase at the end. */
  lemma AddThenDeletePhrase(c: Category, p: Phrase)
    requires forall j | 0 <= j < |c.phrases| :: c.phrases[j].id != p.id
    ensures FindFirst(c.phrases + [p], PhraseId, p.id) == Some(|c.phrases|)
    ensures WithoutId(c.phrases + [p], PhraseId, p.id) == c.phrases
  {
    FindAppended(c.phrases, p, PhraseId);
    RemoveAppended(c.phrases, p, PhraseId);
  }
}
