/** The records the application stores: categories of phrases, and profiles
    with their nicknames. Ids are strings (the source compares them after
    `String()` conversion). */
module Records {
  import opened Optional

  datatype Phrase = Phrase(id: string, baseLang: string, targetLang: string)

  datatype Category = Category(id: string, title: string, order: int, phrases: seq<Phrase>)

  /** `baseLangValue`/`targetLangValue` are the stored `baseLang_value` and
      `targetLang_value` fields. */
  datatype Nickname = Nickname(id: string, display: string, baseLangValue: string, targetLangValue: string)

  datatype Profile = Profile(
    id: string,
    displayName: string,
    mainTranslation: string,
    image: string,
    birthdate: Option<string>,
    timezone: Option<string>,
    nicknames: seq<Nickname>)

  /** The fields an `Object.assign(phrase, updates)` call sets; `None` is a
      field the updates object does not carry. */
  datatype PhrasePatch = PhrasePatch(id: Option<string>, baseLang: Option<string>, targetLang: Option<string>)

  datatype NicknamePatch = NicknamePatch(
    id: Option<string>, display: Option<string>, baseLangValue: Option<string>, targetLangValue: Option<string>)

  /** The fields a store `update(table, id, updates)` call changes. */
  datatype CategoryPatch = CategoryPatch(title: Option<string>, order: Option<int>, phrases: Option<seq<Phrase>>)

  /** `birthdate` and `timezone` are nullable, so their patch fields are
      nested: `Some(None)` is an updates object carrying `null`. */
  datatype ProfilePatch = ProfilePatch(
    displayName: Option<string>,
    mainTranslation: Option<string>,
    image: Option<string>,
    birthdate: Option<Option<string>>,
    timezone: Option<Option<string>>,
    nicknames: Option<seq<Nickname>>)

  function Pick<T>(o: Option<T>, current: T): T {
    match o
    case Some(v) => v
    case None => current
  }

  /** A patch field that is present replaces the field, an absent one keeps it. */
  function ApplyPhrase(p: Phrase, u: PhrasePatch): (r: Phrase)
    ensures r.id == (if u.id.Some? then u.id.value else p.id)
    ensures r.baseLang == (if u.baseLang.Some? then u.baseLang.value else p.baseLang)
    ensures r.targetLang == (if u.targetLang.Some? then u.targetLang.value else p.targetLang)
  {
    Phrase(Pick(u.id, p.id), Pick(u.baseLang, p.baseLang), Pick(u.targetLang, p.targetLang))
  }

  function ApplyNickname(n: Nickname, u: NicknamePatch): (r: Nickname)
    ensures r.id == (if u.id.Some? then u.id.value else n.id)
    ensures r.display == (if u.display.Some? then u.display.value else n.display)
    ensures r.baseLangValue == (if u.baseLangValue.Some? then u.baseLangValue.value else n.baseLangValue)
    ensures r.targetLangValue == (if u.targetLangValue.Some? then u.targetLangValue.value else n.targetLangValue)
  {
    Nickname(Pick(u.id, n.id), Pick(u.display, n.display),
             Pick(u.baseLangValue, n.baseLangValue), Pick(u.targetLangValue, n.targetLangValue))
  }

  function ApplyCategory(c: Category, u: CategoryPatch): (r: Category)
    ensures r.id == c.id
    ensures r.title == (if u.title.Some? then u.title.value else c.title)
    ensures r.order == (if u.order.Some? then u.order.value else c.order)
    ensures r.phrases == (if u.phrases.Some? then u.phrases.value else c.phrases)
  {
    Category(c.id, Pick(u.title, c.title), Pick(u.order, c.order), Pick(u.phrases, c.phrases))
  }

  function ApplyProfile(p: Profile, u: ProfilePatch): (r: Profile)
    ensures r.id == p.id
    ensures r.displayName == (if u.displayName.Some? then u.displayName.value else p.displayName)
    ensures r.mainTranslation == (if u.mainTranslation.Some? then u.mainTranslation.value else p.mainTranslation)
    ensures r.image == (if u.image.Some? then u.image.value else p.image)
    ensures r.birthdate == (if u.birthdate.Some? then u.birthdate.value else p.birthdate)
    ensures r.timezone == (if u.timezone.Some? then u.timezone.value else p.timezone)
    ensures r.nicknames == (if u.nicknames.Some? then u.nicknames.value else p.nicknames)
  {
    Profile(p.id, Pick(u.displayName, p.displayName), Pick(u.mainTranslation, p.mainTranslation),
            Pick(u.image, p.image),
            Pick(u.birthdate, p.birthdate), Pick(u.timezone, p.timezone),
            Pick(u.nicknames, p.nicknames))
  }

  /** An empty patch changes nothing, and applying the same patch twice is the
      same as applying it once. */
  lemma PatchIdempotent(p: Phrase, u: PhrasePatch, n: Nickname, v: NicknamePatch)
    ensures ApplyPhrase(ApplyPhrase(p, u), u) == ApplyPhrase(p, u)
    ensures ApplyPhrase(p, PhrasePatch(None, None, None)) == p
    ensures ApplyNickname(ApplyNickname(n, v), v) == ApplyNickname(n, v)
    ensures ApplyNickname(n, NicknamePatch(None, None, None, None)) == n
  {
  }
}
