# Quick Messages: a Dafny model

Quick Messages is a small browser app. It shows ready-made phrases in two
languages, each with a `{name}` placeholder. The placeholder is filled from
the profile (or nickname) the user picks, and a phrase is copied to the
clipboard with one tap. This project models the app's core in Dafny and proves
properties of that model:

- the event bus (`EventBus.on/off/emit`) and the `EVENTS` name table;
- the Dexie database with its two object stores. A store is a sequence of rows
  kept in ascending primary-key order, which is the order `getAll` returns.
  The model also covers the sort in `getAllCategories` and the version 2
  schema upgrade;
- `MessageService` and `ProfileService`. Every store write and every `emit`
  they make is recorded in `Database.trace`, so "stored, then announced once"
  can be stated. The ids that `generateId()` produces are parameters;
- the seed data `DEFAULT_PROFILES` and `DEFAULT_CATEGORIES`;
- the template helpers `replaceNameTemplate` and `replaceTemplate`, on top of
  a model of the JavaScript primitives they use. That model covers the
  ECMAScript `\s` class, a global `String.prototype.replace` for the regular
  expressions the helpers build, and `trim` (module `Text`);
- the components, reduced to their state fields:
  - `<profile-selector>`;
  - `<bottom-profile-selector>`;
  - `<phrase-carousel>`, including the cards' two texts;
  - `<settings-panel>`;
  - `<bottom-nav>`;
- the `QuickMessagesApp` start-up.

A component method returns the emissions it makes, in order. Outcomes the code
cannot decide are oracle parameters:

- `clipboardOk` says whether the clipboard write succeeds;
- `profilesOk` and `messagesOk` say whether a service's `initialize()`
  completes.

Three results hold only under stated conditions:

- Filling `{name}` leaves no token and is idempotent when two conditions
  both hold: every `{` of the template opens a `{name}` token, and the value
  has no `{`. These conditions are sufficient; neither can be dropped.
  `Helpers.NestedBracesCounterexample` shows that nested braces break both
  results. `Helpers.BracedValueCounterexample` shows that a value holding `{`
  breaks both, even when the template meets the first condition.
- `replaceTemplate` is modelled as written. A missing or blank value removes
  the token only when the template literally contains the text of the removal
  pattern's `source`. Otherwise the token stays: see
  `Helpers.ReplaceTemplateKeepsTokens` and
  `Helpers.ReplaceTemplateRemovalBranch`.
- `VIEW_CHANGED` is commented out of the `EVENTS` table, so `<bottom-nav>`
  subscribes and emits under the key `"undefined"`.

## Model

| member | source | states |
|---|---|---|
| Events.Without | js/utils/events.js:16 | the filtered list has no occurrence of the removed callback and is not longer than the original |
| Events.Registered | js/utils/events.js:7-12 | `on` appends the callback to the end of the event's list, creating the list if it is missing; every other event's list is unchanged; the key set gains only the event |
| Events.Unregistered | js/utils/events.js:14-18 | `off` filters the callback out of the event's list; other lists are unchanged; an event without a list leaves the registry as it was; no key is added or removed |
| Events.EventBus.constructor | js/utils/events.js:3-5 | the bus starts with no registered events |
| Events.EventBus.On | js/utils/events.js:7-12 | the new registry is `Registered` of the old one |
| Events.EventBus.Off | js/utils/events.js:14-18 | the new registry is `Unregistered` of the old one |
| Events.EventBus.Emit | js/utils/events.js:20-24 | one call per registered callback, in registration order, each with the same data; the registry is not changed |
| Events.OnTwiceCallsTwice | js/utils/events.js:7-12 | `on` does not deduplicate: registering a callback twice adds two to the number of times `emit` calls it |
| Events.WithoutAppend | js/utils/events.js:16 | filtering distributes over concatenation, so `off` keeps the relative order of the remaining callbacks |
| Events.WithoutKeepsOthers | js/utils/events.js:16 | every other callback keeps its number of registrations |
| Events.WithoutAbsent | js/utils/events.js:14-18 | `off` of a callback that is not registered leaves the list unchanged |
| Events.OffUndoesOn | js/utils/events.js:7-18 | `off` after `on` restores the event's list when the callback was not there before |
| Events.EventKeysDistinct | js/utils/events.js:31-40 | the defined event names are pairwise distinct; `VIEW_CHANGED` is undefined; the bus keys of any two different events differ |
| Records.ApplyPhrase | js/services/messages.js:66 | `Object.assign`: each field the patch carries replaces the phrase's field; the others are kept |
| Records.ApplyNickname | js/services/profiles.js:67 | the same merge for a nickname, field by field |
| Records.ApplyCategory | js/services/database.js:73-75 | a store `update` of a category changes the fields the changes carry and keeps every other field; the primary key is kept because a category patch has no `id` field |
| Records.ApplyProfile | js/services/database.js:73-75 | a store `update` of a profile changes the fields the changes carry and keeps every other field; the nullable `birthdate` and `timezone` can be set to a string or back to null; the primary key is kept because a profile patch has no `id` field |
| Records.PatchIdempotent | js/services/messages.js:64-67 | applying a patch twice equals applying it once; an empty patch changes nothing (phrases and nicknames) |
| Store.Values | js/services/database.js:65-67 | `getAll` lists every row's record, in row order |
| Store.Get | js/services/database.js:61-63 | `get` returns nothing exactly when the key is absent; otherwise it returns the record stored under that key |
| Store.Put | js/services/database.js:77-79 | upsert: `get` of the key gives the record; every other key reads as before; key order is kept; the row count grows by one exactly when the key was new |
| Store.Delete | js/services/database.js:81-83 | only the key disappears; every other key reads as before; key order is kept |
| Store.Update | js/services/database.js:73-75 | the record under the key is merged; other keys are unchanged; a missing key leaves the table unchanged |
| Store.Add | js/services/database.js:69-71 | fails exactly when the key is already present; otherwise `get` of the key gives the record, every other key reads as before, key order is kept, the row count grows by one and `getAll` gains exactly that record |
| Store.Clear | js/services/database.js:85-87 | afterwards no key reads a record |
| Store.PutNewValues | js/services/database.js:77-79 | putting a new key adds exactly its record to what `getAll` returns |
| Store.PutExisting | js/services/database.js:77-79 | putting an existing key replaces that row in place |
| Store.PutExistingValues | js/services/database.js:77-79 | after `put` of an existing key, `getAll` returns the new record at the old position |
| Store.PutAll | js/services/messages.js:11-13 | a sequence of `put` calls keeps the table in key order |
| Store.PutHasKey | js/services/database.js:77-79 | after `put`, the keys are the old keys plus the key put |
| Store.PutAllKeys | js/services/messages.js:11-13 | after seeding, the keys are the old keys plus the seeded records' keys |
| Store.PutAllValues | js/services/messages.js:11-13 | seeding an empty table with records of distinct keys stores exactly those records, as a multiset |
| Lists.FindFirst | js/services/messages.js:64 | `find` returns the first position with the id, or nothing exactly when no element has the id |
| Lists.WithoutId | js/services/messages.js:76 | `filter` keeps no element with the id |
| Lists.WithoutIdCounts | js/services/messages.js:76 | `filter` drops every element with the id and keeps each other element as often as it occurred |
| Lists.WithoutIdAppend | js/services/messages.js:76 | `filter` distributes over concatenation, so the kept elements keep their order |
| Lists.WithoutIdAbsent | js/services/profiles.js:77 | a list without the id comes back unchanged |
| Lists.WithoutIdIdempotent | js/services/profiles.js:77 | filtering twice by the same id is the same as filtering once |
| Lists.RemoveAppended | js/services/messages.js:46-80 | removing the id of an element that was just appended with a fresh id gives back the list from before the append |
| Lists.FindAppended | js/services/messages.js:46-71 | an element appended with a fresh id is the one `find` returns |
| Database.InsertByOrder | js/services/database.js:94-97 | insertion adds the category to the multiset, keeps the list sorted by `order`, and places it first among the categories with the same `order` |
| Database.SortByOrder | js/services/database.js:94-97 | the result is sorted by `order`, is a permutation of the input, and keeps the relative order of categories with equal `order` (a stable sort) |
| Database.SortedUnique | js/services/database.js:94-97 | two sorted arrangements of the same categories are equal when one of them is strictly ordered: with distinct orders the sort has one answer |
| Database.Database.constructor | js/services/database.js:6-10 | both stores start empty and the trace is empty |
| Database.Database.GetProfile | js/services/database.js:61-63 | the stored profile under the id, if any; a found profile carries that id |
| Database.Database.GetCategory | js/services/database.js:61-63 | the stored category under the id, if any; a found category carries that id |
| Database.Database.GetAllProfiles | js/services/database.js:90-92 | every profile, in strictly ascending id order |
| Database.Database.GetAllCategories | js/services/database.js:94-97 | every category, sorted by `order`; categories with equal `order` keep their store (id) order |
| Database.Database.PutProfile | js/services/database.js:77-79 | the profiles store becomes `Put` of the old one; one write is recorded; the categories store is untouched |
| Database.Database.PutCategory | js/services/database.js:77-79 | the categories store becomes `Put` of the old one; one write is recorded; the profiles store is untouched |
| Database.Database.UpdateProfile | js/services/database.js:73-75 | the profile under the id is merged with the patch; one write is recorded |
| Database.Database.UpdateCategory | js/services/database.js:73-75 | the category under the id is merged with the patch; one write is recorded |
| Database.Database.DeleteProfile | js/services/database.js:81-83 | the profile under the id is removed; one write is recorded |
| Database.Database.DeleteCategory | js/services/database.js:81-83 | the category under the id is removed; one write is recorded |
| Database.Database.Notify | js/utils/events.js:20-24 | a service's `emit` leaves both stores unchanged and records one announcement |
| Database.PutKeepsKeys | js/services/database.js:77-79 | `put` of a profile under its own id keeps every row filed under its record's id |
| Database.PutKeepsCategoryKeys | js/services/database.js:77-79 | `put` of a category under its own id keeps every row filed under its record's id |
| Database.UpdateKeepsKeys | js/services/database.js:73-75 | `update` of a profile keeps every row filed under its record's id |
| Database.UpdateKeepsCategoryKeys | js/services/database.js:73-75 | `update` of a category keeps every row filed under its record's id |
| Database.MigrateNickname | js/services/database.js:20-31 | `fr_value` moves to `baseLang_value` exactly when the old field is truthy and the new one is not; the same holds for `cn_value` and `targetLang_value`; every other field is unchanged |
| Database.RenamePlaceholder | js/services/database.js:40 | the renamed text contains no `{nom}` |
| Database.MigratePhrase | js/services/database.js:37-48 | `fr` and `cn` move to `baseLang` and `targetLang` under the same condition, and the moved text has no `{nom}`; every other field is unchanged |
| Database.UpgradeStable | js/services/database.js:16-52 | a record that already uses the new names is left alone, and running the upgrade on its own output changes nothing |
| Database.MigrateProfile | js/services/database.js:18-32 | a profile's own fields are unchanged; every nickname in its list is migrated, in place |
| Database.MigrateCategory | js/services/database.js:35-50 | a category's own fields are unchanged; every phrase in its list is migrated, in place |
| Database.UpgradeToV2 | js/services/database.js:13-52 | every row of both stores is migrated; keys and row order are unchanged |
| Defaults.TplHasName | js/config/defaults.js:26-132 | a seed text holds `{name}`; when the text around it has no `{`, every `{` opens `{name}` |
| Defaults.DefaultShape | js/config/defaults.js:26-132 | nine categories with `order` 0 to 8 at their own positions and pairwise distinct ids; each has fewer than ten phrases built from its id stem |
| Defaults.PhrasesNamed | js/config/defaults.js:26-132 | every seed phrase has `{name}` in both languages; when a text has no other `{`, every `{` in it opens the token |
| Defaults.DefaultTemplatesNamed | js/config/defaults.js:26-132 | every default phrase holds `{name}` in both languages |
| Defaults.DefaultPhraseIdsDistinct | js/config/defaults.js:26-132 | phrase ids are distinct across all default categories |
| Defaults.DefaultPhraseId | js/config/defaults.js:32-129 | each default phrase id is its category's stem followed by its 1-based position |
| Defaults.DefaultProfileKeys | js/config/defaults.js:1-24 | two profiles with distinct ids; Léna has the single nickname Star and Leelou has none; Leelou's id sorts before Léna's |
| Defaults.CommaSeedBlank | js/utils/helpers.js:43-64 | with a blank name, a template `a, {name}` followed by `post` gives `a` followed by `post`, when neither part holds `{` and the joined text is normalised |
| Defaults.LeadingSeedBlank | js/utils/helpers.js:43-64 | with a blank name, a template that starts with `{name}` loses only the token, when the rest has no `{` and no whitespace |
| Defaults.GreetingWithoutName | js/config/defaults.js:34 | with a blank name, the seed greeting "Have a wonderful day, {name}!" becomes "Have a wonderful day!" |
| Defaults.QuestionWithoutName | js/config/defaults.js:42 | with a blank name, the seed question "{name}，你吃得好吗？" becomes "，你吃得好吗？" |
| Messages.CategoryPuts | js/services/messages.js:11-13 | one recorded `put` per category, in order |
| Messages.Initialize | js/services/messages.js:6-16 | an empty store gets the default categories; a non-empty store is left alone; the announcement follows the writes exactly once in either case |
| Messages.PutCategories | js/services/messages.js:11-13 | the store becomes the categories put in order, with one write recorded per category |
| Messages.SeedReadBack | js/services/messages.js:6-20 | seeding an empty store with distinct ids and strictly increasing `order` makes `getAllCategories` return the categories in their listed order |
| Messages.SeededCategories | js/services/messages.js:6-20 | after seeding an empty store, `getAllCategories` returns `DEFAULT_CATEGORIES` exactly |
| Messages.CreateCategory | js/services/messages.js:22-34 | the new category gets the fresh id, `order` equal to the number of stored categories and no phrases; it is stored, then announced |
| Messages.UpdateCategory | js/services/messages.js:36-39 | the category is merged with the patch and the change is announced, even for an unknown id |
| Messages.DeleteCategory | js/services/messages.js:41-44 | the category is removed and the removal is announced, even for an unknown id |
| Messages.AddPhrase | js/services/messages.js:46-59 | for a stored category, the phrase is appended, stored, announced and returned; a missing category changes nothing and returns nothing |
| Messages.UpdatePhrase | js/services/messages.js:61-71 | only the first phrase with the id is merged; storing and announcing happen only when both the category and the phrase exist |
| Messages.DeletePhrase | js/services/messages.js:73-80 | every phrase with the id is dropped; storing and announcing happen whenever the category exists |
| Messages.AddThenDeletePhrase | js/services/messages.js:46-80 | `find` locates a phrase added with a fresh id at the end; deleting it restores the category's phrase list |
| Profiles.ProfilePuts | js/services/profiles.js:11-13 | one recorded `put` per profile, in order |
| Profiles.Initialize | js/services/profiles.js:6-16 | an empty store gets the default profiles; a non-empty store is left alone; the announcement follows exactly once in either case |
| Profiles.PutProfiles | js/services/profiles.js:11-13 | the store becomes the profiles put in order, with one write recorded per profile |
| Profiles.SeededProfiles | js/services/profiles.js:6-20 | after seeding, `getAllProfiles` lists Leelou before Léna: key order, not insertion order |
| Profiles.PlaceholderImage | js/services/profiles.js:27 | the fixed URL followed by the first character of the name, or by nothing when the name is empty |
| Profiles.CreateProfile | js/services/profiles.js:22-34 | the new profile gets the fresh id, the placeholder image and no nicknames; it is stored, then announced |
| Profiles.UpdateProfile | js/services/profiles.js:36-39 | the profile is merged with the patch and the change is announced, even for an unknown id |
| Profiles.DeleteProfile | js/services/profiles.js:41-44 | the profile is removed and the removal is announced, even for an unknown id |
| Profiles.AddNickname | js/services/profiles.js:46-60 | for a stored profile, the nickname is appended with its base value equal to its display text, then stored, announced and returned; a missing profile changes nothing |
| Profiles.UpdateNickname | js/services/profiles.js:62-72 | only the first nickname with the id is merged; storing and announcing happen only when both the profile and the nickname exist |
| Profiles.DeleteNickname | js/services/profiles.js:74-81 | every nickname with the id is dropped; storing and announcing happen whenever the profile exists |
| Profiles.AddThenDeleteNickname | js/services/profiles.js:46-81 | `find` locates a nickname added with a fresh id at the end; deleting it restores the profile's nickname list |
| Helpers.BlankIffAllSpace | js/utils/helpers.js:47 | a value is blank exactly when it is empty or only whitespace |
| Helpers.NameTemplate | js/utils/helpers.js:43-64 | the result never has leading, trailing or repeated whitespace, and all its whitespace is plain spaces |
| Helpers.ReplaceNameTemplate | js/utils/helpers.js:43-64 | the loop applies the entries in order and ends with `NameTemplate` |
| Helpers.BlankRemovesBareToken | js/utils/helpers.js:47-56 | with a blank value, a token that no whitespace or comma precedes disappears alone |
| Helpers.BlankRemovesSpacedToken | js/utils/helpers.js:47-56 | with a blank value, a token preceded by whitespace disappears together with that whitespace |
| Helpers.BlankRemovesCommaToken | js/utils/helpers.js:47-56 | with a blank value, a token preceded by a Western or full-width comma disappears together with the comma and the whitespace around it |
| Helpers.CommaSeparatorRemoved | js/utils/helpers.js:50-54 | the comma pattern removes the whole separator and the token in one match |
| Helpers.FilledReplacesEvery | js/utils/helpers.js:57-59 | a non-blank value replaces every occurrence of the token and nothing else |
| Helpers.NoPlaceholderLeft | js/utils/helpers.js:43-64 | when every `{` opens the token and the value has no `{`, no `{` and no token are left |
| Helpers.BracelessUnchanged | js/utils/helpers.js:46-60 | substitution leaves a template without `{` unchanged |
| Helpers.NameTemplateIdempotent | js/utils/helpers.js:43-64 | under the same conditions, filling the result again changes nothing |
| Helpers.WithoutTokenUnchanged | js/utils/helpers.js:46-60 | substitution leaves a template without the token unchanged |
| Helpers.WithoutTokenOnlyCollapses | js/utils/helpers.js:43-64 | a template without the token only has its whitespace normalised |
| Helpers.NestedBracesCounterexample | js/utils/helpers.js:43-64 | for `{x{xy}y}` with a blank value, one call leaves `{xy}` and a second call removes it: without the condition on `{`, neither "no token left" nor idempotence holds |
| Helpers.BracedValueCounterexample | js/utils/helpers.js:43-64 | `{xy}` followed by `y}` meets the condition on `{`, yet filling it with the value `{x` produces a new `{xy}`, and a second call replaces it again: the value must also be free of `{` |
| Helpers.BracedWordLength | js/utils/helpers.js:28 | a match of `/{(\w+)}/` has at least three characters and fits in the input |
| Helpers.BracedWordShape | js/utils/helpers.js:28 | a match is `{`, a non-empty word, then `}` |
| Helpers.ScanBraceless | js/utils/helpers.js:28 | the global replace copies a prefix without `{` unchanged |
| Helpers.ScanToken | js/utils/helpers.js:28 | `{key}` with a non-empty word key is exactly one match |
| Helpers.ReplaceTemplateFills | js/utils/helpers.js:27-40 | a non-blank replacement is substituted for every `{key}` |
| Helpers.NoBracketNoSource | js/utils/helpers.js:34-35 | a template without `[` cannot contain the removal pattern's source text |
| Helpers.CallbackKeeps | js/utils/helpers.js:29-36 | in that case the callback for a missing or blank value returns the match itself |
| Helpers.ScanKeeps | js/utils/helpers.js:28-36 | so the global replace leaves such a template unchanged |
| Helpers.ReplaceTemplateKeepsTokens | js/utils/helpers.js:27-40 | missing or blank replacements leave every `{key}` in place when the template has no `[` |
| Helpers.ReplaceTemplateRemovalBranch | js/utils/helpers.js:27-40 | when the template does contain that text, only the token is removed: any text before it without `{`, a comma or a space included, stays, and so does the text after it |
| Text.SpaceRun | js/utils/helpers.js:63 | the length of the leading `\s` run: every character in it is whitespace and the next one is not |
| Text.MatchShape | js/utils/helpers.js:50-52 | a match of a removal pattern ends in the token and holds only whitespace and commas before it: nothing for the plain pattern, a non-empty whitespace run for the spaced one, and whitespace around a single comma for the comma one |
| Text.TrimStart | js/utils/helpers.js:63 | removes exactly the leading whitespace |
| Text.TrimEnd | js/utils/helpers.js:63 | removes exactly the trailing whitespace |
| Text.ReplaceChars | js/utils/helpers.js:54-58 | every character of a global replace's output comes from the input or from the replacement |
| Text.SpacesSingleSpaced | js/utils/helpers.js:63 | `replace(/\s+/g, ' ')` leaves only single plain spaces |
| Text.TrimNormalizes | js/utils/helpers.js:63 | trimming a single-spaced text gives a normalised text |
| Text.CollapseNormalizes | js/utils/helpers.js:63 | the final clean-up always produces a normalised text |
| Text.CollapseKeepsNormalized | js/utils/helpers.js:63 | the clean-up leaves a normalised text unchanged |
| Text.CollapseIdempotent | js/utils/helpers.js:63 | the clean-up is idempotent |
| Text.CollapseChars | js/utils/helpers.js:63 | every character of the cleaned text comes from the input or is a plain space |
| Text.RemovalKeepsOpens | js/utils/helpers.js:54-56 | the removal passes keep every remaining `{` the start of a whole token |
| Text.FillLeavesNoBrace | js/utils/helpers.js:58 | filling every token with a value without `{` leaves no `{` |
| Text.RewriteLeavesNoToken | js/services/database.js:40 | rewriting every `{nom}` to a replacement that opens with `{`, has no other `{` and does not start with `{nom}` leaves no `{nom}` |
| ProfileSelectorElement.SelectionOf | js/components/profile-selector.js:71-91 | no profile or "General" gives the empty pair, even when a nickname is set; otherwise the nickname's stored values, or without a nickname the profile's name and translation |
| ProfileSelectorElement.SelectionEmissions | js/components/profile-selector.js:63-69 | exactly one `PROFILE_SELECTED`, then one `NICKNAME_SELECTED` exactly when a nickname is active; both carry the current pair |
| ProfileSelectorElement.ProfileSelector.constructor | js/components/profile-selector.js:5-11 | no profiles and nothing selected |
| ProfileSelectorElement.ProfileSelector.EmitSelectionChange | js/components/profile-selector.js:63-69 | emits `SelectionEmissions` of the current state |
| ProfileSelectorElement.ProfileSelector.SelectProfile | js/components/profile-selector.js:37-43 | the profile is set, the nickname is cleared, and the new selection is announced |
| ProfileSelectorElement.ProfileSelector.SelectNickname | js/components/profile-selector.js:45-49 | the nickname is set, the profile is kept, and both events are announced |
| ProfileSelectorElement.ProfileSelector.LoadProfiles | js/components/profile-selector.js:27-35 | the list is reloaded from the store; the first profile is selected only when none is active; an active profile is kept even when it is no longer stored |
| ProfileSelectorElement.ProfileSelector.ClickProfile | js/components/profile-selector.js:93-106 | "general" selects the sentinel, a stored id selects the first profile with that id, and an unknown id does nothing |
| ProfileSelectorElement.ProfileSelector.ClickNickname | js/components/profile-selector.js:108-116 | only a nickname of the active profile can be selected, so the selection stays consistent |
| ProfileSelectorElement.NicknameClickSelects | js/components/profile-selector.js:108-116 | clicking a nickname with a unique id finds it, and the announced pair is that nickname's values |
| BottomProfileSelectorElement.AfterReload | js/components/bottom-profile-selector.js:37-70 | the active profile is null exactly when the list is empty; a profile that is gone falls back to the first profile and drops the nickname, and this is announced twice; a remaining profile is refreshed and announced once, and its nickname survives exactly while its id is still listed |
| BottomProfileSelectorElement.BottomProfileSelector.constructor | js/components/bottom-profile-selector.js:5-14 | no profiles, nothing active, dropdown closed |
| BottomProfileSelectorElement.BottomProfileSelector.LoadProfiles | js/components/bottom-profile-selector.js:37-70 | reloads the list, and the new state and the emissions are `AfterReload` of the previous choice |
| BottomProfileSelectorElement.BottomProfileSelector.SelectProfile | js/components/bottom-profile-selector.js:128-141 | sets the profile, clears the nickname, closes the dropdown and announces `{ profile, nickname: null }` |
| BottomProfileSelectorElement.BottomProfileSelector.SelectNickname | js/components/bottom-profile-selector.js:143-158 | sets both, closes the dropdown and announces the pair |
| BottomProfileSelectorElement.BottomProfileSelector.ToggleDropdown | js/components/bottom-profile-selector.js:160-164 | flips `isOpen` and nothing else |
| BottomProfileSelectorElement.BottomProfileSelector.CloseDropdown | js/components/bottom-profile-selector.js:166-172 | `isOpen` is false afterwards, whatever it was before |
| BottomProfileSelectorElement.GeneralFallsBack | js/components/bottom-profile-selector.js:40-44 | after choosing "General", a reload always falls back to the first stored profile without a nickname |
| PhraseCarouselElement.Or | js/components/phrase-carousel.js:67-68 | JavaScript's logical or on two strings: the first unless it is empty, then the second |
| PhraseCarouselElement.Reduce | js/components/phrase-carousel.js:61-83 | a nickname gives its values, falling back to its display text; a profile gives the empty pair for "General" and its name and translation otherwise; any other data leaves the pair unchanged |
| PhraseCarouselElement.ReduceAgreesWithSelectionOf | js/components/phrase-carousel.js:61-83 | the carousel and `<profile-selector>` derive the same pair from the same choice when the nickname's values are non-empty; the bare pair `<profile-selector>` emits leaves the carousel's pair unchanged |
| PhraseCarouselElement.ReduceTwice | js/components/phrase-carousel.js:61-83 | the same choice announced twice gives the same pair as announcing it once |
| PhraseCarouselElement.DisplayedIsFilled | js/components/phrase-carousel.js:171-178 | the empty-template guard changes nothing: every line shows the filled template |
| PhraseCarouselElement.Refill | js/components/phrase-carousel.js:164-179 | on a card whose empty-template lines are empty, refilling gives exactly the card for the phrase and the pair |
| PhraseCarouselElement.PhraseCarousel.constructor | js/components/phrase-carousel.js:7-13 | no categories, the empty pair, the first tab |
| PhraseCarouselElement.PhraseCarousel.RenderCategories | js/components/phrase-carousel.js:263-276 | one card per phrase, showing the raw templates; the first tab is active |
| PhraseCarouselElement.PhraseCarousel.UpdatePhraseDisplay | js/components/phrase-carousel.js:162-180 | afterwards every card shows its phrase filled from the current pair |
| PhraseCarouselElement.PhraseCarousel.LoadCategories | js/components/phrase-carousel.js:134-139 | the categories are the store's, sorted by `order`, with categories of equal `order` in the order `getAllCategories` leaves them; every card is filled from the current pair |
| PhraseCarouselElement.PhraseCarousel.OnProfileSelected | js/components/phrase-carousel.js:61-83 | the pair becomes `Reduce` of the data and every card is refilled |
| PhraseCarouselElement.PhraseCarousel.ScrollToCategory | js/components/phrase-carousel.js:223-232 | acts exactly when the index is a loaded category; otherwise nothing changes |
| PhraseCarouselElement.PhraseCarousel.CopyPhrase | js/components/phrase-carousel.js:238-258 | the copied text is the target template filled with the pair current at the time of the click, and it is announced only when the clipboard accepts it; it equals the text the card shows |
| SettingsPanelElement.SettingsPanel.constructor | js/components/settings-panel.js:4-9 | closed, on the "profiles" tab |
| SettingsPanelElement.SettingsPanel.Open | js/components/settings-panel.js:33-37 | open afterwards; the tab is kept |
| SettingsPanelElement.SettingsPanel.Close | js/components/settings-panel.js:39-43 | closed afterwards; the tab is kept |
| SettingsPanelElement.SettingsPanel.Toggle | js/components/settings-panel.js:24-31 | the open state flips |
| SettingsPanelElement.SettingsPanel.SwitchTab | js/components/settings-panel.js:69-81 | the tab becomes the one given; the open state is kept |
| SettingsPanelElement.SettingsPanel.HandleClick | js/components/settings-panel.js:45-67 | the overlay and the close button close the panel, a tab button switches tab, and anything else changes nothing |
| SettingsPanelElement.SettingsPanel.Deliver | js/components/settings-panel.js:16-19 | each `SETTINGS_TOGGLE` toggles once: the panel ends open exactly when it started open and the number of toggles was even, or started closed and the number was odd |
| BottomNavElement.BottomNav.constructor | js/components/bottom-nav.js:4-8 | the "home" view |
| BottomNavElement.BottomNav.SetActiveView | js/components/bottom-nav.js:39-45 | a new view is set and announced once; the current view announces nothing |
| BottomNavElement.BottomNav.SetActiveViewAndListen | js/components/bottom-nav.js:14 | the component's own listener sees the view already set, so it announces nothing and no emit loop starts |
| BottomNavElement.BottomNav.Click | js/components/bottom-nav.js:17-33 | "settings" asks for the panel and keeps the view; any other view goes through `setActiveView`; a button without a view does nothing |
| AppMain.ReadyCount | js/app.js:20 | counts the `APP_READY` announcements: zero exactly when there is none |
| AppMain.ServicesNotReady | js/app.js:29-32 | neither service's start-up announces `APP_READY` |
| AppMain.QuickMessagesApp.constructor | js/app.js:6-8 | not initialised |
| AppMain.QuickMessagesApp.Init | js/app.js:10-27 | does nothing once initialised; otherwise it starts profiles, then messages, and only when both complete does it set the flag and announce `APP_READY` once; a failure leaves the flag false |
| AppMain.QuickMessagesApp.InitializeServices | js/app.js:29-32 | profiles first, then messages; a failing service stops the sequence |
| AppMain.QuickMessagesApp.InitAttempts | js/app.js:10-27 | over repeated `init()` calls, the app ends initialised exactly when some attempt succeeds, and `APP_READY` is announced at most once |

## Left out

- Records.ApplyProfile and Records.ApplyCategory: `update` changes that carry an `id` field are not modelled, because the patches have no `id` field and no caller in the app sends one.
- Rendering and the DOM: shadow roots, `innerHTML`, CSS classes, `updateActiveStates`, `updateActiveButton`, `updateDisplay`, `renderOptions`, `renderProfiles` and `renderNicknames` are not modelled. Only the state fields they read and write are.
- `createElement` (js/utils/helpers.js:7-24) and `debounce` (js/utils/helpers.js:67-77) are DOM and timer helpers and are not modelled.
- `generateId` is not modelled: its result comes from the clock and `Math.random`. The new id is a parameter (`newId`). `Date.now()+1`, Star's nickname id in the seed data, is the parameter `starId`.
- Dexie's asynchrony is not modelled: promises, transactions, and interleaving of concurrent calls. Every service call runs to completion in order.
- A failing `ProfileService.initialize()` or `MessageService.initialize()` is taken to fail before its first write.
- The clipboard is the oracle `clipboardOk`. The `alert` shown when a copy fails is not modelled.
- `setupGlobalEventListeners`, `handleKeyboard`, `handleGlobalError`, `handleUnhandledRejection` and `showError` in js/app.js are not modelled.
- Exceptions thrown by a callback during `emit` are not modelled.
- The scroll `IntersectionObserver` that updates `currentCategoryIndex` and the active tab is not modelled. The `setTimeout` in `setupScrollBehavior` is not modelled either.
- A `$` pattern inside a replacement value is not modelled. `String.prototype.replace` would interpret `$&`, `$1` and the like, but the model inserts the value literally.
- Keys that are not word characters are not modelled; `replaceNameTemplate` builds the regular expression from the key without escaping it.
- Replacement objects are modelled as their own entries; inherited prototype properties are not.
- Strings are sequences of Unicode scalar values, not UTF-16 code units.
- Defaults.PhrasesNamed: each seed text is proved to contain `{name}`, but not to be free of any other `{`. The "every `{` opens the token" condition is proved only for texts whose parts around the token have no `{`.
- ProfileSelectorElement.ProfileSelector.ClickNickname: a nickname click with no active profile throws a TypeError in the source; the model does nothing.
- The "General" objects that the two selectors create lack most profile fields. The model gives those fields empty values.
- BottomProfileSelectorElement.BottomProfileSelector.LoadProfiles: the `catch` branch that shows "Error loading" is not modelled, and neither is the `updateDisplay` branch that resets `activeProfile` to null when the avatar elements exist.
- A `PROFILE_SELECTED` event with no data at all (`data` undefined) throws in the carousel's handler. It is not modelled: every emission carries a payload.
- The component files `app-header.js`, `feedback-message.js`, `profiles-tab.js` and `messages-tab.js` are not part of this model.
- The utility files `image-processor.js`, `time.js`, `clipboard.js` and `timezoneService.js` are not part of this model.
