/** `<phrase-carousel>`: one slide of phrase cards per category. The model
    keeps the loaded categories, the current selection pair, the tab marked
    active and the two texts each card shows; the slides, tabs and the
    scrolling are DOM and are not modelled. */
module PhraseCarouselElement {
  import opened Optional
  import opened Records
  import opened Events
  import opened Store
  import opened Helpers
  import opened Database
  import opened Signals
  import opened ProfileSelectorElement

  /** JavaScript's `a || b` on two strings: the empty string is falsy. */
  function Or(a: string, b: string): (r: string)
    ensures a != "" ==> r == a
    ensures a == "" ==> r == b
  {
    if a != "" then a else b
  }

  /** The `PROFILE_SELECTED` handler's new pair: a nickname gives its values,
      falling back to its display text when a value is empty; a profile
      without a nickname gives the empty pair for "General" and its name and
      translation otherwise; data with neither leaves the pair as it was. */
  function Reduce(data: Payload, current: Selection): (s: Selection)
    ensures !data.ChoiceData? ==> s == current
    ensures data.ChoiceData? && data.nickname.Some? ==>
              var n := data.nickname.value;
              s == Selection(Or(n.baseLangValue, n.display), Or(n.targetLangValue, n.display))
    ensures data.ChoiceData? && data.nickname.None? && data.profile.Some? ==>
              s == (if data.profile.value.id == "general" then NoSelection
                    else Selection(data.profile.value.displayName, data.profile.value.mainTranslation))
    ensures data.ChoiceData? && data.nickname.None? && data.profile.None? ==> s == current
  {
    match data
    case ChoiceData(profile, nickname) =>
      if nickname.Some? then
        Selection(Or(nickname.value.baseLangValue, nickname.value.display),
                  Or(nickname.value.targetLangValue, nickname.value.display))
      else if profile.Some? then
        if profile.value.id == "general" then NoSelection
        else Selection(profile.value.displayName, profile.value.mainTranslation)
      else current
    case _ => current
  }

  /** The two readings of a choice agree: the pair the carousel derives from
      `{ profile, nickname }` is the one `<profile-selector>` computes for the
      same choice, provided the nickname's stored values are non-empty and
      the profile is not "General". The pair `<profile-selector>` itself
      emits is not a choice, so the carousel keeps its pair on it. */
  lemma ReduceAgreesWithSelectionOf(p: Profile, n: Option<Nickname>, current: Selection, s: Selection)
    requires n.Some? ==> p.id != "general" && n.value.baseLangValue != "" && n.value.targetLangValue != ""
    ensures Reduce(ChoiceData(Some(p), n), current) == SelectionOf(Some(p), n)
    ensures Reduce(SelectionData(s), current) == current
  {
  }

  /** The same choice announced twice (a fallback reload) leaves the pair the
      first announcement set. */
  lemma ReduceTwice(profile: Option<Profile>, nickname: Option<Nickname>, current: Selection)
    ensures Reduce(ChoiceData(profile, nickname), Reduce(ChoiceData(profile, nickname), current))
         == Reduce(ChoiceData(profile, nickname), current)
  {
  }

  /** Every phrase, category by category, in the order the cards appear. */
  function AllPhrases(cs: seq<Category>): seq<Phrase> {
    if cs == [] then [] else AllPhrases(cs[..|cs| - 1]) + cs[|cs| - 1].phrases
  }

  /** The base and target text of one card. */
  datatype Card = Card(base: string, target: string)

  /** A line of a card: its template as rendered, replaced by the filled
      template whenever the template is non-empty. */
  function Displayed(template: string, value: string): string {
    if template == "" then "" else FillName(template, value)
  }

  /** The empty-template guard changes nothing: filling the empty template
      gives the empty text, so every line shows the filled template. */
  lemma DisplayedIsFilled(template: string, value: string)
    ensures Displayed(template, value) == FillName(template, value)
  {
    if template == "" {
      BracelessUnchanged(template, Entry("name", value));
      NameTemplateOne(template, Entry("name", value));
    }
  }

  function CardFor(p: Phrase, s: Selection): Card {
    Card(Displayed(p.baseLang, s.baseValue), Displayed(p.targetLang, s.targetValue))
  }

  /** One card after `updatePhraseDisplay`: a line whose template is
      non-empty is refilled, the other keeps its text; on a card whose empty
      lines are empty that is the card the phrase shows for the pair. */
  function Refill(c: Card, p: Phrase, s: Selection): (r: Card)
    ensures (p.baseLang == "" ==> c.base == "") && (p.targetLang == "" ==> c.target == "") ==> r == CardFor(p, s)
  {
    Card(if p.baseLang != "" then FillName(p.baseLang, s.baseValue) else c.base,
         if p.targetLang != "" then FillName(p.targetLang, s.targetValue) else c.target)
  }

  class PhraseCarousel {
    var categories: seq<Category>
    var selection: Selection
    var activeTab: int
    var shown: seq<Card>

    /** Every card shows its phrase filled from the current pair. */
    predicate Valid()
      reads this
    {
      var ps := AllPhrases(categories);
      |shown| == |ps| && forall i | 0 <= i < |shown| :: shown[i] == CardFor(ps[i], selection)
    }

    /** One card per phrase, and a line with an empty template is empty. */
    predicate Rendered()
      reads this
    {
      var ps := AllPhrases(categories);
      && |shown| == |ps|
      && (forall i | 0 <= i < |shown| && ps[i].baseLang == "" :: shown[i].base == "")
      && (forall i | 0 <= i < |shown| && ps[i].targetLang == "" :: shown[i].target == "")
    }

    constructor()
      ensures categories == [] && selection == NoSelection && activeTab == 0 && shown == []
      ensures Valid()
    {
      categories := [];
      selection := NoSelection;
      activeTab := 0;
      shown := [];
    }

    /** `renderCategories()`: one card per phrase showing its raw templates,
        with the first tab marked active. */
    method RenderCategories()
      modifies this
      ensures categories == old(categories) && selection == old(selection) && activeTab == 0
      ensures |shown| == |AllPhrases(categories)|
      ensures forall i | 0 <= i < |shown| ::
                shown[i] == Card(AllPhrases(categories)[i].baseLang, AllPhrases(categories)[i].targetLang)
      ensures Rendered()
    {
      var ps := AllPhrases(categories);
      shown := seq(|ps|, i requires 0 <= i < |ps| => Card(ps[i].baseLang, ps[i].targetLang));
      activeTab := 0;
    }

    /** `updatePhraseDisplay()`: each card line with a non-empty template gets
        the template filled with the matching value of the pair. */
    method UpdatePhraseDisplay()
      requires Rendered()
      modifies this
      ensures categories == old(categories) && selection == old(selection) && activeTab == old(activeTab)
      ensures Valid()
    {
      var ps := AllPhrases(categories);
      for i := 0 to |shown|
        invariant categories == old(categories) && selection == old(selection) && activeTab == old(activeTab)
        invariant |shown| == |ps|
        invariant forall j | 0 <= j < i :: shown[j] == CardFor(ps[j], selection)
        invariant forall j | i <= j < |shown| && ps[j].baseLang == "" :: shown[j].base == ""
        invariant forall j | i <= j < |shown| && ps[j].targetLang == "" :: shown[j].target == ""
      {
        shown := shown[i := Refill(shown[i], ps[i], selection)];
      }
    }

    /** `loadCategories()`: the categories as `getAllCategories` orders them,
        rendered and filled from the pair already current, without waiting
        for a selection event. */
    method LoadCategories(db: Database)
      modifies this
      ensures SortedByOrder(categories) && multiset(categories) == multiset(Values(db.categories))
      ensures forall o :: WithOrder(categories, o) == WithOrder(Values(db.categories), o)
      ensures selection == old(selection) && activeTab == 0
      ensures Valid()
    {
      var all := db.GetAllCategories();
      categories := all;
      RenderCategories();
      UpdatePhraseDisplay();
    }

    /** The `PROFILE_SELECTED` handler: reduce the data to a pair, then
        refill every card. */
    method OnProfileSelected(data: Payload)
      requires Valid()
      modifies this
      ensures categories == old(categories) && activeTab == old(activeTab)
      ensures selection == Reduce(data, old(selection))
      ensures Valid()
    {
      selection := Reduce(data, selection);
      UpdatePhraseDisplay();
    }

    /** `scrollToCategory(index)`: acts only on the index of a loaded
        category. */
    method ScrollToCategory(index: int) returns (moved: bool)
      modifies this
      ensures moved <==> 0 <= index < |categories|
      ensures activeTab == (if moved then index else old(activeTab))
      ensures categories == old(categories) && selection == old(selection) && shown == old(shown)
    {
      moved := 0 <= index < |categories|;
      if moved {
        activeTab := index;
      }
    }

    /** `copyPhraseToClipboard` on card `card`: the target template filled
        with the pair current at click time, announced with the card's base
        text only when the clipboard accepts it (`clipboardOk`). On a
        consistent carousel that is exactly the text the card shows. */
    method CopyPhrase(card: int, clipboardOk: bool) returns (out: seq<Emission>)
      requires Valid()
      ensures out == (if 0 <= card < |shown| && clipboardOk
                      then [Emission(MessageCopied, CopiedData(FillName(AllPhrases(categories)[card].targetLang, selection.targetValue), shown[card].base))]
                      else [])
      ensures out != [] ==> 0 <= card < |shown| && out[0].data == CopiedData(shown[card].target, shown[card].base)
    {
      out := [];
      if 0 <= card < |shown| {
        var ps := AllPhrases(categories);
        var finalMessage := FillName(ps[card].targetLang, selection.targetValue);
        var originalText := shown[card].base;
        DisplayedIsFilled(ps[card].targetLang, selection.targetValue);
        if clipboardOk {
          out := [Emission(MessageCopied, CopiedData(finalMessage, originalText))];
        }
      }
    }
  }
}
