/** The seed data written into an empty store: two profiles and nine
    categories of phrases. Every phrase text holds one `{name}` placeholder,
    so it is written here as the text before and after it. */
module Defaults {
  import opened Optional
  import opened Text
  import opened Records
  import opened Store
  import opened Helpers

  /** `pre + "{name}" + post` */
  function Tpl(pre: string, post: string): string {
    pre + (Token("name") + post)
  }

  /** A seed text holds `{name}`, and when neither side has a '{', every '{'
      of it opens `{name}`. */
  lemma TplHasName(pre: string, post: string)
    ensures HasAt(Tpl(pre, post), |pre|, Token("name")) && Occurs(Tpl(pre, post), Token("name"))
    ensures '{' !in pre && '{' !in post ==> Opens(Tpl(pre, post), "name")
  {
    var t := Tpl(pre, post);
    assert t[|pre|..|pre| + |Token("name")|] == Token("name");
    assert 0 <= |pre| <= |t| - |Token("name")| && HasAt(t, |pre|, Token("name"));
    TplOpens(pre, post);
  }

  lemma TplOpens(pre: string, post: string)
    ensures '{' !in pre && '{' !in post ==> Opens(pre + (Token("name") + post), "name")
  {
    var t := pre + (Token("name") + post);
    var k := Token("name");
    if '{' !in pre && '{' !in post {
      forall i | 0 <= i < |t|
        ensures t[i] == '{' ==> i == |pre|
      {
        if i < |pre| {
          assert t[i] == pre[i] && pre[i] in pre;
        } else if i >= |pre| + |k| {
          assert t[i] == post[i - |pre| - |k|] && post[i - |pre| - |k|] in post;
        } else {
          assert t[i] == k[i - |pre|];
        }
      }
      assert t[|pre|..|pre| + |k|] == k;
    }
  }

  /** A blank name on `a + ", {name}" + post` leaves `a + post`, when the
      text around the token has no '{' and the joined text is normalised. */
  lemma CommaSeedBlank(pre: string, a: string, post: string, v: string)
    requires pre == a + ", "
    requires Blank(v) && '{' !in a && '{' !in post && Normalized(a + post)
    requires a != [] && !IsSpace(a[|a| - 1])
    ensures FillName(Tpl(pre, post), v) == a + post
  {
    NameIsWord();
    BlankRemovesCommaToken(a, "", ',', " ", "name", post, v);
    CommaTplShape(a, post);
    NameTemplateOne(Tpl(pre, post), Entry("name", v));
    CollapseKeepsNormalized(a + post);
  }

  lemma NameIsWord()
    ensures IsWord("name")
  {
  }

  lemma CommaTplShape(a: string, post: string)
    ensures a + ("" + ([','] + (" " + (Token("name") + post)))) == Tpl(a + ", ", post)
  {
  }

  /** A blank name on `"{name}" + post` leaves `post`, when `post` has no
      '{' and no whitespace. */
  lemma LeadingSeedBlank(post: string, v: string)
    requires Blank(v) && '{' !in post && NoSpace(post)
    ensures FillName(Tpl("", post), v) == post
  {
    NameIsWord();
    BlankRemovesBareToken("", "name", post, v);
    assert "" + (Token("name") + post) == Tpl("", post) && "" + post == post;
    NameTemplateOne(Tpl("", post), Entry("name", v));
    WordNormalized(post);
    CollapseKeepsNormalized(post);
  }

  /** With a blank name, the seed greeting "Have a wonderful day, {name}!"
      loses the comma, the space and the token, and nothing else. */
  lemma GreetingWithoutName(v: string)
    requires Blank(v)
    ensures FillName(Tpl(GreetingsTexts[2].basePre, GreetingsTexts[2].basePost), v) == "Have a wonderful day!"
  {
    var t := GreetingsTexts[2];
    GreetingText();
    GreetingNormalized();
    CommaSeedBlank(t.basePre, t.basePre[..20], t.basePost, v);
  }

  lemma GreetingText()
    ensures var t := GreetingsTexts[2];
      && |t.basePre| == 22 && t.basePre == t.basePre[..20] + ", "
      && '{' !in t.basePre[..20] && '{' !in t.basePost
      && !IsSpace(t.basePre[19])
      && t.basePre[..20] + t.basePost == "Have a wonderful day!"
  {
  }

  lemma GreetingNormalized()
    ensures Normalized("Have a wonderful day!")
  {
    var r := "Have a wonderful day!";
    forall i | 0 <= i < |r| && IsSpace(r[i]) ensures r[i] == ' ' && (i + 1 < |r| ==> !IsSpace(r[i + 1])) {
    }
  }

  /** With a blank name, the seed question "{name}，你吃得好吗？" keeps its
      full-width comma: only the token goes. */
  lemma QuestionWithoutName(v: string)
    requires Blank(v)
    ensures FillName(Tpl(QuestionsTexts[0].targetPre, QuestionsTexts[0].targetPost), v) == "，你吃得好吗？"
  {
    QuestionText();
    LeadingSeedBlank(QuestionsTexts[0].targetPost, v);
  }

  lemma QuestionText()
    ensures QuestionsTexts[0].targetPre == "" && QuestionsTexts[0].targetPost == "，你吃得好吗？"
    ensures '{' !in QuestionsTexts[0].targetPost && NoSpace(QuestionsTexts[0].targetPost)
  {
  }

  /** `DEFAULT_PROFILES`; `starId` is the id `Date.now()+1` gives Star. */
  function DefaultProfiles(starId: string): seq<Profile> {
    [ Profile("léna", "Léna", "蕾娜", "https://placehold.co/64x64/f8b4b4/333?text=L",
              Some("2015-06-29"), Some("Asia/Shanghai"),
              [Nickname(starId, "Star", "my star", "我的小星星")]),
      Profile("leelou", "Leelou", "理露", "https://placehold.co/64x64/b4d2f8/333?text=S",
              Some("2013-09-11"), Some("Asia/Shanghai"), []) ]
  }

  /** `DEFAULT_CATEGORIES`. The phrase ids of a category are its stem followed
      by the phrase's 1-based position ("greet1", "greet2", ...). */
  const DefaultCategories: seq<Category> := [
      Category("greetings", "Greetings", 0, Phrases("greet", GreetingsTexts)),
      Category("questions", "Questions", 1, Phrases("quest", QuestionsTexts)),
      Category("affection", "Affection", 2, Phrases("aff", AffectionTexts)),
      Category("school", "School", 3, Phrases("school", SchoolTexts)),
      Category("sports", "Sports", 4, Phrases("sport", SportsTexts)),
      Category("holidays", "Holidays", 5, Phrases("holiday", HolidaysTexts)),
      Category("birthday", "Birthday", 6, Phrases("birthday", BirthdayTexts)),
      Category("christmas", "Christmas", 7, Phrases("christmas", ChristmasTexts)),
      Category("special-events", "Special Events", 8, Phrases("special", SpecialEventsTexts))
    ]

  const GreetingsTexts: seq<SeedText> := [
      SeedText("Good morning ", ", how are you today?", "早上好 ", "，你今天过得怎么样？"),
      SeedText("Good night ", ", sweet dreams.", "晚安 ", "，做个好梦。"),
      SeedText("Have a wonderful day, ", "!", "祝你今天过得愉快，", "！")
    ]

  const QuestionsTexts: seq<SeedText> := [
      SeedText("Did you eat well, ", "?", "", "，你吃得好吗？"),
      SeedText("When are you coming home, ", "?", "你什么时候回家，", "？"),
      SeedText("How was your day, ", "?", "", "，你今天过得怎么样？"),
      SeedText("Are you feeling okay, ", "?", "", "，你感觉还好吗？")
    ]

  const AffectionTexts: seq<SeedText> := [
      SeedText("I'm thinking of you, ", ".", "我在想你，", "。"),
      SeedText("I love you, ", ".", "我爱你，", "。"),
      SeedText("I miss you so much, ", ".", "我很想你，", "。"),
      SeedText("You make me so proud, ", ".", "你让我很骄傲，", "。")
    ]

  const SchoolTexts: seq<SeedText> := [
      SeedText("Did you finish your homework, ", "?", "", "，你做完作业了吗？"),
      SeedText("Good luck with your test today, ", "!", "", "，祝你今天考试顺利！"),
      SeedText("How was school today, ", "?", "", "，今天上学怎么样？"),
      SeedText("Don't forget to pack your backpack, ", ".", "", "，别忘了收拾书包。"),
      SeedText("Study hard, ", ". I believe in you!", "好好学习，", "。我相信你！")
    ]

  const SportsTexts: seq<SeedText> := [
      SeedText("Good luck at practice today, ", "!", "", "，祝你今天训练顺利！"),
      SeedText("How was your game, ", "?", "", "，你的比赛怎么样？"),
      SeedText("You played amazingly, ", "!", "", "，你表现得太棒了！"),
      SeedText("Don't forget your sports gear, ", ".", "", "，别忘了带运动装备。"),
      SeedText("Keep up the great work, ", "!", "继续保持，", "！")
    ]

  const HolidaysTexts: seq<SeedText> := [
      SeedText("Enjoy your vacation, ", "!", "", "，享受你的假期！"),
      SeedText("Are you having fun on your trip, ", "?", "", "，你旅行玩得开心吗？"),
      SeedText("Take lots of photos, ", "!", "", "，多拍点照片！"),
      SeedText("Rest well during the holidays, ", ".", "", "，假期要好好休息。"),
      SeedText("Happy holidays, ", "!", "", "，节日快乐！")
    ]

  const BirthdayTexts: seq<SeedText> := [
      SeedText("Happy birthday, ", "! Hope all your wishes come true!", "生日快乐，", "！希望你所有的愿望都能实现！"),
      SeedText("Wishing you the happiest birthday, ", "!", "祝你生日最快乐，", "！"),
      SeedText("Another year older and wiser, ", "!", "又长大了一岁，", "！"),
      SeedText("Can't wait to celebrate with you, ", "!", "迫不及待要和你一起庆祝，", "！"),
      SeedText("You're growing up so fast, ", "!", "", "，你长得太快了！")
    ]

  const ChristmasTexts: seq<SeedText> := [
      SeedText("Merry Christmas, ", "!", "圣诞快乐，", "！"),
      SeedText("Santa is coming soon, ", "!", "", "，圣诞老人就要来了！"),
      SeedText("Have you been good this year, ", "?", "", "，你今年表现好吗？"),
      SeedText("Can't wait to open presents with you, ", "!", "迫不及待要和你一起拆礼物，", "！"),
      SeedText("The Christmas tree looks beautiful, ", ".", "", "，圣诞树真漂亮。")
    ]

  const SpecialEventsTexts: seq<SeedText> := [
      SeedText("Happy New Year, ", "! This will be an amazing year!", "新年快乐，", "！这将是美好的一年！"),
      SeedText("Congratulations on your achievement, ", "!", "恭喜你取得成就，", "！"),
      SeedText("Today is a special day, ", "!", "今天是特别的日子，", "！"),
      SeedText("You did something amazing today, ", "!", "", "，你今天做了了不起的事！"),
      SeedText("Let's celebrate together, ", "!", "我们一起庆祝吧，", "！"),
      SeedText("This moment is so precious, ", ".", "这个时刻很珍贵，", "。")
    ]

  /** The text of a seed phrase: in each language, the text before and after
      its `{name}`. */
  datatype SeedText = SeedText(basePre: string, basePost: string, targetPre: string, targetPost: string)

  /** The decimal digit of `n`. */
  function Digit(n: nat): char
    requires 1 <= n <= 9
  {
    (('0' as int) + n) as char
  }

  /** The phrases of a category whose ids are `stem` and a position. */
  function Phrases(stem: string, ts: seq<SeedText>): seq<Phrase>
    requires |ts| < 10
  {
    seq(|ts|, i requires 0 <= i < |ts| =>
      Phrase(stem + [Digit(i + 1)], Tpl(ts[i].basePre, ts[i].basePost), Tpl(ts[i].targetPre, ts[i].targetPost)))
  }

  /** The id stems and texts of the categories, in category order. */
  const Stems: seq<string> := ["greet", "quest", "aff", "school", "sport", "holiday", "birthday", "christmas", "special"]

  const TextTable: seq<seq<SeedText>> := [
      GreetingsTexts, QuestionsTexts, AffectionTexts, SchoolTexts, SportsTexts,
      HolidaysTexts, BirthdayTexts, ChristmasTexts, SpecialEventsTexts
    ]

  /** The nine categories, in `order` 0 to 8 at their own positions, with
      pairwise distinct ids, each holding the phrases built from its stem and
      texts. */
  lemma DefaultShape()
    ensures |DefaultCategories| == 9 && |Stems| == 9 && |TextTable| == 9
    ensures forall k | 0 <= k < 9 :: DefaultCategories[k].order == k
    ensures forall k | 0 <= k < 9 :: |TextTable[k]| < 10
    ensures forall k | 0 <= k < 9 :: DefaultCategories[k].phrases == Phrases(Stems[k], TextTable[k])
    ensures forall k, l | 0 <= k < l < 9 :: DefaultCategories[k].id != DefaultCategories[l].id
  {
  }

  /** No two stems share their first three letters. */
  lemma StemsDiffer(a: nat, b: nat)
    requires a < 9 && b < 9 && a != b
    ensures |Stems| == 9 && 3 <= |Stems[a]| && 3 <= |Stems[b]| && Stems[a][..3] != Stems[b][..3]
  {
    var x := Stems[a];
    var y := Stems[b];
    assert x[..3] == [x[0], x[1], x[2]] && y[..3] == [y[0], y[1], y[2]];
    assert x[0] != y[0] || x[1] != y[1] || x[2] != y[2];
  }

  /** Ids built from different stems, or from one stem and different
      positions, differ. */
  lemma StemIdsDistinct(a: nat, i: nat, b: nat, j: nat)
    requires a < 9 && b < 9 && 1 <= i <= 9 && 1 <= j <= 9 && (a != b || i != j)
    ensures |Stems| == 9 && Stems[a] + [Digit(i)] != Stems[b] + [Digit(j)]
  {
    var x := Stems[a] + [Digit(i)];
    var y := Stems[b] + [Digit(j)];
    if a != b {
      StemsDiffer(a, b);
      assert x[..3] == Stems[a][..3] && y[..3] == Stems[b][..3];
    } else {
      assert x[|x| - 1] == Digit(i) && y[|y| - 1] == Digit(j);
    }
  }

  /** Both texts of the phrase hold `{name}`. */
  predicate Named(p: Phrase) {
    Occurs(p.baseLang, Token("name")) && Occurs(p.targetLang, Token("name"))
  }

  /** Every phrase built from seed texts is named; when the texts have no
      '{', every '{' of each text opens `{name}`, which is what a complete
      substitution needs. */
  lemma PhrasesNamed(stem: string, ts: seq<SeedText>, i: nat)
    requires |ts| < 10 && i < |ts|
    ensures Named(Phrases(stem, ts)[i])
    ensures '{' !in ts[i].basePre && '{' !in ts[i].basePost ==> Opens(Phrases(stem, ts)[i].baseLang, "name")
    ensures '{' !in ts[i].targetPre && '{' !in ts[i].targetPost ==> Opens(Phrases(stem, ts)[i].targetLang, "name")
  {
    TplHasName(ts[i].basePre, ts[i].basePost);
    TplHasName(ts[i].targetPre, ts[i].targetPost);
  }

  /** Every default phrase holds `{name}` in both languages. */
  lemma DefaultTemplatesNamed(k: nat, i: nat)
    requires k < |DefaultCategories| && i < |DefaultCategories[k].phrases|
    ensures Named(DefaultCategories[k].phrases[i])
  {
    DefaultShape();
    PhrasesNamed(Stems[k], TextTable[k], i);
  }

  /** Phrase ids are distinct across all default categories: two different
      positions hold different ids. */
  lemma DefaultPhraseIdsDistinct(a: nat, i: nat, b: nat, j: nat)
    requires a < |DefaultCategories| && i < |DefaultCategories[a].phrases|
    requires b < |DefaultCategories| && j < |DefaultCategories[b].phrases|
    requires a != b || i != j
    ensures DefaultCategories[a].phrases[i].id != DefaultCategories[b].phrases[j].id
  {
    DefaultPhraseId(a, i);
    DefaultPhraseId(b, j);
    StemIdsDistinct(a, i + 1, b, j + 1);
  }

  lemma DefaultPhraseId(k: nat, i: nat)
    requires k < |DefaultCategories| && i < |DefaultCategories[k].phrases|
    ensures k < 9 && i < 9 && |Stems| == 9 && DefaultCategories[k].phrases[i].id == Stems[k] + [Digit(i + 1)]
  {
    DefaultShape();
  }

  /** The two default profiles have distinct ids, and `getAll` lists Leelou
      first: "leelou" sorts below "léna" ('e' before 'é'). Léna has the one
      nickname Star; Leelou has none. */
  lemma DefaultProfileKeys(starId: string)
    ensures |DefaultProfiles(starId)| == 2
    ensures DefaultProfiles(starId)[0].nicknames == [Nickname(starId, "Star", "my star", "我的小星星")]
    ensures DefaultProfiles(starId)[1].nicknames == []
    ensures KeyLess(DefaultProfiles(starId)[1].id, DefaultProfiles(starId)[0].id)
    ensures DefaultProfiles(starId)[0].id != DefaultProfiles(starId)[1].id
  {
    var ps := DefaultProfiles(starId);
    assert ps[1].id == "leelou" && ps[0].id == "léna";
    assert "leelou"[1..] == "eelou" && "léna"[1..] == "éna";
    assert KeyLess("eelou", "éna");
  }
}
