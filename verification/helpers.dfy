/** The template helpers: `replaceNameTemplate`, which every displayed and
    copied phrase goes through, and the older `replaceTemplate`. */
module Helpers {
  import opened Text

  /** One `[key, value]` pair of `Object.entries(replacements)`. */
  datatype Entry = Entry(key: string, value: string)

  /** `!value || value.trim() === ''` */
  predicate Blank(v: string) {
    Trim(v) == []
  }

  /** A value is blank exactly when it is empty or all whitespace. */
  lemma BlankIffAllSpace(v: string)
    ensures Blank(v) <==> AllSpace(v)
  {
    var u := TrimStart(v);
    var r := TrimEnd(u);
    assert v == v[..|v| - |u|] + u;
    if r == [] {
      assert u[|r|..] == u;
    }
    if u != [] {
      assert u[0] == v[|v| - |u|];
      assert v[|v| - |u|] in v;
    }
  }

  /** One iteration of the `forEach` in `replaceNameTemplate`: a blank value
      removes the token with a preceding comma, then with preceding
      whitespace, then alone; any other value replaces every token. */
  function Substitute(s: string, e: Entry): string {
    if Blank(e.value) then
      var noComma := Replace(s, CommaPlaceholder(e.key), "");
      var noSpaced := Replace(noComma, SpacedPlaceholder(e.key), "");
      Replace(noSpaced, Placeholder(e.key), "")
    else
      Replace(s, Placeholder(e.key), e.value)
  }

  /** The entries applied in order. */
  function SubstituteAll(s: string, entries: seq<Entry>): string
    decreases |entries|
  {
    if entries == [] then s else SubstituteAll(Substitute(s, entries[0]), entries[1..])
  }

  /** What `replaceNameTemplate(template, replacements)` returns. The result
      never has leading, trailing or repeated whitespace. */
  function NameTemplate(template: string, replacements: seq<Entry>): (r: string)
    ensures Normalized(r)
  {
    CollapseNormalizes(SubstituteAll(template, replacements));
    Collapse(SubstituteAll(template, replacements))
  }

  /** `replaceNameTemplate`: reassigns `result` once per entry, then collapses
      whitespace and trims. */
  method ReplaceNameTemplate(template: string, replacements: seq<Entry>) returns (result: string)
    ensures result == NameTemplate(template, replacements)
  {
    result := template;
    for i := 0 to |replacements|
      invariant SubstituteAll(result, replacements[i..]) == SubstituteAll(template, replacements)
    {
      SubstituteFrom(result, replacements, i);
      result := Substitute(result, replacements[i]);
    }
    SubstituteNone(result, replacements);
    result := Collapse(result);
  }

  /** One more entry applied, counting from entry `i`. */
  lemma SubstituteFrom(s: string, entries: seq<Entry>, i: nat)
    requires i < |entries|
    ensures SubstituteAll(s, entries[i..]) == SubstituteAll(Substitute(s, entries[i]), entries[i + 1..])
  {
    assert entries[i..][0] == entries[i];
    assert entries[i..][1..] == entries[i + 1..];
  }

  lemma SubstituteNone(s: string, entries: seq<Entry>)
    ensures SubstituteAll(s, entries[|entries|..]) == s
  {
    assert entries[|entries|..] == [];
  }

  /** The call every component makes: `{ name: value }`. */
  function FillName(template: string, value: string): string {
    NameTemplate(template, [Entry("name", value)])
  }

  lemma SubstituteOne(t: string, e: Entry)
    ensures SubstituteAll(t, [e]) == Substitute(t, e)
  {
    assert [e][1..] == [];
  }

  lemma NameTemplateOne(t: string, e: Entry)
    ensures NameTemplate(t, [e]) == Collapse(Substitute(t, e))
  {
    SubstituteOne(t, e);
  }

  // ---------------------------------------------------------------------------
  // Blank value: what is removed

  /** The three removal passes on a template whose only '{' opens the token. */
  lemma BareTokenPasses(pre: string, key: string, post: string)
    requires IsWord(key) && '{' !in pre && '{' !in post
    requires pre != [] ==> !IsSpace(pre[|pre| - 1]) && !IsComma(pre[|pre| - 1])
    ensures var s := pre + (Token(key) + post);
      && Replace(s, CommaPlaceholder(key), "") == s
      && Replace(s, SpacedPlaceholder(key), "") == s
      && Replace(s, Placeholder(key), "") == pre + post
  {
    var t := Token(key) + post;
    PlainPrefixKept(pre, t, CommaPlaceholder(key), "");
    TokenThenPlain(key, post, CommaPlaceholder(key), "");
    PlainPrefixKept(pre, t, SpacedPlaceholder(key), "");
    TokenThenPlain(key, post, SpacedPlaceholder(key), "");
    ReplaceKeepsBraceless(pre, t, key, "");
    TokenThenPlain(key, post, Placeholder(key), "");
    assert "" + post == post;
  }

  /** Blank value, token not preceded by whitespace or a comma (or at the very
      start): the token alone disappears. */
  lemma BlankRemovesBareToken(pre: string, key: string, post: string, v: string)
    requires IsWord(key) && Blank(v) && '{' !in pre && '{' !in post
    requires pre != [] ==> !IsSpace(pre[|pre| - 1]) && !IsComma(pre[|pre| - 1])
    ensures Substitute(pre + (Token(key) + post), Entry(key, v)) == pre + post
  {
    var s := pre + (Token(key) + post);
    BareTokenPasses(pre, key, post);
    BlankSubstitute(s, key, v, s, s, pre + post);
  }

  /** The comma pass finds nothing in whitespace directly followed by '{'. */
  lemma SpacesBeforeBraceKept(a: string, w: string, t: string, key: string)
    requires '{' !in a && AllSpace(w) && t != [] && t[0] == '{'
    requires a != [] ==> !IsSpace(a[|a| - 1]) && !IsComma(a[|a| - 1])
    ensures Replace(a + (w + t), CommaPlaceholder(key), "") == a + (w + Replace(t, CommaPlaceholder(key), ""))
  {
    PlainPrefixKept(a, w + t, CommaPlaceholder(key), "");
    forall j | 0 <= j < |w| ensures MatchLength((w + t)[j..], CommaPlaceholder(key)) == 0 {
      var u := (w + t)[j..];
      DropAppend(w, t, j);
      assert AllSpace(w[j..]) by { forall c | c in w[j..] ensures IsSpace(c) { assert c in w; } }
      SpaceRunAppend(w[j..], t);
      assert u[|w| - j] == '{';
    }
    ReplaceSkips(w, t, CommaPlaceholder(key), "");
  }

  lemma SpacedMatchLength(w: string, key: string, post: string)
    requires w != [] && AllSpace(w)
    ensures MatchLength(w + (Token(key) + post), SpacedPlaceholder(key)) == |w| + |Token(key)|
  {
    var t := Token(key) + post;
    var m := w + t;
    SpaceRunAppend(w, t);
    assert m[|w|..] == t;
    SpacedMatchAt(m, key, |w|);
  }

  lemma RemoveMatchedPrefix(m: string, n: nat, p: Pattern, post: string)
    requires p.EndsInToken() && MatchLength(m, p) == n > 0 && m[n..] == post && '{' !in post
    ensures Replace(m, p, "") == post
  {
    ReplaceAtMatch(m, p, "");
    NoBraceUnchanged(post, p, "");
  }

  /** The spaced pattern matches the whitespace run and the token. */
  lemma SpacedMatchesWhole(w: string, key: string, post: string)
    requires w != [] && AllSpace(w) && '{' !in post
    ensures Replace(w + (Token(key) + post), SpacedPlaceholder(key), "") == post
  {
    SpacedMatchLength(w, key, post);
    var m := w + (Token(key) + post);
    assert m[|w| + |Token(key)|..] == post;
    RemoveMatchedPrefix(m, |w| + |Token(key)|, SpacedPlaceholder(key), post);
  }

  /** The removal branch of `Substitute`, pass by pass. */
  lemma BlankSubstitute(s: string, key: string, v: string, x: string, y: string, r: string)
    requires Blank(v)
    requires Replace(s, CommaPlaceholder(key), "") == x
    requires Replace(x, SpacedPlaceholder(key), "") == y
    requires Replace(y, Placeholder(key), "") == r
    ensures Substitute(s, Entry(key, v)) == r
  {
  }

  /** Blank value, token preceded by whitespace that does not follow a comma:
      the token disappears together with that whitespace. */
  lemma BlankRemovesSpacedToken(a: string, w: string, key: string, post: string, v: string)
    requires IsWord(key) && Blank(v) && '{' !in a && '{' !in post
    requires w != [] && AllSpace(w)
    requires a != [] ==> !IsSpace(a[|a| - 1]) && !IsComma(a[|a| - 1])
    ensures Substitute(a + (w + (Token(key) + post)), Entry(key, v)) == a + post
  {
    var t := Token(key) + post;
    var s := a + (w + t);
    SpacedTokenPasses(a, w, key, post);
    BlankSubstitute(s, key, v, s, a + post, a + post);
  }

  lemma SpacedTokenPasses(a: string, w: string, key: string, post: string)
    requires IsWord(key) && '{' !in a && '{' !in post
    requires w != [] && AllSpace(w)
    requires a != [] ==> !IsSpace(a[|a| - 1]) && !IsComma(a[|a| - 1])
    ensures var s := a + (w + (Token(key) + post));
      && Replace(s, CommaPlaceholder(key), "") == s
      && Replace(s, SpacedPlaceholder(key), "") == a + post
      && Replace(a + post, Placeholder(key), "") == a + post
  {
    var t := Token(key) + post;
    SpacesBeforeBraceKept(a, w, t, key);
    TokenThenPlain(key, post, CommaPlaceholder(key), "");
    PlainPrefixKept(a, w + t, SpacedPlaceholder(key), "");
    SpacedMatchesWhole(w, key, post);
    assert '{' !in a + post;
    NoBraceUnchanged(a + post, Placeholder(key), "");
  }

  /** Blank value, token preceded by a comma (Western or full-width) with
      optional whitespace on either side: all of it disappears. */
  lemma BlankRemovesCommaToken(a: string, w1: string, c: char, w2: string, key: string, post: string, v: string)
    requires IsWord(key) && Blank(v) && '{' !in a && '{' !in post
    requires AllSpace(w1) && IsComma(c) && AllSpace(w2)
    requires a != [] ==> !IsSpace(a[|a| - 1])
    ensures Substitute(a + (w1 + ([c] + (w2 + (Token(key) + post)))), Entry(key, v)) == a + post
  {
    var m := w1 + ([c] + (w2 + (Token(key) + post)));
    var s := a + m;
    CommaPass(a, w1, c, w2, key, post);
    assert '{' !in a + post;
    NoBraceUnchanged(a + post, SpacedPlaceholder(key), "");
    NoBraceUnchanged(a + post, Placeholder(key), "");
    BlankSubstitute(s, key, v, a + post, a + post, a + post);
  }

  lemma CommaPass(a: string, w1: string, c: char, w2: string, key: string, post: string)
    requires IsWord(key) && '{' !in a && '{' !in post
    requires AllSpace(w1) && IsComma(c) && AllSpace(w2)
    requires a != [] ==> !IsSpace(a[|a| - 1])
    ensures Replace(a + (w1 + ([c] + (w2 + (Token(key) + post)))), CommaPlaceholder(key), "") == a + post
  {
    CommaPrefixKept(a, w1, c, w2, key, post);
    CommaSeparatorRemoved(w1, c, w2, key, post);
  }

  lemma CommaSeparatorRemoved(w1: string, c: char, w2: string, key: string, post: string)
    requires '{' !in post && AllSpace(w1) && IsComma(c) && AllSpace(w2)
    ensures Replace(w1 + ([c] + (w2 + (Token(key) + post))), CommaPlaceholder(key), "") == post
  {
    var m := w1 + ([c] + (w2 + (Token(key) + post)));
    CommaMatchesWhole(w1, c, w2, key, post);
    assert |m| - |post| == |w1| + 1 + |w2| + |Token(key)|;
    assert m[|m| - |post|..] == post;
    RemoveMatchedPrefix(m, |m| - |post|, CommaPlaceholder(key), post);
  }

  /** The comma pattern matches the whole separator and the token. */
  lemma CommaMatchesWhole(w1: string, c: char, w2: string, key: string, post: string)
    requires AllSpace(w1) && IsComma(c) && AllSpace(w2)
    ensures MatchLength(w1 + ([c] + (w2 + (Token(key) + post))), CommaPlaceholder(key))
      == |w1| + 1 + |w2| + |Token(key)|
  {
    var t := Token(key) + post;
    var m := w1 + ([c] + (w2 + t));
    SeparatorRuns(w1, c, w2, t);
    assert m[|w1| + 1..][|w2|..] == t;
    CommaMatchAt(m, key, |w1|, |w2|);
  }

  lemma SeparatorRuns(w1: string, c: char, w2: string, t: string)
    requires AllSpace(w1) && IsComma(c) && AllSpace(w2) && t != [] && t[0] == '{'
    ensures var m := w1 + ([c] + (w2 + t));
      && SpaceRun(m) == |w1| && m[|w1|] == c
      && m[|w1| + 1..] == w2 + t && SpaceRun(w2 + t) == |w2|
  {
    SpaceRunAppend(w1, [c] + (w2 + t));
    assert ([c] + (w2 + t))[0] == c;
    SpaceRunAppend(w2, t);
  }

  /** The only '{' of `s` is at index `b`. */
  predicate OnlyBraceAt(s: string, b: int) {
    forall i | 0 <= i < |s| && s[i] == '{' :: i == b
  }

  lemma PrependNoBrace(x: string, y: string, b: int)
    requires '{' !in x && OnlyBraceAt(y, b)
    ensures OnlyBraceAt(x + y, |x| + b)
  {
    NoBraceIndex(x);
    forall i | 0 <= i < |x + y| && (x + y)[i] == '{' ensures i == |x| + b {
      if i >= |x| { assert (x + y)[i] == y[i - |x|]; }
    }
  }

  lemma TokenOnlyBrace(key: string, post: string)
    requires IsWord(key) && '{' !in post
    ensures OnlyBraceAt(Token(key) + post, 0)
  {
    WordInert(key);
    var t := Token(key) + post;
    assert t[1..] == (key + "}") + post;
    assert '{' !in (key + "}") + post;
    NoBraceIndex(t[1..]);
    forall i | 0 < i < |t| ensures t[i] != '{' { assert t[i] == t[1..][i - 1]; }
  }

  lemma SpacesNoBrace(w: string)
    requires AllSpace(w)
    ensures '{' !in w
  {
    assert !IsSpace('{');
  }

  /** No comma match starts before the separator: such a match would have to
      reach the only '{' through whitespace and exactly one comma, which forces
      the last character of `a` to be whitespace. */
  lemma CommaPrefixKept(a: string, w1: string, c: char, w2: string, key: string, post: string)
    requires '{' !in a && '{' !in post && IsWord(key)
    requires AllSpace(w1) && IsComma(c) && AllSpace(w2)
    requires a != [] ==> !IsSpace(a[|a| - 1])
    ensures var m := w1 + ([c] + (w2 + (Token(key) + post)));
      Replace(a + m, CommaPlaceholder(key), "") == a + Replace(m, CommaPlaceholder(key), "")
  {
    var r2 := w2 + (Token(key) + post);
    var r1 := [c] + r2;
    var m := w1 + r1;
    var s := a + m;
    var brace := |a| + |w1| + 1 + |w2|;
    TokenOnlyBrace(key, post);
    SpacesNoBrace(w2);
    PrependNoBrace(w2, Token(key) + post, 0);
    PrependNoBrace([c], r2, |w2|);
    SpacesNoBrace(w1);
    PrependNoBrace(w1, r1, 1 + |w2|);
    PrependNoBrace(a, m, |w1| + 1 + |w2|);
    assert s[|a| + |w1|] == c;
    forall j | 0 <= j < |a| ensures MatchLength((a + m)[j..], CommaPlaceholder(key)) == 0 {
      NoCommaMatchBefore(s, j, brace, |a| - 1, |a| + |w1|, key);
    }
    ReplaceSkips(a, m, CommaPlaceholder(key), "");
  }

  /** A comma match starting at `j` would reach the only '{' (at `brace`)
      through a single comma; a non-whitespace character at `p` and a comma at
      `q`, both between them, rule that out. */
  lemma NoCommaMatchBefore(s: string, j: nat, brace: nat, p: nat, q: nat, key: string)
    requires j <= p < q < brace < |s| && OnlyBraceAt(s, brace)
    requires !IsSpace(s[p]) && IsComma(s[q])
    ensures MatchLength(s[j..], CommaPlaceholder(key)) == 0
  {
    var u := s[j..];
    CommaShape(u, key);
    var n := MatchLength(u, CommaPlaceholder(key));
    var k := n - |Token(key)|;
    assert forall i | 0 <= i < |u| && u[i] == '{' :: j + i == brace by {
      forall i | 0 <= i < |u| && u[i] == '{' ensures j + i == brace { assert u[i] == s[j + i]; }
    }
    assert u[p - j] == s[p];
    assert u[q - j] == s[q];
    assert !IsSpace(s[q]);
  }

  // ---------------------------------------------------------------------------
  // Non-blank value: every token is filled

  /** `parts` joined with `sep` between consecutive parts. */
  function Join(parts: seq<string>, sep: string): string
    requires |parts| > 0
    decreases |parts|
  {
    if |parts| == 1 then parts[0] else parts[0] + (sep + Join(parts[1..], sep))
  }

  predicate BracelessParts(parts: seq<string>) {
    forall i | 0 <= i < |parts| :: '{' !in parts[i]
  }

  lemma TokenFilled(key: string, rest: string, v: string)
    ensures Replace(Token(key) + rest, Placeholder(key), v) == v + Replace(rest, Placeholder(key), v)
  {
    var m := Token(key) + rest;
    assert Token(key) <= m;
    assert m[|Token(key)|..] == rest;
    ReplaceAtMatch(m, Placeholder(key), v);
  }

  lemma {:induction false} FillJoin(parts: seq<string>, key: string, v: string)
    requires |parts| > 0 && BracelessParts(parts)
    ensures Replace(Join(parts, Token(key)), Placeholder(key), v) == Join(parts, v)
  {
    if |parts| == 1 {
      NoBraceUnchanged(parts[0], Placeholder(key), v);
    } else {
      var rest := Join(parts[1..], Token(key));
      ReplaceKeepsBraceless(parts[0], Token(key) + rest, key, v);
      TokenFilled(key, rest, v);
      assert BracelessParts(parts[1..]) by {
        forall i | 0 <= i < |parts[1..]| ensures '{' !in parts[1..][i] { assert parts[1..][i] == parts[i + 1]; }
      }
      FillJoin(parts[1..], key, v);
    }
  }

  /** A non-blank value replaces every occurrence of the token and nothing else. */
  lemma FilledReplacesEvery(parts: seq<string>, key: string, v: string)
    requires |parts| > 0 && BracelessParts(parts) && !Blank(v)
    ensures Substitute(Join(parts, Token(key)), Entry(key, v)) == Join(parts, v)
  {
    FillJoin(parts, key, v);
  }

  // ---------------------------------------------------------------------------
  // Whole-call properties for a single `{key: value}` map

  /** No '{' survives, provided every '{' of the template opens a `{key}` token
      and the value has no '{'. */
  lemma NoPlaceholderLeft(t: string, key: string, v: string)
    requires IsWord(key) && Opens(t, key) && '{' !in v
    ensures '{' !in NameTemplate(t, [Entry(key, v)])
    ensures !Occurs(NameTemplate(t, [Entry(key, v)]), Token(key))
  {
    var r := Substitute(t, Entry(key, v));
    if Blank(v) {
      var x := Replace(t, CommaPlaceholder(key), "");
      RemovalKeepsOpens(t, CommaPlaceholder(key));
      var y := Replace(x, SpacedPlaceholder(key), "");
      RemovalKeepsOpens(x, SpacedPlaceholder(key));
      FillLeavesNoBrace(y, key, "");
    } else {
      FillLeavesNoBrace(t, key, v);
    }
    NameTemplateOne(t, Entry(key, v));
    CollapseChars(r);
    NoBraceNoToken(NameTemplate(t, [Entry(key, v)]), key);
  }

  /** Substitution leaves a template without '{' as it is. */
  lemma BracelessUnchanged(t: string, e: Entry)
    requires '{' !in t
    ensures Substitute(t, e) == t
  {
    NoBraceUnchanged(t, CommaPlaceholder(e.key), "");
    NoBraceUnchanged(t, SpacedPlaceholder(e.key), "");
    NoBraceUnchanged(t, Placeholder(e.key), "");
    NoBraceUnchanged(t, Placeholder(e.key), e.value);
  }

  /** Applying the substitution to its own result changes nothing (same
      hypotheses as NoPlaceholderLeft). */
  lemma NameTemplateIdempotent(t: string, key: string, v: string)
    requires IsWord(key) && Opens(t, key) && '{' !in v
    ensures NameTemplate(NameTemplate(t, [Entry(key, v)]), [Entry(key, v)]) == NameTemplate(t, [Entry(key, v)])
  {
    var r := NameTemplate(t, [Entry(key, v)]);
    NoPlaceholderLeft(t, key, v);
    BracelessUnchanged(r, Entry(key, v));
    NameTemplateOne(r, Entry(key, v));
    CollapseKeepsNormalized(r);
  }

  lemma WithoutTokenUnchanged(t: string, e: Entry)
    requires !Occurs(t, Token(e.key))
    ensures Substitute(t, e) == t
  {
    ReplaceWithoutToken(t, CommaPlaceholder(e.key), "");
    ReplaceWithoutToken(t, SpacedPlaceholder(e.key), "");
    ReplaceWithoutToken(t, Placeholder(e.key), "");
    ReplaceWithoutToken(t, Placeholder(e.key), e.value);
  }

  /** A template without the token only has its whitespace normalised. */
  lemma WithoutTokenOnlyCollapses(t: string, key: string, v: string)
    requires !Occurs(t, Token(key))
    ensures NameTemplate(t, [Entry(key, v)]) == Collapse(t)
  {
    WithoutTokenUnchanged(t, Entry(key, v));
    NameTemplateOne(t, Entry(key, v));
  }

  /** "{" + x + "{x+y}" + y + "}" has no whitespace and no comma. */
  lemma NestedNoSeparator(x: string, y: string)
    requires IsWord(x + y)
    ensures forall c | c in "{" + (x + (Token(x + y) + (y + "}"))) :: !IsSpace(c) && !IsComma(c)
  {
    var key := x + y;
    forall c | c in "{" + (x + (Token(key) + (y + "}"))) ensures !IsSpace(c) && !IsComma(c) {
      if c in key { assert IsWordChar(c); }
    }
  }

  lemma NestedPlainPass(x: string, y: string)
    requires IsWord(x + y) && x != []
    ensures Replace(("{" + x) + (Token(x + y) + (y + "}")), Placeholder(x + y), "") == Token(x + y)
  {
    var key := x + y;
    var pre := "{" + x;
    var rest := Token(key) + (y + "}");
    NestedPrefixSkipped(x, y);
    ReplaceSkips(pre, rest, Placeholder(key), "");
    TailNoBrace(x, y);
    TokenThenPlain(key, y + "}", Placeholder(key), "");
    SplitToken(x, y);
  }

  lemma SplitToken(x: string, y: string)
    ensures ("{" + x) + ("" + (y + "}")) == Token(x + y)
  {
    assert "" + (y + "}") == y + "}";
  }

  lemma TailNoBrace(x: string, y: string)
    requires IsWord(x + y)
    ensures '{' !in y + "}"
  {
    forall c | c in y + "}" ensures c != '{' { if c in y { assert c in x + y; assert IsWordChar(c); } }
  }

  lemma NestedPrefixSkipped(x: string, y: string)
    requires IsWord(x + y) && x != []
    ensures forall j | 0 <= j < |"{" + x| ::
      MatchLength((("{" + x) + (Token(x + y) + (y + "}")))[j..], Placeholder(x + y)) == 0
  {
    forall j | 0 <= j < |"{" + x| ensures MatchLength((("{" + x) + (Token(x + y) + (y + "}")))[j..], Placeholder(x + y)) == 0 {
      NestedNoMatch(x, y, j);
    }
  }

  lemma NestedNoMatch(x: string, y: string, j: nat)
    requires IsWord(x + y) && x != [] && j <= |x|
    ensures MatchLength(("{" + x + (Token(x + y) + (y + "}")))[j..], Placeholder(x + y)) == 0
  {
    var key := x + y;
    var t := "{" + x + (Token(key) + (y + "}"));
    PlaceholderShape(t[j..], key);
    if j > 0 { assert t[j] == x[j - 1]; assert x[j - 1] in key; }
    assert t[|x| + 1] == '{';
    assert Token(key)[|x| + 1] == (key + "}")[|x|];
    assert key[..|x|] == x;
    assert key[|x|..] == y;
    if y != [] { assert key[|x|] in key; }
  }

  lemma NestedFirstPass(x: string, y: string)
    requires IsWord(x + y) && x != []
    ensures Substitute("{" + (x + (Token(x + y) + (y + "}"))), Entry(x + y, "")) == Token(x + y)
  {
    var key := x + y;
    var t := "{" + (x + (Token(key) + (y + "}")));
    assert Blank("");
    assert Replace(t, CommaPlaceholder(key), "") == t by {
      NestedNoSeparator(x, y);
      NoSeparatorUnchanged(t, CommaPlaceholder(key), "");
    }
    assert Replace(t, SpacedPlaceholder(key), "") == t by {
      NestedNoSeparator(x, y);
      NoSeparatorUnchanged(t, SpacedPlaceholder(key), "");
    }
    assert Replace(t, Placeholder(key), "") == Token(key) by {
      NestedPlainPass(x, y);
      assert ("{" + x) + (Token(key) + (y + "}")) == t;
    }
    BlankSubstitute(t, key, "", t, t, Token(key));
  }

  lemma BareTokenVanishes(key: string)
    requires IsWord(key)
    ensures Substitute(Token(key), Entry(key, "")) == []
  {
    BareTokenPasses([], key, []);
    assert [] + (Token(key) + []) == Token(key);
    assert Blank("");
    BlankSubstitute(Token(key), key, "", Token(key), Token(key), []);
  }

  /** Without the hypothesis that every '{' opens a token, neither "no token
      left" nor idempotence holds: with a blank value, removing the inner token
      of "{na{name}me}" joins the outer text into a new "{name}", which a
      second call then removes. */
  lemma NestedBracesCounterexample(x: string, y: string)
    requires IsWord(x + y) && x != []
    ensures var t := "{" + x + Token(x + y) + y + "}";
      && NameTemplate(t, [Entry(x + y, "")]) == Token(x + y)
      && NameTemplate(Token(x + y), [Entry(x + y, "")]) == ""
  {
    var key := x + y;
    var t := "{" + (x + (Token(key) + (y + "}")));
    assert "{" + x + Token(x + y) + y + "}" == t;
    NestedFirstPass(x, y);
    NameTemplateOne(t, Entry(key, ""));
    TokenCollapsed(key);
    BareTokenVanishes(key);
    NameTemplateOne(Token(key), Entry(key, ""));
  }

  lemma TokenCollapsed(key: string)
    requires IsWord(key)
    ensures Collapse(Token(key)) == Token(key)
  {
    assert NoSpace(Token(key)) by {
      forall c | c in Token(key) ensures !IsSpace(c) { if c in key { assert IsWordChar(c); } }
    }
    WordNormalized(Token(key));
    CollapseKeepsNormalized(Token(key));
  }

  /** A '{' in the value matters too: every '{' of "{name}e}" opens the token,
      yet filling it with "{nam" builds a new "{name}", and a second call
      replaces that token again. */
  lemma BracedValueCounterexample(x: string, y: string)
    requires IsWord(x + y) && x != []
    ensures var key := x + y;
      && Opens(Token(key) + (y + "}"), key)
      && NameTemplate(Token(key) + (y + "}"), [Entry(key, "{" + x)]) == Token(key)
      && NameTemplate(Token(key), [Entry(key, "{" + x)]) == "{" + x
  {
    var key := x + y;
    BracelessTail(x, y);
    TokenThenTailOpens(key, y + "}");
    BracedValueFill(x, y);
    BracedValueRefill(x, y);
  }

  lemma BracelessTail(x: string, y: string)
    requires IsWord(x + y)
    ensures '{' !in y + "}"
  {
    forall c | c in y + "}" ensures c != '{' { if c in y { assert c in x + y; } }
  }

  /** A token followed by text without '{' satisfies Opens. */
  lemma TokenThenTailOpens(key: string, post: string)
    requires IsWord(key) && '{' !in post
    ensures Opens(Token(key) + post, key)
  {
    var t := Token(key) + post;
    forall j | 0 < j < |t| ensures t[j] != '{' {
      if j <= |key| {
        assert t[j] == key[j - 1] && key[j - 1] in key;
      } else if j > |key| + 1 {
        assert t[j] == post[j - |key| - 2] && t[j] in post;
      }
    }
    assert t[..|Token(key)|] == Token(key);
  }

  lemma BracedValueNotBlank(x: string, y: string)
    requires IsWord(x + y)
    ensures !Blank("{" + x) && NoSpace("{" + x)
  {
    var v := "{" + x;
    assert !AllSpace(v) by { assert v[0] in v; }
    BlankIffAllSpace(v);
    BracedValueNoSpace(x, y);
  }

  lemma BracedValueNoSpace(x: string, y: string)
    requires IsWord(x + y)
    ensures NoSpace("{" + x)
  {
    forall c | c in "{" + x ensures !IsSpace(c) {
      if c in x { assert c in x + y; assert IsWordChar(c); }
    }
  }

  lemma BracedValueFill(x: string, y: string)
    requires IsWord(x + y) && x != []
    ensures NameTemplate(Token(x + y) + (y + "}"), [Entry(x + y, "{" + x)]) == Token(x + y)
  {
    var key := x + y;
    var v := "{" + x;
    var post := y + "}";
    BracedValueSubstitute(x, y);
    NameTemplateOne(Token(key) + post, Entry(key, v));
    TokenCollapsed(key);
  }

  lemma BracedValueSubstitute(x: string, y: string)
    requires IsWord(x + y) && x != []
    ensures Substitute(Token(x + y) + (y + "}"), Entry(x + y, "{" + x)) == Token(x + y)
  {
    BracelessTail(x, y);
    BracedValueNotBlank(x, y);
    FillLeadingToken(x + y, "{" + x, y + "}");
    SplitToken(x, y);
    assert "" + (y + "}") == y + "}";
  }

  /** A value that is not blank replaces a leading token. */
  lemma FillLeadingToken(key: string, v: string, post: string)
    requires IsWord(key) && !Blank(v) && '{' !in post
    ensures Substitute(Token(key) + post, Entry(key, v)) == v + post
  {
    TokenThenPlain(key, post, Placeholder(key), v);
  }

  lemma BracedValueRefill(x: string, y: string)
    requires IsWord(x + y) && x != []
    ensures NameTemplate(Token(x + y), [Entry(x + y, "{" + x)]) == "{" + x
  {
    var key := x + y;
    var v := "{" + x;
    BracedValueNotBlank(x, y);
    TokenThenPlain(key, [], Placeholder(key), v);
    assert Token(key) + [] == Token(key) && v + [] == v;
    assert Substitute(Token(key), Entry(key, v)) == v;
    NameTemplateOne(Token(key), Entry(key, v));
    WordNormalized(v);
    CollapseKeepsNormalized(v);
  }

  /** The comma and spaced patterns cannot match where there is neither
      whitespace nor a comma. */
  lemma NoSeparatorUnchanged(s: string, p: Pattern, rep: string)
    requires p.CommaPlaceholder? || p.SpacedPlaceholder?
    requires forall c | c in s :: !IsSpace(c) && !IsComma(c)
    ensures Replace(s, p, rep) == s
  {
    forall j | 0 <= j < |s| ensures MatchLength((s + [])[j..], p) == 0 {
      assert (s + [])[j..][0] == s[j];
      assert s[j] in s;
      MatchStart((s + [])[j..], p);
    }
    ReplaceSkips(s, [], p, rep);
    assert s + [] == s;
  }

  // ---------------------------------------------------------------------------
  // replaceTemplate

  /** Length of the `\w` run that starts `s`. */
  function WordRun(s: string): (n: nat)
    ensures n <= |s| && (forall i | 0 <= i < n :: IsWordChar(s[i])) && (n < |s| ==> !IsWordChar(s[n]))
  {
    if s != [] && IsWordChar(s[0]) then 1 + WordRun(s[1..]) else 0
  }

  /** Length of the match of `/{(\w+)}/` at the start of `s`, 0 if none. */
  function BracedWordLength(s: string): (n: nat)
    ensures n <= |s| && (n > 0 ==> n >= 3)
  {
    if s != [] && s[0] == '{' then
      var w := WordRun(s[1..]);
      if 0 < w && 1 + w < |s| && s[1 + w] == '}' then w + 2 else 0
    else 0
  }

  /** A match is `{`, a word, `}`. */
  lemma BracedWordShape(s: string)
    ensures var n := BracedWordLength(s);
      n > 0 ==> s[..n] == Token(s[1..n - 1]) && IsWord(s[1..n - 1])
  {
    var n := BracedWordLength(s);
    if n > 0 {
      var w := WordRun(s[1..]);
      assert s[..w + 2] == "{" + s[1..w + 1] + "}";
      assert forall i | 0 <= i < w :: s[1..w + 1][i] == s[1..][i];
    }
  }

  /** The text `pattern.source` holds once backslash pairs are folded:
      `[,\s]*\s*\{key\}`. */
  function RemovalSource(key: string): string {
    "[,\\s]*\\s*\\{" + key + "\\}"
  }

  /** The callback of `replaceTemplate` for the match `{key}`. A missing or
      blank replacement yields '' only when the template literally contains
      the removal pattern's source text, and otherwise the match itself. */
  function Callback(template: string, replacements: map<string, string>, key: string): string {
    if key in replacements && !Blank(replacements[key]) then replacements[key]
    else if Occurs(template, RemovalSource(key)) then ""
    else Token(key)
  }

  function TemplateScan(s: string, template: string, replacements: map<string, string>): string
    decreases |s|
  {
    if s == [] then []
    else
      var n := BracedWordLength(s);
      if n > 0 then Callback(template, replacements, s[1..n - 1]) + TemplateScan(s[n..], template, replacements)
      else [s[0]] + TemplateScan(s[1..], template, replacements)
  }

  /** `replaceTemplate(template, replacements)` */
  function ReplaceTemplate(template: string, replacements: map<string, string>): string {
    TemplateScan(template, template, replacements)
  }

  lemma ScanHead(s: string, template: string, replacements: map<string, string>)
    requires s != [] && BracedWordLength(s) == 0
    ensures TemplateScan(s, template, replacements) == [s[0]] + TemplateScan(s[1..], template, replacements)
  {
  }

  lemma ScanAtMatch(s: string, template: string, replacements: map<string, string>)
    requires BracedWordLength(s) > 0
    ensures var n := BracedWordLength(s);
      TemplateScan(s, template, replacements)
        == Callback(template, replacements, s[1..n - 1]) + TemplateScan(s[n..], template, replacements)
  {
  }

  /** The scan copies a '{'-free prefix unchanged. */
  lemma {:induction false} ScanBraceless(x: string, y: string, template: string, replacements: map<string, string>)
    requires '{' !in x
    ensures TemplateScan(x + y, template, replacements) == x + TemplateScan(y, template, replacements)
  {
    if x != [] {
      var s := x + y;
      var t := TemplateScan(y, template, replacements);
      assert x[0] in x && s[0] == x[0];
      assert BracedWordLength(s) == 0;
      DropAppend(x, y, 1);
      assert '{' !in x[1..] by {
        forall c | c in x[1..] ensures c != '{' { assert c in x; }
      }
      ScanHead(s, template, replacements);
      ScanBraceless(x[1..], y, template, replacements);
      ConsRejoin(x, t);
    } else {
      assert x + y == y;
    }
  }

  lemma {:induction false} WordRunAppend(w: string, z: string)
    requires IsWord(w)
    ensures WordRun(w + z) == |w| + WordRun(z)
  {
    if w != [] {
      assert w[0] in w;
      assert (w + z)[0] == w[0];
      assert (w + z)[1..] == w[1..] + z;
      WordRunAppend(w[1..], z);
      assert WordRun(w + z) == 1 + WordRun(w[1..] + z);
    } else {
      assert w + z == z;
    }
  }

  /** `{key}` with a non-empty word key is one match of `/{(\w+)}/`. */
  lemma ScanToken(key: string, rest: string, template: string, replacements: map<string, string>)
    requires IsWord(key) && key != []
    ensures TemplateScan(Token(key) + rest, template, replacements)
      == Callback(template, replacements, key) + TemplateScan(rest, template, replacements)
  {
    var s := Token(key) + rest;
    TokenMatchLength(key, rest);
    assert s[1..|key| + 1] == key;
    assert s[|key| + 2..] == rest;
    ScanAtMatch(s, template, replacements);
  }

  lemma TokenMatchLength(key: string, rest: string)
    requires IsWord(key) && key != []
    ensures BracedWordLength(Token(key) + rest) == |key| + 2
  {
    var s := Token(key) + rest;
    assert s[1..] == key + ("}" + rest);
    WordRunAppend(key, "}" + rest);
    assert s[1 + |key|] == '}';
  }

  lemma {:induction false} ScanFillJoin(parts: seq<string>, key: string, template: string, replacements: map<string, string>)
    requires |parts| > 0 && BracelessParts(parts) && IsWord(key) && key != []
    requires key in replacements && !Blank(replacements[key])
    ensures TemplateScan(Join(parts, Token(key)), template, replacements) == Join(parts, replacements[key])
  {
    if |parts| == 1 {
      ScanBraceless(parts[0], [], template, replacements);
      assert parts[0] + [] == parts[0];
    } else {
      var rest := Join(parts[1..], Token(key));
      ScanBraceless(parts[0], Token(key) + rest, template, replacements);
      ScanToken(key, rest, template, replacements);
      assert BracelessParts(parts[1..]) by {
        forall i | 0 <= i < |parts[1..]| ensures '{' !in parts[1..][i] { assert parts[1..][i] == parts[i + 1]; }
      }
      ScanFillJoin(parts[1..], key, template, replacements);
    }
  }

  /** A non-blank replacement is substituted for every `{key}`. */
  lemma ReplaceTemplateFills(parts: seq<string>, key: string, replacements: map<string, string>)
    requires |parts| > 0 && BracelessParts(parts) && IsWord(key) && key != []
    requires key in replacements && !Blank(replacements[key])
    ensures ReplaceTemplate(Join(parts, Token(key)), replacements) == Join(parts, replacements[key])
  {
    ScanFillJoin(parts, key, Join(parts, Token(key)), replacements);
  }

  lemma NoBracketNoSource(template: string, key: string)
    requires '[' !in template
    ensures !Occurs(template, RemovalSource(key))
  {
    forall i | 0 <= i <= |template| - |RemovalSource(key)| ensures !HasAt(template, i, RemovalSource(key)) {
      assert template[i] in template;
      assert template[i..i + |RemovalSource(key)|][0] == template[i];
    }
  }

  lemma CallbackKeeps(template: string, replacements: map<string, string>, key: string)
    requires '[' !in template
    requires forall k | k in replacements :: Blank(replacements[k])
    ensures Callback(template, replacements, key) == Token(key)
  {
    NoBracketNoSource(template, key);
  }

  lemma {:induction false} ScanKeeps(s: string, template: string, replacements: map<string, string>)
    requires '[' !in template
    requires forall k | k in replacements :: Blank(replacements[k])
    ensures TemplateScan(s, template, replacements) == s
  {
    if s != [] {
      var n := BracedWordLength(s);
      if n > 0 {
        ScanKeeps(s[n..], template, replacements);
        ScanKeepsMatch(s, template, replacements);
      } else {
        ScanHead(s, template, replacements);
        ScanKeeps(s[1..], template, replacements);
        assert [s[0]] + s[1..] == s;
      }
    }
  }

  /** One step of ScanKeeps: a kept match followed by a kept rest. */
  lemma ScanKeepsMatch(s: string, template: string, replacements: map<string, string>)
    requires '[' !in template
    requires forall k | k in replacements :: Blank(replacements[k])
    requires BracedWordLength(s) > 0
    requires TemplateScan(s[BracedWordLength(s)..], template, replacements) == s[BracedWordLength(s)..]
    ensures TemplateScan(s, template, replacements) == s
  {
    var n := BracedWordLength(s);
    var key := s[1..n - 1];
    assert TemplateScan(s, template, replacements)
      == Callback(template, replacements, key) + TemplateScan(s[n..], template, replacements) by {
      ScanAtMatch(s, template, replacements);
    }
    assert Callback(template, replacements, key) == s[..n] by {
      BracedWordShape(s);
      CallbackKeeps(template, replacements, key);
    }
    TakeDrop(s, n);
  }

  lemma TakeDrop(s: string, n: nat)
    requires n <= |s|
    ensures s[..n] + s[n..] == s
  {
  }

  /** Missing or blank replacements leave every `{key}` in place: the removal
      branch needs the template to contain the text `[,\s]*\s*\{key\}`,
      which a template without '[' cannot. */
  lemma ReplaceTemplateKeepsTokens(template: string, replacements: map<string, string>)
    requires '[' !in template
    requires forall k | k in replacements :: Blank(replacements[k])
    ensures ReplaceTemplate(template, replacements) == template
  {
    ScanKeeps(template, template, replacements);
  }

  /** `RemovalSource(key)` holds one '{', followed by the key and a
      backslash, so it contains no match of `/{(\w+)}/`. */
  lemma ScanRemovalSource(key: string, template: string, replacements: map<string, string>)
    requires IsWord(key)
    ensures TemplateScan(RemovalSource(key), template, replacements) == RemovalSource(key)
  {
    var a := "[,\\s]*\\s*\\";
    var b := "\\}";
    assert RemovalSource(key) == a + ("{" + (key + b));
    assert '{' !in a;
    ScanBraceless(a, "{" + (key + b), template, replacements);
    var u := "{" + (key + b);
    assert u[1..] == key + b;
    WordRunAppend(key, b);
    assert WordRun(b) == 0;
    assert u[1 + |key|] == '\\';
    assert BracedWordLength(u) == 0;
    assert '{' !in key + b by {
      forall c | c in key + b ensures c != '{' { if c in key { assert IsWordChar(c); } }
    }
    ScanBraceless(key + b, [], template, replacements);
    assert key + b + [] == key + b;
  }

  /** When the template does contain that text, the removal branch drops the
      token alone: whatever precedes it, a comma or a space included, stays. */
  lemma ReplaceTemplateRemovalBranch(a: string, key: string, replacements: map<string, string>)
    requires IsWord(key) && key != [] && key !in replacements && '{' !in a
    ensures ReplaceTemplate(a + (Token(key) + RemovalSource(key)), replacements) == a + RemovalSource(key)
  {
    var src := RemovalSource(key);
    var t := a + (Token(key) + src);
    ScanBraceless(a, Token(key) + src, t, replacements);
    RemovalCallbackDrops(a, key, replacements);
    ScanToken(key, src, t, replacements);
    ScanRemovalSource(key, t, replacements);
    assert "" + src == src;
  }

  /** In such a template, the callback for a missing key returns ''. */
  lemma RemovalCallbackDrops(a: string, key: string, replacements: map<string, string>)
    requires key !in replacements
    ensures Callback(a + (Token(key) + RemovalSource(key)), replacements, key) == ""
  {
    var src := RemovalSource(key);
    var t := a + (Token(key) + src);
    assert t[|a| + |Token(key)|..] == src;
    assert HasAt(t, |a| + |Token(key)|, src);
  }
}
