/** The JavaScript string primitives the helpers are built on: the `\s`
    character class, `String.prototype.replace` with a global regular
    expression (for the few patterns the code constructs), and
    `String.prototype.trim`. Strings are sequences of Unicode scalar values. */
module Text {

  /** ECMAScript `\s`: WhiteSpace and LineTerminator. `trim` strips the same set. */
  predicate IsSpace(c: char) {
    c == '\t' || c == '\n' || c == '\U{B}' || c == '\U{C}' || c == '\r' || c == ' ' ||
    c == '\U{A0}' || c == '\U{1680}' || ('\U{2000}' <= c <= '\U{200A}') ||
    c == '\U{2028}' || c == '\U{2029}' || c == '\U{202F}' || c == '\U{205F}' ||
    c == '\U{3000}' || c == '\U{FEFF}'
  }

  /** The class `[,，]`: Western comma and full-width comma. */
  predicate IsComma(c: char) {
    c == ',' || c == '\U{FF0C}'
  }

  /** ECMAScript `\w`. */
  predicate IsWordChar(c: char) {
    ('a' <= c <= 'z') || ('A' <= c <= 'Z') || ('0' <= c <= '9') || c == '_'
  }

  predicate IsWord(key: string) {
    forall c | c in key :: IsWordChar(c)
  }

  predicate AllSpace(s: string) {
    forall c | c in s :: IsSpace(c)
  }

  predicate NoSpace(s: string) {
    forall c | c in s :: !IsSpace(c)
  }

  /** The placeholder `{key}`. */
  function Token(key: string): (t: string)
    ensures |t| == |key| + 2 && t[0] == '{' && t[|t| - 1] == '}' && t[1..|t| - 1] == key
  {
    "{" + key + "}"
  }

  /** `t` occurs in `s` at index `i`. */
  predicate HasAt(s: string, i: int, t: string) {
    0 <= i && i + |t| <= |s| && s[i..i + |t|] == t
  }

  predicate Occurs(s: string, t: string) {
    exists i | 0 <= i <= |s| - |t| :: HasAt(s, i, t)
  }

  /** Length of the whitespace run that starts `s` (what a greedy `\s*` takes). */
  function SpaceRun(s: string): (n: nat)
    ensures n <= |s|
    ensures forall i | 0 <= i < n :: IsSpace(s[i])
    ensures n < |s| ==> !IsSpace(s[n])
  {
    if s != [] && IsSpace(s[0]) then 1 + SpaceRun(s[1..]) else 0
  }

  /** The global regular expressions the code builds. */
  datatype Pattern =
    | Placeholder(key: string)        // /\{key\}/g
    | SpacedPlaceholder(key: string)  // /\s+\{key\}/g
    | CommaPlaceholder(key: string)   // /\s*[,，]\s*\{key\}/g
    | Spaces                          // /\s+/g
  {
    predicate EndsInToken() {
      !Spaces?
    }
  }

  /** Length of the match of `p` anchored at the start of `s`, 0 if none.
      Every quantifier in these patterns is followed by a character its own
      class excludes, so backtracking never finds a shorter match: the match,
      if any, is the one the greedy runs give. */
  function MatchLength(s: string, p: Pattern): (n: nat)
    ensures n <= |s|
  {
    match p
    case Placeholder(key) =>
      if Token(key) <= s then |Token(key)| else 0
    case SpacedPlaceholder(key) =>
      var w := SpaceRun(s);
      if 0 < w && Token(key) <= s[w..] then w + |Token(key)| else 0
    case CommaPlaceholder(key) =>
      var w := SpaceRun(s);
      if w < |s| && IsComma(s[w]) then
        var v := SpaceRun(s[w + 1..]);
        if Token(key) <= s[w + 1 + v..] then w + 1 + v + |Token(key)| else 0
      else 0
    case Spaces =>
      SpaceRun(s)
  }

  /** `s.replace(p, rep)`: scan left to right; at each position either replace
      the match found there and resume after it, or keep the character. */
  function Replace(s: string, p: Pattern, rep: string): string
    decreases |s|
  {
    if s == [] then []
    else
      var n := MatchLength(s, p);
      if n > 0 then rep + Replace(s[n..], p, rep)
      else [s[0]] + Replace(s[1..], p, rep)
  }

  function TrimStart(s: string): (r: string)
    ensures |r| <= |s| && r == s[|s| - |r|..]
    ensures AllSpace(s[..|s| - |r|])
    ensures r != [] ==> !IsSpace(r[0])
  {
    if s != [] && IsSpace(s[0]) then TrimStart(s[1..]) else s
  }

  function TrimEnd(s: string): (r: string)
    ensures |r| <= |s| && r == s[..|r|]
    ensures AllSpace(s[|r|..])
    ensures r != [] ==> !IsSpace(r[|r| - 1])
  {
    if s != [] && IsSpace(s[|s| - 1]) then TrimEnd(s[..|s| - 1]) else s
  }

  /** `s.trim()` */
  function Trim(s: string): string {
    TrimEnd(TrimStart(s))
  }

  /** `s.replace(/\s+/g, ' ').trim()` */
  function Collapse(s: string): string {
    Trim(Replace(s, Spaces, " "))
  }

  /** Every whitespace character is a plain space and is followed by a
      non-whitespace character (if any). */
  predicate SingleSpaced(s: string) {
    forall i | 0 <= i < |s| && IsSpace(s[i]) :: s[i] == ' ' && (i + 1 < |s| ==> !IsSpace(s[i + 1]))
  }

  /** Whitespace-normalised: single plain spaces only, none at either end. */
  predicate Normalized(s: string) {
    SingleSpaced(s) && (s != [] ==> !IsSpace(s[0]) && !IsSpace(s[|s| - 1]))
  }

  // ---------------------------------------------------------------------------
  // Replace: what it can produce

  lemma {:induction false} ReplaceChars(s: string, p: Pattern, rep: string)
    ensures forall c | c in Replace(s, p, rep) :: c in s || c in rep
  {
    if s != [] {
      var n := MatchLength(s, p);
      if n > 0 {
        ReplaceChars(s[n..], p, rep);
        forall c | c in s[n..] ensures c in s { var i :| 0 <= i < |s[n..]| && s[n..][i] == c; assert s[n + i] == c; }
      } else {
        ReplaceChars(s[1..], p, rep);
        forall c | c in s[1..] ensures c in s { var i :| 0 <= i < |s[1..]| && s[1..][i] == c; assert s[1 + i] == c; }
      }
    }
  }

  lemma PlaceholderShape(s: string, key: string)
    ensures var n := MatchLength(s, Placeholder(key));
      n > 0 ==> n == |Token(key)| && HasAt(s, 0, Token(key)) && s[0] == '{'
  {
    var t := Token(key);
    if MatchLength(s, Placeholder(key)) > 0 {
      assert s[..|t|] == t;
    }
  }

  lemma SpacedShape(s: string, key: string)
    ensures var n := MatchLength(s, SpacedPlaceholder(key)); var k := n - |Token(key)|;
      n > 0 ==> 0 < k && HasAt(s, k, Token(key)) && s[k] == '{' && forall i | 0 <= i < k :: IsSpace(s[i])
  {
    var t := Token(key);
    if MatchLength(s, SpacedPlaceholder(key)) > 0 {
      var w := SpaceRun(s);
      assert s[w..][..|t|] == t;
      assert s[w..w + |t|] == t;
    }
  }

  lemma CommaShape(s: string, key: string)
    ensures var n := MatchLength(s, CommaPlaceholder(key)); var k := n - |Token(key)|; var w := SpaceRun(s);
      n > 0 ==>
        && w < k && IsComma(s[w]) && HasAt(s, k, Token(key)) && s[k] == '{'
        && (forall i | w < i < k :: IsSpace(s[i]))
  {
    var t := Token(key);
    if MatchLength(s, CommaPlaceholder(key)) > 0 {
      var w := SpaceRun(s);
      var v := SpaceRun(s[w + 1..]);
      var k := w + 1 + v;
      assert s[k..][..|t|] == t;
      assert s[k..k + |t|] == t;
      forall i | w < i < k ensures IsSpace(s[i]) { assert s[i] == s[w + 1..][i - (w + 1)]; }
    }
  }

  /** Every match of a placeholder pattern ends in the token and holds only
      whitespace and commas before it: a non-empty whitespace run for the
      spaced pattern, whitespace around a single comma for the comma pattern. */
  lemma MatchShape(s: string, p: Pattern)
    requires p.EndsInToken()
    ensures var n := MatchLength(s, p); var k := n - |Token(p.key)|;
      n > 0 ==>
        && 0 <= k && HasAt(s, k, Token(p.key)) && s[k] == '{'
        && (forall i | 0 <= i < k :: IsSpace(s[i]) || IsComma(s[i]))
        && (p.Placeholder? ==> k == 0)
        && (p.SpacedPlaceholder? ==> 0 < k && forall i | 0 <= i < k :: IsSpace(s[i]))
        && (p.CommaPlaceholder? ==>
              var w := SpaceRun(s);
              && w < k && IsComma(s[w])
              && (forall i | w < i < k :: IsSpace(s[i])))
  {
    match p
    case Placeholder(key) => PlaceholderShape(s, key);
    case SpacedPlaceholder(key) => SpacedShape(s, key);
    case CommaPlaceholder(key) => CommaShape(s, key);
  }

  /** A match is never empty, so the first character of a match is one of the
      characters a match can start with. */
  lemma MatchStart(s: string, p: Pattern)
    requires p.EndsInToken()
    ensures MatchLength(s, p) > 0 ==> s[0] == '{' || IsSpace(s[0]) || IsComma(s[0])
    ensures MatchLength(s, p) > 0 && p.Placeholder? ==> s[0] == '{'
    ensures MatchLength(s, p) > 0 && p.SpacedPlaceholder? ==> IsSpace(s[0])
    ensures MatchLength(s, p) > 0 && p.CommaPlaceholder? ==> IsSpace(s[0]) || IsComma(s[0])
  {
    MatchShape(s, p);
  }

  /** If no match starts inside `x`, the scan copies `x` unchanged. */
  lemma {:induction false} ReplaceSkips(x: string, y: string, p: Pattern, rep: string)
    requires forall j | 0 <= j < |x| :: MatchLength((x + y)[j..], p) == 0
    ensures Replace(x + y, p, rep) == x + Replace(y, p, rep)
  {
    if x == [] {
      assert x + y == y;
    } else {
      var s := x + y;
      var r := Replace(y, p, rep);
      assert Replace(s, p, rep) == [x[0]] + Replace(x[1..] + y, p, rep) by {
        assert s[0..] == s;
        assert MatchLength(s, p) == 0;
        DropAppend(x, y, 1);
      }
      assert Replace(x[1..] + y, p, rep) == x[1..] + r by {
        forall j | 0 <= j < |x[1..]| ensures MatchLength((x[1..] + y)[j..], p) == 0 {
          DropAppend(x[1..], y, j);
          DropAppend(x, y, j + 1);
          assert x[1..][j..] == x[j + 1..];
        }
        ReplaceSkips(x[1..], y, p, rep);
      }
      ConsRejoin(x, r);
    }
  }

  lemma ConsRejoin(x: string, r: string)
    requires x != []
    ensures [x[0]] + (x[1..] + r) == x + r
  {
    assert [x[0]] + x[1..] == x;
  }

  /** Dropping a prefix no longer than the first part of a concatenation. */
  lemma DropAppend(x: string, y: string, j: nat)
    requires j <= |x|
    ensures (x + y)[j..] == x[j..] + y
  {
    var a, b := (x + y)[j..], x[j..] + y;
    assert |a| == |b|;
    forall i | 0 <= i < |a| ensures a[i] == b[i] {
      if j + i < |x| {
        assert a[i] == x[j + i];
      } else {
        assert a[i] == y[j + i - |x|];
      }
    }
  }

  /** A match at `j` would put the token at or after `j`. */
  lemma NoMatchWithoutToken(s: string, j: nat, p: Pattern)
    requires p.EndsInToken() && j < |s| && !Occurs(s, Token(p.key))
    ensures MatchLength(s[j..], p) == 0
  {
    MatchShape(s[j..], p);
    var n := MatchLength(s[j..], p);
    if n > 0 {
      var t := Token(p.key);
      var k := n - |t|;
      assert s[j..][k..k + |t|] == s[j + k..j + k + |t|];
      assert HasAt(s, j + k, t);
    }
  }

  /** A placeholder pattern finds no match in a string without the token. */
  lemma {:induction false} ReplaceWithoutToken(s: string, p: Pattern, rep: string)
    requires p.EndsInToken()
    requires !Occurs(s, Token(p.key))
    ensures Replace(s, p, rep) == s
  {
    assert s + [] == s;
    forall j | 0 <= j < |s| ensures MatchLength((s + [])[j..], p) == 0 {
      NoMatchWithoutToken(s, j, p);
    }
    ReplaceSkips(s, [], p, rep);
  }

  /** A placeholder pattern finds no match in a string without '{'. */
  lemma NoBraceNoToken(s: string, key: string)
    requires '{' !in s
    ensures !Occurs(s, Token(key))
  {
    forall i | 0 <= i <= |s| - |Token(key)| ensures !HasAt(s, i, Token(key)) {
      assert s[i] in s;
      assert s[i..i + |Token(key)|][0] == s[i];
    }
  }

  /** Matches of the placeholder pattern start only at '{'. */
  lemma {:induction false} ReplaceKeepsBraceless(x: string, y: string, key: string, rep: string)
    requires '{' !in x
    ensures Replace(x + y, Placeholder(key), rep) == x + Replace(y, Placeholder(key), rep)
  {
    forall j | 0 <= j < |x| ensures MatchLength((x + y)[j..], Placeholder(key)) == 0 {
      assert x[j] in x;
      assert (x + y)[j..][0] == x[j];
      MatchStart((x + y)[j..], Placeholder(key));
    }
    ReplaceSkips(x, y, Placeholder(key), rep);
  }

  // ---------------------------------------------------------------------------
  // Whitespace normalisation

  /** The first character of a scan result, when the input does not start
      with a character a match can start with. */
  lemma ReplaceHead(s: string, p: Pattern, rep: string)
    requires s != [] && MatchLength(s, p) == 0
    ensures Replace(s, p, rep) == [s[0]] + Replace(s[1..], p, rep)
  {
  }

  lemma {:induction false} SpacesSingleSpaced(s: string)
    ensures SingleSpaced(Replace(s, Spaces, " "))
  {
    if s != [] {
      var n := SpaceRun(s);
      if n > 0 {
        var rest := s[n..];
        SpacesSingleSpaced(rest);
        var r := Replace(rest, Spaces, " ");
        if rest != [] {
          assert !IsSpace(rest[0]);
          ReplaceHead(rest, Spaces, " ");
        }
        assert Replace(s, Spaces, " ") == " " + r;
        var out := " " + r;
        forall i | 0 <= i < |out| && IsSpace(out[i])
          ensures out[i] == ' ' && (i + 1 < |out| ==> !IsSpace(out[i + 1]))
        {
          if i > 0 { assert out[i] == r[i - 1]; }
        }
      } else {
        SpacesSingleSpaced(s[1..]);
        var r := Replace(s[1..], Spaces, " ");
        assert Replace(s, Spaces, " ") == [s[0]] + r;
        var out := [s[0]] + r;
        forall i | 0 <= i < |out| && IsSpace(out[i])
          ensures out[i] == ' ' && (i + 1 < |out| ==> !IsSpace(out[i + 1]))
        {
          if i > 0 { assert out[i] == r[i - 1]; }
        }
      }
    }
  }

  lemma SingleSpacedSlice(s: string, a: nat, b: nat)
    requires SingleSpaced(s) && a <= b <= |s|
    ensures SingleSpaced(s[a..b])
  {
    var t := s[a..b];
    forall i | 0 <= i < |t| && IsSpace(t[i]) ensures t[i] == ' ' && (i + 1 < |t| ==> !IsSpace(t[i + 1])) {
      assert t[i] == s[a + i];
      if i + 1 < |t| { assert t[i + 1] == s[a + i + 1]; }
    }
  }

  lemma TrimNormalizes(s: string)
    requires SingleSpaced(s)
    ensures Normalized(Trim(s))
  {
    var u := TrimStart(s);
    SingleSpacedSlice(s, |s| - |u|, |s|);
    var r := TrimEnd(u);
    SingleSpacedSlice(u, 0, |r|);
    if r != [] { assert r[0] == u[0]; }
  }

  /** The result of `replace(/\s+/g, ' ').trim()` is whitespace-normalised. */
  lemma CollapseNormalizes(s: string)
    ensures Normalized(Collapse(s))
  {
    SpacesSingleSpaced(s);
    TrimNormalizes(Replace(s, Spaces, " "));
  }

  lemma {:induction false} SpacesKeepSingleSpaced(s: string)
    requires SingleSpaced(s)
    ensures Replace(s, Spaces, " ") == s
  {
    if s != [] {
      SingleSpacedSlice(s, 1, |s|);
      SpacesKeepSingleSpaced(s[1..]);
      if IsSpace(s[0]) {
        assert SpaceRun(s) == 1;
        assert [s[0]] == " ";
      }
    }
  }

  /** Normalising a normalised string changes nothing. */
  lemma CollapseKeepsNormalized(s: string)
    requires Normalized(s)
    ensures Collapse(s) == s
  {
    SpacesKeepSingleSpaced(s);
  }

  /** Normalisation is idempotent. */
  lemma CollapseIdempotent(s: string)
    ensures Collapse(Collapse(s)) == Collapse(s)
  {
    CollapseNormalizes(s);
    CollapseKeepsNormalized(Collapse(s));
  }

  /** A word without whitespace is normalised. */
  lemma WordNormalized(w: string)
    requires NoSpace(w)
    ensures Normalized(w)
  {
    forall i | 0 <= i < |w| ensures !IsSpace(w[i]) { assert w[i] in w; }
  }

  /** Joining two normalised non-empty strings with one space stays normalised. */
  lemma JoinNormalized(a: string, b: string)
    requires Normalized(a) && Normalized(b) && a != [] && b != []
    ensures Normalized(a + " " + b)
  {
    var s := a + " " + b;
    forall i | 0 <= i < |s| && IsSpace(s[i]) ensures s[i] == ' ' && (i + 1 < |s| ==> !IsSpace(s[i + 1])) {
      if i < |a| {
        assert s[i] == a[i];
        if i + 1 < |a| { assert s[i + 1] == a[i + 1]; }
      } else if i > |a| {
        assert s[i] == b[i - |a| - 1];
        if i + 1 < |s| { assert s[i + 1] == b[i - |a|]; }
      }
    }
  }

  // ---------------------------------------------------------------------------
  // Placeholder passes on templates of a known shape

  /** The comma pattern, unfolded at known run lengths. */
  lemma CommaMatchAt(m: string, key: string, w1: nat, w2: nat)
    requires SpaceRun(m) == w1 < |m| && IsComma(m[w1]) && SpaceRun(m[w1 + 1..]) == w2
    requires Token(key) <= m[w1 + 1 + w2..]
    ensures MatchLength(m, CommaPlaceholder(key)) == w1 + 1 + w2 + |Token(key)|
  {
    var n := MatchLength(m, CommaPlaceholder(key));
    assert n == (if Token(key) <= m[w1 + 1 + w2..] then w1 + 1 + w2 + |Token(key)| else 0);
  }

  lemma SpacedMatchAt(m: string, key: string, w: nat)
    requires SpaceRun(m) == w > 0 && Token(key) <= m[w..]
    ensures MatchLength(m, SpacedPlaceholder(key)) == w + |Token(key)|
  {
  }

  /** One step of the scan at a match. */
  lemma ReplaceAtMatch(s: string, p: Pattern, rep: string)
    requires MatchLength(s, p) > 0
    ensures Replace(s, p, rep) == rep + Replace(s[MatchLength(s, p)..], p, rep)
  {
  }

  /** Characters that no placeholder match can start with. */
  predicate Inert(s: string) {
    forall c | c in s :: c != '{' && !IsSpace(c) && !IsComma(c)
  }

  lemma {:induction false} SpaceRunAppend(w: string, y: string)
    requires AllSpace(w)
    ensures SpaceRun(w + y) == |w| + SpaceRun(y)
  {
    if w != [] {
      assert w[0] in w;
      assert (w + y)[0] == w[0];
      assert (w + y)[1..] == w[1..] + y;
      SpaceRunAppend(w[1..], y);
      assert SpaceRun(w + y) == 1 + SpaceRun(w[1..] + y);
    } else {
      assert w + y == y;
    }
  }

  /** Without '{' there is no token, hence no match of a placeholder pattern. */
  lemma NoBraceNoMatch(s: string, p: Pattern)
    requires p.EndsInToken() && '{' !in s
    ensures MatchLength(s, p) == 0
  {
    MatchShape(s, p);
    NoBraceIndex(s);
  }

  lemma NoBraceIndex(s: string)
    requires '{' !in s
    ensures forall i | 0 <= i < |s| :: s[i] != '{'
  {
    forall i | 0 <= i < |s| ensures s[i] != '{' { assert s[i] in s; }
  }

  lemma NoBraceUnchanged(s: string, p: Pattern, rep: string)
    requires p.EndsInToken() && '{' !in s
    ensures Replace(s, p, rep) == s
  {
    NoBraceNoToken(s, p.key);
    ReplaceWithoutToken(s, p, rep);
  }

  /** The scan copies characters no match can start with. */
  lemma InertKept(x: string, y: string, p: Pattern, rep: string)
    requires p.EndsInToken() && Inert(x)
    ensures Replace(x + y, p, rep) == x + Replace(y, p, rep)
  {
    forall j | 0 <= j < |x| ensures MatchLength((x + y)[j..], p) == 0 {
      assert x[j] in x;
      assert (x + y)[j..][0] == x[j];
      MatchStart((x + y)[j..], p);
    }
    ReplaceSkips(x, y, p, rep);
  }

  /** A token followed by text without '{': only the plain placeholder pattern
      matches the token itself. */
  lemma TokenThenPlain(key: string, post: string, p: Pattern, rep: string)
    requires IsWord(key) && p.EndsInToken() && p.key == key && '{' !in post
    ensures Replace(Token(key) + post, p, rep) ==
      (if p.Placeholder? then rep + post else Token(key) + post)
  {
    var t := Token(key) + post;
    var tail := t[1..];
    TokenTail(key, post);
    if p.Placeholder? {
      assert Token(key) <= t;
      assert t[|Token(key)|..] == post;
      assert MatchLength(t, p) == |Token(key)|;
      ReplaceAtMatch(t, p, rep);
      NoBraceUnchanged(post, p, rep);
    } else {
      assert MatchLength(t, p) == 0 by { MatchStart(t, p); }
      NoBraceUnchanged(tail, p, rep);
      assert Replace(t, p, rep) == [t[0]] + Replace(tail, p, rep);
      assert [t[0]] + tail == t;
    }
  }

  /** What follows the opening brace of a token followed by '{'-free text. */
  lemma TokenTail(key: string, post: string)
    requires IsWord(key) && '{' !in post
    ensures '{' !in (Token(key) + post)[1..] && (Token(key) + post)[0] == '{'
  {
    var tail := key + "}" + post;
    assert Token(key) + post == "{" + tail;
    forall i | 0 <= i < |tail| ensures tail[i] != '{' {
      if i < |key| { assert tail[i] == key[i]; assert key[i] in key; }
      else if i > |key| { assert tail[i] == post[i - |key| - 1]; assert post[i - |key| - 1] in post; }
    }
  }

  /** No match starts inside a '{'-free prefix that does not end in whitespace
      or a comma: every match ends in a token and, before the token, holds only
      whitespace and commas. */
  lemma PlainPrefixKept(x: string, y: string, p: Pattern, rep: string)
    requires p.EndsInToken() && '{' !in x
    requires x != [] ==> !IsSpace(x[|x| - 1]) && !IsComma(x[|x| - 1])
    ensures Replace(x + y, p, rep) == x + Replace(y, p, rep)
  {
    forall j | 0 <= j < |x| ensures MatchLength((x + y)[j..], p) == 0 {
      var s := (x + y)[j..];
      MatchShape(s, p);
      NoBraceIndex(x);
      assert forall i | 0 <= i < |x| - j :: s[i] == x[j + i];
      assert s[|x| - 1 - j] == x[|x| - 1];
    }
    ReplaceSkips(x, y, p, rep);
  }

  /** Each '{' of `s` begins the token `{key}`. */
  predicate Opens(s: string, key: string) {
    forall i | 0 <= i < |s| && s[i] == '{' :: HasAt(s, i, Token(key))
  }

  lemma OpensSuffix(s: string, key: string, n: nat)
    requires Opens(s, key) && n <= |s|
    ensures Opens(s[n..], key)
  {
    var t := s[n..];
    forall i | 0 <= i < |t| && t[i] == '{' ensures HasAt(t, i, Token(key)) {
      assert s[n + i] == '{';
      assert HasAt(s, n + i, Token(key));
      assert t[i..i + |Token(key)|] == s[n + i..n + i + |Token(key)|];
    }
  }

  lemma WordInert(key: string)
    requires IsWord(key)
    ensures Inert(key + "}")
  {
    forall c | c in key + "}" ensures c != '{' && !IsSpace(c) && !IsComma(c) {
      if c in key { assert IsWordChar(c); }
    }
  }

  lemma OpensCons(c: char, r: string, key: string)
    requires Opens(r, key)
    requires c == '{' ==> Token(key) <= [c] + r
    ensures Opens([c] + r, key)
  {
    var out := [c] + r;
    forall i | 0 <= i < |out| && out[i] == '{' ensures HasAt(out, i, Token(key)) {
      if i > 0 {
        assert out[i] == r[i - 1];
        assert out[i..i + |Token(key)|] == r[i - 1..i - 1 + |Token(key)|];
      }
    }
  }

  /** When no match starts at a token, the removal scan copies the token whole. */
  lemma TokenCopied(s: string, p: Pattern)
    requires p.EndsInToken() && IsWord(p.key) && HasAt(s, 0, Token(p.key))
    ensures Token(p.key) <= [s[0]] + Replace(s[1..], p, "")
  {
    var tail := p.key + "}";
    var m := |Token(p.key)|;
    assert s[..m] == Token(p.key);
    assert s[1..] == tail + s[m..];
    WordInert(p.key);
    InertKept(tail, s[m..], p, "");
  }

  /** Removing matches that end in a token keeps every remaining '{' the start
      of a whole token. */
  lemma {:induction false} RemovalKeepsOpens(s: string, p: Pattern)
    requires p.EndsInToken() && IsWord(p.key) && Opens(s, p.key)
    ensures Opens(Replace(s, p, ""), p.key)
  {
    if s != [] {
      var n := MatchLength(s, p);
      if n > 0 {
        OpensSuffix(s, p.key, n);
        RemovalKeepsOpens(s[n..], p);
        assert Replace(s, p, "") == Replace(s[n..], p, "");
      } else {
        OpensSuffix(s, p.key, 1);
        RemovalKeepsOpens(s[1..], p);
        if s[0] == '{' { TokenCopied(s, p); }
        OpensCons(s[0], Replace(s[1..], p, ""), p.key);
      }
    }
  }

  /** Replacing every token by a '{'-free value leaves no '{'. */
  lemma {:induction false} FillLeavesNoBrace(s: string, key: string, rep: string)
    requires Opens(s, key) && '{' !in rep
    ensures '{' !in Replace(s, Placeholder(key), rep)
  {
    if s != [] {
      var n := MatchLength(s, Placeholder(key));
      OpensSuffix(s, key, if n > 0 then n else 1);
      if n > 0 {
        FillLeavesNoBrace(s[n..], key, rep);
      } else {
        FillLeavesNoBrace(s[1..], key, rep);
        assert s[0] != '{' by {
          assert HasAt(s, 0, Token(key)) ==> Token(key) <= s;
        }
      }
    }
  }

  lemma TrimmedChar(r: string, u: string, t: string, c: char)
    requires |t| <= |u| <= |r| && u == r[|r| - |u|..] && t == u[..|t|] && c in t
    ensures c in r
  {
    var i :| 0 <= i < |t| && t[i] == c;
    assert t[i] == u[i];
    assert u[i] == r[|r| - |u| + i];
  }

  /** Normalisation does not add characters other than a space. */
  lemma CollapseChars(s: string)
    ensures forall c | c in Collapse(s) :: c in s || c == ' '
  {
    var r := Replace(s, Spaces, " ");
    ReplaceChars(s, Spaces, " ");
    var u := TrimStart(r);
    var t := TrimEnd(u);
    assert t == Collapse(s);
    forall c | c in t ensures c in r {
      TrimmedChar(r, u, t, c);
    }
  }

  /** A '{'-free prefix of the output of a rewrite whose replacement starts
      with '{' was copied from the input unchanged. */
  lemma {:induction false} BracelessPrefixCopied(y: string, u: string, key: string, rep: string)
    requires rep != [] && rep[0] == '{'
    ensures '{' !in u && u <= Replace(y, Placeholder(key), rep) ==> u <= y
  {
    if u != [] && y != [] && '{' !in u && u <= Replace(y, Placeholder(key), rep) {
      var n := MatchLength(y, Placeholder(key));
      assert u[0] in u;
      if n == 0 {
        BracelessPrefixCopied(y[1..], u[1..], key, rep);
        assert u[1..] <= Replace(y[1..], Placeholder(key), rep);
        assert u == [u[0]] + u[1..];
      }
    }
  }

  /** Output positions past a leading replacement are positions of the rest. */
  lemma AfterReplacement(rep: string, y: string, t: string)
    requires !Occurs(y, t) && t != [] && t[0] == '{'
    requires forall j | 0 < j < |rep| :: rep[j] != '{'
    requires |t| <= |rep| ==> !HasAt(rep, 0, t)
    requires rep != [] ==> |t| <= |rep|
    ensures !Occurs(rep + y, t)
  {
    var out := rep + y;
    forall i | 0 <= i <= |out| - |t|
      ensures !HasAt(out, i, t)
    {
      if i >= |rep| {
        assert out[i..i + |t|] == y[i - |rep|..i - |rep| + |t|];
        assert !HasAt(y, i - |rep|, t);
      } else if i > 0 {
        assert out[i] == rep[i];
      } else {
        assert out[..|t|] == rep[..|t|];
      }
    }
  }

  /** A match at the start of `c + y` is `c` followed by a prefix of `y`. */
  lemma ConsHasAt(c: char, y: string, t: string)
    requires t != []
    ensures HasAt([c] + y, 0, t) ==> t[0] == c && t[1..] <= y
  {
    if HasAt([c] + y, 0, t) {
      var out := [c] + y;
      assert out[..|t|] == t;
      assert t[1..] == out[1..|t|] == y[..|t| - 1];
    }
  }

  lemma ConsPrefix(s: string, t: string)
    requires s != [] && t != []
    ensures t[0] == s[0] && t[1..] <= s[1..] ==> t <= s
  {
    if t[0] == s[0] && t[1..] <= s[1..] {
      assert t == [t[0]] + t[1..];
      assert s[..|t|] == [s[0]] + s[1..][..|t| - 1];
    }
  }

  /** Prepending a character creates no occurrence past the first position. */
  lemma ShiftedNoOccur(c: char, y: string, t: string)
    requires !Occurs(y, t) && !HasAt([c] + y, 0, t)
    ensures !Occurs([c] + y, t)
  {
    var out := [c] + y;
    forall i | 0 < i <= |out| - |t|
      ensures !HasAt(out, i, t)
    {
      assert out[i..i + |t|] == y[i - 1..i - 1 + |t|];
      assert !HasAt(y, i - 1, t);
    }
  }

  /** Rewriting every `{key}` to a replacement that opens with '{', has no
      other '{', and does not itself start with `{key}` leaves no `{key}`. */
  lemma {:induction false} RewriteLeavesNoToken(s: string, key: string, rep: string)
    requires '{' !in key
    requires rep != [] && rep[0] == '{' && forall j | 0 < j < |rep| :: rep[j] != '{'
    requires |Token(key)| <= |rep| && !HasAt(rep, 0, Token(key))
    ensures !Occurs(Replace(s, Placeholder(key), rep), Token(key))
  {
    var t := Token(key);
    if s != [] {
      var n := MatchLength(s, Placeholder(key));
      if n > 0 {
        RewriteLeavesNoToken(s[n..], key, rep);
        AfterReplacement(rep, Replace(s[n..], Placeholder(key), rep), t);
      } else {
        RewriteLeavesNoToken(s[1..], key, rep);
        var y := Replace(s[1..], Placeholder(key), rep);
        var tail := key + "}";
        assert '{' !in tail;
        BracelessPrefixCopied(s[1..], tail, key, rep);
        ConsHasAt(s[0], y, t);
        ConsPrefix(s, t);
        assert t[1..] == tail;
        assert !(t <= s);
        ShiftedNoOccur(s[0], y, t);
      }
    }
  }
}
