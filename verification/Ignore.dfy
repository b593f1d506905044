/**
  Ignore rules (`crates/rustlet-build/src/ignore.rs`): glob compilation, the
  matching fast paths, which rule decides a path, and when a walk may prune.
*/
module Ignore {
  import opened Common

  /** One element of a translated expression. */
  datatype Token =
    | Literal(c: char)
    | Caret                  // `^` is copied unescaped: it anchors at the start of the path
    | AnyChar                // `[^/]`
    | AnyRun                 // `[^/]*`
    | DeepPrefix             // `(.*/)?`
    | DeepAll                // `.*`
    | Foreign(rest: string)  // from the first `[` or `\` on: left to the expression engine

  /**
    The expression engine, for what follows the first character class or
    escape: whether that text compiles, and whether it matches `path` from
    position `i` to its end.
  */
  datatype Engine = Engine(wellFormed: string -> bool, matches: (string, string, nat) -> bool)

  datatype Kind =
    | Exact
    | Prefix(text: string)
    | Suffix(text: string)
    | Expression(tokens: seq<Token>)

  datatype Pattern = Pattern(text: string, exclusion: bool, kind: Kind)

  predicate IsSpecial(c: char) { c == '*' || c == '?' || c == '[' || c == '\\' }

  /** `text[i..j]` holds no wildcard and no escape. */
  predicate Plain(text: string, i: nat, j: nat) { forall k :: i <= k < j < |text| + 1 ==> !IsSpecial(text[k]) }

  predicate OneLine(s: string) { '\n' !in s }

  function FirstSpecial(text: string, from: nat := 0): (n: nat)
    requires from <= |text|
    ensures from <= n <= |text|
    ensures Plain(text, from, n)
    ensures n < |text| ==> IsSpecial(text[n])
    decreases |text| - from
  {
    if from == |text| || IsSpecial(text[from]) then from else FirstSpecial(text, from + 1)
  }

  /** The text up to the first wildcard or escape. */
  function LiteralPrefix(text: string): string {
    text[..FirstSpecial(text)]
  }

  predicate StarsAt(text: string, i: nat) { i + 2 <= |text| && text[i] == '*' && text[i + 1] == '*' }

  /** Where reading goes on after the `**` at `i`, which takes a `/` along. */
  function AfterStars(text: string, i: nat): (j: nat)
    requires StarsAt(text, i)
    ensures i + 2 <= j <= |text| && Plain(text, i + 2, j)
    ensures forall k :: i <= k < j ==> text[k] != '[' && text[k] != '\\'
  {
    if i + 2 < |text| && text[i + 2] == '/' then i + 3 else i + 2
  }

  function NextIndex(text: string, i: nat): (j: nat)
    requires i < |text| && text[i] != '[' && text[i] != '\\'
    ensures i < j <= |text|
    ensures forall k :: i <= k < j ==> text[k] != '[' && text[k] != '\\'
  {
    if StarsAt(text, i) then AfterStars(text, i) else i + 1
  }

  // ---------------------------------------------------------------- meaning

  /** Do the tokens match `p` from position `i` to its end? */
  predicate Match(engine: Engine, tokens: seq<Token>, p: string, i: nat)
    requires i <= |p|
    decreases |tokens|, |p| - i
  {
    if tokens == [] then i == |p| else
    match tokens[0]
    case Literal(c) => i < |p| && p[i] == c && Match(engine, tokens[1..], p, i + 1)
    case Caret => i == 0 && Match(engine, tokens[1..], p, i)
    case AnyChar => i < |p| && p[i] != '/' && Match(engine, tokens[1..], p, i + 1)
    case AnyRun =>
      || Match(engine, tokens[1..], p, i)
      || (i < |p| && p[i] != '/' && Match(engine, tokens, p, i + 1))
    case DeepPrefix =>
      || Match(engine, tokens[1..], p, i)
      || exists j :: i < j <= |p| && p[j - 1] == '/' && OneLine(p[i..j]) && Match(engine, tokens[1..], p, j)
    case DeepAll => exists j :: i <= j <= |p| && OneLine(p[i..j]) && Match(engine, tokens[1..], p, j)
    case Foreign(rest) => engine.matches(rest, p, i)
  }

  /** What one character that is no `**`, `[` or `\` stands for. */
  function TokenOf(c: char): Token {
    match c
    case '*' => AnyRun
    case '?' => AnyChar
    case '^' => Caret
    case _ => Literal(c)
  }

  /** The expression a glob stands for, from position `i` on. */
  function Translate(text: string, i: nat := 0): seq<Token>
    requires i <= |text|
    decreases |text| - i
  {
    if i == |text| then []
    else if StarsAt(text, i) then
      var j := AfterStars(text, i);
      if j == |text| then [DeepAll] else [DeepPrefix] + Translate(text, j)
    else if text[i] == '[' || text[i] == '\\' then [Foreign(text[i..])]
    else [TokenOf(text[i])] + Translate(text, i + 1)
  }

  /** The kind a glob has, by its shape. */
  function KindOf(text: string): Kind {
    var n := FirstSpecial(text);
    if n == |text| then Exact
    else if 0 < n && n + 2 == |text| && StarsAt(text, n) then Prefix(text[..n])
    else if StarsAt(text, 0) && Plain(text, 2, |text|) then Suffix(text[2..])
    else Expression(Translate(text))
  }

  predicate Matches(engine: Engine, pattern: Pattern, path: string) {
    match pattern.kind
    case Exact => path == pattern.text
    case Prefix(prefix) => prefix <= path
    case Suffix(suffix) => EndsWith(path, suffix) || (|suffix| > 0 && suffix[0] == '/' && path == suffix[1..])
    case Expression(tokens) => Match(engine, tokens, path, 0)
  }

  /** A pattern as `compile` makes it. */
  predicate Compiled(pattern: Pattern) {
    pattern.kind == KindOf(pattern.text)
  }

  // ---------------------------------------------------------------- compile

  datatype Type = TExact | TPrefix | TSuffix | TRegex

  /** The type `compile` has settled on after reading `text[..i]`. */
  ghost function TypeAt(text: string, i: nat): Type {
    var n := FirstSpecial(text);
    if i <= n then TExact
    else if 0 < n && i == |text| && n + 2 == |text| && StarsAt(text, n) then TPrefix
    else if StarsAt(text, 0) && Plain(text, 2, i) then TSuffix
    else TRegex
  }

  /** Where the engine takes over: the first `[` or `\`. */
  function ForeignFrom(text: string, from: nat := 0): (n: nat)
    requires from <= |text|
    ensures from <= n <= |text|
    ensures forall i :: from <= i < n ==> text[i] != '[' && text[i] != '\\'
    ensures n < |text| ==> text[n] == '[' || text[n] == '\\'
    decreases |text| - from
  {
    if from == |text| || text[from] == '[' || text[from] == '\\' then from else ForeignFrom(text, from + 1)
  }

  lemma BeforeForeign(text: string, i: nat, j: nat)
    requires i <= ForeignFrom(text) && i <= j <= |text|
    requires forall k :: i <= k < j ==> text[k] != '[' && text[k] != '\\'
    ensures j <= ForeignFrom(text)
  {
  }

  /** What the loop of `compile` knows after reading `text[..i]`. */
  ghost predicate Progress(text: string, i: nat, kind: Type, expression: seq<Token>) {
    var n := FirstSpecial(text);
    && i <= |text|
    && (i <= n || n + 2 <= i || !StarsAt(text, n))
    && kind == TypeAt(text, i)
    && (kind == TPrefix || (kind == TSuffix && i == |text|) || expression + Translate(text, i) == Translate(text))
  }

  lemma Pushed(expression: seq<Token>, token: Token, rest: seq<Token>)
    ensures expression + [token] + rest == expression + ([token] + rest)
  {
  }

  lemma StarsProgress(text: string, i: nat, kind: Type, expression: seq<Token>)
    requires Progress(text, i, kind, expression) && StarsAt(text, i) && (|text| <= 1 || text[|text| - 1] != '/')
    ensures var j := AfterStars(text, i);
      if j < |text| then Progress(text, j, if i == 0 then TSuffix else TRegex, expression + [DeepPrefix])
      else if kind == TExact then Progress(text, j, if i == 0 then TSuffix else TPrefix, expression)
      else Progress(text, j, TRegex, expression + [DeepAll])
  {
    var j := AfterStars(text, i);
    var token := if j < |text| then DeepPrefix else DeepAll;
    assert Translate(text, i) == [token] + Translate(text, j);
    Pushed(expression, token, Translate(text, j));
    assert IsSpecial(text[i]);
  }

  lemma CharacterType(text: string, i: nat)
    requires i < |text| && (i <= FirstSpecial(text) || FirstSpecial(text) + 2 <= i || !StarsAt(text, FirstSpecial(text)))
    requires !StarsAt(text, i) && text[i] != '[' && text[i] != '\\'
    ensures TypeAt(text, i + 1) == if text[i] == '*' || text[i] == '?' then TRegex else TypeAt(text, i)
  {
    if IsSpecial(text[i]) {
      assert FirstSpecial(text) <= i;
      assert 2 <= i ==> !Plain(text, 2, i + 1);
    } else {
      assert i != FirstSpecial(text);
      assert Plain(text, 2, i + 1) <==> Plain(text, 2, i);
    }
  }

  lemma CharacterProgress(text: string, i: nat, kind: Type, expression: seq<Token>)
    requires Progress(text, i, kind, expression) && i < |text|
    requires !StarsAt(text, i) && text[i] != '[' && text[i] != '\\'
    ensures Progress(text, i + 1, if text[i] == '*' || text[i] == '?' then TRegex else kind,
                     expression + [TokenOf(text[i])])
  {
    CharacterType(text, i);
    assert Translate(text, i) == [TokenOf(text[i])] + Translate(text, i + 1);
    Pushed(expression, TokenOf(text[i]), Translate(text, i + 1));
  }

  lemma ForeignProgress(text: string, i: nat, kind: Type, expression: seq<Token>)
    requires Progress(text, i, kind, expression) && i < |text| && (text[i] == '[' || text[i] == '\\')
    ensures Progress(text, |text|, TRegex, expression + [Foreign(text[i..])])
  {
    assert Plain(text, 2, |text|) ==> i < 2;
  }

  /** The branches of the loop that stay clear of classes and escapes. */
  method Step(text: string, from: nat, was: Type, before: seq<Token>) returns (i: nat, kind: Type, expression: seq<Token>)
    requires Progress(text, from, was, before) && from < |text| && (|text| <= 1 || text[|text| - 1] != '/')
    requires text[from] != '[' && text[from] != '\\'
    ensures i == NextIndex(text, from) && Progress(text, i, kind, expression)
  {
    if StarsAt(text, from) {
      StarsProgress(text, from, was, before);
      i := AfterStars(text, from);
      if i < |text| {
        return i, if from == 0 then TSuffix else TRegex, before + [DeepPrefix];
      } else if was == TExact {
        return i, if from == 0 then TSuffix else TPrefix, before;
      } else {
        return i, TRegex, before + [DeepAll];
      }
    } else {
      CharacterProgress(text, from, was, before);
      i := from + 1;
      match text[from]
      case '*' => kind, expression := TRegex, before + [AnyRun];
      case '?' => kind, expression := TRegex, before + [AnyChar];
      case '^' => kind, expression := was, before + [Caret];
      case _ => kind, expression := was, before + [Literal(text[from])];
    }
  }

  method Finish(text: string, exclusion: bool, kind: Type, expression: seq<Token>) returns (pattern: Pattern)
    requires Progress(text, |text|, kind, expression)
    ensures pattern == Pattern(text, exclusion, KindOf(text))
  {
    assert expression + Translate(text, |text|) == expression;
    match kind
    case TExact => pattern := Pattern(text, exclusion, Exact);
    case TPrefix => pattern := Pattern(text, exclusion, Prefix(text[..|text| - 2]));
    case TSuffix => pattern := Pattern(text, exclusion, Suffix(text[2..]));
    case TRegex => pattern := Pattern(text, exclusion, Expression(expression));
  }

  /**
    `Pattern::compile` on a cleaned text (one that ends in no `/`): it refuses
    exactly what the engine refuses, and settles on the kind that the shape
    of the text determines.
  */
  method Compile(text: string, exclusion: bool, engine: Engine) returns (r: Result<Pattern, ()>)
    requires |text| <= 1 || text[|text| - 1] != '/'
    ensures r.Err? <==> ForeignFrom(text) < |text| && !engine.wellFormed(text[ForeignFrom(text)..])
    ensures r.Ok? ==> r.value == Pattern(text, exclusion, KindOf(text))
    ensures r.Ok? ==> forall path :: Matches(engine, r.value, path) <==> Accepts(engine, text, path)
  {
    var expression: seq<Token> := [];
    var kind := TExact;
    var i := 0;
    while i < |text|
      invariant i <= |text| && Progress(text, i, kind, expression)
      invariant i <= ForeignFrom(text) || (i == |text| && engine.wellFormed(text[ForeignFrom(text)..]))
    {
      if text[i] == '[' || text[i] == '\\' {
        ForeignProgress(text, i, kind, expression);
        if !engine.wellFormed(text[i..]) { return Err(()); }
        expression, kind := expression + [Foreign(text[i..])], TRegex;
        i := |text|;
      } else {
        ghost var from := i;
        i, kind, expression := Step(text, i, kind, expression);
        BeforeForeign(text, from, i);
      }
    }
    var pattern := Finish(text, exclusion, kind, expression);
    forall path ensures Matches(engine, pattern, path) <==> Accepts(engine, text, path) {
      GlobMeans(engine, pattern, path);
    }
    r := Ok(pattern);
  }

  // ------------------------------------------------ what an expression means

  predicate Simple(tokens: seq<Token>) {
    forall i :: 0 <= i < |tokens| ==> !tokens[i].Caret? && !tokens[i].Foreign?
  }

  /** The texts a token stands for. */
  predicate InToken(token: Token, w: string)
    requires !token.Caret? && !token.Foreign?
  {
    match token
    case Literal(c) => w == [c]
    case AnyChar => |w| == 1 && w[0] != '/'
    case AnyRun => '/' !in w
    case DeepPrefix => w == "" || (OneLine(w) && w[|w| - 1] == '/')
    case DeepAll => OneLine(w)
  }

  predicate Fits(tokens: seq<Token>, words: seq<string>)
    requires Simple(tokens)
  {
    |words| == |tokens| && forall i :: 0 <= i < |words| ==> InToken(tokens[i], words[i])
  }

  function Flatten(words: seq<string>): string {
    if words == [] then "" else words[0] + Flatten(words[1..])
  }

  lemma {:induction false} RunMatches(engine: Engine, tokens: seq<Token>, p: string, i: nat, n: nat)
    requires tokens != [] && tokens[0] == AnyRun && i + n <= |p| && '/' !in p[i..i + n]
    requires Match(engine, tokens[1..], p, i + n)
    ensures Match(engine, tokens, p, i)
    decreases n
  {
    if n > 0 {
      assert p[i..i + n][0] == p[i] && p[i..i + n][1..] == p[i + 1..i + n];
      RunMatches(engine, tokens, p, i + 1, n - 1);
    }
  }

  lemma {:induction false} WordsMatch(engine: Engine, tokens: seq<Token>, words: seq<string>, p: string, i: nat)
    requires Simple(tokens) && Fits(tokens, words) && i <= |p| && p[i..] == Flatten(words)
    ensures Match(engine, tokens, p, i)
    decreases |tokens|
  {
    if tokens != [] {
      var w := words[0];
      var j := i + |w|;
      assert p[i..][|w|..] == Flatten(words[1..]) && p[i..][|w|..] == p[j..];
      assert p[i..][..|w|] == w && p[i..][..|w|] == p[i..j];
      WordsMatch(engine, tokens[1..], words[1..], p, j);
      FirstWord(engine, tokens, w, p, i);
    }
  }

  lemma FirstWord(engine: Engine, tokens: seq<Token>, w: string, p: string, i: nat)
    requires Simple(tokens) && tokens != [] && InToken(tokens[0], w)
    requires i + |w| <= |p| && p[i..i + |w|] == w && Match(engine, tokens[1..], p, i + |w|)
    ensures Match(engine, tokens, p, i)
  {
    match tokens[0]
    case AnyRun => RunMatches(engine, tokens, p, i, |w|);
    case DeepPrefix => assert w != "" ==> p[i + |w| - 1] == w[|w| - 1];
    case Literal(_) => assert p[i] == w[0];
    case AnyChar => assert p[i] == w[0];
    case DeepAll =>
  }

  lemma {:induction false} MatchHasWords(engine: Engine, tokens: seq<Token>, p: string, i: nat) returns (words: seq<string>)
    requires Simple(tokens) && i <= |p| && Match(engine, tokens, p, i)
    ensures Fits(tokens, words) && p[i..] == Flatten(words)
    decreases |tokens|, |p| - i
  {
    if tokens == [] {
      return [];
    }
    if tokens[0] == AnyRun && !Match(engine, tokens[1..], p, i) {
      var later := MatchHasWords(engine, tokens, p, i + 1);
      words := later[0 := [p[i]] + later[0]];
      Grown(p, i, later);
      return;
    }
    var j := MatchSplit(engine, tokens, p, i);
    var rest := MatchHasWords(engine, tokens[1..], p, j);
    words := [p[i..j]] + rest;
    assert words[1..] == rest && p[i..] == p[i..j] + p[j..];
  }

  /** Where the first token's text ends, when that is not a run still to grow. */
  lemma MatchSplit(engine: Engine, tokens: seq<Token>, p: string, i: nat) returns (j: nat)
    requires Simple(tokens) && tokens != [] && i <= |p| && Match(engine, tokens, p, i)
    requires tokens[0] == AnyRun ==> Match(engine, tokens[1..], p, i)
    ensures i <= j <= |p| && InToken(tokens[0], p[i..j]) && Match(engine, tokens[1..], p, j)
  {
    match tokens[0]
    case Literal(_) => j := i + 1;
    case AnyChar => j := i + 1;
    case AnyRun => j := i;
    case DeepPrefix =>
      if Match(engine, tokens[1..], p, i) {
        j := i;
      } else {
        j :| i < j <= |p| && p[j - 1] == '/' && OneLine(p[i..j]) && Match(engine, tokens[1..], p, j);
      }
    case DeepAll =>
      j :| i <= j <= |p| && OneLine(p[i..j]) && Match(engine, tokens[1..], p, j);
  }

  lemma Grown(p: string, i: nat, later: seq<string>)
    requires i < |p| && later != [] && p[i + 1..] == Flatten(later)
    ensures p[i..] == Flatten(later[0 := [p[i]] + later[0]])
  {
    var words := later[0 := [p[i]] + later[0]];
    assert words[1..] == later[1..];
    assert p[i..] == [p[i]] + p[i + 1..];
  }

  /** An expression matches exactly the texts that can be cut into one text for each token. */
  lemma MatchIsCut(engine: Engine, tokens: seq<Token>, p: string)
    requires Simple(tokens)
    ensures Match(engine, tokens, p, 0) <==> exists words :: Fits(tokens, words) && p == Flatten(words)
  {
    assert p[0..] == p;
    if Match(engine, tokens, p, 0) {
      var words := MatchHasWords(engine, tokens, p, 0);
    }
    if words :| Fits(tokens, words) && p == Flatten(words) {
      WordsMatch(engine, tokens, words, p, 0);
    }
  }

  // ------------------------------------------------------ what a glob means

  /**
    Can `p` from `j` on be cut along the glob from `i` on? A `?` takes one
    character that is no `/`, a `*` a run without one, `**` at the end any
    text on one line, `**` before the end nothing or whole directories (with
    the `/` after it, if any), a `^` is the start of the path, from a `[` or a
    `\` on the engine decides, and every other character takes itself.
  */
  ghost predicate Globs(engine: Engine, glob: string, i: nat, p: string, j: nat)
    requires i <= |glob| && j <= |p|
    decreases |glob| - i
  {
    if i == |glob| then j == |p|
    else if glob[i] == '*' && i + 1 < |glob| && glob[i + 1] == '*' then
      var next := if i + 2 < |glob| && glob[i + 2] == '/' then i + 3 else i + 2;
      if next == |glob| then '\n' !in p[j..]
      else
        || Globs(engine, glob, next, p, j)
        || exists m :: j < m <= |p| && p[m - 1] == '/' && '\n' !in p[j..m] && Globs(engine, glob, next, p, m)
    else if glob[i] == '*' then
      exists m :: j <= m <= |p| && '/' !in p[j..m] && Globs(engine, glob, i + 1, p, m)
    else if glob[i] == '?' then j < |p| && p[j] != '/' && Globs(engine, glob, i + 1, p, j + 1)
    else if glob[i] == '^' then j == 0 && Globs(engine, glob, i + 1, p, j)
    else if glob[i] == '[' || glob[i] == '\\' then engine.matches(glob[i..], p, j)
    else j < |p| && p[j] == glob[i] && Globs(engine, glob, i + 1, p, j + 1)
  }

  predicate NoWildcards(s: string) { '*' !in s && '?' !in s && '[' !in s && '\\' !in s }

  /**
    What a compiled glob accepts: its text and nothing else when that has no
    wildcard, what starts with `text` for `text**`, what ends in `text` for
    `**text`, `text` itself too for `**` and a `/`, and what can be cut along
    it otherwise.
  */
  ghost predicate Accepts(engine: Engine, glob: string, p: string) {
    if NoWildcards(glob) then p == glob
    else if |glob| > 2 && glob[|glob| - 2..] == "**" && NoWildcards(glob[..|glob| - 2]) then glob[..|glob| - 2] <= p
    else if |glob| >= 2 && glob[..2] == "**" && NoWildcards(glob[2..]) then
      EndsWith(p, glob[2..]) || (|glob| > 2 && glob[2] == '/' && p == glob[3..])
    else Globs(engine, glob, 0, p, 0)
  }

  /** The translated expression matches what can be cut along the glob. */
  lemma {:induction false} TranslationGlobs(engine: Engine, glob: string, i: nat, p: string, j: nat)
    requires i <= |glob| && j <= |p|
    ensures Match(engine, Translate(glob, i), p, j) <==> Globs(engine, glob, i, p, j)
    decreases |glob| - i
  {
    if i < |glob| {
      if StarsAt(glob, i) {
        StarsGlob(engine, glob, i, p, j);
      } else if glob[i] == '*' {
        RunGlobs(engine, glob, i, p, j);
      } else if glob[i] != '[' && glob[i] != '\\' {
        var all := Translate(glob, i);
        assert all[0] == TokenOf(glob[i]) && all[1..] == Translate(glob, i + 1);
        if glob[i] == '^' {
          TranslationGlobs(engine, glob, i + 1, p, j);
        } else if j < |p| {
          TranslationGlobs(engine, glob, i + 1, p, j + 1);
        }
      }
    }
  }

  lemma {:induction false} StarsGlob(engine: Engine, glob: string, i: nat, p: string, j: nat)
    requires StarsAt(glob, i) && j <= |p|
    ensures Match(engine, Translate(glob, i), p, j) <==> Globs(engine, glob, i, p, j)
    decreases |glob| - i, 0
  {
    var next := AfterStars(glob, i);
    if next == |glob| {
      assert Translate(glob, i)[1..] == [];
      assert p[j..|p|] == p[j..];
    } else {
      assert Translate(glob, i)[1..] == Translate(glob, next);
      forall m | j <= m <= |p| ensures Match(engine, Translate(glob, next), p, m) <==> Globs(engine, glob, next, p, m) {
        TranslationGlobs(engine, glob, next, p, m);
      }
    }
  }

  lemma {:induction false} RunGlobs(engine: Engine, glob: string, i: nat, p: string, j: nat)
    requires i < |glob| && glob[i] == '*' && !StarsAt(glob, i) && j <= |p|
    ensures Match(engine, Translate(glob, i), p, j) <==> Globs(engine, glob, i, p, j)
    decreases |glob| - i, 0
  {
    var all, rest := Translate(glob, i), Translate(glob, i + 1);
    assert all[0] == AnyRun && all[1..] == rest;
    RunMeans(engine, all, rest, p, j);
    forall m | j <= m <= |p| ensures Match(engine, rest, p, m) <==> Globs(engine, glob, i + 1, p, m) {
      TranslationGlobs(engine, glob, i + 1, p, m);
    }
  }

  lemma RunMeans(engine: Engine, all: seq<Token>, rest: seq<Token>, p: string, j: nat)
    requires all != [] && all[0] == AnyRun && all[1..] == rest && j <= |p|
    ensures Match(engine, all, p, j) <==> exists m :: j <= m <= |p| && '/' !in p[j..m] && Match(engine, rest, p, m)
  {
    if Match(engine, all, p, j) {
      var m := RunEnds(engine, all, p, j);
    }
    if m :| j <= m <= |p| && '/' !in p[j..m] && Match(engine, rest, p, m) {
      assert p[j..j + (m - j)] == p[j..m];
      RunMatches(engine, all, p, j, m - j);
    }
  }

  /** Where a run that matches ends. */
  lemma {:induction false} RunEnds(engine: Engine, tokens: seq<Token>, p: string, j: nat) returns (m: nat)
    requires tokens != [] && tokens[0] == AnyRun && j <= |p| && Match(engine, tokens, p, j)
    ensures j <= m <= |p| && '/' !in p[j..m] && Match(engine, tokens[1..], p, m)
    decreases |p| - j
  {
    if Match(engine, tokens[1..], p, j) {
      m := j;
    } else {
      m := RunEnds(engine, tokens, p, j + 1);
      assert p[j..m] == [p[j]] + p[j + 1..m];
    }
  }

  /** What a compiled pattern matches, from its text alone. */
  lemma GlobMeans(engine: Engine, pattern: Pattern, p: string)
    requires Compiled(pattern)
    ensures Matches(engine, pattern, p) <==> Accepts(engine, pattern.text, p)
  {
    var glob := pattern.text;
    var n := FirstSpecial(glob);
    ShapeOf(glob);
    if pattern.kind.Expression? {
      TranslationGlobs(engine, glob, 0, p, 0);
    }
  }

  /** The kinds by the shapes of the text. */
  lemma ShapeOf(glob: string)
    ensures KindOf(glob).Exact? <==> NoWildcards(glob)
    ensures KindOf(glob).Prefix? <==> |glob| > 2 && glob[|glob| - 2..] == "**" && NoWildcards(glob[..|glob| - 2])
    ensures KindOf(glob).Prefix? ==> KindOf(glob).text == glob[..|glob| - 2]
    ensures KindOf(glob).Suffix? <==> |glob| >= 2 && glob[..2] == "**" && NoWildcards(glob[2..])
    ensures KindOf(glob).Suffix? ==> KindOf(glob).text == glob[2..]
  {
    ShapeExact(glob);
    if |glob| >= 2 {
      ShapePrefix(glob);
      ShapeSuffix(glob);
    }
  }

  lemma ShapeExact(glob: string)
    ensures FirstSpecial(glob) == |glob| <==> NoWildcards(glob)
  {
    PlainIs(glob, 0, |glob|);
    assert glob[0..|glob|] == glob;
  }

  lemma ShapePrefix(glob: string)
    requires |glob| >= 2
    ensures FirstSpecial(glob) + 2 == |glob| && StarsAt(glob, FirstSpecial(glob))
      <==> glob[|glob| - 2..] == "**" && NoWildcards(glob[..|glob| - 2])
  {
    PlainIs(glob, 0, |glob| - 2);
    assert glob[0..|glob| - 2] == glob[..|glob| - 2];
    LastTwo(glob);
    if StarsAt(glob, |glob| - 2) && Plain(glob, 0, |glob| - 2) {
      FirstSpecialIs(glob, |glob| - 2);
    }
  }

  lemma LastTwo(glob: string)
    requires |glob| >= 2
    ensures glob[|glob| - 2..] == "**" <==> StarsAt(glob, |glob| - 2)
  {
    var last := glob[|glob| - 2..];
    assert last == [last[0], last[1]];
  }

  lemma FirstSpecialIs(text: string, n: nat)
    requires n < |text| && Plain(text, 0, n) && IsSpecial(text[n])
    ensures FirstSpecial(text) == n
  {
  }

  lemma ShapeSuffix(glob: string)
    requires |glob| >= 2
    ensures StarsAt(glob, 0) && Plain(glob, 2, |glob|) <==> glob[..2] == "**" && NoWildcards(glob[2..])
  {
    PlainIs(glob, 2, |glob|);
    assert glob[2..|glob|] == glob[2..];
    assert glob[..2] == "**" <==> StarsAt(glob, 0);
  }

  lemma PlainIs(text: string, i: nat, j: nat)
    requires i <= j <= |text|
    ensures Plain(text, i, j) <==> NoWildcards(text[i..j])
  {
    forall k | i <= k < j ensures text[k] in text[i..j] {
      assert text[i..j][k - i] == text[k];
    }
  }

  // ---------------------------------------------------- matches and prefixes

  /** Past the start no `^` matches: plain text matches itself or nothing. */
  lemma {:induction false} MatchPlain(engine: Engine, text: string, i: nat, n: nat, p: string, k: nat)
    requires i <= n <= |text| && Plain(text, i, n) && k <= |p|
    requires 0 < k || i == n || text[i] != '^'
    ensures Match(engine, Translate(text, i), p, k) <==>
      && '^' !in text[i..n] && k + (n - i) <= |p| && p[k..k + (n - i)] == text[i..n]
      && Match(engine, Translate(text, n), p, k + (n - i))
    decreases n - i
  {
    if i < n {
      assert text[i..n] == [text[i]] + text[i + 1..n];
      var all := Translate(text, i);
      assert all[0] == TokenOf(text[i]) && all[1..] == Translate(text, i + 1);
      if text[i] != '^' && k < |p| {
        MatchPlain(engine, text, i + 1, n, p, k + 1);
        if k + (n - i) <= |p| {
          assert p[k..k + (n - i)] == [p[k]] + p[k + 1..k + (n - i)];
        }
      }
    }
  }

  /** An expression whose text starts with `^` has an anchor where its prefix has a character. */
  predicate Anchored(text: string) {
    KindOf(text).Expression? && text[0] == '^'
  }

  lemma AnchoredPrefix(text: string)
    requires Anchored(text)
    ensures LiteralPrefix(text) != "" && LiteralPrefix(text)[0] == '^'
  {
    assert FirstSpecial(text) > 0;
  }

  /** Every path a pattern matches starts with its literal prefix, unless the pattern is anchored. */
  lemma MatchStartsWithPrefix(engine: Engine, pattern: Pattern, path: string)
    requires Compiled(pattern) && !Anchored(pattern.text) && Matches(engine, pattern, path)
    ensures LiteralPrefix(pattern.text) <= path
  {
    var n := FirstSpecial(pattern.text);
    if pattern.kind.Expression? {
      MatchPlain(engine, pattern.text, 0, n, path, 0);
    }
  }

  /**
    Can the tokens match anything at all, having consumed something already
    (`started`) or not? Only an anchor after a consumed character cannot.
  */
  predicate Satisfiable(tokens: seq<Token>, started: bool) {
    tokens == [] ||
    match tokens[0]
    case Literal(_) => Satisfiable(tokens[1..], true)
    case AnyChar => Satisfiable(tokens[1..], true)
    case Caret => !started && Satisfiable(tokens[1..], started)
    case Foreign(_) => false
    case _ => Satisfiable(tokens[1..], started)
  }

  /** The shortest path the tokens could match. */
  function Shortest(tokens: seq<Token>): string {
    if tokens == [] then ""
    else (match tokens[0] case Literal(c) => [c] case AnyChar => "x" case _ => "") + Shortest(tokens[1..])
  }

  lemma {:induction false} SatisfiableMonotone(tokens: seq<Token>)
    ensures Satisfiable(tokens, true) ==> Satisfiable(tokens, false)
  {
    if tokens != [] {
      SatisfiableMonotone(tokens[1..]);
    }
  }

  lemma {:induction false} ShortestMatches(engine: Engine, tokens: seq<Token>, p: string, i: nat)
    requires i <= |p| && p[i..] == Shortest(tokens) && Satisfiable(tokens, 0 < i)
    ensures Match(engine, tokens, p, i)
    decreases |tokens|
  {
    if tokens != [] {
      if tokens[0].Literal? || tokens[0].AnyChar? {
        assert p[i] == Shortest(tokens)[0] && p[i + 1..] == p[i..][1..] == Shortest(tokens[1..]);
        ShortestMatches(engine, tokens[1..], p, i + 1);
      } else {
        assert Shortest(tokens) == Shortest(tokens[1..]);
        ShortestMatches(engine, tokens[1..], p, i);
        assert OneLine(p[i..i]);
      }
    }
  }

  lemma {:induction false} MatchedIsSatisfiable(engine: Engine, tokens: seq<Token>, p: string, i: nat)
    requires i <= |p| && Match(engine, tokens, p, i) && forall t :: t in tokens ==> !t.Foreign?
    ensures Satisfiable(tokens, 0 < i)
    decreases |tokens|, |p| - i
  {
    if tokens != [] {
      SatisfiableMonotone(tokens);
      SatisfiableMonotone(tokens[1..]);
      assert tokens[0] in tokens;
      match tokens[0]
      case Literal(_) => MatchedIsSatisfiable(engine, tokens[1..], p, i + 1);
      case AnyChar => MatchedIsSatisfiable(engine, tokens[1..], p, i + 1);
      case AnyRun =>
        if Match(engine, tokens[1..], p, i) {
          MatchedIsSatisfiable(engine, tokens[1..], p, i);
        } else {
          MatchedIsSatisfiable(engine, tokens, p, i + 1);
        }
      case Caret => MatchedIsSatisfiable(engine, tokens[1..], p, i);
      case Foreign(_) => assert false;
      case _ =>
        var j :| i <= j <= |p| && Match(engine, tokens[1..], p, j);
        MatchedIsSatisfiable(engine, tokens[1..], p, j);
    }
  }

  lemma {:induction false} TranslatedTokens(text: string, i: nat)
    requires i <= |text| && ForeignFrom(text) == |text|
    ensures forall t :: t in Translate(text, i) ==> !t.Foreign? && t != Literal('^')
    ensures '^' !in Shortest(Translate(text, i))
    decreases |text| - i
  {
    if i < |text| {
      TranslatedTokens(text, NextIndex(text, i));
      var rest := Translate(text, i)[1..];
      assert rest == [] || rest == Translate(text, NextIndex(text, i));
    }
  }

  /**
    A pattern that may match paths its literal prefix does not lead to: an
    expression that starts with `^` and can match something. With a class or
    an escape in it, it is taken to.
  */
  predicate Stray(text: string) {
    Anchored(text) && (ForeignFrom(text) < |text| || Satisfiable(Translate(text), false))
  }

  /** Every path a pattern matches starts with its literal prefix, unless the pattern is stray. */
  lemma PrefixLaw(engine: Engine, pattern: Pattern, path: string)
    requires Compiled(pattern) && !Stray(pattern.text) && Matches(engine, pattern, path)
    ensures LiteralPrefix(pattern.text) <= path
  {
    if Anchored(pattern.text) {
      TranslatedTokens(pattern.text, 0);
      MatchedIsSatisfiable(engine, Translate(pattern.text), path, 0);
    } else {
      MatchStartsWithPrefix(engine, pattern, path);
    }
  }

  /**
    Exactly when the prefix law fails: an expression that starts with `^` and
    can match something does match a path that does not start with its
    literal prefix, and no other pattern does.
  */
  lemma PrefixLawExact(engine: Engine, pattern: Pattern)
    requires Compiled(pattern) && ForeignFrom(pattern.text) == |pattern.text|
    ensures (forall path :: Matches(engine, pattern, path) ==> LiteralPrefix(pattern.text) <= path)
      <==> !Stray(pattern.text)
  {
    var text := pattern.text;
    TranslatedTokens(text, 0);
    if !Anchored(text) {
      forall path | Matches(engine, pattern, path) ensures LiteralPrefix(text) <= path {
        MatchStartsWithPrefix(engine, pattern, path);
      }
    } else if Satisfiable(Translate(text), false) {
      var path := Shortest(Translate(text));
      ShortestMatches(engine, Translate(text), path, 0);
      assert Matches(engine, pattern, path);
      AnchoredPrefix(text);
      assert path != "" ==> path[0] in path;
    } else {
      forall path ensures !Matches(engine, pattern, path) {
        if Matches(engine, pattern, path) {
          MatchedIsSatisfiable(engine, Translate(text), path, 0);
        }
      }
    }
  }

  // ------------------------------------------------------------- fast paths

  /** Does a pattern accept the newline-free paths its translated expression accepts? */
  ghost predicate Refines(engine: Engine, text: string) {
    forall path :: OneLine(path) ==>
      (Matches(engine, Pattern(text, false, KindOf(text)), path) <==> Match(engine, Translate(text), path, 0))
  }

  /** Anchors alone match the empty text at the start of a path. */
  lemma {:induction false} AllCarets(engine: Engine, text: string, i: nat, n: nat, p: string)
    requires i <= n <= |text| && forall k :: i <= k < n ==> text[k] == '^'
    ensures Match(engine, Translate(text, i), p, 0) <==> Match(engine, Translate(text, n), p, 0)
    decreases n - i
  {
    if i < n {
      assert Translate(text, i)[1..] == Translate(text, i + 1);
      AllCarets(engine, text, i + 1, n, p);
    }
  }

  /** Anchors and then a character do not match a path that starts with `^`. */
  lemma {:induction false} CaretMissesItself(engine: Engine, text: string, i: nat, k: nat, p: string)
    requires i <= k < |text| && Plain(text, i, k + 1) && text[k] != '^' && p != "" && p[0] == '^'
    ensures !Match(engine, Translate(text, i), p, 0)
    decreases k - i
  {
    assert Translate(text, i)[0] == TokenOf(text[i]) && Translate(text, i)[1..] == Translate(text, i + 1);
    if text[i] == '^' {
      CaretMissesItself(engine, text, i + 1, k, p);
    }
  }

  /** Plain text with an anchor in it does not match itself. */
  lemma CaretText(engine: Engine, text: string, i: nat, n: nat, p: string)
    requires i < n <= |text| && Plain(text, i, n) && '^' in text[i..n]
    requires p != "" && p[0] == text[i]
    ensures Match(engine, Translate(text, i), p, 0)
      ==> (forall k :: i <= k < n ==> text[k] == '^') && Match(engine, Translate(text, n), p, 0)
  {
    if text[i] != '^' {
      MatchPlain(engine, text, i, n, p, 0);
    } else if k :| i <= k < n && text[k] != '^' {
      CaretMissesItself(engine, text, i, k, p);
    } else {
      AllCarets(engine, text, i, n, p);
    }
  }

  // Text, `text**` and `**/text` with no anchor in them: the fast path is the expression.
  lemma FastPathRefines(engine: Engine, text: string, path: string)
    requires !KindOf(text).Expression? && '^' !in text && OneLine(path)
    requires KindOf(text).Suffix? ==> |text| == 2 || (text[2] == '/' && |text| > 3)
    ensures Matches(engine, Pattern(text, false, KindOf(text)), path) <==> Match(engine, Translate(text), path, 0)
  {
    var n := FirstSpecial(text);
    match KindOf(text)
    case Exact =>
      MatchPlain(engine, text, 0, n, path, 0);
      assert text[0..n] == text;
    case Prefix(_) =>
      MatchPlain(engine, text, 0, n, path, 0);
      assert Translate(text, n) == [DeepAll];
      if n <= |path| { MatchDeepAll(engine, path, n); }
    case Suffix(_) =>
      if |text| == 2 {
        assert Translate(text) == [DeepAll];
        MatchDeepAll(engine, path, 0);
      } else {
        SuffixMatch(engine, text, path);
        assert text[2..] == ['/'] + text[3..];
      }
  }

  lemma MatchDeepAll(engine: Engine, path: string, i: nat)
    requires OneLine(path) && i <= |path|
    ensures Match(engine, [DeepAll], path, i)
  {
    assert OneLine(path[i..|path|]) && Match(engine, [DeepAll][1..], path, |path|);
  }

  // `(.*/)?text`: the path is the text, or ends in it after a `/`.
  lemma SuffixMatch(engine: Engine, text: string, path: string)
    requires StarsAt(text, 0) && Plain(text, 2, |text|) && '^' !in text && OneLine(path) && |text| > 2
    ensures var bare := text[AfterStars(text, 0)..];
      bare != "" ==> (Match(engine, Translate(text), path, 0) <==> path == bare || EndsWith(path, ['/'] + bare))
  {
    var m := AfterStars(text, 0);
    var bare := text[m..];
    if bare != "" {
      var n := |text|;
      var tokens := Translate(text);
      assert tokens[0] == DeepPrefix && tokens[1..] == Translate(text, m);
      forall j: nat | j <= |path| ensures Match(engine, Translate(text, m), path, j) <==> path[j..] == bare {
        MatchPlain(engine, text, m, n, path, j);
        assert text[m..n] == bare;
      }
      if EndsWith(path, ['/'] + bare) {
        var j := |path| - |bare|;
        assert path[j - 1..][0] == '/' && path[j..] == path[j - 1..][1..];
        assert OneLine(path[0..j]);
      }
      if j: nat :| 0 < j <= |path| && path[j - 1] == '/' && Match(engine, Translate(text, m), path, j) {
        assert path[j - 1..] == ['/'] + path[j..];
      }
      assert path[0..] == path;
    }
  }

  /** Exactly when a fast path stands for its expression: when its text has no `^` in it. */
  lemma FastPathExact(engine: Engine, text: string)
    requires !KindOf(text).Expression? && OneLine(text)
    requires KindOf(text).Suffix? ==> |text| == 2 || (text[2] == '/' && |text| > 3)
    ensures Refines(engine, text) <==> '^' !in text
  {
    var n := FirstSpecial(text);
    var pattern := Pattern(text, false, KindOf(text));
    if '^' !in text {
      forall path | OneLine(path)
        ensures Matches(engine, pattern, path) <==> Match(engine, Translate(text), path, 0)
      {
        FastPathRefines(engine, text, path);
      }
    } else if pattern.kind.Suffix? {
      var path := text[3..];
      assert text[2..][1..] == path && OneLine(path);
      assert Matches(engine, pattern, path);
      SuffixCaret(engine, text);
    } else {
      var c := text[..n];
      assert text[0..n] == c && '^' in c;
      CaretText(engine, text, 0, n, c);
      if pattern.kind.Prefix? && forall k :: 0 <= k < n ==> text[k] == '^' {
        AllCarets(engine, text, 0, n, "");
        assert Translate(text, n) == [DeepAll];
        MatchDeepAll(engine, "", 0);
        assert OneLine("") && !Matches(engine, pattern, "");
      } else {
        assert OneLine(c) && Matches(engine, pattern, c);
        assert pattern.kind.Exact? ==> Translate(text, n) == [];
      }
    }
  }

  lemma SuffixCaret(engine: Engine, text: string)
    requires StarsAt(text, 0) && Plain(text, 2, |text|) && '^' in text && |text| > 3 && text[2] == '/'
    ensures !Match(engine, Translate(text), text[3..], 0)
  {
    var path := text[3..];
    assert text[3..|text|] == path;
    assert '^' in path by {
      var k :| 0 <= k < |text| && text[k] == '^';
      assert path[k - 3] == '^';
    }
    var tokens := Translate(text);
    assert tokens[0] == DeepPrefix && tokens[1..] == Translate(text, 3);
    CaretText(engine, text, 3, |text|, path);
    assert Translate(text, |text|) == [];
    forall j: nat | 0 < j <= |path| ensures !Match(engine, Translate(text, 3), path, j) {
      MatchPlain(engine, text, 3, |text|, path, j);
    }
  }

  // `**text` accepts every path that ends in the text, which the expression
  // accepts only where the text is the path or follows a `/`.
  lemma DoubleStarText(engine: Engine, text: string, path: string)
    requires KindOf(text).Suffix? && |text| > 2 && text[2] != '/' && '^' !in text && OneLine(path)
    ensures Matches(engine, Pattern(text, false, KindOf(text)), path) <==> EndsWith(path, text[2..])
    ensures Match(engine, Translate(text), path, 0) <==>
      EndsWith(path, text[2..]) && (|path| == |text| - 2 || path[|path| - (|text| - 2) - 1] == '/')
  {
    SuffixMatch(engine, text, path);
    var bare := text[2..];
    if EndsWith(path, bare) {
      var j := |path| - |bare|;
      if 0 < j {
        assert path[j - 1..] == [path[j - 1]] + path[j..];
      }
    }
    if EndsWith(path, ['/'] + bare) {
      var j := |path| - |bare|;
      assert path[j..] == path[j - 1..][1..];
    }
  }

  // ------------------------------------------------------- which rule decides

  /** The pattern matches the path itself or one of its parent directories. */
  predicate Touches(engine: Engine, pattern: Pattern, rel: string) {
    || Matches(engine, pattern, rel)
    || exists i :: 0 <= i < |rel| && rel[i] == '/' && Matches(engine, pattern, rel[..i])
  }

  /** The last rule that touches the path is no exception: the path is excluded. */
  predicate Excluded(engine: Engine, rules: seq<Pattern>, rel: string) {
    exists k ::
      && 0 <= k < |rules| && Touches(engine, rules[k], rel) && !rules[k].exclusion
      && forall l :: k < l < |rules| ==> !Touches(engine, rules[l], rel)
  }

  /** A rule touches what its glob accepts, and everything below that. */
  lemma TouchesMeans(engine: Engine, pattern: Pattern, rel: string)
    requires Compiled(pattern)
    ensures Touches(engine, pattern, rel) <==> exists q :: (q == rel || q + "/" <= rel) && Accepts(engine, pattern.text, q)
  {
    forall q ensures Matches(engine, pattern, q) <==> Accepts(engine, pattern.text, q) {
      GlobMeans(engine, pattern, q);
    }
    ParentsOf(q => Matches(engine, pattern, q), rel);
  }

  /** The parents of a path are what it goes on from with a `/`. */
  lemma ParentsOf(test: string -> bool, rel: string)
    ensures test(rel) || (exists i :: 0 <= i < |rel| && rel[i] == '/' && test(rel[..i]))
      <==> exists q :: (q == rel || q + "/" <= rel) && test(q)
  {
    if q :| (q == rel || q + "/" <= rel) && test(q) {
      if q != rel {
        assert rel[|q|] == '/' && rel[..|q|] == q;
      }
    }
    if i :| 0 <= i < |rel| && rel[i] == '/' && test(rel[..i]) {
      assert rel[..i] + "/" <= rel;
    }
  }

  lemma UntouchedIsIncluded(engine: Engine, rules: seq<Pattern>, rel: string)
    requires forall k :: 0 <= k < |rules| ==> !Touches(engine, rules[k], rel)
    ensures !Excluded(engine, rules, rel)
  {
  }

  lemma LastRuleDecides(engine: Engine, rules: seq<Pattern>, rel: string, k: nat)
    requires k < |rules| && Touches(engine, rules[k], rel)
    requires forall l :: k < l < |rules| ==> !Touches(engine, rules[l], rel)
    ensures Excluded(engine, rules, rel) <==> !rules[k].exclusion
  {
  }

  /** `excludes`: trying only the rules that would change the answer gives the last word to the right rule. */
  method Excludes(engine: Engine, rules: seq<Pattern>, rel: string) returns (excluded: bool)
    ensures excluded <==> Excluded(engine, rules, rel)
  {
    excluded := false;
    for k := 0 to |rules|
      invariant excluded <==> Excluded(engine, rules[..k], rel)
    {
      ExcludedStep(engine, rules, k, rel);
      if rules[k].exclusion != excluded { continue; }
      var touched := TouchesParent(engine, rules[k], rel);
      if touched { excluded := !rules[k].exclusion; }
    }
    assert rules[..|rules|] == rules;
  }

  method TouchesParent(engine: Engine, pattern: Pattern, rel: string) returns (touched: bool)
    ensures touched <==> Touches(engine, pattern, rel)
  {
    touched := Matches(engine, pattern, rel);
    for i := 0 to |rel|
      invariant touched <==>
        || Matches(engine, pattern, rel)
        || exists j :: 0 <= j < i && rel[j] == '/' && Matches(engine, pattern, rel[..j])
    {
      if rel[i] == '/' && Matches(engine, pattern, rel[..i]) { touched := true; }
    }
  }

  lemma ExcludedStep(engine: Engine, rules: seq<Pattern>, k: nat, rel: string)
    requires k < |rules|
    ensures Excluded(engine, rules[..k + 1], rel) <==>
      if Touches(engine, rules[k], rel) then !rules[k].exclusion else Excluded(engine, rules[..k], rel)
  {
    var shorter, longer := rules[..k], rules[..k + 1];
    assert longer[k] == rules[k];
    assert forall l :: 0 <= l < k ==> longer[l] == shorter[l];
    if Touches(engine, rules[k], rel) {
    } else if Excluded(engine, shorter, rel) {
      var m :| 0 <= m < k && Touches(engine, shorter[m], rel) && !shorter[m].exclusion
        && forall l :: m < l < k ==> !Touches(engine, shorter[l], rel);
      assert Touches(engine, longer[m], rel);
    }
  }

  // ----------------------------------------------------------------- pruning

  function TrimSlashes(s: string): string {
    if s != "" && s[|s| - 1] == '/' then TrimSlashes(s[..|s| - 1]) else s
  }

  /** `may_include_below`: could an exception include something below `rel`? */
  predicate MayIncludeBelow(rules: seq<Pattern>, rel: string) {
    var dir := TrimSlashes(rel) + "/";
    exists k :: 0 <= k < |rules| && rules[k].exclusion
      && var literal := LiteralPrefix(rules[k].text); dir <= literal || literal <= dir
  }

  predicate CompiledRules(rules: seq<Pattern>) {
    forall k :: 0 <= k < |rules| ==> Compiled(rules[k])
  }

  /** No exception is stray: the prefix law holds of each. */
  predicate NoStrayException(rules: seq<Pattern>) {
    forall k :: 0 <= k < |rules| ==> rules[k].exclusion ==> !Stray(rules[k].text)
  }

  /** The parents of a path below `d` are `d`, its parents, and paths below `d`. */
  lemma TouchesBelow(engine: Engine, pattern: Pattern, d: string, path: string)
    requires d + "/" <= path
    ensures Touches(engine, pattern, d) ==> Touches(engine, pattern, path)
    ensures Touches(engine, pattern, path) && !Touches(engine, pattern, d) ==>
      exists q :: d + "/" <= q && Matches(engine, pattern, q)
  {
    assert path[|d|] == '/' && path[..|d|] == d;
    assert forall i :: 0 <= i < |d| ==> path[i] == d[i] && path[..i] == d[..i];
    if Touches(engine, pattern, path) && !Touches(engine, pattern, d) && !Matches(engine, pattern, path) {
      var i :| 0 <= i < |path| && path[i] == '/' && Matches(engine, pattern, path[..i]);
      assert i > |d|;
      assert d + "/" <= path[..i];
    }
  }

  lemma {:induction false} TrimPrefix(d: string)
    ensures TrimSlashes(d) + "/" <= d + "/"
  {
    if d != "" && d[|d| - 1] == '/' {
      TrimPrefix(d[..|d| - 1]);
      assert d[..|d| - 1] + "/" == d;
    }
  }

  /** The exception includes something below `d`, and not `d` itself. */
  ghost predicate ReachesBelow(engine: Engine, exception: Pattern, d: string) {
    !Touches(engine, exception, d) && exists path :: d + "/" <= path && Touches(engine, exception, path)
  }

  /** No stray exception reaches below `d`. */
  ghost predicate NoneStraysBelow(engine: Engine, rules: seq<Pattern>, d: string) {
    forall k :: 0 <= k < |rules| && rules[k].exclusion && Stray(rules[k].text) ==> !ReachesBelow(engine, rules[k], d)
  }

  /** An excluded directory no exception leads into holds nothing but excluded paths, unless a stray one reaches there. */
  lemma PruningSound(engine: Engine, rules: seq<Pattern>, d: string, path: string)
    requires CompiledRules(rules) && NoneStraysBelow(engine, rules, d)
    requires Excluded(engine, rules, d) && !MayIncludeBelow(rules, d) && d + "/" <= path
    ensures Excluded(engine, rules, path)
  {
    var k :| 0 <= k < |rules| && Touches(engine, rules[k], d) && !rules[k].exclusion
      && forall l :: k < l < |rules| ==> !Touches(engine, rules[l], d);
    TouchesBelow(engine, rules[k], d, path);
    forall l | k < l < |rules| && Touches(engine, rules[l], path) ensures !rules[l].exclusion {
      TouchesBelow(engine, rules[l], d, path);
      if rules[l].exclusion && !Touches(engine, rules[l], d) {
        assert ReachesBelow(engine, rules[l], d);
        ExceptionReaches(engine, rules, l, d, path);
      }
    }
    LastTouch(engine, rules, k, path);
  }

  lemma ExceptionReaches(engine: Engine, rules: seq<Pattern>, l: nat, d: string, path: string)
    requires l < |rules| && Compiled(rules[l]) && rules[l].exclusion && !Stray(rules[l].text)
    requires d + "/" <= path && Touches(engine, rules[l], path) && !Touches(engine, rules[l], d)
    ensures MayIncludeBelow(rules, d)
  {
    TouchesBelow(engine, rules[l], d, path);
    var q :| d + "/" <= q && Matches(engine, rules[l], q);
    PrefixLaw(engine, rules[l], q);
    TrimPrefix(d);
    var dir, literal := TrimSlashes(d) + "/", LiteralPrefix(rules[l].text);
    if |dir| <= |literal| { assert dir <= literal; } else { assert literal <= dir; }
  }

  /** If every touching rule from `k` on excludes, the last of them decides. */
  lemma {:induction false} LastTouch(engine: Engine, rules: seq<Pattern>, k: nat, path: string)
    requires k < |rules| && Touches(engine, rules[k], path) && !rules[k].exclusion
    requires forall l :: k < l < |rules| && Touches(engine, rules[l], path) ==> !rules[l].exclusion
    ensures Excluded(engine, rules, path)
    decreases |rules| - k
  {
    if l :| k < l < |rules| && Touches(engine, rules[l], path) {
      LastTouch(engine, rules, l, path);
    }
  }

  /** Everything below the directory is excluded. */
  ghost predicate AllBelowExcluded(engine: Engine, rules: seq<Pattern>, d: string) {
    forall path :: d + "/" <= path ==> Excluded(engine, rules, path)
  }

  /** The directory is pruned, and something below it is not excluded. */
  ghost predicate PrunedWrongly(engine: Engine, rules: seq<Pattern>, d: string) {
    Excluded(engine, rules, d) && !MayIncludeBelow(rules, d) && !AllBelowExcluded(engine, rules, d)
  }

  /** A stray exception has the last word on the path: no excluding rule after it touches that. */
  ghost predicate StrayDecides(engine: Engine, rules: seq<Pattern>, l: nat, path: string) {
    && l < |rules| && rules[l].exclusion && Stray(rules[l].text) && Touches(engine, rules[l], path)
    && forall m :: l < m < |rules| && !rules[m].exclusion ==> !Touches(engine, rules[m], path)
  }

  /** Exactly when pruning is wrong, for all rules: when a stray exception has the last word on something below. */
  lemma PruningExact(engine: Engine, rules: seq<Pattern>, d: string)
    requires CompiledRules(rules) && Excluded(engine, rules, d) && !MayIncludeBelow(rules, d)
    ensures !AllBelowExcluded(engine, rules, d)
      <==> exists l: nat, path :: d + "/" <= path && StrayDecides(engine, rules, l, path)
  {
    if l: nat, path :| d + "/" <= path && StrayDecides(engine, rules, l, path) {
      assert !Excluded(engine, rules, path);
    }
    if path :| d + "/" <= path && !Excluded(engine, rules, path) {
      var l := WrongWord(engine, rules, d, path);
    }
  }

  lemma WrongWord(engine: Engine, rules: seq<Pattern>, d: string, path: string) returns (l: nat)
    requires CompiledRules(rules) && Excluded(engine, rules, d) && !MayIncludeBelow(rules, d)
    requires d + "/" <= path && !Excluded(engine, rules, path)
    ensures StrayDecides(engine, rules, l, path)
  {
    var k :| 0 <= k < |rules| && Touches(engine, rules[k], d) && !rules[k].exclusion
      && forall m :: k < m < |rules| ==> !Touches(engine, rules[m], d);
    TouchesBelow(engine, rules[k], d, path);
    l := LastTouching(engine, rules, k, path);
    if !Stray(rules[l].text) {
      ExceptionReaches(engine, rules, l, d, path);
    }
  }

  lemma {:induction false} LastTouching(engine: Engine, rules: seq<Pattern>, k: nat, path: string) returns (l: nat)
    requires k < |rules| && Touches(engine, rules[k], path) && !Excluded(engine, rules, path)
    ensures k <= l < |rules| && rules[l].exclusion && Touches(engine, rules[l], path)
    ensures forall m :: l < m < |rules| ==> !Touches(engine, rules[m], path)
    decreases |rules| - k
  {
    if m :| k < m < |rules| && Touches(engine, rules[m], path) {
      l := LastTouching(engine, rules, m, path);
    } else {
      l := k;
    }
  }

  /**
    Exactly which exception defeats pruning: added to rules that prune a
    directory rightly, one has it pruned wrongly if and only if it is an
    expression that starts with `^` and reaches below the directory.
  */
  lemma ExceptionExact(engine: Engine, rules: seq<Pattern>, exception: Pattern, d: string)
    requires CompiledRules(rules) && Compiled(exception) && exception.exclusion && (d == "" || d[0] != '^')
    requires Excluded(engine, rules, d) && !MayIncludeBelow(rules, d) && AllBelowExcluded(engine, rules, d)
    ensures PrunedWrongly(engine, rules + [exception], d) <==> Anchored(exception.text) && ReachesBelow(engine, exception, d)
  {
    var more := rules + [exception];
    ExceptionAdded(engine, rules, exception, d);
    forall path | d + "/" <= path ensures Excluded(engine, more, path) <==> !Touches(engine, exception, path) {
      ExceptionAdded(engine, rules, exception, path);
    }
    if Anchored(exception.text) {
      AnchoredOverlooks(rules, exception, d);
    } else if ReachesBelow(engine, exception, d) {
      var path :| d + "/" <= path && Touches(engine, exception, path);
      assert more[|rules|] == exception;
      ExceptionReaches(engine, more, |rules|, d, path);
    }
  }

  /** An exception at the end takes back exactly what it touches. */
  lemma ExceptionAdded(engine: Engine, rules: seq<Pattern>, exception: Pattern, path: string)
    requires exception.exclusion
    ensures Excluded(engine, rules + [exception], path) <==> Excluded(engine, rules, path) && !Touches(engine, exception, path)
  {
    var more := rules + [exception];
    ExcludedStep(engine, more, |rules|, path);
    assert more[..|rules|] == rules && more[..|rules| + 1] == more;
  }

  /** An anchored exception never makes the walk look below a directory that no `^` starts. */
  lemma AnchoredOverlooks(rules: seq<Pattern>, exception: Pattern, d: string)
    requires Anchored(exception.text) && exception.exclusion && (d == "" || d[0] != '^') && !MayIncludeBelow(rules, d)
    ensures !MayIncludeBelow(rules + [exception], d)
  {
    var more, dir := rules + [exception], TrimSlashes(d) + "/";
    TrimPrefix(d);
    AnchoredPrefix(exception.text);
    assert dir[0] != '^';
    forall k | 0 <= k < |more| && more[k].exclusion
      ensures !(dir <= LiteralPrefix(more[k].text) || LiteralPrefix(more[k].text) <= dir)
    {
      assert more[k] == if k < |rules| then rules[k] else exception;
    }
  }

  // For every directory there is such an exception: with the rules `d` and
  // `!^d/*` the path `d/name` is included, whatever the name, and still
  // nothing is said to be included below the excluded `d`.
  lemma AnchoredExceptionIsPruned(engine: Engine, d: string, name: string)
    requires d != "" && d[|d| - 1] != '/' && Plain(d, 0, |d|) && '^' !in d && '/' !in name
    ensures var exception := Pattern(['^'] + d + "/*", true, KindOf(['^'] + d + "/*"));
      var rules := [Pattern(d, false, KindOf(d))] + [exception];
      && CompiledRules(rules) && Excluded(engine, rules, d) && !MayIncludeBelow(rules, d)
      && !Excluded(engine, rules, d + "/" + name)
  {
    var text := ['^'] + d + "/*";
    var exception, rules, path, n := Pattern(text, true, KindOf(text)), [Pattern(d, false, KindOf(d))], d + "/" + name, |d| + 2;
    assert text[n - 1] == '/' && text[n] == '*' && |text| == n + 1;
    assert forall k :: 1 <= k <= |d| ==> text[k] == d[k - 1];
    assert Plain(text, 0, n);
    AnchoredMatch(engine, text, n, path);
    assert path[..n - 1] == text[1..n];
    assert Touches(engine, exception, path);
    assert !Touches(engine, exception, d) by {
      AnchoredMatch(engine, text, n, d);
      forall i | 0 <= i < |d| ensures !Matches(engine, exception, d[..i]) { AnchoredMatch(engine, text, n, d[..i]); }
    }
    assert rules[0].kind.Exact? && Touches(engine, rules[0], d);
    ExceptionAdded(engine, rules, exception, d);
    ExceptionAdded(engine, rules, exception, path);
    AnchoredOverlooks(rules, exception, d);
  }

  /** What `^text*` matches: the text and a run without a `/`. */
  lemma AnchoredMatch(engine: Engine, text: string, n: nat, path: string)
    requires 1 < n && |text| == n + 1 && Plain(text, 0, n) && text[0] == '^' && text[n] == '*' && '^' !in text[1..n]
    ensures KindOf(text) == Expression(Translate(text))
    ensures Match(engine, Translate(text), path, 0) <==>
      n - 1 <= |path| && path[..n - 1] == text[1..n] && '/' !in path[n - 1..]
  {
    assert text[1..n][0] == text[1];
    assert Translate(text)[1..] == Translate(text, 1);
    assert FirstSpecial(text) == n;
    MatchPlain(engine, text, 1, n, path, 0);
    assert Translate(text, n + 1) == [] && Translate(text, n) == [AnyRun];
    if n - 1 <= |path| {
      assert path[0..n - 1] == path[..n - 1];
      MatchRun(engine, path, n - 1);
    }
  }

  lemma {:induction false} MatchRun(engine: Engine, path: string, i: nat)
    requires i <= |path|
    ensures Match(engine, [AnyRun], path, i) <==> '/' !in path[i..]
    decreases |path| - i
  {
    assert [AnyRun][1..] == [];
    if i < |path| {
      assert path[i..] == [path[i]] + path[i + 1..];
      MatchRun(engine, path, i + 1);
    }
  }
}
