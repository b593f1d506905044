/**
  Variables and quotes in build instructions
  (`crates/rustlet-build/src/expand.rs`): what the lexer computes, against
  templates with an eager evaluation.
*/
module Expand {
  import opened Common
  import opened ParameterExpansion

  /** One character of the result; `splits`: whitespace here would separate words. */
  datatype Piece = Piece(ch: char, splits: bool)

  datatype ExpandError =
    | MissingBrace
    | UnterminatedSingleQuote
    | UnterminatedDoubleQuote
    | NestingTooDeep
    | BadSubstitution
    | UnsupportedModifier
    | Required(name: string, message: string, wasSet: bool)

  /** What expansion is given: variables, the escape character, and what counts as whitespace. */
  datatype Environment = Environment(lookup: string -> Option<string>, escape: char, isWhitespace: char -> bool)

  const MAX_EXPANSION_DEPTH: nat := 64

  predicate IsNameStart(c: char) { 'a' <= c <= 'z' || 'A' <= c <= 'Z' || c == '_' }

  predicate IsNameChar(c: char) { IsNameStart(c) || '0' <= c <= '9' }

  function OperatorOf(c: char): Option<Operator> {
    if c == '-' then Some(Default) else if c == '+' then Some(Alternate) else if c == '?' then Some(Require) else None
  }

  function Quote(s: string): seq<Piece> { seq(|s|, i requires 0 <= i < |s| => Piece(s[i], false)) }

  function Unquoted(s: string): seq<Piece> { seq(|s|, i requires 0 <= i < |s| => Piece(s[i], true)) }

  function Characters(pieces: seq<Piece>): string { seq(|pieces|, i requires 0 <= i < |pieces| => pieces[i].ch) }

  function ValueOr(value: Option<string>): string { if value.Some? then value.value else "" }

  // ------------------------------------------------------------- the lexer

  /** Reading a part of a text: pieces and what is left of the text, or an error. */
  datatype Reading = Done(pieces: seq<Piece>, rest: string) | Failed(error: ExpandError)

  function Prepend(pieces: seq<Piece>, reading: Reading): Reading {
    match reading
    case Done(more, rest) => Done(pieces + more, rest)
    case Failed(_) => reading
  }

  function Requoted(reading: Reading): Reading {
    match reading
    case Done(pieces, rest) => Done(Quote(Characters(pieces)), rest)
    case Failed(_) => reading
  }

  /** The longest prefix of name characters. */
  function NameOf(s: string): (name: string)
    ensures name <= s
  {
    if s == "" || !IsNameChar(s[0]) then "" else [s[0]] + NameOf(s[1..])
  }

  /** The operators do what the table says, with a word that is processed in any case. */
  lemma ApplyIsTable(name: string, value: Option<string>, colon: bool, op: Operator, word: seq<Piece>)
    ensures Apply(name, value, colon, op, word) ==
      match Table(op, colon, StateOf(value))
      case UseParameter => Ok(Unquoted(ValueOr(value)))
      case UseWord => Ok(word)
      case UseNull => Ok([])
      case Fail => Err(Required(name, Characters(word), value.Some?))
  {
    assert Unquoted("") == [];
  }

  /** The value of `${name<op>word}`, its word already processed. */
  function Apply(name: string, value: Option<string>, colon: bool, op: Operator, word: seq<Piece>): Result<seq<Piece>, ExpandError> {
    var unset := value.None? || (colon && value.value == "");
    match op
    case Default => Ok(if unset then word else Unquoted(value.value))
    case Alternate => Ok(if unset then [] else word)
    case Require => if unset then Err(Required(name, Characters(word), value.Some?)) else Ok(Unquoted(value.value))
  }

  /** Text up to a `}` when `stop`, or to its end. */
  function Until(env: Environment, s: string, depth: nat, stop: bool): (r: Reading)
    ensures r.Done? ==> |r.rest| <= |s|
    decreases |s|, 1
  {
    if s == "" then (if stop then Failed(MissingBrace) else Done([], ""))
    else if stop && s[0] == '}' then Done([], s[1..])
    else
      match One(env, s, depth)
      case Failed(e) => Failed(e)
      case Done(pieces, rest) => Prepend(pieces, Until(env, rest, depth, stop))
  }

  /** One element outside quotes. */
  function One(env: Environment, s: string, depth: nat): (r: Reading)
    requires s != ""
    ensures r.Done? ==> |r.rest| < |s|
    decreases |s|, 0
  {
    var c := s[0];
    if c == '\'' then SingleQuoted(s[1..])
    else if c == '"' then DoubleQuoted(env, s[1..], depth)
    else if c == '$' then Dollar(env, s[1..], depth)
    else if c == env.escape then (if |s| == 1 then Done([], "") else Done([Piece(s[1], false)], s[2..]))
    else Done([Piece(c, true)], s[1..])
  }

  /** After a `'`. */
  function SingleQuoted(s: string): (r: Reading)
    ensures r.Done? ==> |r.rest| < |s|
  {
    if s == "" then Failed(UnterminatedSingleQuote)
    else if s[0] == '\'' then Done([], s[1..])
    else Prepend([Piece(s[0], false)], SingleQuoted(s[1..]))
  }

  predicate Escapable(env: Environment, c: char) { c == '"' || c == '$' || c == '\n' || c == env.escape }

  /** After a `"`. */
  function DoubleQuoted(env: Environment, s: string, depth: nat): (r: Reading)
    ensures r.Done? ==> |r.rest| < |s|
    decreases |s|, 1
  {
    if s == "" then Failed(UnterminatedDoubleQuote)
    else if s[0] == '"' then Done([], s[1..])
    else if s[0] == '$' then
      match Requoted(Dollar(env, s[1..], depth))
      case Failed(e) => Failed(e)
      case Done(pieces, rest) => Prepend(pieces, DoubleQuoted(env, rest, depth))
    else if s[0] == env.escape && |s| > 1 && Escapable(env, s[1]) then
      Prepend([Piece(s[1], false)], DoubleQuoted(env, s[2..], depth))
    else Prepend([Piece(s[0], false)], DoubleQuoted(env, s[1..], depth))
  }

  /** After a `$`. */
  function Dollar(env: Environment, s: string, depth: nat): (r: Reading)
    ensures r.Done? ==> |r.rest| <= |s|
    decreases |s|, 1
  {
    if s != "" && s[0] == '{' then
      if depth == MAX_EXPANSION_DEPTH then Failed(NestingTooDeep) else Braced(env, s[1..], depth + 1)
    else if s != "" && IsNameStart(s[0]) then
      Done(Unquoted(ValueOr(env.lookup(NameOf(s)))), s[|NameOf(s)|..])
    else Done([Piece('$', false)], s)
  }

  /** After a `${`. */
  function Braced(env: Environment, s: string, depth: nat): (r: Reading)
    ensures r.Done? ==> |r.rest| <= |s|
    decreases |s|, 1
  {
    if s == "" then Failed(MissingBrace)
    else if !IsNameStart(s[0]) then Failed(BadSubstitution)
    else
      var name := NameOf(s);
      var value := env.lookup(name);
      var tail := s[|name|..];
      if tail == "" then Failed(MissingBrace)
      else if tail[0] == '}' then Done(Unquoted(ValueOr(value)), tail[1..])
      else Modifier(env, name, value, tail, depth)
  }

  /** After a `${name` that does not end there: the operator and its word, which is read whether it is used or not. */
  function Modifier(env: Environment, name: string, value: Option<string>, tail: string, depth: nat): (r: Reading)
    requires tail != ""
    ensures r.Done? ==> |r.rest| <= |tail|
    decreases |tail|, 0
  {
    var colon := tail[0] == ':';
    var after := if colon then tail[1..] else tail;
    if after == "" then Failed(MissingBrace)
    else match OperatorOf(after[0])
      case None => Failed(UnsupportedModifier)
      case Some(op) =>
        match Until(env, after[1..], depth, true)
        case Failed(e) => Failed(e)
        case Done(word, rest) =>
          match Apply(name, value, colon, op, word)
          case Ok(pieces) => Done(pieces, rest)
          case Err(e) => Failed(e)
  }

  // -------------------------------------------------------------- templates

  /** A template: what a text means, part by part. */
  datatype Part =
    | Character(c: char)
    | Escape(c: char)                  // the escape character, then `c`
    | LoneEscape                       // the escape character where it escapes nothing
    | Single(text: string)             // 'text'
    | Double(parts: seq<Part>)         // "parts"
    | LoneDollar                       // a `$` that begins no variable
    | Variable(name: string)           // $name
    | Braces(name: string)             // ${name}
    | Modified(name: string, colon: bool, op: Operator, word: seq<Part>)  // ${name:-word} and the others

  function Symbol(op: Operator): char {
    match op case Default => '-' case Alternate => '+' case Require => '?'
  }

  /** The text of a template, and then `k`. */
  function Print(e: char, parts: seq<Part>, k: string): string
    decreases parts, 0
  {
    if parts == [] then k else PrintPart(e, parts[0], Print(e, parts[1..], k))
  }

  function PrintPart(e: char, part: Part, k: string): string
    decreases part, 1
  {
    match part
    case Character(c) => [c] + k
    case Escape(c) => [e] + ([c] + k)
    case LoneEscape => [e] + k
    case Single(text) => ['\''] + (text + (['\''] + k))
    case Double(parts) => ['"'] + Print(e, parts, ['"'] + k)
    case LoneDollar => ['$'] + k
    case Variable(name) => ['$'] + (name + k)
    case Braces(name) => ['$'] + (['{'] + (name + (['}'] + k)))
    case Modified(name, colon, op, word) =>
      ['$'] + (['{'] + (name + PrintModifier(colon, op, Print(e, word, ['}'] + k))))
  }

  function PrintModifier(colon: bool, op: Operator, k: string): string {
    if colon then [':'] + ([Symbol(op)] + k) else [Symbol(op)] + k
  }

  predicate IsName(name: string) {
    name != "" && IsNameStart(name[0]) && forall i :: 0 <= i < |name| ==> IsNameChar(name[i])
  }

  /** Where a template stands: in double quotes, in the word of a `${…}`, or neither. */
  datatype Place = Open | InWord | InQuotes

  /** Each part is what its text will be read as, given what follows (`k`). */
  ghost predicate WellFormed(env: Environment, place: Place, parts: seq<Part>, k: string)
    decreases parts, 0
  {
    parts == [] ||
    (WellFormedPart(env, place, parts[0], Print(env.escape, parts[1..], k)) && WellFormed(env, place, parts[1..], k))
  }

  ghost predicate WellFormedPart(env: Environment, place: Place, part: Part, k: string)
    decreases part, 1
  {
    match part
    case Character(c) =>
      c != '"' && c != '$' && c != env.escape && (place != InQuotes ==> c != '\'') && (place == InWord ==> c != '}')
    case Escape(c) => place == InQuotes ==> Escapable(env, c)
    case LoneEscape => if place == InQuotes then k != "" && !Escapable(env, k[0]) else k == ""
    case Single(text) => place != InQuotes && '\'' !in text
    case Double(parts) => place != InQuotes && WellFormed(env, InQuotes, parts, ['"'] + k)
    case LoneDollar => k == "" || (k[0] != '{' && !IsNameStart(k[0]))
    case Variable(name) => IsName(name) && (k == "" || !IsNameChar(k[0]))
    case Braces(name) => IsName(name)
    case Modified(name, _, _, word) => IsName(name) && WellFormed(env, InWord, word, ['}'] + k)
  }

  /** How deep the `${…}` of a template nest. */
  function Depth(parts: seq<Part>): nat
    decreases parts, 0
  {
    if parts == [] then 0
    else
      var here, there := PartDepth(parts[0]), Depth(parts[1..]);
      if here < there then there else here
  }

  function PartDepth(part: Part): nat
    decreases part, 1
  {
    match part
    case Double(parts) => Depth(parts)
    case Braces(_) => 1
    case Modified(_, _, _, word) => 1 + Depth(word)
    case _ => 0
  }

  /** The eager value of a template: every word is evaluated, used or not; the first failure is the answer. */
  function Eval(env: Environment, quoted: bool, parts: seq<Part>): Result<seq<Piece>, ExpandError>
    decreases parts, 0
  {
    if parts == [] then Ok([])
    else
      match EvalPart(env, quoted, parts[0])
      case Err(e) => Err(e)
      case Ok(pieces) =>
        match Eval(env, quoted, parts[1..])
        case Err(e) => Err(e)
        case Ok(more) => Ok(pieces + more)
  }

  function EvalPart(env: Environment, quoted: bool, part: Part): Result<seq<Piece>, ExpandError>
    decreases part, 1
  {
    match part
    case Character(c) => Ok([Piece(c, !quoted)])
    case Escape(c) => Ok([Piece(c, false)])
    case LoneEscape => Ok(if quoted then [Piece(env.escape, false)] else [])
    case Single(text) => Ok(Quote(text))
    case Double(parts) => Eval(env, true, parts)
    case LoneDollar => Ok([Piece('$', false)])
    case _ =>
      match EvalVariable(env, part)
      case Err(e) => Err(e)
      case Ok(pieces) => Ok(if quoted then Quote(Characters(pieces)) else pieces)
  }

  /** A variable's pieces, before any quotes around it. */
  function EvalVariable(env: Environment, part: Part): Result<seq<Piece>, ExpandError>
    requires part.Variable? || part.Braces? || part.Modified?
    decreases part, 0
  {
    match part
    case Modified(name, colon, op, word) =>
      (match Eval(env, false, word)
       case Err(e) => Err(e)
       case Ok(pieces) => Apply(name, env.lookup(name), colon, op, pieces))
    case _ => Ok(Unquoted(ValueOr(env.lookup(part.name))))
  }

  // ------------------------------------------------------------ correctness

  /** An evaluation, followed by the reading of what comes after it. */
  function Then(value: Result<seq<Piece>, ExpandError>, after: Reading): Reading {
    match value
    case Err(e) => Failed(e)
    case Ok(pieces) => Prepend(pieces, after)
  }

  lemma PrependTwice(a: seq<Piece>, b: seq<Piece>, r: Reading)
    ensures Prepend(a, Prepend(b, r)) == Prepend(a + b, r)
  {
    if r.Done? { assert a + (b + r.pieces) == a + b + r.pieces; }
  }

  lemma PrependNothing(r: Reading)
    ensures Prepend([], r) == r
  {
    if r.Done? { assert [] + r.pieces == r.pieces; }
  }

  /** A name is read whole when nothing that continues it follows. */
  lemma {:induction false} NameOfName(name: string, k: string)
    requires forall i :: 0 <= i < |name| ==> IsNameChar(name[i])
    requires k == "" || !IsNameChar(k[0])
    ensures NameOf(name + k) == name && (name + k)[|name|..] == k
  {
    if name == "" {
      assert name + k == k;
    } else {
      assert (name + k)[1..] == name[1..] + k;
      NameOfName(name[1..], k);
    }
  }

  lemma {:induction false} SingleText(text: string, k: string)
    requires '\'' !in text
    ensures SingleQuoted(text + (['\''] + k)) == Done(Quote(text), k)
  {
    var s := text + (['\''] + k);
    if text == "" {
      assert s == ['\''] + k;
      assert s[1..] == k;
    } else {
      assert s[0] == text[0] && s[1..] == text[1..] + (['\''] + k);
      SingleText(text[1..], k);
      assert Quote(text) == [Piece(text[0], false)] + Quote(text[1..]);
    }
  }

  /** The escape characters a Containerfile can choose. */
  predicate UsualEscape(env: Environment) { env.escape == '\\' || env.escape == '`' }

  function Read(value: Result<seq<Piece>, ExpandError>, k: string): Reading {
    match value
    case Err(e) => Failed(e)
    case Ok(pieces) => Done(pieces, k)
  }

  lemma {:induction false} BracedModified(env: Environment, part: Part, k: string, depth: nat)
    requires UsualEscape(env) && part.Modified? && IsName(part.name) && 0 < depth
    requires WellFormed(env, InWord, part.word, ['}'] + k) && depth + Depth(part.word) <= MAX_EXPANSION_DEPTH
    ensures Braced(env, part.name + PrintModifier(part.colon, part.op, Print(env.escape, part.word, ['}'] + k)), depth)
      == Read(EvalVariable(env, part), k)
    decreases part, 0
  {
    var text := Print(env.escape, part.word, ['}'] + k);
    UntilPrinted(env, InWord, part.word, ['}'] + k, depth);
    WordRead(env, text, Eval(env, false, part.word), k, depth);
    BracedModifier(env, part.name, part.colon, part.op, text, depth);
  }

  /** A word that is read up to its brace. */
  lemma WordRead(env: Environment, text: string, value: Result<seq<Piece>, ExpandError>, k: string, depth: nat)
    requires Until(env, text, depth, true) == Then(value, Until(env, ['}'] + k, depth, true))
    ensures Until(env, text, depth, true) == Read(value, k)
  {
    assert (['}'] + k)[1..] == k && Until(env, ['}'] + k, depth, true) == Done([], k);
    if value.Ok? {
      assert value.value + [] == value.value;
    }
  }

  /** A name and an operator before a word. */
  lemma BracedModifier(env: Environment, name: string, colon: bool, op: Operator, text: string, depth: nat)
    requires IsName(name)
    ensures Braced(env, name + PrintModifier(colon, op, text), depth) ==
      match Until(env, text, depth, true)
      case Failed(e) => Failed(e)
      case Done(word, rest) => Read(Apply(name, env.lookup(name), colon, op, word), rest)
  {
    var tail := PrintModifier(colon, op, text);
    NameOfName(name, tail);
    assert (name + tail)[0] == name[0];
    var after := if colon then tail[1..] else tail;
    assert after == [Symbol(op)] + text && after[1..] == text;
  }

  lemma DollarName(env: Environment, name: string, k: string, depth: nat)
    requires IsName(name) && (k == "" || !IsNameChar(k[0]))
    ensures Dollar(env, name + k, depth) == Done(Unquoted(ValueOr(env.lookup(name))), k)
  {
    assert (name + k)[0] == name[0];
    NameOfName(name, k);
  }

  lemma DollarBraces(env: Environment, name: string, k: string, depth: nat)
    requires IsName(name) && depth < MAX_EXPANSION_DEPTH
    ensures Dollar(env, ['{'] + (name + (['}'] + k)), depth) == Done(Unquoted(ValueOr(env.lookup(name))), k)
  {
    var s := name + (['}'] + k);
    assert (['{'] + s)[1..] == s && s[0] == name[0];
    NameOfName(name, ['}'] + k);
    assert (['}'] + k)[1..] == k;
  }

  lemma {:induction false} DollarPrinted(env: Environment, part: Part, k: string, depth: nat)
    requires UsualEscape(env) && (part.Variable? || part.Braces? || part.Modified?)
    requires WellFormedPart(env, Open, part, k) && depth + PartDepth(part) <= MAX_EXPANSION_DEPTH
    ensures PrintPart(env.escape, part, k)[0] == '$'
    ensures Dollar(env, PrintPart(env.escape, part, k)[1..], depth) == Read(EvalVariable(env, part), k)
    decreases part, 1
  {
    var s := PrintPart(env.escape, part, k)[1..];
    match part
    case Variable(name) =>
      assert s == name + k;
      DollarName(env, name, k, depth);
    case Braces(name) =>
      assert s == ['{'] + (name + (['}'] + k));
      DollarBraces(env, name, k, depth);
    case Modified(name, colon, op, word) =>
      assert s[1..] == name + PrintModifier(colon, op, Print(env.escape, word, ['}'] + k));
      BracedModified(env, part, k, depth + 1);
    case _ =>
  }

  /** Outside quotes, the text of a part is read as the part. */
  lemma {:induction false} OnePrinted(env: Environment, place: Place, part: Part, k: string, depth: nat)
    requires UsualEscape(env) && place != InQuotes
    requires WellFormedPart(env, place, part, k) && depth + PartDepth(part) <= MAX_EXPANSION_DEPTH
    ensures PrintPart(env.escape, part, k) != "" && (place == InWord ==> PrintPart(env.escape, part, k)[0] != '}')
    ensures One(env, PrintPart(env.escape, part, k), depth) == Read(EvalPart(env, false, part), k)
    decreases part, 2
  {
    match part
    case Double(parts) =>
      QuotedPrinted(env, parts, ['"'] + k, depth);
      DoubleRead(env, Print(env.escape, parts, ['"'] + k), Eval(env, true, parts), k, depth);
    case Variable(_) => DollarPrinted(env, part, k, depth);
    case Braces(_) => DollarPrinted(env, part, k, depth);
    case Modified(_, _, _, _) => DollarPrinted(env, part, k, depth);
    case _ => SimplePrinted(env, place, part, k, depth);
  }

  lemma DoubleRead(env: Environment, inside: string, value: Result<seq<Piece>, ExpandError>, k: string, depth: nat)
    requires UsualEscape(env) && DoubleQuoted(env, inside, depth) == Then(value, DoubleQuoted(env, ['"'] + k, depth))
    ensures One(env, ['"'] + inside, depth) == Read(value, k)
  {
    assert (['"'] + inside)[1..] == inside && (['"'] + k)[1..] == k;
    if value.Ok? {
      assert value.value + [] == value.value;
    }
  }

  lemma SimplePrinted(env: Environment, place: Place, part: Part, k: string, depth: nat)
    requires UsualEscape(env) && place != InQuotes && WellFormedPart(env, place, part, k)
    requires part.Character? || part.Escape? || part.LoneEscape? || part.Single? || part.LoneDollar?
    ensures PrintPart(env.escape, part, k) != "" && (place == InWord ==> PrintPart(env.escape, part, k)[0] != '}')
    ensures One(env, PrintPart(env.escape, part, k), depth) == Read(EvalPart(env, false, part), k)
  {
    var s := PrintPart(env.escape, part, k);
    if part.Escape? {
      assert s[1] == part.c && s[2..] == k;
    } else if part.LoneEscape? {
      assert s == [env.escape];
    } else if part.Single? {
      assert s[1..] == part.text + (['\''] + k);
      SingleText(part.text, k);
    } else {
      assert s[1..] == k;
    }
  }

  lemma {:induction false} UntilPrinted(env: Environment, place: Place, parts: seq<Part>, k: string, depth: nat)
    requires UsualEscape(env) && place != InQuotes
    requires WellFormed(env, place, parts, k) && depth + Depth(parts) <= MAX_EXPANSION_DEPTH
    ensures Until(env, Print(env.escape, parts, k), depth, place == InWord)
      == Then(Eval(env, false, parts), Until(env, k, depth, place == InWord))
    decreases parts, 0
  {
    var after := Until(env, k, depth, place == InWord);
    if parts == [] {
      PrependNothing(after);
    } else {
      var rest := Print(env.escape, parts[1..], k);
      OnePrinted(env, place, parts[0], rest, depth);
      UntilPrinted(env, place, parts[1..], k, depth);
      var one, more := EvalPart(env, false, parts[0]), Eval(env, false, parts[1..]);
      if one.Ok? && more.Ok? {
        PrependTwice(one.value, more.value, after);
      }
    }
  }

  /** In double quotes, the text of a part is read as the part. */
  lemma {:induction false} QuotedPrinted(env: Environment, parts: seq<Part>, k: string, depth: nat)
    requires UsualEscape(env)
    requires WellFormed(env, InQuotes, parts, k) && depth + Depth(parts) <= MAX_EXPANSION_DEPTH
    ensures DoubleQuoted(env, Print(env.escape, parts, k), depth) == Then(Eval(env, true, parts), DoubleQuoted(env, k, depth))
    decreases parts, 0
  {
    var after := DoubleQuoted(env, k, depth);
    if parts == [] {
      PrependNothing(after);
    } else {
      var rest := Print(env.escape, parts[1..], k);
      QuotedPartPrinted(env, parts[0], rest, depth);
      QuotedPrinted(env, parts[1..], k, depth);
      var one, more := EvalPart(env, true, parts[0]), Eval(env, true, parts[1..]);
      if one.Ok? && more.Ok? {
        PrependTwice(one.value, more.value, after);
      }
    }
  }

  lemma {:induction false} QuotedPartPrinted(env: Environment, part: Part, k: string, depth: nat)
    requires UsualEscape(env)
    requires WellFormedPart(env, InQuotes, part, k) && depth + PartDepth(part) <= MAX_EXPANSION_DEPTH
    ensures DoubleQuoted(env, PrintPart(env.escape, part, k), depth)
      == Then(EvalPart(env, true, part), DoubleQuoted(env, k, depth))
    decreases part, 2
  {
    var s := PrintPart(env.escape, part, k);
    match part
    case Character(c) => assert s[1..] == k;
    case Escape(c) => assert s[1] == c && s[2..] == k;
    case LoneEscape => assert s[1] == k[0] && s[1..] == k;
    case LoneDollar =>
      assert s[1..] == k;
      assert Quote(Characters([Piece('$', false)])) == [Piece('$', false)];
    case Variable(_) => DollarPrinted(env, part, k, depth);
    case Braces(_) => DollarPrinted(env, part, k, depth);
    case Modified(_, _, _, _) => DollarPrinted(env, part, k, depth);
  }

  // ------------------------------------------------------------ too deep

  lemma {:induction false} DeepWord(env: Environment, part: Part, k: string, depth: nat)
    requires UsualEscape(env) && part.Modified? && IsName(part.name) && WellFormed(env, InWord, part.word, ['}'] + k)
    requires 0 < depth <= MAX_EXPANSION_DEPTH < depth + Depth(part.word)
    ensures Braced(env, part.name + PrintModifier(part.colon, part.op, Print(env.escape, part.word, ['}'] + k)), depth).Failed?
    decreases part, 0
  {
    var text := Print(env.escape, part.word, ['}'] + k);
    var tail := PrintModifier(part.colon, part.op, text);
    NameOfName(part.name, tail);
    assert (part.name + tail)[0] == part.name[0];
    var after := if part.colon then tail[1..] else tail;
    assert after == [Symbol(part.op)] + text && after[1..] == text;
    DeepUntil(env, InWord, part.word, ['}'] + k, depth);
  }

  lemma {:induction false} DeepDollar(env: Environment, part: Part, k: string, depth: nat)
    requires UsualEscape(env) && (part.Braces? || part.Modified?) && WellFormedPart(env, Open, part, k)
    requires depth <= MAX_EXPANSION_DEPTH < depth + PartDepth(part)
    ensures PrintPart(env.escape, part, k)[0] == '$'
    ensures Dollar(env, PrintPart(env.escape, part, k)[1..], depth).Failed?
    decreases part, 1
  {
    var s := PrintPart(env.escape, part, k)[1..];
    if depth < MAX_EXPANSION_DEPTH {
      assert s[1..] == part.name + PrintModifier(part.colon, part.op, Print(env.escape, part.word, ['}'] + k));
      DeepWord(env, part, k, depth + 1);
    }
  }

  lemma {:induction false} DeepOne(env: Environment, place: Place, part: Part, k: string, depth: nat)
    requires UsualEscape(env) && place != InQuotes && WellFormedPart(env, place, part, k)
    requires depth <= MAX_EXPANSION_DEPTH < depth + PartDepth(part)
    ensures PrintPart(env.escape, part, k) != "" && (place == InWord ==> PrintPart(env.escape, part, k)[0] != '}')
    ensures One(env, PrintPart(env.escape, part, k), depth).Failed?
    decreases part, 2
  {
    if part.Double? {
      assert PrintPart(env.escape, part, k)[1..] == Print(env.escape, part.parts, ['"'] + k);
      DeepQuoted(env, part.parts, ['"'] + k, depth);
    } else {
      DeepDollar(env, part, k, depth);
    }
  }

  /** Nesting beyond the limit is refused, whatever the variables are. */
  lemma {:induction false} DeepUntil(env: Environment, place: Place, parts: seq<Part>, k: string, depth: nat)
    requires UsualEscape(env) && place != InQuotes && WellFormed(env, place, parts, k)
    requires depth <= MAX_EXPANSION_DEPTH < depth + Depth(parts)
    ensures Until(env, Print(env.escape, parts, k), depth, place == InWord).Failed?
    decreases parts, 0
  {
    var rest := Print(env.escape, parts[1..], k);
    if MAX_EXPANSION_DEPTH < depth + PartDepth(parts[0]) {
      DeepOne(env, place, parts[0], rest, depth);
    } else {
      OnePrinted(env, place, parts[0], rest, depth);
      DeepUntil(env, place, parts[1..], k, depth);
    }
  }

  lemma {:induction false} DeepQuoted(env: Environment, parts: seq<Part>, k: string, depth: nat)
    requires UsualEscape(env) && WellFormed(env, InQuotes, parts, k)
    requires depth <= MAX_EXPANSION_DEPTH < depth + Depth(parts)
    ensures DoubleQuoted(env, Print(env.escape, parts, k), depth).Failed?
    decreases parts, 0
  {
    var rest := Print(env.escape, parts[1..], k);
    if MAX_EXPANSION_DEPTH < depth + PartDepth(parts[0]) {
      DeepDollar(env, parts[0], rest, depth);
    } else {
      QuotedPartPrinted(env, parts[0], rest, depth);
      DeepQuoted(env, parts[1..], k, depth);
    }
  }

  /**
    Expansion is the evaluation of the template its text is: the same value or
    the same failure up to the nesting limit, and a failure beyond it.
  */
  lemma ExpansionIsEvaluation(env: Environment, parts: seq<Part>)
    requires UsualEscape(env) && WellFormed(env, Open, parts, "")
    ensures Depth(parts) <= 64 ==>
      Until(env, Print(env.escape, parts, ""), 0, false) == Read(Eval(env, false, parts), "")
    ensures Depth(parts) > 64 ==> Until(env, Print(env.escape, parts, ""), 0, false).Failed?
  {
    if Depth(parts) <= MAX_EXPANSION_DEPTH {
      UntilPrinted(env, Open, parts, "", 0);
      if Eval(env, false, parts).Ok? {
        var pieces := Eval(env, false, parts).value;
        assert pieces + [] == pieces;
      }
    } else {
      DeepUntil(env, Open, parts, "", 0);
    }
  }

  // --------------------------------------------- every text is a template

  lemma {:induction false} SingleIsText(s: string) returns (text: string)
    requires SingleQuoted(s).Done?
    ensures '\'' !in text && s == text + (['\''] + SingleQuoted(s).rest)
  {
    if s[0] == '\'' {
      text := "";
    } else {
      var more := SingleIsText(s[1..]);
      text := [s[0]] + more;
    }
  }

  lemma {:induction false} NameRead(s: string)
    requires s != "" && IsNameStart(s[0])
    ensures IsName(NameOf(s)) && s == NameOf(s) + s[|NameOf(s)|..]
    ensures var tail := s[|NameOf(s)|..]; tail == "" || !IsNameChar(tail[0])
  {
    NameOfRun(s);
  }

  lemma {:induction false} NameOfRun(s: string)
    ensures forall i :: 0 <= i < |NameOf(s)| ==> IsNameChar(NameOf(s)[i])
    ensures var tail := s[|NameOf(s)|..]; tail == "" || !IsNameChar(tail[0])
  {
    if s != "" && IsNameChar(s[0]) {
      NameOfRun(s[1..]);
      assert s[|NameOf(s)|..] == s[1..][|NameOf(s[1..])|..];
    }
  }

  /** What is read outside quotes is the text of a part. */
  lemma {:induction false} OneIsPart(env: Environment, place: Place, s: string, depth: nat) returns (part: Part)
    requires UsualEscape(env) && place != InQuotes && s != "" && (place == InWord ==> s[0] != '}')
    requires One(env, s, depth).Done? && depth <= MAX_EXPANSION_DEPTH
    ensures WellFormedPart(env, place, part, One(env, s, depth).rest) && depth + PartDepth(part) <= MAX_EXPANSION_DEPTH
    ensures PrintPart(env.escape, part, One(env, s, depth).rest) == s
    decreases |s|, 0
  {
    var c := s[0];
    assert s == [c] + s[1..];
    if c == '\'' {
      var text := SingleIsText(s[1..]);
      part := Single(text);
    } else if c == '"' {
      var parts := QuotedIsParts(env, s[1..], depth);
      part := Double(parts);
    } else if c == '$' {
      part := DollarIsPart(env, place, s[1..], depth);
    } else if c == env.escape {
      if |s| == 1 {
        part := LoneEscape;
      } else {
        assert s[1..] == [s[1]] + s[2..];
        part := Escape(s[1]);
      }
    } else {
      part := Character(c);
    }
  }

  lemma {:induction false} UntilIsParts(env: Environment, place: Place, s: string, depth: nat) returns (parts: seq<Part>, k: string)
    requires UsualEscape(env) && place != InQuotes
    requires Until(env, s, depth, place == InWord).Done? && depth <= MAX_EXPANSION_DEPTH
    ensures k == if place == InWord then ['}'] + Until(env, s, depth, true).rest else ""
    ensures WellFormed(env, place, parts, k) && depth + Depth(parts) <= MAX_EXPANSION_DEPTH
    ensures Print(env.escape, parts, k) == s
    decreases |s|, 1
  {
    if s == "" || (place == InWord && s[0] == '}') {
      parts, k := [], s;
      assert s != "" ==> s == [s[0]] + s[1..];
    } else {
      var rest := One(env, s, depth).rest;
      var part := OneIsPart(env, place, s, depth);
      var more;
      more, k := UntilIsParts(env, place, rest, depth);
      parts := [part] + more;
      assert parts[1..] == more;
    }
  }

  lemma {:induction false} QuotedIsParts(env: Environment, s: string, depth: nat) returns (parts: seq<Part>)
    requires UsualEscape(env) && DoubleQuoted(env, s, depth).Done? && depth <= MAX_EXPANSION_DEPTH
    ensures var k := ['"'] + DoubleQuoted(env, s, depth).rest;
      WellFormed(env, InQuotes, parts, k) && depth + Depth(parts) <= MAX_EXPANSION_DEPTH && Print(env.escape, parts, k) == s
    decreases |s|, 1
  {
    var c := s[0];
    assert s == [c] + s[1..];
    if c == '"' {
      parts := [];
    } else {
      var part, rest := QuotedIsPart(env, s, depth);
      var more := QuotedIsParts(env, rest, depth);
      parts := [part] + more;
      assert parts[1..] == more;
    }
  }

  /** What is read next in double quotes is the text of a part. */
  lemma {:induction false} QuotedIsPart(env: Environment, s: string, depth: nat) returns (part: Part, rest: string)
    requires UsualEscape(env) && s != "" && s[0] != '"'
    requires DoubleQuoted(env, s, depth).Done? && depth <= MAX_EXPANSION_DEPTH
    ensures |rest| < |s| && DoubleQuoted(env, rest, depth).Done?
    ensures DoubleQuoted(env, rest, depth).rest == DoubleQuoted(env, s, depth).rest
    ensures WellFormedPart(env, InQuotes, part, rest) && depth + PartDepth(part) <= MAX_EXPANSION_DEPTH
    ensures PrintPart(env.escape, part, rest) == s
    decreases |s|, 0
  {
    var c := s[0];
    assert s == [c] + s[1..];
    if c == '$' {
      rest := Dollar(env, s[1..], depth).rest;
      part := DollarIsPart(env, InQuotes, s[1..], depth);
    } else if c == env.escape && |s| > 1 && Escapable(env, s[1]) {
      assert s[1..] == [s[1]] + s[2..];
      part, rest := Escape(s[1]), s[2..];
    } else if c == env.escape {
      part, rest := LoneEscape, s[1..];
    } else {
      part, rest := Character(c), s[1..];
    }
  }

  lemma {:induction false} DollarIsPart(env: Environment, place: Place, s: string, depth: nat) returns (part: Part)
    requires UsualEscape(env) && Dollar(env, s, depth).Done? && depth <= MAX_EXPANSION_DEPTH
    ensures WellFormedPart(env, place, part, Dollar(env, s, depth).rest) && depth + PartDepth(part) <= MAX_EXPANSION_DEPTH
    ensures PrintPart(env.escape, part, Dollar(env, s, depth).rest) == ['$'] + s
    decreases |s|, 1
  {
    if s != "" && s[0] == '{' {
      assert s == ['{'] + s[1..];
      part := BracedIsPart(env, place, s[1..], depth + 1);
    } else if s != "" && IsNameStart(s[0]) {
      NameRead(s);
      part := Variable(NameOf(s));
    } else {
      part := LoneDollar;
    }
  }

  lemma {:induction false} BracedIsPart(env: Environment, place: Place, s: string, depth: nat) returns (part: Part)
    requires UsualEscape(env) && Braced(env, s, depth).Done? && 0 < depth <= MAX_EXPANSION_DEPTH
    ensures WellFormedPart(env, place, part, Braced(env, s, depth).rest) && depth - 1 + PartDepth(part) <= MAX_EXPANSION_DEPTH
    ensures PrintPart(env.escape, part, Braced(env, s, depth).rest) == ['$'] + (['{'] + s)
    decreases |s|, 1
  {
    NameRead(s);
    var name, tail := NameOf(s), s[|NameOf(s)|..];
    assert tail == [tail[0]] + tail[1..];
    if tail[0] == '}' {
      part := Braces(name);
    } else {
      var colon, op, word := ModifierIsWord(env, name, env.lookup(name), tail, depth);
      part := Modified(name, colon, op, word);
    }
  }

  lemma ModifierText(tail: string, colon: bool, op: Operator, word: string)
    requires tail != "" && colon == (tail[0] == ':')
    requires var after := if colon then tail[1..] else tail; after != "" && OperatorOf(after[0]) == Some(op) && word == after[1..]
    ensures PrintModifier(colon, op, word) == tail
  {
    assert colon ==> tail[1..] == [tail[1]] + tail[2..];
  }

  lemma {:induction false} ModifierIsWord(env: Environment, name: string, value: Option<string>, tail: string, depth: nat)
    returns (colon: bool, op: Operator, word: seq<Part>)
    requires UsualEscape(env) && tail != "" && Modifier(env, name, value, tail, depth).Done? && depth <= MAX_EXPANSION_DEPTH
    ensures var k := ['}'] + Modifier(env, name, value, tail, depth).rest;
      && WellFormed(env, InWord, word, k) && depth + Depth(word) <= MAX_EXPANSION_DEPTH
      && PrintModifier(colon, op, Print(env.escape, word, k)) == tail
    decreases |tail|, 0
  {
    colon := tail[0] == ':';
    var after := if colon then tail[1..] else tail;
    op := OperatorOf(after[0]).value;
    ModifierText(tail, colon, op, after[1..]);
    var k;
    word, k := UntilIsParts(env, InWord, after[1..], depth);
  }

  // ---- and the other way: with every variable set nothing is required in vain

  function AllSet(env: Environment): Environment { env.(lookup := name => Some("x")) }

  lemma {:induction false} EvalAllSet(env: Environment, quoted: bool, parts: seq<Part>)
    ensures Eval(AllSet(env), quoted, parts).Ok?
    decreases parts, 0
  {
    if parts != [] {
      EvalPartAllSet(env, quoted, parts[0]);
      EvalAllSet(env, quoted, parts[1..]);
    }
  }

  lemma {:induction false} EvalPartAllSet(env: Environment, quoted: bool, part: Part)
    ensures EvalPart(AllSet(env), quoted, part).Ok?
    decreases part, 1
  {
    match part
    case Double(parts) => EvalAllSet(env, true, parts);
    case Modified(_, _, _, word) => EvalAllSet(env, false, word);
    case _ =>
  }

  lemma {:induction false} WellFormedAllSet(env: Environment, place: Place, parts: seq<Part>, k: string)
    ensures WellFormed(AllSet(env), place, parts, k) <==> WellFormed(env, place, parts, k)
    decreases parts, 0
  {
    if parts != [] {
      WellFormedPartAllSet(env, place, parts[0], Print(env.escape, parts[1..], k));
      WellFormedAllSet(env, place, parts[1..], k);
    }
  }

  lemma {:induction false} WellFormedPartAllSet(env: Environment, place: Place, part: Part, k: string)
    ensures WellFormedPart(AllSet(env), place, part, k) <==> WellFormedPart(env, place, part, k)
    decreases part, 1
  {
    match part
    case Double(parts) => WellFormedAllSet(env, InQuotes, parts, ['"'] + k);
    case Modified(_, _, _, word) => WellFormedAllSet(env, InWord, word, ['}'] + k);
    case _ =>
  }

  /** `s` is the text of a template that nests within the limit. */
  ghost predicate IsTemplate(env: Environment, s: string) {
    exists parts ::
      WellFormed(env, Open, parts, "") && Depth(parts) <= MAX_EXPANSION_DEPTH && Print(env.escape, parts, "") == s
  }

  /**
    Templates are all there is: a text that is expanded, with whatever
    variables, is the text of one, and a text is that of one exactly if it is
    expanded with every variable set, where only its syntax can fail.
  */
  lemma TextsAreTemplates(env: Environment, s: string)
    requires UsualEscape(env)
    ensures Until(env, s, 0, false).Done? ==> IsTemplate(env, s)
    ensures IsTemplate(env, s) <==> Until(AllSet(env), s, 0, false).Done?
  {
    if Until(env, s, 0, false).Done? {
      var parts, k := UntilIsParts(env, Open, s, 0);
    }
    if Until(AllSet(env), s, 0, false).Done? {
      var parts, k := UntilIsParts(AllSet(env), Open, s, 0);
      WellFormedAllSet(env, Open, parts, "");
    }
    if parts :| WellFormed(env, Open, parts, "") && Depth(parts) <= MAX_EXPANSION_DEPTH && Print(env.escape, parts, "") == s {
      WellFormedAllSet(env, Open, parts, "");
      ExpansionIsEvaluation(AllSet(env), parts);
      EvalAllSet(env, false, parts);
    }
  }

  // ------------------------------------------------------------ the cursor

  /** `Lexer`: a cursor over the text that moves as it reads. */
  class Lexer {
    const chars: string
    const env: Environment
    var pos: nat
    var depth: nat

    ghost predicate Valid()
      reads this
    {
      pos <= |chars|
    }

    ghost function Rest(): string
      requires Valid()
      reads this
    {
      chars[pos..]
    }

    /** A method's answer is the reading, and the cursor stands where the reading stopped. */
    ghost predicate Agrees(r: Result<seq<Piece>, ExpandError>, reading: Reading)
      requires Valid()
      reads this
    {
      match r
      case Ok(pieces) => reading == Done(pieces, Rest())
      case Err(e) => reading == Failed(e)
    }

    constructor (raw: string, env: Environment)
      ensures chars == raw && this.env == env && Valid() && Rest() == raw && depth == 0
    {
      chars, this.env, pos, depth := raw, env, 0, 0;
    }

    method ReadUntil(stop: bool) returns (r: Result<seq<Piece>, ExpandError>)
      requires Valid()
      modifies this
      ensures Valid() && depth == old(depth) && old(pos) <= pos
      ensures Agrees(r, Until(env, old(Rest()), depth, stop))
      decreases |chars| - pos
    {
      var out: seq<Piece> := [];
      PrependNothing(Until(env, Rest(), depth, stop));
      while true
        invariant Valid() && depth == old(depth) && old(pos) <= pos
        invariant Until(env, old(Rest()), depth, stop) == Prepend(out, Until(env, Rest(), depth, stop))
        decreases |chars| - pos
      {
        if pos == |chars| {
          return if stop then Err(MissingBrace) else Ok(out + []);
        }
        if stop && chars[pos] == '}' {
          assert Rest()[1..] == chars[pos + 1..];
          pos := pos + 1;
          return Ok(out + []);
        }
        ghost var before := Rest();
        var one := ReadOne();
        if one.Err? { return one; }
        PrependTwice(out, one.value, Until(env, Rest(), depth, stop));
        out := out + one.value;
      }
    }

    /** One turn of the loop of `until`. */
    method ReadOne() returns (r: Result<seq<Piece>, ExpandError>)
      requires Valid() && pos < |chars|
      modifies this
      ensures Valid() && depth == old(depth) && old(pos) < pos
      ensures Agrees(r, One(env, old(Rest()), depth))
      decreases |chars| - pos, 0
    {
      var c := chars[pos];
      assert Rest()[1..] == chars[pos + 1..];
      pos := pos + 1;
      if c == '\'' {
        r := ReadSingleQuoted();
      } else if c == '"' {
        r := ReadDoubleQuoted();
      } else if c == '$' {
        r := ReadDollar();
      } else if c == env.escape {
        if pos == |chars| { return Ok([]); }
        assert old(Rest())[2..] == chars[pos + 1..];
        pos := pos + 1;
        return Ok([Piece(chars[pos - 1], false)]);
      } else {
        return Ok([Piece(c, true)]);
      }
    }

    method ReadSingleQuoted() returns (r: Result<seq<Piece>, ExpandError>)
      requires Valid()
      modifies this`pos
      ensures Valid() && old(pos) <= pos
      ensures Agrees(r, SingleQuoted(old(Rest())))
    {
      var out: seq<Piece> := [];
      PrependNothing(SingleQuoted(Rest()));
      while pos < |chars|
        invariant Valid() && old(pos) <= pos
        invariant SingleQuoted(old(Rest())) == Prepend(out, SingleQuoted(Rest()))
      {
        var c := chars[pos];
        assert Rest()[1..] == chars[pos + 1..];
        pos := pos + 1;
        if c == '\'' { return Ok(out + []); }
        PrependTwice(out, [Piece(c, false)], SingleQuoted(Rest()));
        out := out + [Piece(c, false)];
      }
      return Err(UnterminatedSingleQuote);
    }

    method ReadDoubleQuoted() returns (r: Result<seq<Piece>, ExpandError>)
      requires Valid()
      modifies this
      ensures Valid() && depth == old(depth) && old(pos) <= pos
      ensures Agrees(r, DoubleQuoted(env, old(Rest()), depth))
      decreases |chars| - pos, 1
    {
      var out: seq<Piece> := [];
      PrependNothing(DoubleQuoted(env, Rest(), depth));
      while pos < |chars|
        invariant Valid() && depth == old(depth) && old(pos) <= pos
        invariant DoubleQuoted(env, old(Rest()), depth) == Prepend(out, DoubleQuoted(env, Rest(), depth))
      {
        if chars[pos] == '"' {
          assert Rest()[1..] == chars[pos + 1..];
          pos := pos + 1;
          return Ok(out + []);
        }
        var pieces := ReadQuotedOne();
        if pieces.Err? { return pieces; }
        PrependTwice(out, pieces.value, DoubleQuoted(env, Rest(), depth));
        out := out + pieces.value;
      }
      return Err(UnterminatedDoubleQuote);
    }

    /** One turn of the loop of `double_quoted`. */
    method ReadQuotedOne() returns (r: Result<seq<Piece>, ExpandError>)
      requires Valid() && pos < |chars| && chars[pos] != '"'
      modifies this
      ensures Valid() && depth == old(depth) && old(pos) < pos
      ensures r.Err? ==> DoubleQuoted(env, old(Rest()), depth) == Failed(r.error)
      ensures r.Ok? ==> DoubleQuoted(env, old(Rest()), depth) == Prepend(r.value, DoubleQuoted(env, Rest(), depth))
      decreases |chars| - pos, 0
    {
      var c := chars[pos];
      ghost var before := Rest();
      assert before[1..] == chars[pos + 1..];
      pos := pos + 1;
      if c == '$' {
        r := ReadDollar();
        if r.Ok? {
          r := Ok(Quote(Characters(r.value)));
        }
      } else if c == env.escape && pos < |chars| && Escapable(env, chars[pos]) {
        assert before[2..] == chars[pos + 1..];
        pos := pos + 1;
        r := Ok([Piece(chars[pos - 1], false)]);
      } else {
        r := Ok([Piece(c, false)]);
      }
    }

    method ReadName() returns (name: string)
      requires Valid()
      modifies this`pos
      ensures Valid() && name == NameOf(old(Rest())) && pos == old(pos) + |name|
    {
      var start := pos;
      while pos < |chars| && IsNameChar(chars[pos])
        invariant start <= pos <= |chars|
        invariant forall i :: start <= i < pos ==> IsNameChar(chars[i])
      {
        pos := pos + 1;
      }
      name := chars[start..pos];
      assert old(Rest()) == name + chars[pos..];
      NameOfName(name, chars[pos..]);
    }

    method ReadDollar() returns (r: Result<seq<Piece>, ExpandError>)
      requires Valid()
      modifies this
      ensures Valid() && depth == old(depth) && old(pos) <= pos
      ensures Agrees(r, Dollar(env, old(Rest()), depth))
      decreases |chars| - pos, 1
    {
      if pos < |chars| && chars[pos] == '{' {
        assert Rest()[1..] == chars[pos + 1..];
        pos := pos + 1;
        if depth == MAX_EXPANSION_DEPTH { return Err(NestingTooDeep); }
        depth := depth + 1;
        r := ReadBraced();
        depth := depth - 1;
      } else if pos < |chars| && IsNameStart(chars[pos]) {
        var name := ReadName();
        assert old(Rest())[|name|..] == Rest();
        return Ok(Unquoted(ValueOr(env.lookup(name))));
      } else {
        return Ok([Piece('$', false)]);
      }
    }

    method ReadBraced() returns (r: Result<seq<Piece>, ExpandError>)
      requires Valid()
      modifies this
      ensures Valid() && depth == old(depth) && old(pos) <= pos
      ensures Agrees(r, Braced(env, old(Rest()), depth))
      decreases |chars| - pos, 2
    {
      if pos == |chars| { return Err(MissingBrace); }
      if !IsNameStart(chars[pos]) { return Err(BadSubstitution); }
      var name := ReadName();
      ghost var tail := old(Rest())[|name|..];
      assert tail == Rest();
      var value := env.lookup(name);
      if pos == |chars| { return Err(MissingBrace); }
      assert tail[1..] == chars[pos + 1..];
      if chars[pos] == '}' {
        pos := pos + 1;
        return Ok(Unquoted(ValueOr(value)));
      }
      r := ReadModifier(name, value);
    }

    /** `braced` from the operator on. */
    method ReadModifier(name: string, value: Option<string>) returns (r: Result<seq<Piece>, ExpandError>)
      requires Valid() && pos < |chars|
      modifies this
      ensures Valid() && depth == old(depth) && old(pos) <= pos
      ensures Agrees(r, Modifier(env, name, value, old(Rest()), depth))
      decreases |chars| - pos, 1
    {
      assert Rest()[1..] == chars[pos + 1..];
      var colon := chars[pos] == ':';
      if colon { pos := pos + 1; }
      if pos == |chars| { return Err(MissingBrace); }
      var op := OperatorOf(chars[pos]);
      if op.None? { return Err(UnsupportedModifier); }
      ghost var after := Rest();
      assert after[1..] == chars[pos + 1..];
      pos := pos + 1;
      var word := ReadUntil(true);
      if word.Err? { return word; }
      return Apply(name, value, colon, op.value, word.value);
    }
  }

  // ------------------------------------------------------------ word, words

  predicate Separates(env: Environment, p: Piece) { p.splits && env.isWhitespace(p.ch) }

  /** The texts between separators, empty ones included, the first of them begun already. */
  function Fields(env: Environment, pieces: seq<Piece>, begun: string := ""): seq<string> {
    if pieces == [] then [begun]
    else if Separates(env, pieces[0]) then [begun] + Fields(env, pieces[1..])
    else Fields(env, pieces[1..], begun + [pieces[0].ch])
  }

  /** The fields are the texts between the separators: one more than there are, none with a separator in it. */
  ghost predicate Split(env: Environment, pieces: seq<Piece>, fields: seq<string>)
    decreases |pieces|
  {
    exists n :: 0 <= n <= |pieces| && SplitAt(env, pieces, fields, n)
  }

  ghost predicate SplitAt(env: Environment, pieces: seq<Piece>, fields: seq<string>, n: nat)
    requires n <= |pieces|
    decreases |pieces|, 0
  {
    && (forall i :: 0 <= i < n ==> !Separates(env, pieces[i]))
    && fields != [] && fields[0] == Characters(pieces[..n])
    && if n == |pieces| then |fields| == 1
       else Separates(env, pieces[n]) && Split(env, pieces[n + 1..], fields[1..])
  }

  function NonEmpty(words: seq<string>): (r: seq<string>)
    ensures forall w :: w in r <==> w in words && w != ""
  {
    if words == [] then []
    else
      assert words == [words[0]] + words[1..];
      if words[0] == "" then NonEmpty(words[1..]) else [words[0]] + NonEmpty(words[1..])
  }

  /** What a text expands to, as one word. */
  function Expanded(env: Environment, raw: string): Result<string, ExpandError> {
    match Until(env, raw, 0, false)
    case Done(pieces, _) => Ok(Characters(pieces))
    case Failed(e) => Err(e)
  }

  /** What a text expands to, as words. */
  function ExpandedWords(env: Environment, raw: string): Result<seq<string>, ExpandError> {
    match Until(env, raw, 0, false)
    case Done(pieces, _) => Ok(NonEmpty(Fields(env, pieces)))
    case Failed(e) => Err(e)
  }

  /** `word`: the expanded text. */
  method Word(raw: string, env: Environment) returns (r: Result<string, ExpandError>)
    ensures r == Expanded(env, raw)
  {
    var lexer := new Lexer(raw, env);
    var pieces := lexer.ReadUntil(false);
    match pieces
    case Ok(value) => r := Ok(Characters(value));
    case Err(e) => r := Err(e);
  }

  lemma {:induction false} FieldsSplit(env: Environment, pieces: seq<Piece>, n: nat)
    requires n <= |pieces| && forall i :: 0 <= i < n ==> !Separates(env, pieces[i])
    ensures Split(env, pieces, Fields(env, pieces[n..], Characters(pieces[..n])))
    decreases |pieces|, |pieces| - n
  {
    var fields := Fields(env, pieces[n..], Characters(pieces[..n]));
    if n == |pieces| {
      assert SplitAt(env, pieces, fields, n);
    } else if Separates(env, pieces[n]) {
      var rest := pieces[n + 1..];
      assert pieces[n..][1..] == rest && rest[0..] == rest && Characters(rest[..0]) == "";
      FieldsSplit(env, rest, 0);
      assert fields[1..] == Fields(env, rest);
      assert SplitAt(env, pieces, fields, n);
    } else {
      assert pieces[n..][1..] == pieces[n + 1..];
      assert Characters(pieces[..n]) + [pieces[n].ch] == Characters(pieces[..n + 1]);
      FieldsSplit(env, pieces, n + 1);
    }
  }

  ghost predicate SplitBySeparators(env: Environment, pieces: seq<Piece>) { Split(env, pieces, Fields(env, pieces)) }

  lemma FieldsAreSplit(env: Environment, pieces: seq<Piece>)
    ensures SplitBySeparators(env, pieces)
  {
    FieldsSplit(env, pieces, 0);
    assert pieces[0..] == pieces && Characters(pieces[..0]) == "";
  }

  /** `words`: the result split at unquoted whitespace, empty words dropped. */
  method Words(raw: string, env: Environment) returns (r: Result<seq<string>, ExpandError>)
    ensures r == ExpandedWords(env, raw)
    ensures Until(env, raw, 0, false).Done? ==> SplitBySeparators(env, Until(env, raw, 0, false).pieces)
  {
    var lexer := new Lexer(raw, env);
    var read := lexer.ReadUntil(false);
    if read.Err? { return Err(read.error); }
    var words := SplitWords(read.value, env);
    FieldsAreSplit(env, read.value);
    return Ok(words);
  }

  method SplitWords(pieces: seq<Piece>, env: Environment) returns (words: seq<string>)
    ensures words == NonEmpty(Fields(env, pieces))
  {
    words := [];
    var current := "";
    assert pieces[0..] == pieces;
    for i := 0 to |pieces|
      invariant words + NonEmpty(Fields(env, pieces[i..], current)) == NonEmpty(Fields(env, pieces))
    {
      assert pieces[i..][1..] == pieces[i + 1..];
      if Separates(env, pieces[i]) {
        NonEmptyFirst(current, Fields(env, pieces[i + 1..]));
        if current != "" {
          words, current := words + [current], "";
        }
      } else {
        current := current + [pieces[i].ch];
      }
    }
    NonEmptyFirst(current, []);
    if current != "" {
      words := words + [current];
    }
  }

  lemma NonEmptyFirst(word: string, rest: seq<string>)
    ensures NonEmpty([word] + rest) == (if word == "" then [] else [word]) + NonEmpty(rest)
  {
    assert ([word] + rest)[1..] == rest;
  }

  // --------------------------------------------------- the laws of the text

  // What each construct does, in the characters of the text alone; `k` is
  // whatever follows it.

  /** A value's characters; where they `split`, whitespace among them separates words. */
  function Pieces(value: string, split: bool): seq<Piece> {
    seq(|value|, i requires 0 <= i < |value| => Piece(value[i], split))
  }

  lemma PiecesAre(value: string)
    ensures Pieces(value, true) == Unquoted(value) && Pieces(value, false) == Quote(value)
    ensures Characters(Pieces(value, true)) == value && Characters(Pieces(value, false)) == value
    ensures Quote(Characters(Unquoted(value))) == Pieces(value, false)
  {
  }

  lemma IdentifierIsName(name: string)
    ensures Identifier(name) <==> IsName(name)
  {
  }

  function ValueOf(env: Environment, name: string): string {
    if env.lookup(name).Some? then env.lookup(name).value else ""
  }

  /** `$NAME` takes the longest name, and is its value, which splits outside quotes and does not inside. */
  lemma VariableText(env: Environment, name: string, k: string, depth: nat)
    requires UsualEscape(env) && Identifier(name) && EndsName(k) && depth <= MAX_EXPANSION_DEPTH
    ensures One(env, "$" + (name + k), depth) == Done(Pieces(ValueOf(env, name), true), k)
    ensures DoubleQuoted(env, "$" + (name + k), depth)
      == Prepend(Pieces(ValueOf(env, name), false), DoubleQuoted(env, k, depth))
  {
    IdentifierIsName(name);
    PiecesAre(ValueOf(env, name));
    OnePrinted(env, Open, Variable(name), k, depth);
    QuotedPartPrinted(env, Variable(name), k, depth);
  }

  /** `${NAME}` is the same, whatever follows. */
  lemma BracesText(env: Environment, name: string, k: string, depth: nat)
    requires UsualEscape(env) && Identifier(name) && depth < MAX_EXPANSION_DEPTH
    ensures One(env, "$" + ("{" + (name + ("}" + k))), depth) == Done(Pieces(ValueOf(env, name), true), k)
    ensures DoubleQuoted(env, "$" + ("{" + (name + ("}" + k))), depth)
      == Prepend(Pieces(ValueOf(env, name), false), DoubleQuoted(env, k, depth))
  {
    IdentifierIsName(name);
    PiecesAre(ValueOf(env, name));
    OnePrinted(env, Open, Braces(name), k, depth);
    QuotedPartPrinted(env, Braces(name), k, depth);
  }

  /** A word without quotes, escapes, variables and braces. */
  predicate PlainWord(env: Environment, word: string) {
    forall i :: 0 <= i < |word| ==>
      word[i] != '\'' && word[i] != '"' && word[i] != '$' && word[i] != '}' && word[i] != env.escape
  }

  function CharactersOf(word: string): seq<Part> { seq(|word|, i requires 0 <= i < |word| => Character(word[i])) }

  lemma {:induction false} PlainWordPrinted(env: Environment, word: string, k: string)
    requires PlainWord(env, word)
    ensures Print(env.escape, CharactersOf(word), k) == word + k && WellFormed(env, InWord, CharactersOf(word), k)
    ensures Eval(env, false, CharactersOf(word)) == Ok(Pieces(word, true)) && Depth(CharactersOf(word)) == 0
  {
    if word == "" {
      assert word + k == k;
    } else {
      PlainWordPrinted(env, word[1..], k);
      assert CharactersOf(word)[1..] == CharactersOf(word[1..]);
      assert word + k == [word[0]] + (word[1..] + k);
      assert Pieces(word, true) == [Piece(word[0], true)] + Pieces(word[1..], true);
    }
  }

  /** What `${NAME<op>word}` gives, by whether the variable is set and, where a colon asks, not empty. */
  function OperatorValue(colon: bool, sign: char, name: string, value: Option<string>, word: string)
    : Result<seq<Piece>, ExpandError>
  {
    var isSet := value.Some?;
    var present := isSet && (colon ==> value.value != "");
    if sign == '-' then Ok(if present then Pieces(value.value, true) else Pieces(word, true))
    else if sign == '+' then Ok(if present then Pieces(word, true) else [])
    else if present then Ok(Pieces(value.value, true))
    else Err(Required(name, word, isSet))
  }

  function OperatorText(colon: bool, sign: char): string { if colon then [':', sign] else [sign] }

  /** The operators by their text: `-` and `:-` default, `+` and `:+` replace, `?` and `:?` require. */
  lemma OperatorsText(env: Environment, name: string, colon: bool, sign: char, word: string, k: string, depth: nat)
    requires UsualEscape(env) && Identifier(name) && (sign == '-' || sign == '+' || sign == '?')
    requires PlainWord(env, word) && depth < MAX_EXPANSION_DEPTH
    ensures One(env, "$" + ("{" + (name + (OperatorText(colon, sign) + (word + ("}" + k))))), depth)
      == Read(OperatorValue(colon, sign, name, env.lookup(name), word), k)
  {
    var part := Modified(name, colon, OperatorOf(sign).value, CharactersOf(word));
    IdentifierIsName(name);
    PlainWordPrinted(env, word, "}" + k);
    OperatorPrinted(colon, sign, word + ("}" + k));
    OperatorApplied(colon, sign, name, env.lookup(name), word);
    OnePrinted(env, Open, part, k, depth);
  }

  lemma OperatorApplied(colon: bool, sign: char, name: string, value: Option<string>, word: string)
    requires sign == '-' || sign == '+' || sign == '?'
    ensures Apply(name, value, colon, OperatorOf(sign).value, Pieces(word, true)) == OperatorValue(colon, sign, name, value, word)
  {
    PiecesAre(word);
    if value.Some? {
      PiecesAre(value.value);
    }
  }

  lemma OperatorPrinted(colon: bool, sign: char, rest: string)
    requires sign == '-' || sign == '+' || sign == '?'
    ensures PrintModifier(colon, OperatorOf(sign).value, rest) == OperatorText(colon, sign) + rest
  {
  }

  /** Outside quotes the escape character makes any character literal; at the end it is dropped. */
  lemma EscapeText(env: Environment, c: char, k: string, depth: nat)
    requires UsualEscape(env)
    ensures One(env, [env.escape] + ([c] + k), depth) == Done([Piece(c, false)], k)
    ensures One(env, [env.escape], depth) == Done([], "")
  {
    var s := [env.escape] + ([c] + k);
    assert s[1] == c && s[2..] == k;
  }

  /** Single quotes hold anything but themselves. */
  lemma SingleQuotesText(env: Environment, v: string, k: string, depth: nat)
    requires UsualEscape(env) && '\'' !in v
    ensures One(env, "'" + (v + ("'" + k)), depth) == Done(Pieces(v, false), k)
  {
    SingleText(v, k);
    PiecesAre(v);
    var s := "'" + (v + ("'" + k));
    assert s[1..] == v + ("'" + k);
  }

  /** In double quotes the escape character works before `"`, `$`, a newline and itself, and before anything else both stay. */
  lemma QuotedEscapeText(env: Environment, c: char, k: string, depth: nat)
    requires UsualEscape(env)
    ensures c == '"' || c == '$' || c == '\n' || c == env.escape ==>
      DoubleQuoted(env, [env.escape] + ([c] + k), depth) == Prepend([Piece(c, false)], DoubleQuoted(env, k, depth))
    ensures c != '"' && c != '$' && c != '\n' && c != env.escape ==>
      DoubleQuoted(env, [env.escape] + ([c] + k), depth)
      == Prepend([Piece(env.escape, false), Piece(c, false)], DoubleQuoted(env, k, depth))
  {
    var s := [env.escape] + ([c] + k);
    assert s[0] == env.escape && s[1] == c && s[1..] == [c] + k && s[2..] == k && s[1..][1..] == k;
    if c != '"' && c != '$' && c != '\n' && c != env.escape {
      PrependTwice([Piece(env.escape, false)], [Piece(c, false)], DoubleQuoted(env, k, depth));
      assert [Piece(env.escape, false)] + [Piece(c, false)] == [Piece(env.escape, false), Piece(c, false)];
    }
  }

  /** `"`, `$` and the escape character written with the escape character before them. */
  function EscapedText(e: char, v: string, k: string): string {
    if v == "" then k
    else (if v[0] == '"' || v[0] == '$' || v[0] == e then [e, v[0]] else [v[0]]) + EscapedText(e, v[1..], k)
  }

  lemma {:induction false} QuotedTextRead(env: Environment, v: string, k: string, depth: nat)
    requires UsualEscape(env)
    ensures DoubleQuoted(env, EscapedText(env.escape, v, "\"" + k), depth) == Done(Pieces(v, false), k)
  {
    if v == "" {
      assert ("\"" + k)[1..] == k;
    } else {
      var rest := EscapedText(env.escape, v[1..], "\"" + k);
      QuotedTextRead(env, v[1..], k, depth);
      QuotedCharacter(env, v[0], rest, depth);
      assert Pieces(v, false) == [Piece(v[0], false)] + Pieces(v[1..], false);
    }
  }

  lemma QuotedCharacter(env: Environment, c: char, k: string, depth: nat)
    requires UsualEscape(env)
    ensures DoubleQuoted(env, (if c == '"' || c == '$' || c == env.escape then [env.escape, c] else [c]) + k, depth)
      == Prepend([Piece(c, false)], DoubleQuoted(env, k, depth))
  {
    if c == '"' || c == '$' || c == env.escape {
      assert [env.escape, c] + k == [env.escape] + ([c] + k);
      QuotedEscapeText(env, c, k, depth);
    } else {
      assert ([c] + k)[1..] == k;
    }
  }

  /** Any text written in double quotes is one word and is itself again, whatever the variables are. */
  lemma QuotedRoundTrip(env: Environment, v: string)
    requires UsualEscape(env)
    ensures Expanded(env, "\"" + EscapedText(env.escape, v, "\"")) == Ok(v)
    ensures ExpandedWords(env, "\"" + EscapedText(env.escape, v, "\"")) == Ok(if v == "" then [] else [v])
  {
    var s := "\"" + EscapedText(env.escape, v, "\"");
    assert "\"" + "" == "\"" && s[1..] == EscapedText(env.escape, v, "\"");
    QuotedTextRead(env, v, "", 0);
    OnlyOne(env, s, Pieces(v, false));
    PiecesAre(v);
    OneWord(env, v);
  }

  /** A text that is one element. */
  lemma OnlyOne(env: Environment, s: string, pieces: seq<Piece>)
    requires s != "" && One(env, s, 0) == Done(pieces, "")
    ensures Until(env, s, 0, false) == Done(pieces, "")
  {
    assert pieces + [] == pieces;
  }

  lemma {:induction false} UnsplitFields(env: Environment, v: string, begun: string)
    ensures Fields(env, Pieces(v, false), begun) == [begun + v]
  {
    if v == "" {
      assert begun + v == begun;
    } else {
      assert Pieces(v, false)[1..] == Pieces(v[1..], false);
      UnsplitFields(env, v[1..], begun + [v[0]]);
      assert begun + [v[0]] + v[1..] == begun + v;
    }
  }

  lemma OneWord(env: Environment, v: string)
    ensures NonEmpty(Fields(env, Pieces(v, false))) == if v == "" then [] else [v]
  {
    UnsplitFields(env, v, "");
    assert "" + v == v && [v] + [] == [v];
    NonEmptyFirst(v, []);
  }

  /** The longest runs of characters that are no whitespace. */
  function RunsOf(env: Environment, v: string): seq<string>
    decreases |v|
  {
    if v == "" then []
    else if env.isWhitespace(v[0]) then RunsOf(env, v[1..])
    else [v[..RunLength(env, v)]] + RunsOf(env, v[RunLength(env, v)..])
  }

  function RunLength(env: Environment, v: string): (n: nat)
    ensures n <= |v| && (v != "" && !env.isWhitespace(v[0]) ==> n > 0)
  {
    if v == "" || env.isWhitespace(v[0]) then 0 else 1 + RunLength(env, v[1..])
  }

  /** The runs of a text whose first one was begun before. */
  function RunsAfter(env: Environment, begun: string, v: string): seq<string> {
    if begun == "" then RunsOf(env, v) else [begun + v[..RunLength(env, v)]] + RunsOf(env, v[RunLength(env, v)..])
  }

  lemma {:induction false} SplitFields(env: Environment, v: string, begun: string)
    ensures NonEmpty(Fields(env, Pieces(v, true), begun)) == RunsAfter(env, begun, v)
    decreases |v|
  {
    if v == "" {
      assert begun + v == begun && [begun] + [] == [begun];
      NonEmptyFirst(begun, []);
    } else {
      assert Pieces(v, true)[1..] == Pieces(v[1..], true);
      if env.isWhitespace(v[0]) {
        SplitFields(env, v[1..], "");
        NonEmptyFirst(begun, Fields(env, Pieces(v[1..], true)));
        RunsAtBlank(env, begun, v);
      } else {
        SplitFields(env, v[1..], begun + [v[0]]);
        RunsGoOn(env, begun, v);
      }
    }
  }

  lemma RunsAtBlank(env: Environment, begun: string, v: string)
    requires v != "" && env.isWhitespace(v[0])
    ensures RunsAfter(env, begun, v) == (if begun == "" then [] else [begun]) + RunsOf(env, v[1..])
  {
    assert begun + v[..0] == begun && v[0..] == v;
  }

  lemma RunsGoOn(env: Environment, begun: string, v: string)
    requires v != "" && !env.isWhitespace(v[0])
    ensures RunsAfter(env, begun + [v[0]], v[1..]) == RunsAfter(env, begun, v)
  {
    var n := RunLength(env, v[1..]);
    assert v[..n + 1] == [v[0]] + v[1..][..n] && v[n + 1..] == v[1..][n..];
    assert (begun + [v[0]]) + v[1..][..n] == begun + v[..n + 1];
    assert "" + v[..n + 1] == v[..n + 1];
  }

  /** A variable outside quotes is split at the whitespace of its value; inside them it is one word. */
  lemma VariableWords(env: Environment, name: string)
    requires UsualEscape(env) && Identifier(name)
    ensures Expanded(env, "$" + name) == Ok(ValueOf(env, name))
    ensures ExpandedWords(env, "$" + name) == Ok(RunsOf(env, ValueOf(env, name)))
    ensures ExpandedWords(env, "\"$" + (name + "\"")) == Ok(if ValueOf(env, name) == "" then [] else [ValueOf(env, name)])
  {
    var v := ValueOf(env, name);
    VariableText(env, name, "", 0);
    assert "$" + (name + "") == "$" + name;
    OnlyOne(env, "$" + name, Pieces(v, true));
    PiecesAre(v);
    SplitFields(env, v, "");
    QuotedVariable(env, name, v);
    OneWord(env, v);
  }

  lemma QuotedVariable(env: Environment, name: string, v: string)
    requires UsualEscape(env) && Identifier(name) && v == ValueOf(env, name)
    ensures Until(env, "\"$" + (name + "\""), 0, false) == Done(Pieces(v, false), "")
  {
    var s := "\"$" + (name + "\"");
    VariableText(env, name, "\"", 0);
    assert s[1..] == "$" + (name + "\"") && s[0] == '"';
    assert "\""[1..] == "" && Pieces(v, false) + [] == Pieces(v, false);
    OnlyOne(env, s, Pieces(v, false));
  }
}
