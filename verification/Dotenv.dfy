/**
  `.env` files (the second half of `crates/rustlet-compose/src/interpolate.rs`):
  the cursor that reads them, and the round trip of double-quoted values.
*/
module Dotenv {
  import opened Common
  import opened Interpolate
  import opened ParameterExpansion

  datatype Entry = Entry(key: string, value: Option<string>)

  datatype DotenvError =
    | NoVariableName
    | UnexpectedCharacter
    | QuoteNeverClosed
    | TextAfterQuote
    | BadSubstitution(error: SubstituteError)

  /** The character classes of the standard library. */
  datatype Classes = Classes(isAlphanumeric: char -> bool, isWhitespace: char -> bool)

  // --------------------------------------------------------- what is computed

  predicate IsBlank(c: char) { c == ' ' || c == '\t' || c == '\r' }

  predicate IsKeyChar(classes: Classes, c: char) {
    classes.isAlphanumeric(c) || c == '_' || c == '.' || c == '-' || c == '[' || c == ']'
  }

  function SkipBlanks(s: string): (r: string)
    ensures |r| <= |s|
  {
    if s != "" && IsBlank(s[0]) then SkipBlanks(s[1..]) else s
  }

  /** What follows this line. */
  function SkipLine(s: string): (r: string)
    ensures |r| <= |s| && (s != "" ==> |r| < |s|)
  {
    if s == "" then "" else if s[0] == '\n' then s[1..] else SkipLine(s[1..])
  }

  /** The rest of this line, without its end. */
  function LineOf(s: string): string {
    if s == "" || s[0] == '\n' then "" else [s[0]] + LineOf(s[1..])
  }

  function KeyOf(classes: Classes, s: string): (key: string)
    ensures key <= s
  {
    if s == "" || !IsKeyChar(classes, s[0]) then "" else [s[0]] + KeyOf(classes, s[1..])
  }

  predicate IsOctal(c: char) { '0' <= c <= '7' }

  function Octal(c: char): nat
    requires IsOctal(c)
  {
    c as int - '0' as int
  }

  /** `escape`: what a backslash before `s` stands for in double quotes, and how much of `s` that takes. */
  function Escape(s: string): (r: Option<(string, nat)>)
    ensures r.Some? ==> 1 <= r.value.1 <= |s|
  {
    if s == "" then None
    else
      match s[0]
      case 'a' => Some(([7 as char], 1))
      case 'b' => Some(([8 as char], 1))
      case 'f' => Some(([12 as char], 1))
      case 'n' => Some(("\n", 1))
      case 'r' => Some(("\r", 1))
      case 't' => Some(("\t", 1))
      case 'v' => Some(([11 as char], 1))
      case '"' => Some(("\"", 1))
      case '\\' => Some(("\\", 1))
      case '$' => Some(("$$", 1))
      case '0' =>
        if |s| < 4 || !IsOctal(s[1]) || !IsOctal(s[2]) || !IsOctal(s[3]) then None
        else
          var value := 64 * Octal(s[1]) + 8 * Octal(s[2]) + Octal(s[3]);
          if value <= 255 then Some(([value as char], 4)) else None
      case _ => None
  }

  function OctalDigit(n: nat): char
    requires n < 8
  {
    '0' + n as char
  }

  /** Every character up to 255 can be written in octal. */
  lemma OctalEscape(value: nat, rest: string)
    requires value <= 255
    ensures Escape(['0', OctalDigit(value / 64), OctalDigit(value / 8 % 8), OctalDigit(value % 8)] + rest)
         == Some(([value as char], 4))
  {
    assert value == 64 * (value / 64) + 8 * (value / 8 % 8) + value % 8;
  }

  /** The letters stand for the characters the C language gives them, here in octal. */
  lemma LetterEscapes(i: nat, rest: string)
    requires i < 7
    ensures Escape(["abtnvfr"[i]] + rest)
      == Some((Escape(["0007", "0010", "0011", "0012", "0013", "0014", "0015"][i]).value.0, 1))
  {
  }

  /** A quoted value's text and what follows its closing quote. */
  datatype QuotedText = QuotedText(text: string, rest: string)

  function Onto(text: string, quoted: Option<QuotedText>): Option<QuotedText> {
    match quoted case None => None case Some(q) => Some(QuotedText(text + q.text, q.rest))
  }

  /** What one step inside quotes stands for, and how much of `s` it takes; nothing when a backslash ends the text. */
  function QuotedStep(s: string, quote: char): (r: Option<(string, nat)>)
    requires s != ""
    ensures r.Some? ==> 1 <= r.value.1 <= |s|
  {
    if s[0] != '\\' then Some(([s[0]], 1))
    else if |s| == 1 then None
    else if s[1] == quote then Some(([quote], 2))
    else if quote == '\'' then Some(if s[1] == '\\' then ("\\\\", 2) else ("\\", 1))
    else
      match Escape(s[1..])
      case Some((text, taken)) => Some((text, 1 + taken))
      case None => Some(("\\", 1))
  }

  /** `until_quote`: after the opening `quote`. */
  function UntilQuote(s: string, quote: char): (r: Option<QuotedText>)
    ensures r.Some? ==> |r.value.rest| < |s|
    decreases |s|
  {
    if s == "" then None
    else if s[0] == quote then Some(QuotedText("", s[1..]))
    else
      match QuotedStep(s, quote)
      case None => None
      case Some((text, taken)) => Onto(text, UntilQuote(s[taken..], quote))
  }

  /** `end_of_value`: what follows the line, unless something stands after the quote. */
  function EndOfValue(s: string): (r: Option<string>)
    ensures r.Some? ==> |r.value| <= |s|
  {
    var t := SkipBlanks(s);
    if t == "" || t[0] == '\n' || t[0] == '#' then Some(SkipLine(t)) else None
  }

  function TrimStart(classes: Classes, s: string): string {
    if s != "" && classes.isWhitespace(s[0]) then TrimStart(classes, s[1..]) else s
  }

  function TrimEnd(classes: Classes, s: string): string {
    if s != "" && classes.isWhitespace(s[|s| - 1]) then TrimEnd(classes, s[..|s| - 1]) else s
  }

  /** An unquoted value: up to a `#` after whitespace. */
  function CutComment(classes: Classes, s: string, i: nat := 0): string
    requires i <= |s|
    decreases |s| - i
  {
    if i == |s| then s
    else if s[i] == '#' && 0 < i && classes.isWhitespace(s[i - 1]) then s[..i]
    else CutComment(classes, s, i + 1)
  }

  function LookupHere(lookup: Lookup, defined: map<string, string>): Lookup {
    name => if lookup(name).Some? then lookup(name) else if name in defined then Some(defined[name]) else None
  }

  function Expanded(lookup: Lookup, defined: map<string, string>, raw: string): Result<string, DotenvError> {
    match Substitute(LookupHere(lookup, defined), raw, [])
    case Substituted(value, _) => Ok(value)
    case Failed(e) => Err(BadSubstitution(e))
  }

  /** A value, and what follows its line. */
  datatype ReadValue = ReadValue(value: string, rest: string)

  function ValueAt(classes: Classes, lookup: Lookup, defined: map<string, string>, s: string): (r: Result<ReadValue, DotenvError>)
    ensures r.Ok? ==> |r.value.rest| <= |s|
  {
    if s != "" && (s[0] == '\'' || s[0] == '"') then
      match UntilQuote(s[1..], s[0])
      case None => Err(QuoteNeverClosed)
      case Some(quoted) =>
        match EndOfValue(quoted.rest)
        case None => Err(TextAfterQuote)
        case Some(rest) =>
          if s[0] == '\'' then Ok(ReadValue(quoted.text, rest))
          else match Expanded(lookup, defined, quoted.text)
            case Err(e) => Err(e)
            case Ok(value) => Ok(ReadValue(value, rest))
    else
      match Expanded(lookup, defined, TrimEnd(classes, TrimStart(classes, CutComment(classes, LineOf(s)))))
      case Err(e) => Err(e)
      case Ok(value) => Ok(ReadValue(value, SkipLine(s)))
  }

  /** The key of a line and what follows it, `export` skipped. */
  function KeyAt(classes: Classes, s: string): (r: (string, string))
    ensures |r.1| <= |s| && (r.0 != "" ==> |r.1| < |s|)
  {
    var key := KeyOf(classes, s);
    var rest := s[|key|..];
    if key == "export" && rest != "" && (rest[0] == ' ' || rest[0] == '\t') then
      var t := SkipBlanks(rest);
      (KeyOf(classes, t), t[|KeyOf(classes, t)|..])
    else (key, rest)
  }

  function Joined(entry: Entry, more: Result<seq<Entry>, DotenvError>): Result<seq<Entry>, DotenvError> {
    match more case Ok(entries) => Ok([entry] + entries) case Err(e) => Err(e)
  }

  /** One entry, what follows its line, and the variables it leaves defined. */
  datatype ReadEntry = ReadEntry(entry: Entry, rest: string, defined: map<string, string>)

  function EntryAt(classes: Classes, lookup: Lookup, s: string, defined: map<string, string>): (r: Result<ReadEntry, DotenvError>)
    ensures r.Ok? ==> |r.value.rest| < |s|
  {
    var (key, after) := KeyAt(classes, s);
    if key == "" || '0' <= key[0] <= '9' then Err(NoVariableName)
    else
      var t := SkipBlanks(after);
      if t == "" || t[0] == '\n' || t[0] == '#' then
        var now := match lookup(key) case Some(v) => defined[key := v] case None => defined - {key};
        Ok(ReadEntry(Entry(key, None), SkipLine(t), now))
      else if t[0] == '=' || t[0] == ':' then
        match ValueAt(classes, lookup, defined, SkipBlanks(t[1..]))
        case Err(e) => Err(e)
        case Ok(read) => Ok(ReadEntry(Entry(key, Some(read.value)), read.rest, defined[key := read.value]))
      else Err(UnexpectedCharacter)
  }

  /** The entries of a file's text. */
  function Entries(classes: Classes, lookup: Lookup, s: string, defined: map<string, string>): Result<seq<Entry>, DotenvError>
    decreases |s|
  {
    if s == "" then Ok([])
    else if s[0] == '\n' || classes.isWhitespace(s[0]) then Entries(classes, lookup, s[1..], defined)
    else if s[0] == '#' then Entries(classes, lookup, SkipLine(s), defined)
    else
      match EntryAt(classes, lookup, s, defined)
      case Err(e) => Err(e)
      case Ok(read) => Joined(read.entry, Entries(classes, lookup, read.rest, read.defined))
  }

  const BYTE_ORDER_MARK: char := '\U{FEFF}'

  /** `parse_dotenv_with_base`. */
  function ParsedDotenv(classes: Classes, text: string, lookup: Lookup, base: map<string, string>): Result<seq<Entry>, DotenvError> {
    Entries(classes, lookup, if text != "" && text[0] == BYTE_ORDER_MARK then text[1..] else text, base)
  }

  // ------------------------------------------------------------- round trip

  function EscapedCharacter(c: char): string {
    if c == '\\' || c == '"' || c == '$' then ['\\', c] else [c]
  }

  /** A value as it is written in double quotes, and then `k`. */
  function Escaped(v: string, k: string): string {
    if v == "" then k else EscapedCharacter(v[0]) + Escaped(v[1..], k)
  }

  /** The value with its `$` doubled: what the escape pass hands to the substitution pass. */
  function Doubled(v: string): string {
    if v == "" then "" else (if v[0] == '$' then "$$" else [v[0]]) + Doubled(v[1..])
  }

  lemma EscapedCharacterStep(c: char, rest: string)
    ensures QuotedStep(EscapedCharacter(c) + rest, '"') == Some((if c == '$' then "$$" else [c], |EscapedCharacter(c)|))
  {
    var s := EscapedCharacter(c) + rest;
    if c == '\\' || c == '"' || c == '$' {
      assert s[0] == '\\' && s[1] == c && s[1..][0] == c;
    } else {
      assert s[0] == c;
    }
  }

  lemma EscapedCharacterRead(c: char, rest: string)
    ensures UntilQuote(EscapedCharacter(c) + rest, '"') == Onto(if c == '$' then "$$" else [c], UntilQuote(rest, '"'))
  {
    var s := EscapedCharacter(c) + rest;
    EscapedCharacterStep(c, rest);
    assert s[0] != '"' && s[|EscapedCharacter(c)|..] == rest;
  }

  lemma {:induction false} EscapePass(v: string, k: string)
    ensures UntilQuote(Escaped(v, ['"'] + k), '"') == Some(QuotedText(Doubled(v), k))
  {
    if v == "" {
      assert (['"'] + k)[1..] == k;
    } else {
      EscapePass(v[1..], k);
      EscapedCharacterRead(v[0], Escaped(v[1..], ['"'] + k));
    }
  }

  lemma {:induction false} SubstitutionPass(lookup: Lookup, v: string, unset: seq<string>)
    ensures Substitute(lookup, Doubled(v), unset) == Substituted(v, unset)
  {
    if v != "" {
      SubstitutionPass(lookup, v[1..], unset);
      var s := Doubled(v);
      if v[0] == '$' {
        assert s[2..] == Doubled(v[1..]);
      } else {
        assert s[1..] == Doubled(v[1..]);
      }
      assert [v[0]] + v[1..] == v;
    }
  }

  /** The character classes are as Unicode has them, as far as this matters. */
  ghost predicate UsualClasses(classes: Classes) {
    && (forall c :: IsKeyChar(classes, c) ==> !classes.isWhitespace(c))
    && !IsKeyChar(classes, '=') && !IsKeyChar(classes, '\n') && !IsKeyChar(classes, '#')
    && !IsKeyChar(classes, BYTE_ORDER_MARK)
  }

  /** A key: letters and digits of any script, `_`, `.`, `-`, `[` and `]`, and no ASCII digit first. */
  predicate IsKey(classes: Classes, key: string) {
    && key != "" && !(48 <= key[0] as int <= 57)
    && forall i :: 0 <= i < |key| ==> classes.isAlphanumeric(key[i]) || key[i] in "_.-[]"
  }

  /** A file with one double-quoted entry a line. */
  function Written(pairs: seq<(string, string)>): string {
    if pairs == [] then ""
    else WrittenLine(pairs[0].0, pairs[0].1, Written(pairs[1..]))
  }

  function WrittenLine(key: string, value: string, k: string): string {
    key + (['='] + (['"'] + Escaped(value, ['"'] + (['\n'] + k))))
  }

  function EntriesOf(pairs: seq<(string, string)>): seq<Entry> {
    seq(|pairs|, i requires 0 <= i < |pairs| => Entry(pairs[i].0, Some(pairs[i].1)))
  }

  lemma {:induction false} KeyOfKey(classes: Classes, key: string, k: string)
    requires (forall i :: 0 <= i < |key| ==> IsKeyChar(classes, key[i])) && (k == "" || !IsKeyChar(classes, k[0]))
    ensures KeyOf(classes, key + k) == key && (key + k)[|key|..] == k
  {
    if key == "" {
      assert key + k == k;
    } else {
      assert (key + k)[1..] == key[1..] + k;
      KeyOfKey(classes, key[1..], k);
    }
  }

  lemma KeyCharacters(classes: Classes, key: string)
    requires IsKey(classes, key)
    ensures key != "" && forall i :: 0 <= i < |key| ==> IsKeyChar(classes, key[i])
  {
  }

  lemma StartsWithKey(key: string, value: string, k: string)
    requires key != ""
    ensures WrittenLine(key, value, k) != "" && WrittenLine(key, value, k)[0] == key[0]
  {
  }

  /** A written line is read as its entry, whatever the variables are. */
  lemma LineRoundTrip(classes: Classes, lookup: Lookup, key: string, value: string, k: string, defined: map<string, string>)
    requires UsualClasses(classes) && IsKey(classes, key)
    ensures Entries(classes, lookup, WrittenLine(key, value, k), defined)
      == Joined(Entry(key, Some(value)), Entries(classes, lookup, k, defined[key := value]))
  {
    var quoted := ['"'] + Escaped(value, ['"'] + (['\n'] + k));
    var s := WrittenLine(key, value, k);
    assert s == key + (['='] + quoted) && s[0] == key[0];
    KeyCharacters(classes, key);
    KeyOfKey(classes, key, ['='] + quoted);
    assert KeyAt(classes, s) == (key, ['='] + quoted);
    assert SkipBlanks(['='] + quoted) == ['='] + quoted && (['='] + quoted)[1..] == quoted;
    assert SkipBlanks(quoted) == quoted;
    QuotedValueRead(classes, lookup, defined, value, k);
  }

  lemma QuotedValueRead(classes: Classes, lookup: Lookup, defined: map<string, string>, value: string, k: string)
    ensures ValueAt(classes, lookup, defined, ['"'] + Escaped(value, ['"'] + (['\n'] + k))) == Ok(ReadValue(value, k))
  {
    var s := ['"'] + Escaped(value, ['"'] + (['\n'] + k));
    assert s[1..] == Escaped(value, ['"'] + (['\n'] + k));
    EscapePass(value, ['\n'] + k);
    SubstitutionPass(LookupHere(lookup, defined), value, []);
    DoubleQuotedValue(classes, lookup, defined, s, Doubled(value), value, k);
  }

  lemma DoubleQuotedValue(
    classes: Classes, lookup: Lookup, defined: map<string, string>, s: string, text: string, value: string, k: string)
    requires s != "" && s[0] == '"' && UntilQuote(s[1..], '"') == Some(QuotedText(text, ['\n'] + k))
    requires Expanded(lookup, defined, text) == Ok(value)
    ensures ValueAt(classes, lookup, defined, s) == Ok(ReadValue(value, k))
  {
    assert (['\n'] + k)[1..] == k;
    assert EndOfValue(['\n'] + k) == Some(k);
  }

  /** A stand-in for `Entries`, known only where it is asked for. */
  type Reader = (string, map<string, string>) -> Result<seq<Entry>, DotenvError>

  ghost predicate Reads(read: Reader, classes: Classes, lookup: Lookup) {
    forall s, defined {:trigger Entries(classes, lookup, s, defined)} :: read(s, defined) == Entries(classes, lookup, s, defined)
  }

  lemma LineReadBack(read: Reader, classes: Classes, lookup: Lookup, key: string, value: string, k: string, defined: map<string, string>)
    requires Reads(read, classes, lookup) && UsualClasses(classes) && IsKey(classes, key)
    ensures read(WrittenLine(key, value, k), defined) == Joined(Entry(key, Some(value)), read(k, defined[key := value]))
  {
    LineRoundTrip(classes, lookup, key, value, k, defined);
  }

  /** Any values, written in double quotes with `\`, `"` and `$` escaped, are read back exactly. */
  lemma {:induction false} RoundTrip(
    read: Reader, classes: Classes, lookup: Lookup, pairs: seq<(string, string)>, defined: map<string, string>)
    requires Reads(read, classes, lookup) && UsualClasses(classes) && forall i :: 0 <= i < |pairs| ==> IsKey(classes, pairs[i].0)
    ensures read(Written(pairs), defined) == Ok(EntriesOf(pairs))
    decreases |pairs|
  {
    if pairs != [] {
      LineReadBack(read, classes, lookup, pairs[0].0, pairs[0].1, Written(pairs[1..]), defined);
      RoundTrip(read, classes, lookup, pairs[1..], defined[pairs[0].0 := pairs[0].1]);
      assert EntriesOf(pairs) == [Entry(pairs[0].0, Some(pairs[0].1))] + EntriesOf(pairs[1..]);
    } else {
      assert read("", defined) == Entries(classes, lookup, "", defined);
    }
  }

  lemma FileRoundTrip(classes: Classes, lookup: Lookup, pairs: seq<(string, string)>, base: map<string, string>)
    requires UsualClasses(classes) && forall i :: 0 <= i < |pairs| ==> IsKey(classes, pairs[i].0)
    ensures ParsedDotenv(classes, Written(pairs), lookup, base) == Ok(EntriesOf(pairs))
  {
    RoundTrip((s, d) => Entries(classes, lookup, s, d), classes, lookup, pairs, base);
    if pairs != [] {
      KeyCharacters(classes, pairs[0].0);
      StartsWithKey(pairs[0].0, pairs[0].1, Written(pairs[1..]));
    }
  }

  // --------------------------------------------------- the laws of the text

  // What the other lines of a file do; `k` is the file after them.

  /** A key and what follows it on its line. */
  lemma KeyLine(classes: Classes, key: string, after: string)
    requires UsualClasses(classes) && IsKey(classes, key) && after != "" && !IsKeyChar(classes, after[0])
    requires key == "export" ==> after[0] != ' ' && after[0] != '\t'
    ensures KeyAt(classes, key + after) == (key, after)
    ensures var s := key + after; s[0] != '\n' && !classes.isWhitespace(s[0]) && s[0] != '#'
  {
    assert (key + after)[0] == key[0];
    KeyCharacters(classes, key);
    KeyOfKey(classes, key, after);
  }

  /** Blank lines and comments are passed over. */
  lemma PassedOver(classes: Classes, lookup: Lookup, comment: string, k: string, defined: map<string, string>)
    requires '\n' !in comment && !classes.isWhitespace('#')
    ensures Entries(classes, lookup, "\n" + k, defined) == Entries(classes, lookup, k, defined)
    ensures Entries(classes, lookup, "#" + (comment + ("\n" + k)), defined) == Entries(classes, lookup, k, defined)
  {
    assert ("\n" + k)[1..] == k;
    var s := "#" + (comment + ("\n" + k));
    assert s[1..] == comment + ("\n" + k);
    LineSkipped(comment, k);
  }

  lemma {:induction false} LineSkipped(line: string, k: string)
    requires '\n' !in line
    ensures SkipLine(line + ("\n" + k)) == k
  {
    var s := line + ("\n" + k);
    if line == "" {
      assert s[1..] == k;
    } else {
      assert s[1..] == line[1..] + ("\n" + k) && s[0] == line[0] && line[0] in line;
      LineSkipped(line[1..], k);
    }
  }

  /** A key alone is an entry without a value, and for later lines stands for what the environment has. */
  lemma BareKey(classes: Classes, lookup: Lookup, key: string, k: string, defined: map<string, string>)
    requires UsualClasses(classes) && IsKey(classes, key)
    ensures Entries(classes, lookup, key + ("\n" + k), defined) ==
      Joined(Entry(key, None), Entries(classes, lookup, k,
        if lookup(key).Some? then defined[key := lookup(key).value] else defined - {key}))
  {
    KeyLine(classes, key, "\n" + k);
    assert ("\n" + k)[1..] == k && SkipBlanks("\n" + k) == "\n" + k;
  }

  /** A value after `KEY=` or `KEY:`. */
  lemma ValueLine(classes: Classes, lookup: Lookup, key: string, sign: char, text: string, value: string, k: string, defined: map<string, string>)
    requires UsualClasses(classes) && IsKey(classes, key) && (sign == '=' || (sign == ':' && !IsKeyChar(classes, ':')))
    requires text != "" && !IsBlank(text[0]) && ValueAt(classes, lookup, defined, text) == Ok(ReadValue(value, k))
    ensures Entries(classes, lookup, key + ([sign] + text), defined)
      == Joined(Entry(key, Some(value)), Entries(classes, lookup, k, defined[key := value]))
  {
    KeyLine(classes, key, [sign] + text);
    assert ([sign] + text)[1..] == text && SkipBlanks([sign] + text) == [sign] + text && SkipBlanks(text) == text;
  }

  lemma {:induction false} RawQuoted(text: string, quote: char, k: string)
    requires quote !in text && '\\' !in text && quote != '\\'
    ensures UntilQuote(text + ([quote] + k), quote) == Some(QuotedText(text, k))
  {
    var s := text + ([quote] + k);
    if text == "" {
      assert s[1..] == k;
    } else {
      assert s[1..] == text[1..] + ([quote] + k) && s[0] == text[0] && text[0] in text;
      RawQuoted(text[1..], quote, k);
      assert text == [text[0]] + text[1..];
    }
  }

  lemma QuoteEnds(quote: char, text: string, k: string)
    requires quote !in text && '\\' !in text && quote != '\\'
    ensures var s := [quote] + (text + ([quote] + ("\n" + k)));
      UntilQuote(s[1..], quote) == Some(QuotedText(text, "\n" + k)) && EndOfValue("\n" + k) == Some(k)
  {
    var s := [quote] + (text + ([quote] + ("\n" + k)));
    assert s[1..] == text + ([quote] + ("\n" + k)) && ("\n" + k)[1..] == k;
    RawQuoted(text, quote, "\n" + k);
  }

  /** In single quotes nothing is substituted. */
  lemma SingleQuotedLine(classes: Classes, lookup: Lookup, key: string, value: string, k: string, defined: map<string, string>)
    requires UsualClasses(classes) && IsKey(classes, key) && '\'' !in value && '\\' !in value
    ensures Entries(classes, lookup, key + ("=" + ("'" + (value + ("'" + ("\n" + k))))), defined)
      == Joined(Entry(key, Some(value)), Entries(classes, lookup, k, defined[key := value]))
  {
    QuoteEnds('\'', value, k);
    ValueLine(classes, lookup, key, '=', "'" + (value + ("'" + ("\n" + k))), value, k, defined);
  }

  /** A variable is the environment's, else an earlier line's, else empty. */
  lemma VariableLine(classes: Classes, lookup: Lookup, key: string, name: string, k: string, defined: map<string, string>)
    requires UsualClasses(classes) && IsKey(classes, key) && Identifier(name)
    ensures var value :=
        if lookup(name).Some? then lookup(name).value else if name in defined then defined[name] else "";
      Entries(classes, lookup, key + ("=" + ("\"" + (("${" + (name + "}")) + ("\"" + ("\n" + k))))), defined)
      == Joined(Entry(key, Some(value)), Entries(classes, lookup, k, defined[key := value]))
  {
    var text := "${" + (name + "}");
    var value := if lookup(name).Some? then lookup(name).value else if name in defined then defined[name] else "";
    assert '"' !in text && '\\' !in text;
    QuoteEnds('"', text, k);
    VariableExpanded(lookup, defined, name);
    ValueLine(classes, lookup, key, '=', "\"" + (text + ("\"" + ("\n" + k))), value, k, defined);
  }

  lemma VariableExpanded(lookup: Lookup, defined: map<string, string>, name: string)
    requires Identifier(name)
    ensures Expanded(lookup, defined, "${" + (name + "}"))
      == Ok(if lookup(name).Some? then lookup(name).value else if name in defined then defined[name] else "")
  {
    VariableText(LookupHere(lookup, defined), name, "", []);
    assert "$" + ("{" + (name + ("}" + ""))) == "${" + (name + "}");
    assert forall v: string :: v + "" == v;
  }

  /** A value without quotes and variables is what stands before a comment, blanks around it dropped. */
  lemma UnquotedLine(classes: Classes, lookup: Lookup, key: string, value: string, comment: string, k: string, defined: map<string, string>)
    requires UsualClasses(classes) && IsKey(classes, key) && PlainValue(classes, value) && '\n' !in comment
    requires classes.isWhitespace(' ')
    ensures Entries(classes, lookup, key + ("=" + (value + (" #" + comment) + ("\n" + k))), defined)
      == Joined(Entry(key, Some(value)), Entries(classes, lookup, k, defined[key := value]))
    ensures Entries(classes, lookup, key + ("=" + (value + ("\n" + k))), defined)
      == Joined(Entry(key, Some(value)), Entries(classes, lookup, k, defined[key := value]))
  {
    LineRead(value, k);
    LineRead(value + (" #" + comment), k);
    CommentCut(classes, value, comment);
    PlainCut(classes, value, 0);
    PlainExpanded(lookup, defined, value);
    ValueLine(classes, lookup, key, '=', value + ("\n" + k), value, k, defined);
    ValueLine(classes, lookup, key, '=', value + (" #" + comment) + ("\n" + k), value, k, defined);
  }

  predicate PlainValue(classes: Classes, value: string) {
    && value != "" && value[0] != '\'' && value[0] != '"'
    && forall i :: 0 <= i < |value| ==>
         value[i] != '#' && value[i] != '$' && value[i] != '\n' && !IsBlank(value[i]) && !classes.isWhitespace(value[i])
  }

  lemma {:induction false} LineRead(line: string, k: string)
    requires '\n' !in line
    ensures LineOf(line + ("\n" + k)) == line && SkipLine(line + ("\n" + k)) == k
  {
    var s := line + ("\n" + k);
    LineSkipped(line, k);
    if line != "" {
      assert s[1..] == line[1..] + ("\n" + k) && s[0] == line[0] && line[0] in line;
      LineRead(line[1..], k);
      assert line == [line[0]] + line[1..];
    }
  }

  lemma {:induction false} PlainCut(classes: Classes, value: string, i: nat)
    requires PlainValue(classes, value) && i <= |value|
    ensures CutComment(classes, value, i) == value
    decreases |value| - i
  {
    if i < |value| {
      PlainCut(classes, value, i + 1);
    }
  }

  lemma CommentCut(classes: Classes, value: string, comment: string)
    requires PlainValue(classes, value) && classes.isWhitespace(' ')
    ensures var t := CutComment(classes, value + (" #" + comment)); TrimEnd(classes, TrimStart(classes, t)) == value
    ensures TrimEnd(classes, TrimStart(classes, value)) == value
  {
    CutFrom(classes, value, comment, 0);
    var t := value + " ";
    assert t[..|t| - 1] == value && t[0] == value[0];
  }

  lemma {:induction false} CutFrom(classes: Classes, value: string, comment: string, i: nat)
    requires PlainValue(classes, value) && classes.isWhitespace(' ') && i <= |value|
    ensures CutComment(classes, value + (" #" + comment), i) == value + " "
    decreases |value| - i
  {
    var s := value + (" #" + comment);
    if i < |value| {
      assert s[i] == value[i];
      CutFrom(classes, value, comment, i + 1);
    } else {
      assert s[|value|] == ' ' && s[|value| + 1] == '#' && s[..|value| + 1] == value + " ";
      assert CutComment(classes, s, |value| + 1) == s[..|value| + 1];
    }
  }

  lemma PlainExpanded(lookup: Lookup, defined: map<string, string>, value: string)
    requires forall i :: 0 <= i < |value| ==> value[i] != '$'
    ensures Expanded(lookup, defined, value) == Ok(value)
  {
    CopyPlain(LookupHere(lookup, defined), value, |value|, []);
    assert value[..|value|] == value && value[|value|..] == "" && value + "" == value;
  }

  /** `export` before a key changes nothing, and neither does a byte order mark before the file. */
  lemma ExportedLine(classes: Classes, lookup: Lookup, key: string, after: string, defined: map<string, string>)
    requires UsualClasses(classes) && IsKey(classes, key) && IsKey(classes, "export") && key != "export"
    requires after != "" && !IsKeyChar(classes, after[0])
    requires classes.isWhitespace(' ') && classes.isWhitespace('\t') && classes.isWhitespace('\r')
    ensures Entries(classes, lookup, "export" + (" " + (key + after)), defined) == Entries(classes, lookup, key + after, defined)
  {
    var s := "export" + (" " + (key + after));
    KeyLine(classes, key, after);
    KeyCharacters(classes, "export");
    assert s[0] == "export"[0];
    ExportedKey(classes, key, after);
  }

  lemma ExportedKey(classes: Classes, key: string, after: string)
    requires UsualClasses(classes) && IsKey(classes, key) && IsKey(classes, "export")
    requires after != "" && !IsKeyChar(classes, after[0])
    requires classes.isWhitespace(' ') && classes.isWhitespace('\t') && classes.isWhitespace('\r')
    ensures KeyAt(classes, "export" + (" " + (key + after))) == (key, after)
  {
    var t := " " + (key + after);
    KeyCharacters(classes, key);
    KeyCharacters(classes, "export");
    KeyOfKey(classes, "export", t);
    assert t[1..] == key + after && (key + after)[0] == key[0];
    assert SkipBlanks(t) == key + after;
    KeyOfKey(classes, key, after);
  }

  lemma MarkedFile(classes: Classes, text: string, lookup: Lookup, base: map<string, string>)
    requires text == "" || text[0] != '\U{FEFF}'
    ensures ParsedDotenv(classes, ['\U{FEFF}'] + text, lookup, base) == ParsedDotenv(classes, text, lookup, base)
  {
    assert (['\U{FEFF}'] + text)[1..] == text;
  }

  // -------------------------------------------------------------- the cursor

  lemma OntoTwice(a: string, b: string, quoted: Option<QuotedText>)
    ensures Onto(a, Onto(b, quoted)) == Onto(a + b, quoted)
  {
    if quoted.Some? { assert a + (b + quoted.value.text) == a + b + quoted.value.text; }
  }

  lemma OntoNothing(quoted: Option<QuotedText>)
    ensures Onto("", quoted) == quoted
  {
    if quoted.Some? { assert "" + quoted.value.text == quoted.value.text; }
  }

  /** `Parser`: a cursor over a file's characters. */
  class Parser {
    const classes: Classes
    const chars: string
    var i: nat

    ghost predicate Valid()
      reads this
    {
      i <= |chars|
    }

    ghost function Rest(): string
      requires Valid()
      reads this
    {
      chars[i..]
    }

    constructor (classes: Classes, text: string)
      ensures Valid() && this.classes == classes && Rest() == text
    {
      this.classes, chars, i := classes, text, 0;
    }

    method Bump()
      requires Valid() && i < |chars|
      modifies this
      ensures Valid() && old(Rest()) == [chars[old(i)]] + Rest() && Rest() == old(Rest())[1..] && i == old(i) + 1
    {
      i := i + 1;
    }

    method PassBlanks()
      requires Valid()
      modifies this
      ensures Valid() && Rest() == SkipBlanks(old(Rest())) && old(i) <= i
    {
      while i < |chars| && IsBlank(chars[i])
        invariant Valid() && SkipBlanks(Rest()) == SkipBlanks(old(Rest())) && old(i) <= i
      {
        Bump();
      }
    }

    method PassLine()
      requires Valid()
      modifies this
      ensures Valid() && Rest() == SkipLine(old(Rest())) && old(i) <= i
    {
      while i < |chars|
        invariant Valid() && SkipLine(Rest()) == SkipLine(old(Rest())) && old(i) <= i
        decreases |chars| - i
      {
        var c := chars[i];
        Bump();
        if c == '\n' { break; }
      }
    }

    method ReadKey() returns (key: string)
      requires Valid()
      modifies this
      ensures Valid() && key == KeyOf(classes, old(Rest())) && Rest() == old(Rest())[|key|..]
      ensures i == old(i) + |key|
    {
      key := "";
      while i < |chars| && IsKeyChar(classes, chars[i])
        invariant Valid() && i == old(i) + |key| && key == chars[old(i)..i]
        invariant forall j :: 0 <= j < |key| ==> IsKeyChar(classes, key[j])
      {
        key := key + [chars[i]];
        Bump();
      }
      assert old(Rest()) == key + Rest();
      KeyOfKey(classes, key, Rest());
    }

    /** `until_quote`: the text of a quoted value, its closing quote consumed. */
    method ReadQuoted(quote: char) returns (r: Option<string>)
      requires Valid()
      modifies this
      ensures Valid() && old(i) <= i
      ensures match UntilQuote(old(Rest()), quote)
        case Some(quoted) => r == Some(quoted.text) && Rest() == quoted.rest
        case None => r.None?
    {
      var s := "";
      OntoNothing(UntilQuote(Rest(), quote));
      while i < |chars|
        invariant Valid() && old(i) <= i
        invariant UntilQuote(old(Rest()), quote) == Onto(s, UntilQuote(Rest(), quote))
        decreases |chars| - i
      {
        if chars[i] == quote {
          Bump();
          assert s + "" == s;
          return Some(s);
        }
        var text := ReadQuotedStep(quote);
        if text.None? { return None; }
        OntoTwice(s, text.value, UntilQuote(Rest(), quote));
        s := s + text.value;
      }
      return None;
    }

    /** One turn of the loop of `until_quote`. */
    method ReadQuotedStep(quote: char) returns (r: Option<string>)
      requires Valid() && i < |chars| && chars[i] != quote
      modifies this
      ensures Valid() && old(i) < i
      ensures match QuotedStep(old(Rest()), quote)
        case Some((text, taken)) => r == Some(text) && Rest() == old(Rest())[taken..]
        case None => r.None?
    {
      var c := chars[i];
      ghost var before := Rest();
      Bump();
      var text := [c];
      if c == '\\' {
        if i == |chars| { return None; }
        var next := chars[i];
        assert before[1] == next && before[1..] == chars[i..];
        if next == quote {
          text := [quote];
          i := i + 1;
        } else if quote == '\'' {
          if next == '\\' {
            text := "\\\\";
            i := i + 1;
          }
        } else {
          match Escape(chars[i..])
          case Some((escaped, taken)) =>
            text := escaped;
            i := i + taken;
          case None =>
        }
      }
      assert before[|before| - |Rest()|..] == Rest();
      return Some(text);
    }

    /** `end_of_value`: only blanks or a comment to the line's end. */
    method ReadEndOfValue() returns (ok: bool)
      requires Valid()
      modifies this
      ensures Valid() && old(i) <= i
      ensures match EndOfValue(old(Rest())) case Some(rest) => ok && Rest() == rest case None => !ok
    {
      PassBlanks();
      if i == |chars| || chars[i] == '\n' || chars[i] == '#' {
        PassLine();
        return true;
      }
      return false;
    }

    method RestOfLine() returns (s: string)
      requires Valid()
      modifies this
      ensures Valid() && s == LineOf(old(Rest())) && Rest() == SkipLine(old(Rest())) && old(i) <= i
    {
      s := "";
      while i < |chars|
        invariant Valid() && old(i) <= i
        invariant LineOf(old(Rest())) == s + LineOf(Rest()) && SkipLine(Rest()) == SkipLine(old(Rest()))
        decreases |chars| - i
      {
        var c := chars[i];
        Bump();
        if c == '\n' { break; }
        s := s + [c];
      }
    }

    /** The value after the `=`, its line consumed. */
    method ReadValue(lookup: Lookup, defined: map<string, string>) returns (r: Result<string, DotenvError>)
      requires Valid()
      modifies this
      ensures Valid() && old(i) <= i
      ensures match ValueAt(classes, lookup, defined, old(Rest()))
        case Ok(read) => r == Ok(read.value) && Rest() == read.rest
        case Err(e) => r == Err(e)
    {
      if i < |chars| && (chars[i] == '\'' || chars[i] == '"') {
        var quote := chars[i];
        Bump();
        var raw := ReadQuoted(quote);
        if raw.None? { return Err(QuoteNeverClosed); }
        var ended := ReadEndOfValue();
        if !ended { return Err(TextAfterQuote); }
        if quote == '\'' { return Ok(raw.value); }
        r := Expanded(lookup, defined, raw.value);
      } else {
        var raw := RestOfLine();
        r := Expanded(lookup, defined, TrimEnd(classes, TrimStart(classes, CutComment(classes, raw))));
      }
    }
  }

  lemma JoinedAppend(done: seq<Entry>, entry: Entry, more: Result<seq<Entry>, DotenvError>)
    ensures Prefixed(done, Joined(entry, more)) == Prefixed(done + [entry], more)
  {
    if more.Ok? { assert done + ([entry] + more.value) == done + [entry] + more.value; }
  }

  function Prefixed(done: seq<Entry>, more: Result<seq<Entry>, DotenvError>): Result<seq<Entry>, DotenvError> {
    match more case Ok(entries) => Ok(done + entries) case Err(e) => Err(e)
  }

  /** `parse_dotenv_with_base`: the entries of the text. */
  method ParseDotenv(classes: Classes, text: string, lookup: Lookup, base: map<string, string>)
    returns (r: Result<seq<Entry>, DotenvError>)
    ensures r == ParsedDotenv(classes, text, lookup, base)
  {
    var p := new Parser(classes, if text != "" && text[0] == BYTE_ORDER_MARK then text[1..] else text);
    var entries: seq<Entry> := [];
    var defined := base;
    ghost var all := p.Rest();
    PrefixedNothing(Entries(classes, lookup, all, base));
    while p.i < |p.chars|
      invariant p.Valid() && p.classes == classes
      invariant Entries(classes, lookup, all, base) == Prefixed(entries, Entries(classes, lookup, p.Rest(), defined))
      decreases |p.chars| - p.i
    {
      ghost var here := p.Rest();
      if p.chars[p.i] == '\n' || classes.isWhitespace(p.chars[p.i]) {
        p.Bump();
      } else if p.chars[p.i] == '#' {
        p.PassLine();
        assert |p.Rest()| < |here|;
      } else {
        var read := ReadOneEntry(p, lookup, defined);
        if read.Err? { return Err(read.error); }
        var (entry, now) := read.value;
        JoinedAppend(entries, entry, Entries(classes, lookup, p.Rest(), now));
        entries, defined := entries + [entry], now;
      }
    }
    assert entries + [] == entries;
    return Ok(entries);
  }

  lemma PrefixedNothing(more: Result<seq<Entry>, DotenvError>)
    ensures Prefixed([], more) == more
  {
    if more.Ok? { assert [] + more.value == more.value; }
  }

  method ReadEntryKey(p: Parser) returns (key: string)
    requires p.Valid()
    modifies p
    ensures p.Valid() && (key, p.Rest()) == KeyAt(p.classes, old(p.Rest())) && old(p.i) <= p.i
  {
    key := p.ReadKey();
    if key == "export" && p.i < |p.chars| && (p.chars[p.i] == ' ' || p.chars[p.i] == '\t') {
      p.PassBlanks();
      key := p.ReadKey();
    }
  }

  /** The part of the loop that reads one entry. */
  method ReadOneEntry(p: Parser, lookup: Lookup, defined: map<string, string>)
    returns (r: Result<(Entry, map<string, string>), DotenvError>)
    requires p.Valid()
    modifies p
    ensures p.Valid()
    ensures match EntryAt(p.classes, lookup, old(p.Rest()), defined)
      case Ok(read) => r == Ok((read.entry, read.defined)) && p.Rest() == read.rest
      case Err(e) => r == Err(e)
  {
    var key := ReadEntryKey(p);
    if key == "" || '0' <= key[0] <= '9' { return Err(NoVariableName); }
    p.PassBlanks();
    if p.i == |p.chars| || p.chars[p.i] == '\n' || p.chars[p.i] == '#' {
      var now := match lookup(key) case Some(v) => defined[key := v] case None => defined - {key};
      p.PassLine();
      return Ok((Entry(key, None), now));
    }
    if p.chars[p.i] != '=' && p.chars[p.i] != ':' { return Err(UnexpectedCharacter); }
    p.Bump();
    p.PassBlanks();
    var value := p.ReadValue(lookup, defined);
    if value.Err? { return Err(value.error); }
    return Ok((Entry(key, Some(value.value)), defined[key := value.value]));
  }
}
