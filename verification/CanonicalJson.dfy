/**
  The canonical text of a service's configuration
  (`canonical_json` in `crates/rustlet-compose/src/project.rs`): two values
  have the same text exactly when they differ only in the order of keys.
*/
module CanonicalJson {
  import opened Common
  import opened ByteOrder

  datatype Value =
    | Null
    | Bool(b: bool)
    | Number(lexeme: string)                // as serde prints it
    | Text(s: string)
    | Array(items: seq<Value>)
    | Object(members: seq<Named<Value>>)    // in whatever order the map gives them

  predicate NumberChar(c: char) {
    '0' <= c <= '9' || c == '-' || c == '+' || c == '.' || c == 'e' || c == 'E'
  }

  /** Numbers have a lexeme, objects have each key once. */
  ghost predicate Valid(v: Value)
    decreases v
  {
    match v
    case Number(lexeme) => lexeme != "" && forall i :: 0 <= i < |lexeme| ==> NumberChar(lexeme[i])
    case Array(items) => forall item :: item in items ==> Valid(item)
    case Object(members) => DistinctNames(members) && forall m :: m in members ==> Valid(m.item)
    case _ => true
  }

  // ---------------------------------------------------------------- meaning

  /** Each key of `a` is a key of `b`. */
  ghost predicate KeysIn(a: seq<Named<Value>>, b: seq<Named<Value>>) {
    forall i :: 0 <= i < |a| ==> exists j :: 0 <= j < |b| && b[j].name == a[i].name
  }

  /** Equal but for the order of keys, at every depth. */
  ghost predicate Same(v: Value, w: Value)
    decreases v
  {
    if v.Array? && w.Array? then
      |v.items| == |w.items| && forall i :: 0 <= i < |v.items| ==> Same(v.items[i], w.items[i])
    else if v.Object? && w.Object? then
      && KeysIn(v.members, w.members) && KeysIn(w.members, v.members)
      && forall i, j :: 0 <= i < |v.members| && 0 <= j < |w.members| && v.members[i].name == w.members[j].name
           ==> Same(v.members[i].item, w.members[j].item)
    else v == w
  }

  /** The value with its keys in order, at every depth. */
  function Normalize(v: Value): Value
    decreases v, 1
  {
    match v
    case Array(items) => Array(NormalizeItems(items))
    case Object(members) => Object(Sort(NormalizeMembers(members)))
    case _ => v
  }

  function NormalizeItems(items: seq<Value>): (r: seq<Value>)
    ensures |r| == |items|
    ensures forall i :: 0 <= i < |items| ==> r[i] == Normalize(items[i])
    decreases items, 0
  {
    if items == [] then [] else [Normalize(items[0])] + NormalizeItems(items[1..])
  }

  function NormalizeMembers(members: seq<Named<Value>>): (r: seq<Named<Value>>)
    ensures |r| == |members|
    ensures forall i :: 0 <= i < |members| ==> r[i] == Named(members[i].name, Normalize(members[i].item))
    decreases members, 0
  {
    if members == [] then []
    else [Named(members[0].name, Normalize(members[0].item))] + NormalizeMembers(members[1..])
  }

  // ------------------------------------------------------------------- text

  function HexDigit(n: nat): char
    requires n < 16
  {
    if n < 10 then '0' + n as char else 'a' + (n - 10) as char
  }

  /** A character of a string, escaped as serde escapes it. */
  function Escaped(c: char): string {
    if c == '"' then "\\\""
    else if c == '\\' then "\\\\"
    else if c == '\n' then "\\n"
    else if c == '\r' then "\\r"
    else if c == '\t' then "\\t"
    else if c as int == 8 then "\\b"
    else if c as int == 12 then "\\f"
    else if c as int < 32 then ['\\', 'u', '0', '0', HexDigit(c as int / 16), HexDigit(c as int % 16)]
    else [c]
  }

  // The printers take what follows the value, so that texts are built from
  // the right and taken apart from the left.

  /** A string from after its opening quote, and then `k`. */
  function Quoted(s: string, k: string): string {
    if s == "" then ['"'] + k else Escaped(s[0]) + Quoted(s[1..], k)
  }

  /** A value's text in the order its keys have, and then `k`. */
  function Print(v: Value, k: string): string
    decreases v, 1
  {
    match v
    case Null => "null" + k
    case Bool(b) => (if b then "true" else "false") + k
    case Number(lexeme) => lexeme + k
    case Text(s) => ['"'] + Quoted(s, k)
    case Array(items) => ['['] + (if items == [] then [']'] + k else Print(items[0], PrintItems(items[1..], k)))
    case Object(members) => ['{'] + (if members == [] then ['}'] + k else PrintMember(members, k))
  }

  /** More items up to the closing bracket. */
  function PrintItems(items: seq<Value>, k: string): string
    decreases items, 0
  {
    if items == [] then [']'] + k else [','] + Print(items[0], PrintItems(items[1..], k))
  }

  function PrintMember(members: seq<Named<Value>>, k: string): string
    requires members != []
    decreases members, 0
  {
    ['"'] + Quoted(members[0].name, [':'] + Print(members[0].item, PrintMembers(members[1..], k)))
  }

  /** More members up to the closing brace. */
  function PrintMembers(members: seq<Named<Value>>, k: string): string
    decreases members, 1
  {
    if members == [] then ['}'] + k else [','] + PrintMember(members, k)
  }

  /** The canonical text. */
  function Canonical(v: Value): string {
    Print(Normalize(v), "")
  }

  // ------------------------------------------------------ strings, read back

  function HexValue(c: char): (n: Option<nat>)
    ensures n.Some? ==> n.value < 16
  {
    if '0' <= c <= '9' then Some(c as int - '0' as int)
    else if 'a' <= c <= 'f' then Some(c as int - 'a' as int + 10)
    else if 'A' <= c <= 'F' then Some(c as int - 'A' as int + 10)
    else None
  }

  /** The four hexadecimal digits of a `\u` escape; a surrogate alone is no character. */
  function HexCharacter(s: string): Option<char>
    requires |s| == 4
  {
    var a, b, c, d := HexValue(s[0]), HexValue(s[1]), HexValue(s[2]), HexValue(s[3]);
    if a.None? || b.None? || c.None? || d.None? then None
    else
      var v := ((a.value * 16 + b.value) * 16 + c.value) * 16 + d.value;
      if v < 0xD800 || 0xE000 <= v then Some(v as char) else None
  }

  /** One character of a string, by section 7 of RFC 8259, and what follows it. */
  function ReadCharacter(s: string): (r: Option<(char, string)>)
    ensures r.Some? ==> |r.value.1| < |s|
  {
    if s == "" || s[0] == '"' || s[0] as int < 32 then None
    else if s[0] != '\\' then Some((s[0], s[1..]))
    else if |s| == 1 then None
    else
      match s[1]
      case '"' => Some(('"', s[2..]))
      case '\\' => Some(('\\', s[2..]))
      case '/' => Some(('/', s[2..]))
      case 'b' => Some((8 as char, s[2..]))
      case 'f' => Some((12 as char, s[2..]))
      case 'n' => Some((10 as char, s[2..]))
      case 'r' => Some((13 as char, s[2..]))
      case 't' => Some((9 as char, s[2..]))
      case 'u' =>
        if |s| < 6 || HexCharacter(s[2..6]).None? then None else Some((HexCharacter(s[2..6]).value, s[6..]))
      case _ => None
  }

  /** A string from after its opening quote, and what follows its closing one. */
  function ReadString(s: string): (r: Option<(string, string)>)
    ensures r.Some? ==> |r.value.1| < |s|
    decreases |s|
  {
    if s != "" && s[0] == '"' then Some(("", s[1..]))
    else match ReadCharacter(s)
      case None => None
      case Some((c, rest)) =>
        match ReadString(rest)
        case None => None
        case Some((text, after)) => Some(([c] + text, after))
  }

  lemma ControlRead(n: nat, rest: string)
    requires n < 32
    ensures ReadCharacter(['\\', 'u', '0', '0', HexDigit(n / 16), HexDigit(n % 16)] + rest) == Some((n as char, rest))
  {
    var s := ['\\', 'u', '0', '0', HexDigit(n / 16), HexDigit(n % 16)] + rest;
    assert s[2..6] == ['0', '0', HexDigit(n / 16), HexDigit(n % 16)] && s[6..] == rest;
    assert n == n / 16 * 16 + n % 16;
  }

  lemma CharacterRead(c: char, rest: string)
    ensures ReadCharacter(Escaped(c) + rest) == Some((c, rest))
  {
    var s := Escaped(c) + rest;
    assert s[|Escaped(c)|..] == rest;
    if |Escaped(c)| == 6 {
      ControlRead(c as int, rest);
    } else if |Escaped(c)| == 2 {
      assert s[0] == '\\' && s[1] == Escaped(c)[1];
    }
  }

  /** A printed string is read back by the standard's own rules. */
  lemma {:induction false} StringReadBack(text: string, k: string)
    ensures ReadString(Quoted(text, k)) == Some((text, k))
  {
    if text != "" {
      CharacterRead(text[0], Quoted(text[1..], k));
      StringReadBack(text[1..], k);
      EscapedLead(text[0], Quoted(text[1..], k));
      assert text == [text[0]] + text[1..];
    }
  }

  // ------------------------------------------------------------- unambiguous

  lemma EscapedUnambiguous(c: char, d: char, r: string, s: string)
    requires Escaped(c) + r == Escaped(d) + s
    ensures c == d && r == s
  {
    var t := Escaped(c) + r;
    assert t[0] == Escaped(c)[0] == Escaped(d)[0];
    if t[0] == '\\' {
      assert t[1] == Escaped(c)[1] == Escaped(d)[1];
      if t[1] == 'u' {
        assert t[4] == Escaped(c)[4] == Escaped(d)[4];
        assert t[5] == Escaped(c)[5] == Escaped(d)[5];
      }
    }
    assert |Escaped(c)| == |Escaped(d)|;
    assert r == t[|Escaped(c)|..] && s == t[|Escaped(d)|..];
  }

  /** What two texts share at the front can be dropped. */
  lemma Cancel(a: string, r: string, s: string)
    requires a + r == a + s
    ensures r == s
  {
    assert r == (a + r)[|a|..] && s == (a + s)[|a|..];
  }

  lemma EscapedLead(c: char, r: string)
    ensures (Escaped(c) + r)[0] != '"'
  {
  }

  lemma {:induction false} QuotedUnambiguous(a: string, b: string, r: string, s: string)
    requires Quoted(a, r) == Quoted(b, s)
    ensures a == b && r == s
  {
    if a != "" { EscapedLead(a[0], Quoted(a[1..], r)); }
    if b != "" { EscapedLead(b[0], Quoted(b[1..], s)); }
    if a == "" {
      Cancel(['"'], r, s);
    } else {
      EscapedUnambiguous(a[0], b[0], Quoted(a[1..], r), Quoted(b[1..], s));
      QuotedUnambiguous(a[1..], b[1..], r, s);
      assert a == [a[0]] + a[1..] && b == [b[0]] + b[1..];
    }
  }

  /** What follows a value: nothing, or a character no number goes on with. */
  predicate Stops(r: string) { r == "" || !NumberChar(r[0]) }

  predicate IsLexeme(a: string) { a != "" && forall i :: 0 <= i < |a| ==> NumberChar(a[i]) }

  lemma LexemeUnambiguous(a: string, b: string, r: string, s: string)
    requires IsLexeme(a) && IsLexeme(b) && Stops(r) && Stops(s) && a + r == b + s
    ensures a == b && r == s
  {
    var t := a + r;
    assert forall i :: 0 <= i < |a| ==> t[i] == a[i];
    assert forall i :: 0 <= i < |b| ==> t[i] == b[i];
    assert |a| < |t| ==> t[|a|] == r[0];
    assert |b| < |t| ==> t[|b|] == s[0];
    assert |a| == |b|;
    assert a == t[..|a|] && b == t[..|b|] && r == t[|a|..] && s == t[|b|..];
  }

  /** The first character of a value tells its kind, and is no punctuation. */
  lemma Lead(v: Value, k: string)
    requires Valid(v)
    ensures Print(v, k) != ""
    ensures var c := Print(v, k)[0];
      && (v.Null? <==> c == 'n') && (v == Bool(true) <==> c == 't') && (v == Bool(false) <==> c == 'f')
      && (v.Text? <==> c == '"') && (v.Array? <==> c == '[') && (v.Object? <==> c == '{')
      && (v.Number? <==> NumberChar(c)) && c != ']'
  {
  }

  /** No text of one value is the beginning of another's: the text determines the value and what follows. */
  lemma {:induction false} PrintUnambiguous(v: Value, w: Value, r: string, s: string)
    requires Valid(v) && Valid(w) && Stops(r) && Stops(s) && Print(v, r) == Print(w, s)
    ensures v == w && r == s
    decreases v, 1
  {
    Lead(v, r);
    Lead(w, s);
    match v
    case Null => Cancel("null", r, s);
    case Bool(b) => Cancel(if b then "true" else "false", r, s);
    case Number(a) => LexemeUnambiguous(a, w.lexeme, r, s);
    case Text(a) =>
      Cancel(['"'], Quoted(a, r), Quoted(w.s, s));
      QuotedUnambiguous(a, w.s, r, s);
    case Array(a) => ArrayUnambiguous(a, w.items, r, s);
    case Object(a) => ObjectUnambiguous(a, w.members, r, s);
  }

  lemma {:induction false} ArrayUnambiguous(a: seq<Value>, b: seq<Value>, r: string, s: string)
    requires (forall v :: v in a ==> Valid(v)) && (forall v :: v in b ==> Valid(v)) && Stops(r) && Stops(s)
    requires Print(Array(a), r) == Print(Array(b), s)
    ensures a == b && r == s
    decreases a, 1
  {
    var ta := if a == [] then [']'] + r else Print(a[0], PrintItems(a[1..], r));
    var tb := if b == [] then [']'] + s else Print(b[0], PrintItems(b[1..], s));
    Cancel(['['], ta, tb);
    assert ta[0] == tb[0];
    if a != [] { assert a[0] in a; Lead(a[0], PrintItems(a[1..], r)); }
    if b != [] { assert b[0] in b; Lead(b[0], PrintItems(b[1..], s)); }
    if a == [] {
      Cancel([']'], r, s);
    } else {
      PrintUnambiguous(a[0], b[0], PrintItems(a[1..], r), PrintItems(b[1..], s));
      ItemsUnambiguous(a[1..], b[1..], r, s);
      assert a == [a[0]] + a[1..] && b == [b[0]] + b[1..];
    }
  }

  lemma {:induction false} ItemsUnambiguous(a: seq<Value>, b: seq<Value>, r: string, s: string)
    requires (forall v :: v in a ==> Valid(v)) && (forall v :: v in b ==> Valid(v))
    requires PrintItems(a, r) == PrintItems(b, s)
    ensures a == b && r == s
    decreases a, 0
  {
    if a == [] || b == [] {
      assert PrintItems(a, r)[0] == PrintItems(b, s)[0];
      Cancel([']'], r, s);
    } else {
      var ra, rb := PrintItems(a[1..], r), PrintItems(b[1..], s);
      Cancel([','], Print(a[0], ra), Print(b[0], rb));
      PrintUnambiguous(a[0], b[0], ra, rb);
      ItemsUnambiguous(a[1..], b[1..], r, s);
      assert a == [a[0]] + a[1..] && b == [b[0]] + b[1..];
    }
  }

  lemma {:induction false} ObjectUnambiguous(a: seq<Named<Value>>, b: seq<Named<Value>>, r: string, s: string)
    requires (forall m :: m in a ==> Valid(m.item)) && (forall m :: m in b ==> Valid(m.item))
    requires Print(Object(a), r) == Print(Object(b), s)
    ensures a == b && r == s
    decreases a, 2
  {
    var ta := if a == [] then ['}'] + r else PrintMember(a, r);
    var tb := if b == [] then ['}'] + s else PrintMember(b, s);
    Cancel(['{'], ta, tb);
    assert ta[0] == tb[0];
    if a == [] {
      Cancel(['}'], r, s);
    } else {
      MemberUnambiguous(a, b, r, s);
    }
  }

  lemma {:induction false} MemberUnambiguous(a: seq<Named<Value>>, b: seq<Named<Value>>, r: string, s: string)
    requires (forall m :: m in a ==> Valid(m.item)) && (forall m :: m in b ==> Valid(m.item))
    requires a != [] && b != [] && PrintMember(a, r) == PrintMember(b, s)
    ensures a == b && r == s
    decreases a, 0
  {
    var ra, rb := PrintMembers(a[1..], r), PrintMembers(b[1..], s);
    var va, vb := Print(a[0].item, ra), Print(b[0].item, rb);
    Cancel(['"'], Quoted(a[0].name, [':'] + va), Quoted(b[0].name, [':'] + vb));
    QuotedUnambiguous(a[0].name, b[0].name, [':'] + va, [':'] + vb);
    Cancel([':'], va, vb);
    assert a[0] in a && b[0] in b;
    PrintUnambiguous(a[0].item, b[0].item, ra, rb);
    MembersUnambiguous(a[1..], b[1..], r, s);
    assert a == [a[0]] + a[1..] && b == [b[0]] + b[1..];
  }

  lemma {:induction false} MembersUnambiguous(a: seq<Named<Value>>, b: seq<Named<Value>>, r: string, s: string)
    requires (forall m :: m in a ==> Valid(m.item)) && (forall m :: m in b ==> Valid(m.item))
    requires PrintMembers(a, r) == PrintMembers(b, s)
    ensures a == b && r == s
    decreases a, 1
  {
    if a == [] || b == [] {
      assert PrintMembers(a, r)[0] == PrintMembers(b, s)[0];
      Cancel(['}'], r, s);
    } else {
      Cancel([','], PrintMember(a, r), PrintMember(b, s));
      MemberUnambiguous(a, b, r, s);
    }
  }

  // --------------------------------------------------- values, read back

  /** The white space of section 2 of RFC 8259. */
  predicate IsBlank(c: char) { c == ' ' || c == '\t' || c == '\n' || c == '\r' }

  function SkipBlanks(s: string): (r: string)
    ensures |r| <= |s|
  {
    if s != "" && IsBlank(s[0]) then SkipBlanks(s[1..]) else s
  }

  function LexemeLength(s: string): (n: nat)
    ensures n <= |s|
  {
    if s == "" || !NumberChar(s[0]) then 0 else 1 + LexemeLength(s[1..])
  }

  /**
    A value by the grammar of sections 2 to 7 of RFC 8259, its members in the
    order of the text, and what follows it. A number is its lexeme.
  */
  function ReadValue(s: string): (r: Option<(Value, string)>)
    ensures r.Some? ==> |r.value.1| < |s|
    decreases |s|, 0
  {
    var t := SkipBlanks(s);
    if t == "" then None
    else if t[0] == '"' then
      match ReadString(t[1..]) case None => None case Some((text, rest)) => Some((Text(text), rest))
    else if t[0] == '[' then
      var u := SkipBlanks(t[1..]);
      if u != "" && u[0] == ']' then Some((Array([]), u[1..]))
      else match ReadItems(t[1..]) case None => None case Some((items, rest)) => Some((Array(items), rest))
    else if t[0] == '{' then
      var u := SkipBlanks(t[1..]);
      if u != "" && u[0] == '}' then Some((Object([]), u[1..]))
      else match ReadMembers(t[1..]) case None => None case Some((members, rest)) => Some((Object(members), rest))
    else if "null" <= t then Some((Null, t[4..]))
    else if "true" <= t then Some((Bool(true), t[4..]))
    else if "false" <= t then Some((Bool(false), t[5..]))
    else
      var n := LexemeLength(t);
      if n == 0 then None else Some((Number(t[..n]), t[n..]))
  }

  /** Items up to the closing bracket. */
  function ReadItems(s: string): (r: Option<(seq<Value>, string)>)
    ensures r.Some? ==> |r.value.1| < |s|
    decreases |s|, 1
  {
    match ReadValue(s)
    case None => None
    case Some((item, rest)) =>
      var u := SkipBlanks(rest);
      if u == "" then None
      else if u[0] == ']' then Some(([item], u[1..]))
      else if u[0] != ',' then None
      else match ReadItems(u[1..])
        case None => None
        case Some((items, after)) => Some(([item] + items, after))
  }

  /** Members up to the closing brace. */
  function ReadMembers(s: string): (r: Option<(seq<Named<Value>>, string)>)
    ensures r.Some? ==> |r.value.1| < |s|
    decreases |s|, 2
  {
    match ReadMember(s)
    case None => None
    case Some((member, rest)) =>
      var u := SkipBlanks(rest);
      if u == "" then None
      else if u[0] == '}' then Some(([member], u[1..]))
      else if u[0] != ',' then None
      else match ReadMembers(u[1..])
        case None => None
        case Some((members, after)) => Some(([member] + members, after))
  }

  function ReadMember(s: string): (r: Option<(Named<Value>, string)>)
    ensures r.Some? ==> |r.value.1| < |s|
    decreases |s|, 1
  {
    var t := SkipBlanks(s);
    if t == "" || t[0] != '"' then None
    else match ReadString(t[1..])
      case None => None
      case Some((name, rest)) =>
        var u := SkipBlanks(rest);
        if u == "" || u[0] != ':' then None
        else match ReadValue(u[1..])
          case None => None
          case Some((item, after)) => Some((Named(name, item), after))
  }

  lemma {:induction false} LexemeRead(lexeme: string, k: string)
    requires (forall i :: 0 <= i < |lexeme| ==> NumberChar(lexeme[i])) && Stops(k)
    ensures LexemeLength(lexeme + k) == |lexeme|
    ensures (lexeme + k)[..|lexeme|] == lexeme && (lexeme + k)[|lexeme|..] == k
  {
    if lexeme == "" {
      assert lexeme + k == k;
    } else {
      assert (lexeme + k)[1..] == lexeme[1..] + k;
      LexemeRead(lexeme[1..], k);
    }
  }

  lemma NumberReadBack(lexeme: string, k: string)
    requires IsLexeme(lexeme) && Stops(k)
    ensures ReadValue(lexeme + k) == Some((Number(lexeme), k))
  {
    LexemeRead(lexeme, k);
    assert (lexeme + k)[0] == lexeme[0];
  }

  lemma WordReadBack(k: string)
    ensures ReadValue("null" + k) == Some((Null, k))
    ensures ReadValue("true" + k) == Some((Bool(true), k))
    ensures ReadValue("false" + k) == Some((Bool(false), k))
  {
    assert ("null" + k)[4..] == k && ("true" + k)[4..] == k && ("false" + k)[5..] == k;
    assert ("null" + k)[0] == 'n' && ("true" + k)[0] == 't' && ("false" + k)[0] == 'f';
  }

  /** Printed text is read back by the grammar, whatever follows it. */
  lemma {:induction false} ValueReadBack(v: Value, k: string)
    requires Valid(v) && Stops(k)
    ensures ReadValue(Print(v, k)) == Some((v, k))
    decreases v, 2
  {
    match v
    case Null => WordReadBack(k);
    case Bool(b) => WordReadBack(k);
    case Number(lexeme) => NumberReadBack(lexeme, k);
    case Text(s) =>
      StringReadBack(s, k);
      assert Print(v, k)[1..] == Quoted(s, k);
    case Array(items) => ArrayReadBack(items, k);
    case Object(members) => ObjectReadBack(members, k);
  }

  lemma {:induction false} ArrayReadBack(items: seq<Value>, k: string)
    requires forall v :: v in items ==> Valid(v)
    ensures ReadValue(Print(Array(items), k)) == Some((Array(items), k))
    decreases items, 1
  {
    if items == [] {
      assert Print(Array(items), k)[1..] == [']'] + k;
    } else {
      Lead(items[0], PrintItems(items[1..], k));
      ItemsReadBack(items, k);
      ArrayRead(Print(items[0], PrintItems(items[1..], k)), items, k);
    }
  }

  lemma ArrayRead(inside: string, items: seq<Value>, k: string)
    requires inside != "" && !IsBlank(inside[0]) && inside[0] != ']' && ReadItems(inside) == Some((items, k))
    ensures ReadValue(['['] + inside) == Some((Array(items), k))
  {
    assert (['['] + inside)[1..] == inside;
  }

  lemma ObjectRead(inside: string, members: seq<Named<Value>>, k: string)
    requires inside != "" && inside[0] == '"' && ReadMembers(inside) == Some((members, k))
    ensures ReadValue(['{'] + inside) == Some((Object(members), k))
  {
    assert (['{'] + inside)[1..] == inside;
  }

  lemma {:induction false} ItemsReadBack(items: seq<Value>, k: string)
    requires items != [] && forall v :: v in items ==> Valid(v)
    ensures ReadItems(Print(items[0], PrintItems(items[1..], k))) == Some((items, k))
    decreases items, 0
  {
    var more := items[1..];
    var rest := PrintItems(more, k);
    ValueReadBack(items[0], rest);
    if more != [] {
      assert rest[1..] == Print(more[0], PrintItems(more[1..], k));
      ItemsReadBack(more, k);
    } else {
      assert rest[1..] == k;
    }
    assert items == [items[0]] + more;
    ItemsStep(Print(items[0], rest), items[0], rest, more, k);
  }

  lemma ItemsStep(s: string, item: Value, rest: string, more: seq<Value>, k: string)
    requires ReadValue(s) == Some((item, rest)) && rest != "" && (rest[0] == ']' || rest[0] == ',')
    requires if rest[0] == ']' then more == [] && k == rest[1..] else ReadItems(rest[1..]) == Some((more, k))
    ensures ReadItems(s) == Some(([item] + more, k))
  {
    assert SkipBlanks(rest) == rest && [item] + [] == [item];
  }

  lemma {:induction false} ObjectReadBack(members: seq<Named<Value>>, k: string)
    requires forall m :: m in members ==> Valid(m.item)
    ensures ReadValue(Print(Object(members), k)) == Some((Object(members), k))
    decreases members, 2
  {
    if members == [] {
      assert Print(Object(members), k)[1..] == ['}'] + k;
    } else {
      MembersReadBack(ReadMembers, members, k);
      ObjectRead(PrintMember(members, k), members, k);
    }
  }

  /** A stand-in for `ReadMembers`, known only where it is asked for. */
  type MembersReader = string -> Option<(seq<Named<Value>>, string)>

  ghost predicate ReadsMembers(read: MembersReader) {
    forall s {:trigger ReadMembers(s)} :: read(s) == ReadMembers(s)
  }

  lemma {:induction false} MembersReadBack(read: MembersReader, members: seq<Named<Value>>, k: string)
    requires ReadsMembers(read) && members != [] && forall m :: m in members ==> Valid(m.item)
    ensures read(PrintMember(members, k)) == Some((members, k))
    decreases members, 1
  {
    var more := members[1..];
    var rest := PrintMembers(more, k);
    MemberReadBack(members[0], rest);
    if more != [] {
      assert rest[1..] == PrintMember(more, k);
      MembersReadBack(read, more, k);
    } else {
      assert rest[1..] == k;
    }
    assert members == [members[0]] + more;
    MembersStep(read, PrintMember(members, k), members[0], rest, more, k);
  }

  lemma MembersStep(read: MembersReader, s: string, m: Named<Value>, rest: string, more: seq<Named<Value>>, k: string)
    requires ReadsMembers(read) && ReadMember(s) == Some((m, rest)) && rest != "" && (rest[0] == '}' || rest[0] == ',')
    requires if rest[0] == '}' then more == [] && k == rest[1..] else read(rest[1..]) == Some((more, k))
    ensures read(s) == Some(([m] + more, k))
  {
    assert SkipBlanks(rest) == rest && [m] + [] == [m];
    assert read(s) == ReadMembers(s) && read(rest[1..]) == ReadMembers(rest[1..]);
  }

  lemma {:induction false} MemberReadBack(m: Named<Value>, rest: string)
    requires Valid(m.item) && Stops(rest)
    ensures ReadMember(['"'] + Quoted(m.name, [':'] + Print(m.item, rest))) == Some((m, rest))
    decreases m, 0
  {
    var after := [':'] + Print(m.item, rest);
    var s := ['"'] + Quoted(m.name, after);
    assert s[1..] == Quoted(m.name, after) && after[1..] == Print(m.item, rest);
    StringReadBack(m.name, after);
    ValueReadBack(m.item, rest);
  }

  // ---------------------------------------------------------------- identity

  lemma {:induction false} NormalizeValid(v: Value)
    requires Valid(v)
    ensures Valid(Normalize(v))
    decreases v
  {
    match v
    case Array(items) =>
      forall i | 0 <= i < |items| ensures Valid(NormalizeItems(items)[i]) { NormalizeValid(items[i]); }
    case Object(members) =>
      var normal := NormalizeMembers(members);
      forall i | 0 <= i < |members| ensures Valid(normal[i].item) { NormalizeValid(members[i].item); }
      SortDistinct(normal);
    case _ =>
  }

  /** Sorting makes equal exactly what differs only in the order of keys. */
  lemma {:induction false} NormalizeSame(v: Value, w: Value)
    requires Valid(v) && Valid(w)
    ensures Normalize(v) == Normalize(w) <==> Same(v, w)
    decreases v, 1
  {
    if v.Array? && w.Array? {
      ItemsSame(v, w);
    } else if v.Object? && w.Object? {
      MembersSame(v, w);
    }
  }

  lemma {:induction false} ItemsSame(v: Value, w: Value)
    requires v.Array? && w.Array? && Valid(v) && Valid(w)
    ensures Normalize(v) == Normalize(w) <==> Same(v, w)
    decreases v, 0
  {
    var a, b := v.items, w.items;
    var na, nb := NormalizeItems(a), NormalizeItems(b);
    if |a| == |b| {
      forall i | 0 <= i < |a| ensures na[i] == nb[i] <==> Same(a[i], b[i]) { NormalizeSame(a[i], b[i]); }
      assert na == nb <==> forall i :: 0 <= i < |a| ==> na[i] == nb[i];
    }
  }

  lemma {:induction false} MembersSame(v: Value, w: Value)
    requires v.Object? && w.Object? && Valid(v) && Valid(w)
    ensures Normalize(v) == Normalize(w) <==> Same(v, w)
    decreases v, 0
  {
    var a, b := v.members, w.members;
    var na, nb := NormalizeMembers(a), NormalizeMembers(b);
    forall i, j | 0 <= i < |a| && 0 <= j < |b| && a[i].name == b[j].name
      ensures na[i] == nb[j] <==> Same(a[i].item, b[j].item)
    {
      NormalizeSame(a[i].item, b[j].item);
    }
    SortedIff(a, b, na, nb);
  }

  /** Two objects are equal once sorted when they have the same keys with the same values. */
  lemma SortedIff(a: seq<Named<Value>>, b: seq<Named<Value>>, na: seq<Named<Value>>, nb: seq<Named<Value>>)
    requires SameNames(a, na) && SameNames(b, nb) && DistinctNames(a) && DistinctNames(b)
    ensures Sort(na) == Sort(nb) <==>
      && KeysIn(a, b) && KeysIn(b, a)
      && forall i, j :: 0 <= i < |a| && 0 <= j < |b| && a[i].name == b[j].name ==> na[i] == nb[j]
  {
    if Sort(na) == Sort(nb) {
      SortedSame(a, b, na, nb);
      SortedSame(b, a, nb, na);
    } else if KeysIn(a, b) && KeysIn(b, a)
      && forall i, j :: 0 <= i < |a| && 0 <= j < |b| && a[i].name == b[j].name ==> na[i] == nb[j] {
      SameSorts(a, b, na, nb);
    }
  }

  ghost predicate SameNames(a: seq<Named<Value>>, b: seq<Named<Value>>) {
    |a| == |b| && forall i :: 0 <= i < |a| ==> a[i].name == b[i].name
  }

  lemma SameSorts(a: seq<Named<Value>>, b: seq<Named<Value>>, na: seq<Named<Value>>, nb: seq<Named<Value>>)
    requires SameNames(a, na) && SameNames(b, nb) && DistinctNames(a) && DistinctNames(b)
    requires KeysIn(a, b) && KeysIn(b, a)
    requires forall i, j :: 0 <= i < |a| && 0 <= j < |b| && a[i].name == b[j].name ==> na[i] == nb[j]
    ensures Sort(na) == Sort(nb)
  {
    MembersIn(a, b, na, nb);
    MembersIn(b, a, nb, na);
    SortSorted(na);
    SortSorted(nb);
    SortDistinct(na);
    SortDistinct(nb);
    SortedUnique(Sort(na), Sort(nb));
  }

  /** Each normal member of one object is one of the other. */
  lemma MembersIn(a: seq<Named<Value>>, b: seq<Named<Value>>, na: seq<Named<Value>>, nb: seq<Named<Value>>)
    requires |na| == |a| && |nb| == |b| && KeysIn(a, b)
    requires forall i, j :: 0 <= i < |a| && 0 <= j < |b| && a[i].name == b[j].name ==> na[i] == nb[j]
    ensures forall e :: e in na ==> e in nb
  {
    forall e | e in na ensures e in nb {
      var i :| 0 <= i < |na| && na[i] == e;
      var j :| 0 <= j < |b| && b[j].name == a[i].name;
      assert nb[j] == e;
    }
  }

  /** Equal after sorting: every member has its counterpart. */
  lemma Counterpart(a: seq<Named<Value>>, b: seq<Named<Value>>, na: seq<Named<Value>>, nb: seq<Named<Value>>, i: nat)
    returns (j: nat)
    requires SameNames(a, na) && SameNames(b, nb) && Sort(na) == Sort(nb) && i < |a|
    ensures j < |b| && b[j].name == a[i].name && nb[j] == na[i]
  {
    assert na[i] in na && na[i] in Sort(na) && na[i] in nb;
    j :| 0 <= j < |nb| && nb[j] == na[i];
    assert nb[j].name == b[j].name && na[i].name == a[i].name;
  }

  lemma SortedSame(a: seq<Named<Value>>, b: seq<Named<Value>>, na: seq<Named<Value>>, nb: seq<Named<Value>>)
    requires SameNames(a, na) && SameNames(b, nb) && DistinctNames(b) && Sort(na) == Sort(nb)
    ensures KeysIn(a, b)
    ensures forall i, j :: 0 <= i < |a| && 0 <= j < |b| && a[i].name == b[j].name ==> na[i] == nb[j]
  {
    forall i | 0 <= i < |a| ensures exists j :: 0 <= j < |b| && b[j].name == a[i].name {
      var j := Counterpart(a, b, na, nb, i);
    }
    forall i, j | 0 <= i < |a| && 0 <= j < |b| && a[i].name == b[j].name ensures na[i] == nb[j] {
      var l := Counterpart(a, b, na, nb, i);
      assert l == j;
    }
  }

  /** Every object's keys come in byte order, at every depth. */
  ghost predicate KeysAscend(v: Value)
    decreases v
  {
    match v
    case Array(items) => forall item :: item in items ==> KeysAscend(item)
    case Object(members) =>
      && (forall i, j :: 0 <= i < j < |members| ==> Precedes(members[i].name, members[j].name))
      && forall m :: m in members ==> KeysAscend(m.item)
    case _ => true
  }

  lemma SortedAscends(members: seq<Named<Value>>)
    requires Sorted(members) && DistinctNames(members)
    ensures forall i, j :: 0 <= i < j < |members| ==> Precedes(members[i].name, members[j].name)
  {
    forall i, j | 0 <= i < j < |members| ensures Precedes(members[i].name, members[j].name) {
      LessTotal(members[i].name, members[j].name);
      LessIsPrecedes(members[i].name, members[j].name);
    }
  }

  lemma {:induction false} NormalAscends(v: Value)
    requires Valid(v)
    ensures KeysAscend(Normalize(v))
    decreases v
  {
    match v
    case Array(items) =>
      forall i | 0 <= i < |items| ensures KeysAscend(NormalizeItems(items)[i]) { NormalAscends(items[i]); }
    case Object(members) =>
      var normal := NormalizeMembers(members);
      forall i | 0 <= i < |members| ensures KeysAscend(normal[i].item) { NormalAscends(members[i].item); }
      SortSorted(normal);
      SortDistinct(normal);
      SortedAscends(Sort(normal));
    case _ =>
  }

  /** Sorting again changes nothing. */
  lemma {:induction false} NormalizeTwice(v: Value)
    requires Valid(v)
    ensures Normalize(Normalize(v)) == Normalize(v)
    decreases v
  {
    match v
    case Array(items) =>
      var normal := NormalizeItems(items);
      forall i | 0 <= i < |items| ensures Normalize(normal[i]) == normal[i] { NormalizeTwice(items[i]); }
      assert NormalizeItems(normal) == normal;
    case Object(members) =>
      var normal := NormalizeMembers(members);
      forall i | 0 <= i < |members| ensures Normalize(normal[i].item) == normal[i].item { NormalizeTwice(members[i].item); }
      NormalMembers(Sort(normal));
      SortSorted(normal);
      SortDistinct(normal);
      SortSorted(Sort(normal));
      SortDistinct(Sort(normal));
      SortedUnique(Sort(Sort(normal)), Sort(normal));
    case _ =>
  }

  lemma NormalMembers(members: seq<Named<Value>>)
    requires forall m :: m in members ==> Normalize(m.item) == m.item
    ensures NormalizeMembers(members) == members
  {
    forall i | 0 <= i < |members| ensures NormalizeMembers(members)[i] == members[i] {
      assert members[i] in members;
    }
  }

  /**
    What the canonical text is: read by the grammar it is one value and
    nothing else, the given one up to the order of keys, and every object's
    keys in it ascend.
  */
  lemma CanonicalReadBack(v: Value)
    requires Valid(v)
    ensures var r := ReadValue(Canonical(v)); r.Some? && r.value.1 == "" && Same(v, r.value.0) && KeysAscend(r.value.0)
  {
    NormalizeValid(v);
    ValueReadBack(Normalize(v), "");
    NormalAscends(v);
    NormalizeTwice(v);
    NormalizeSame(v, Normalize(v));
  }

  /** The canonical text is an identity: equal texts are the same value up to key order, and conversely. */
  lemma CanonicalIdentifies(v: Value, w: Value)
    requires Valid(v) && Valid(w)
    ensures Canonical(v) == Canonical(w) <==> Same(v, w)
  {
    NormalizeValid(v);
    NormalizeValid(w);
    NormalizeSame(v, w);
    if Canonical(v) == Canonical(w) {
      PrintUnambiguous(Normalize(v), Normalize(w), "", "");
    }
  }

  // ---------------------------------------------------------------- printing

  lemma {:induction false} QuotedThen(s: string, k: string)
    ensures Quoted(s, k) == Quoted(s, "") + k
  {
    if s != "" {
      QuotedThen(s[1..], k);
      assert Escaped(s[0]) + (Quoted(s[1..], "") + k) == Escaped(s[0]) + Quoted(s[1..], "") + k;
    }
  }

  /** What follows a value is just appended. */
  lemma {:induction false} PrintThen(v: Value, k: string)
    ensures Print(v, k) == Print(v, "") + k
    decreases v, 1
  {
    match v
    case Text(s) => QuotedThen(s, k);
    case Array(items) =>
      if items != [] {
        PrintItemsThen(items[1..], k);
        PrintThen(items[0], PrintItems(items[1..], k));
        PrintThen(items[0], PrintItems(items[1..], ""));
      }
    case Object(members) => if members != [] { PrintMemberThen(members, k); }
    case _ =>
  }

  lemma {:induction false} PrintItemsThen(items: seq<Value>, k: string)
    ensures PrintItems(items, k) == PrintItems(items, "") + k
    decreases items, 0
  {
    if items != [] {
      PrintItemsThen(items[1..], k);
      PrintThen(items[0], PrintItems(items[1..], k));
      PrintThen(items[0], PrintItems(items[1..], ""));
    }
  }

  lemma {:induction false} PrintMemberThen(members: seq<Named<Value>>, k: string)
    requires members != []
    ensures PrintMember(members, k) == PrintMember(members, "") + k
    decreases members, 0
  {
    var rest, rest0 := PrintMembers(members[1..], k), PrintMembers(members[1..], "");
    PrintMembersThen(members[1..], k);
    PrintThen(members[0].item, rest);
    PrintThen(members[0].item, rest0);
    QuotedThen(members[0].name, [':'] + Print(members[0].item, rest));
    QuotedThen(members[0].name, [':'] + Print(members[0].item, rest0));
    assert Print(members[0].item, rest) == Print(members[0].item, rest0) + k;
  }

  lemma {:induction false} PrintMembersThen(members: seq<Named<Value>>, k: string)
    ensures PrintMembers(members, k) == PrintMembers(members, "") + k
    decreases members, 1
  {
    if members != [] {
      PrintMemberThen(members, k);
    }
  }

  /** Values may be normalised before or after the keys are sorted. */
  lemma {:induction false} InsertNormal(m: Named<Value>, s: seq<Named<Value>>)
    ensures NormalizeMembers(Insert(m, s)) == Insert(Named(m.name, Normalize(m.item)), NormalizeMembers(s))
  {
    if s != [] && Less(s[0].name, m.name) {
      InsertNormal(m, s[1..]);
      assert Insert(m, s) == [s[0]] + Insert(m, s[1..]);
    }
  }

  lemma {:induction false} SortNormal(s: seq<Named<Value>>)
    ensures NormalizeMembers(Sort(s)) == Sort(NormalizeMembers(s))
  {
    if s != [] {
      SortNormal(s[1..]);
      InsertNormal(s[0], Sort(s[1..]));
    }
  }

  /** A member without its comma. */
  function Piece(m: Named<Value>): string {
    ['"'] + Quoted(m.name, "") + ":" + Print(m.item, "")
  }

  lemma JoinFive(a: string, b: string, c: string, d: string, e: string)
    ensures a + (b + (c + (d + e))) == a + b + c + d + e
  {
  }

  lemma MemberSplit(members: seq<Named<Value>>)
    requires members != []
    ensures PrintMember(members, "") == Piece(members[0]) + PrintMembers(members[1..], "")
  {
    var rest := PrintMembers(members[1..], "");
    PrintThen(members[0].item, rest);
    QuotedThen(members[0].name, [':'] + Print(members[0].item, rest));
    JoinFive(['"'], Quoted(members[0].name, ""), ":", Print(members[0].item, ""), rest);
  }

  /** What is left of an array's text once `i` items are written. */
  function ItemsLeft(items: seq<Value>, i: nat): string
    requires i <= |items|
  {
    if 0 < i || items == [] then PrintItems(items[i..], "") else Print(items[0], PrintItems(items[1..], ""))
  }

  lemma NextItem(items: seq<Value>, i: nat, text: string)
    requires i < |items|
    ensures text + ItemsLeft(items, i)
      == (if i == 0 then text else text + ",") + Print(items[i], "") + ItemsLeft(items, i + 1)
  {
    assert items[i..][1..] == items[i + 1..];
    PrintThen(items[i], PrintItems(items[i + 1..], ""));
  }

  function MembersLeft(members: seq<Named<Value>>, i: nat): string
    requires i <= |members|
  {
    if 0 < i || members == [] then PrintMembers(members[i..], "") else PrintMember(members, "")
  }

  lemma NextMember(members: seq<Named<Value>>, i: nat, text: string)
    requires i < |members|
    ensures text + MembersLeft(members, i)
      == (if i == 0 then text else text + ",") + Piece(members[i]) + MembersLeft(members, i + 1)
  {
    assert members[i..][1..] == members[i + 1..] && members[i..][0] == members[i];
    assert members[0..] == members;
    MemberSplit(members[i..]);
  }

  /** `canonical_json`: appends the canonical text to `out`. */
  method Append(v: Value, out: string) returns (text: string)
    ensures text == out + Canonical(v)
    decreases v, 1
  {
    match v
    case Array(items) => text := AppendItems(v, out);
    case Object(members) => text := AppendMembers(v, out);
    case _ => text := out + Print(v, "");
  }

  method AppendItems(v: Value, out: string) returns (text: string)
    requires v.Array?
    ensures text == out + Canonical(v)
    decreases v, 0, 2
  {
    text := out + ['['];
    ghost var normal := NormalizeItems(v.items);
    assert Canonical(v) == ['['] + ItemsLeft(normal, 0);
    for i := 0 to |v.items|
      invariant text + ItemsLeft(normal, i) == out + Canonical(v)
    {
      NextItem(normal, i, text);
      if i > 0 { text := text + ","; }
      text := Append(v.items[i], text);
    }
    text := text + [']'];
  }

  method AppendMembers(v: Value, out: string) returns (text: string)
    requires v.Object?
    ensures text == out + Canonical(v)
    decreases v, 0, 2
  {
    var keys := Sort(v.members);
    ObjectText(v);
    Regroup(out, ['{'], MembersLeft(NormalizeMembers(keys), 0));
    text := AppendKeys(v, keys, out + ['{']);
  }

  lemma ObjectText(v: Value)
    requires v.Object?
    ensures Canonical(v) == ['{'] + MembersLeft(NormalizeMembers(Sort(v.members)), 0)
  {
    SortNormal(v.members);
  }

  /** The loop over the sorted keys, and the closing brace. */
  method AppendKeys(ghost v: Value, keys: seq<Named<Value>>, out: string) returns (text: string)
    requires v.Object? && forall m :: m in keys ==> m in v.members
    ensures text == out + MembersLeft(NormalizeMembers(keys), 0)
    decreases v, 0, 1
  {
    text := out;
    ghost var normal := NormalizeMembers(keys);
    for i := 0 to |keys|
      invariant text + MembersLeft(normal, i) == out + MembersLeft(normal, 0)
    {
      NextMember(normal, i, text);
      if i > 0 { text := text + ","; }
      text := AppendMember(v, keys[i], text);
    }
    text := text + ['}'];
  }

  method AppendMember(ghost v: Value, m: Named<Value>, out: string) returns (text: string)
    requires v.Object? && m in v.members
    ensures text == out + Piece(Named(m.name, Normalize(m.item)))
    decreases v, 0, 0
  {
    text := out + (['"'] + Quoted(m.name, "") + ":");
    text := Append(m.item, text);
  }
}
