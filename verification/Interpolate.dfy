/**
  Variables in compose files (`crates/rustlet-compose/src/interpolate.rs`):
  what substitution computes, against templates with a lazy evaluation.
*/
module Interpolate {
  import opened Common
  import opened ParameterExpansion

  datatype SubstituteError =
    | Unclosed
    | NoName
    | BadOperator
    | RequiredVariable(name: string, message: string)

  type Lookup = string -> Option<string>

  /** A value and the unset variables noted so far, or an error. */
  datatype Outcome = Substituted(value: string, unset: seq<string>) | Failed(error: SubstituteError)

  predicate IsNameStart(c: char) { 'a' <= c <= 'z' || 'A' <= c <= 'Z' || c == '_' }

  predicate IsNameChar(c: char) { IsNameStart(c) || '0' <= c <= '9' }

  // --------------------------------------------------------- what is computed

  function Before(text: string, outcome: Outcome): Outcome {
    match outcome
    case Substituted(value, unset) => Substituted(text + value, unset)
    case Failed(_) => outcome
  }

  /** `note`: a name is listed once. */
  function Noted(unset: seq<string>, name: string): seq<string> {
    if name in unset then unset else unset + [name]
  }

  function NameRun(s: string): (n: nat)
    ensures n <= |s|
  {
    if s == "" || !IsNameChar(s[0]) then 0 else 1 + NameRun(s[1..])
  }

  /** `name_length`: how long the variable name at the start of `s` is. */
  function NameLength(s: string): (n: nat)
    ensures n <= |s|
  {
    if s == "" || !IsNameStart(s[0]) then 0 else NameRun(s)
  }

  /** How far one step of the scan goes: a `$$` is stepped over whole. */
  function Stride(s: string): (n: nat)
    requires s != ""
    ensures 1 <= n <= |s|
  {
    if s[0] == '$' && |s| > 1 && s[1] == '$' then 2 else 1
  }

  function Deeper(c: char, depth: nat): nat
    requires depth > 0
  {
    if c == '{' then depth + 1 else if c == '}' then depth - 1 else depth
  }

  /** What follows the `}` that closes the last of the `depth` braces opened so far. */
  function AfterBalance(s: string, depth: nat): (r: Option<string>)
    requires depth > 0
    ensures r.Some? ==> |r.value| < |s|
    decreases |s|
  {
    if s == "" then None
    else if Deeper(s[0], depth) == 0 then Some(s[1..])
    else AfterBalance(s[Stride(s)..], Deeper(s[0], depth))
  }

  /** What follows the first `}` that no `$$` hides. */
  function AfterFirst(s: string): (r: Option<string>)
    ensures r.Some? ==> |r.value| < |s|
    decreases |s|
  {
    if s == "" then None else if s[0] == '}' then Some(s[1..]) else AfterFirst(s[Stride(s)..])
  }

  /** `closing_brace`: where the balancing `}` is, else the first. */
  function ClosingBrace(s: string): (r: Option<nat>)
    ensures r.Some? ==> r.value < |s|
  {
    match if AfterBalance(s, 1).Some? then AfterBalance(s, 1) else AfterFirst(s)
    case None => None
    case Some(rest) => Some(|s| - |rest| - 1)
  }

  /** The operator a tail starts with, and whether it has a colon. */
  function OperatorAt(tail: string): Option<(bool, Operator)> {
    if tail == "" then None
    else
      var colon := tail[0] == ':';
      if colon && |tail| == 1 then None
      else match if colon then tail[1] else tail[0]
        case '-' => Some((colon, Default))
        case '?' => Some((colon, Require))
        case '+' => Some((colon, Alternate))
        case _ => None
  }

  /** Is the value there? With a colon, an empty one is not. */
  predicate Present(value: Option<string>, colon: bool) {
    value.Some? && (colon ==> value.value != "")
  }

  /** `substitute_into`, from the left. */
  function Substitute(lookup: Lookup, s: string, unset: seq<string>): Outcome
    decreases |s|, 0
  {
    if s == "" then Substituted("", unset)
    else if s[0] != '$' then Before([s[0]], Substitute(lookup, s[1..], unset))
    else if |s| > 1 && s[1] == '$' then Before("$", Substitute(lookup, s[2..], unset))
    else if |s| > 1 && s[1] == '{' then
      match ClosingBrace(s[2..])
      case None => Failed(Unclosed)
      case Some(close) =>
        match Braced(lookup, s[2..][..close], unset)
        case Failed(e) => Failed(e)
        case Substituted(value, unset') => Before(value, Substitute(lookup, s[2..][close + 1..], unset'))
    else
      var n := NameLength(s[1..]);
      if n == 0 then Before("$", Substitute(lookup, s[1..], unset))
      else
        match lookup(s[1..][..n])
        case Some(v) => Before(v, Substitute(lookup, s[1..][n..], unset))
        case None => Substitute(lookup, s[1..][n..], Noted(unset, s[1..][..n]))
  }

  /** `braced`: what is between `${` and its `}`. */
  function Braced(lookup: Lookup, expr: string, unset: seq<string>): Outcome
    decreases |expr|, 1
  {
    var n := NameLength(expr);
    if n == 0 then Failed(NoName)
    else
      var name, tail := expr[..n], expr[n..];
      var value := lookup(name);
      if tail == "" then
        (match value case Some(v) => Substituted(v, unset) case None => Substituted("", Noted(unset, name)))
      else
        match OperatorAt(tail)
        case None => Failed(BadOperator)
        case Some((colon, op)) =>
          var word := if colon then tail[2..] else tail[1..];
          if Present(value, colon) then
            if op.Alternate? then Substitute(lookup, word, unset) else Substituted(value.value, unset)
          else
            match op
            case Default => Substitute(lookup, word, unset)
            case Alternate => Substituted("", unset)
            case Require =>
              match Substitute(lookup, word, unset)
              case Failed(e) => Failed(e)
              case Substituted(message, _) => Failed(RequiredVariable(name, message))
  }

  // --------------------------------------------------------------- templates

  datatype Part =
    | Character(c: char)
    | EscapedDollar             // $$
    | LoneDollar                // a `$` that starts nothing
    | Variable(name: string)    // $name
    | Braces(name: string)      // ${name}
    | Modified(name: string, colon: bool, op: Operator, word: seq<Part>)

  function Symbol(op: Operator): char {
    match op case Default => '-' case Require => '?' case Alternate => '+'
  }

  /** The text of a template, and then `k`. */
  function Print(parts: seq<Part>, k: string): string
    decreases parts, 0
  {
    if parts == [] then k else PrintPart(parts[0], Print(parts[1..], k))
  }

  function PrintPart(part: Part, k: string): string
    decreases part, 1
  {
    match part
    case Character(c) => [c] + k
    case EscapedDollar => ['$'] + (['$'] + k)
    case LoneDollar => ['$'] + k
    case Variable(name) => ['$'] + (name + k)
    case Braces(name) => ['$'] + (['{'] + (name + (['}'] + k)))
    case Modified(_, _, _, _) => ['$'] + (['{'] + PrintInside(part, ['}'] + k))
  }

  /** What is between the braces, and then `k`. */
  function PrintInside(part: Part, k: string): string
    requires part.Modified?
    decreases part, 0
  {
    part.name + PrintModifier(part.colon, part.op, Print(part.word, k))
  }

  function PrintModifier(colon: bool, op: Operator, k: string): string {
    if colon then [':'] + ([Symbol(op)] + k) else [Symbol(op)] + k
  }

  predicate IsName(name: string) {
    name != "" && IsNameStart(name[0]) && forall i :: 0 <= i < |name| ==> IsNameChar(name[i])
  }

  /** The level of plain braces after the parts, from `level`; none when one closes that was not opened. */
  function Level(parts: seq<Part>, level: nat): Option<nat> {
    if parts == [] then Some(level)
    else match NextLevel(parts[0], level)
      case None => None
      case Some(next) => Level(parts[1..], next)
  }

  /** Each part is what its text will be read as, given what follows; words balance their braces. */
  ghost predicate WellFormed(parts: seq<Part>, k: string)
    decreases parts, 0
  {
    parts == [] || (WellFormedPart(parts[0], Print(parts[1..], k)) && WellFormed(parts[1..], k))
  }

  ghost predicate WellFormedPart(part: Part, k: string)
    decreases part, 1
  {
    match part
    case Character(c) => c != '$'
    case EscapedDollar => true
    case LoneDollar => k == "" || (k[0] != '$' && k[0] != '{' && !IsNameStart(k[0]))
    case Variable(name) => IsName(name) && (k == "" || !IsNameChar(k[0]))
    case Braces(name) => IsName(name)
    case Modified(name, _, _, word) => IsName(name) && WellFormed(word, "") && Level(word, 0) == Some(0)
  }

  /** The lazy value of a template: a word is evaluated only where it is used. */
  function Eval(lookup: Lookup, parts: seq<Part>, unset: seq<string>): Outcome
    decreases parts, 0
  {
    if parts == [] then Substituted("", unset)
    else
      match EvalPart(lookup, parts[0], unset)
      case Failed(e) => Failed(e)
      case Substituted(value, unset') => Before(value, Eval(lookup, parts[1..], unset'))
  }

  function EvalPart(lookup: Lookup, part: Part, unset: seq<string>): Outcome
    decreases part, 1
  {
    match part
    case Character(c) => Substituted([c], unset)
    case EscapedDollar => Substituted("$", unset)
    case LoneDollar => Substituted("$", unset)
    case Modified(name, colon, op, word) =>
      if Present(lookup(name), colon) then
        if op.Alternate? then Eval(lookup, word, unset) else Substituted(lookup(name).value, unset)
      else
        (match op
         case Default => Eval(lookup, word, unset)
         case Alternate => Substituted("", unset)
         case Require =>
           match Eval(lookup, word, unset)
           case Failed(e) => Failed(e)
           case Substituted(message, _) => Failed(RequiredVariable(name, message)))
    case _ =>
      match lookup(part.name)
      case Some(v) => Substituted(v, unset)
      case None => Substituted("", Noted(unset, part.name))
  }

  /** The operators do what the table says, and a word is evaluated only where the table uses it or its message. */
  lemma EvalIsTable(lookup: Lookup, part: Part, unset: seq<string>)
    requires part.Modified?
    ensures EvalPart(lookup, part, unset) ==
      match Table(part.op, part.colon, StateOf(lookup(part.name)))
      case UseParameter => Substituted(lookup(part.name).value, unset)
      case UseWord => Eval(lookup, part.word, unset)
      case UseNull => Substituted("", unset)
      case Fail =>
        match Eval(lookup, part.word, unset)
        case Failed(e) => Failed(e)
        case Substituted(message, _) => Failed(RequiredVariable(part.name, message))
  {
  }

  // ------------------------------------------------------------ the braces

  /** What follows a template is just appended. */
  lemma {:induction false} PrintThen(parts: seq<Part>, k: string)
    ensures Print(parts, k) == Print(parts, "") + k
    decreases parts, 0
  {
    if parts != [] {
      PrintThen(parts[1..], k);
      PrintPartThen(parts[0], Print(parts[1..], ""), k);
    }
  }

  lemma {:induction false} PrintPartThen(part: Part, j: string, k: string)
    ensures PrintPart(part, j + k) == PrintPart(part, j) + k
    decreases part, 1
  {
    if part.Modified? {
      assert (['}'] + j) + k == ['}'] + (j + k);
      PrintInsideThen(part, ['}'] + j, k);
    }
  }

  lemma {:induction false} PrintInsideThen(part: Part, j: string, k: string)
    requires part.Modified?
    ensures PrintInside(part, j + k) == PrintInside(part, j) + k
    decreases part, 0
  {
    PrintThen(part.word, j);
    PrintThen(part.word, j + k);
    assert Print(part.word, j + k) == Print(part.word, j) + k;
    var a, b := PrintModifier(part.colon, part.op, Print(part.word, j)), PrintModifier(part.colon, part.op, Print(part.word, j + k));
    assert b == a + k;
  }

  /** A word is as well formed before its `}` as alone. */
  lemma {:induction false} WellFormedBeforeBrace(parts: seq<Part>, k: string)
    requires WellFormed(parts, "")
    ensures WellFormed(parts, ['}'] + k)
  {
    if parts != [] {
      WellFormedBeforeBrace(parts[1..], k);
      PrintThen(parts[1..], ['}'] + k);
    }
  }

  /** A stand-in for `AfterBalance`, known only where it is asked for. */
  type Balance = (string, nat) -> Option<string>

  ghost predicate Balances(balance: Balance) {
    forall s, depth {:trigger AfterBalance(s, depth)} :: depth > 0 ==> balance(s, depth) == AfterBalance(s, depth)
  }

  /** One character, which does not hide the next. */
  lemma BalanceCharacter(balance: Balance, c: char, k: string, depth: nat)
    requires Balances(balance) && depth > 0 && (c != '$' || k == "" || k[0] != '$')
    ensures balance([c] + k, depth) == if Deeper(c, depth) == 0 then Some(k) else balance(k, Deeper(c, depth))
  {
    assert ([c] + k)[1..] == k;
    assert AfterBalance([c] + k, depth) == if Deeper(c, depth) == 0 then Some(k) else AfterBalance(k, Deeper(c, depth));
  }

  lemma BalanceDollars(balance: Balance, k: string, depth: nat)
    requires Balances(balance) && depth > 0
    ensures balance(['$'] + (['$'] + k), depth) == balance(k, depth)
  {
    var s := ['$'] + (['$'] + k);
    assert s[2..] == k && AfterBalance(s, depth) == AfterBalance(k, depth);
  }

  lemma {:induction false} BalanceName(balance: Balance, name: string, k: string, depth: nat)
    requires Balances(balance) && depth > 0 && forall i :: 0 <= i < |name| ==> IsNameChar(name[i])
    ensures balance(name + k, depth) == balance(k, depth)
  {
    if name == "" {
      assert name + k == k;
    } else {
      assert name + k == [name[0]] + (name[1..] + k);
      BalanceCharacter(balance, name[0], name[1..] + k, depth);
      BalanceName(balance, name[1..], k, depth);
    }
  }

  lemma BalanceVariable(balance: Balance, name: string, k: string, depth: nat)
    requires Balances(balance) && IsName(name) && depth > 0
    ensures balance(['$'] + (name + k), depth) == balance(k, depth)
  {
    BalanceCharacter(balance, '$', name + k, depth);
    BalanceName(balance, name, k, depth);
  }

  /** A `${` and its `}` around something that balances. */
  lemma BalanceBraces(balance: Balance, inside: string, k: string, depth: nat)
    requires Balances(balance) && depth > 0 && balance(inside, depth + 1) == balance(['}'] + k, depth + 1)
    ensures balance(['$'] + (['{'] + inside), depth) == balance(k, depth)
  {
    BalanceCharacter(balance, '$', ['{'] + inside, depth);
    BalanceCharacter(balance, '{', inside, depth);
    BalanceCharacter(balance, '}', k, depth + 1);
  }

  lemma BalanceModifier(balance: Balance, colon: bool, op: Operator, text: string, depth: nat)
    requires Balances(balance) && depth > 0
    ensures balance(PrintModifier(colon, op, text), depth) == balance(text, depth)
  {
    BalanceCharacter(balance, Symbol(op), text, depth);
    if colon { BalanceCharacter(balance, ':', [Symbol(op)] + text, depth); }
  }

  lemma {:induction false} BalanceInside(balance: Balance, part: Part, k: string, depth: nat)
    requires Balances(balance) && part.Modified? && WellFormedPart(part, k) && depth > 0
    ensures balance(PrintInside(part, ['}'] + k), depth) == balance(['}'] + k, depth)
    decreases part, 0
  {
    var text := Print(part.word, ['}'] + k);
    WellFormedBeforeBrace(part.word, k);
    BalanceParts(balance, part.word, 0, depth, ['}'] + k);
    BalanceModifier(balance, part.colon, part.op, text, depth);
    BalanceName(balance, part.name, PrintModifier(part.colon, part.op, text), depth);
  }

  lemma {:induction false} BalancePart(balance: Balance, part: Part, level: nat, depth: nat, k: string)
    requires Balances(balance) && WellFormedPart(part, k) && depth > 0 && NextLevel(part, level).Some?
    ensures balance(PrintPart(part, k), depth + level) == balance(k, depth + NextLevel(part, level).value)
    decreases part, 1
  {
    var d := depth + level;
    match part
    case Character(c) => BalanceCharacter(balance, c, k, d);
    case EscapedDollar => BalanceDollars(balance, k, d);
    case LoneDollar => BalanceCharacter(balance, '$', k, d);
    case Variable(name) => BalanceVariable(balance, name, k, d);
    case Braces(name) =>
      BalanceName(balance, name, ['}'] + k, d + 1);
      BalanceBraces(balance, name + (['}'] + k), k, d);
    case Modified(_, _, _, _) =>
      BalanceInside(balance, part, k, d + 1);
      BalanceBraces(balance, PrintInside(part, ['}'] + k), k, d);
  }

  function NextLevel(part: Part, level: nat): Option<nat> {
    if part == Character('{') then Some(level + 1)
    else if part == Character('}') then (if level == 0 then None else Some(level - 1))
    else Some(level)
  }

  /** Counting braces passes over a template at the level its own plain braces leave. */
  lemma {:induction false} BalanceParts(balance: Balance, parts: seq<Part>, level: nat, depth: nat, k: string)
    requires Balances(balance) && WellFormed(parts, k) && Level(parts, level).Some? && depth > 0
    ensures balance(Print(parts, k), depth + level) == balance(k, depth + Level(parts, level).value)
    decreases parts, 0
  {
    if parts != [] {
      var next := NextLevel(parts[0], level);
      BalancePart(balance, parts[0], level, depth, Print(parts[1..], k));
      BalanceParts(balance, parts[1..], next.value, depth, k);
    }
  }

  /** The closing brace of a text that balances up to it. */
  lemma ClosesAt(inside: string, k: string)
    requires forall balance: Balance :: Balances(balance) ==> balance(inside + (['}'] + k), 1) == balance(['}'] + k, 1)
    ensures ClosingBrace(inside + (['}'] + k)) == Some(|inside|)
  {
    var balance: Balance := (s, d) => if d > 0 then AfterBalance(s, d) else None;
    BalanceCharacter(balance, '}', k, 1);
    assert balance(inside + (['}'] + k), 1) == Some(k);
  }

  lemma InsideThenClose(part: Part, k: string)
    requires part.Modified?
    ensures var inside := PrintInside(part, "");
      && PrintInside(part, ['}'] + k) == inside + (['}'] + k)
      && PrintInside(part, ['}'] + k)[..|inside|] == inside
      && PrintInside(part, ['}'] + k)[|inside| + 1..] == k
  {
    PrintInsideThen(part, "", ['}'] + k);
    CutAt(PrintInside(part, ""), '}', k);
  }

  lemma CutAt(inside: string, c: char, k: string)
    ensures "" + ([c] + k) == [c] + k
    ensures var whole := inside + ([c] + k); whole[..|inside|] == inside && whole[|inside| + 1..] == k
  {
  }

  /** `closing_brace` finds the brace that closes a template's `${`. */
  lemma ClosingBraceFound(part: Part, k: string)
    requires part.Modified? && WellFormedPart(part, k)
    ensures ClosingBrace(PrintInside(part, ['}'] + k)) == Some(|PrintInside(part, "")|)
  {
    InsideThenClose(part, k);
    forall balance: Balance | Balances(balance)
      ensures balance(PrintInside(part, ['}'] + k), 1) == balance(['}'] + k, 1)
    {
      BalanceInside(balance, part, k, 1);
    }
    ClosesAt(PrintInside(part, ""), k);
  }

  // ------------------------------------------------------------ correctness

  lemma {:induction false} NameRunIs(name: string, k: string)
    requires (forall i :: 0 <= i < |name| ==> IsNameChar(name[i])) && (k == "" || !IsNameChar(k[0]))
    ensures NameRun(name + k) == |name| && (name + k)[..|name|] == name && (name + k)[|name|..] == k
  {
    if name == "" {
      assert name + k == k;
    } else {
      assert (name + k)[1..] == name[1..] + k;
      NameRunIs(name[1..], k);
    }
  }

  /** An evaluation, and then the substitution of what follows it. */
  function Then(lookup: Lookup, outcome: Outcome, k: string): Outcome {
    match outcome
    case Failed(e) => Failed(e)
    case Substituted(value, unset) => Before(value, Substitute(lookup, k, unset))
  }

  lemma ThenNothing(lookup: Lookup, outcome: Outcome)
    ensures Then(lookup, outcome, "") == outcome
  {
    if outcome.Substituted? { assert outcome.value + "" == outcome.value; }
  }

  lemma ThenBefore(lookup: Lookup, value: string, outcome: Outcome, k: string)
    ensures Then(lookup, Before(value, outcome), k) == Before(value, Then(lookup, outcome, k))
  {
    if outcome.Substituted? && Substitute(lookup, k, outcome.unset).Substituted? {
      var rest := Substitute(lookup, k, outcome.unset).value;
      assert value + outcome.value + rest == value + (outcome.value + rest);
    }
  }

  lemma BeforeNothing(outcome: Outcome)
    ensures Before("", outcome) == outcome
  {
    if outcome.Substituted? { assert "" + outcome.value == outcome.value; }
  }

  /** The text between the braces is read as the part. */
  lemma {:induction false} BracedPrinted(lookup: Lookup, part: Part, unset: seq<string>)
    requires part.Modified? && WellFormedPart(part, "")
    ensures Braced(lookup, PrintInside(part, ""), unset) == EvalPart(lookup, part, unset)
    decreases part, 0, 0
  {
    var text := Print(part.word, "");
    var tail := PrintModifier(part.colon, part.op, text);
    NameRunIs(part.name, tail);
    assert (part.name + tail)[0] == part.name[0];
    assert tail[if part.colon then 2 else 1..] == text;
    SubstitutePrinted(lookup, part.word, "", unset);
    ThenNothing(lookup, Eval(lookup, part.word, unset));
  }

  lemma {:induction false} PartPrinted(lookup: Lookup, part: Part, k: string, unset: seq<string>)
    requires WellFormedPart(part, k)
    ensures Substitute(lookup, PrintPart(part, k), unset) == Then(lookup, EvalPart(lookup, part, unset), k)
    decreases part, 1
  {
    var s := PrintPart(part, k);
    match part
    case Character(c) => assert s[1..] == k;
    case EscapedDollar => assert s[2..] == k;
    case LoneDollar => assert s[1..] == k;
    case Variable(name) => VariablePrinted(lookup, name, k, unset);
    case Braces(name) => BracesPrinted(lookup, name, k, unset);
    case Modified(_, _, _, _) => ModifiedPrinted(lookup, part, k, unset);
  }

  lemma {:induction false} ModifiedPrinted(lookup: Lookup, part: Part, k: string, unset: seq<string>)
    requires part.Modified? && WellFormedPart(part, k)
    ensures Substitute(lookup, PrintPart(part, k), unset) == Then(lookup, EvalPart(lookup, part, unset), k)
    decreases part, 0, 1
  {
    InsideThenClose(part, k);
    ClosingBraceFound(part, k);
    BracedPrinted(lookup, part, unset);
    BracesRead(lookup, PrintInside(part, ['}'] + k), PrintInside(part, ""), k, unset);
  }

  /** A `${` whose closing brace is found is read as what is between them. */
  lemma BracesRead(lookup: Lookup, inner: string, expr: string, k: string, unset: seq<string>)
    requires ClosingBrace(inner) == Some(|expr|) && inner[..|expr|] == expr && inner[|expr| + 1..] == k
    ensures Substitute(lookup, ['$'] + (['{'] + inner), unset) == Then(lookup, Braced(lookup, expr, unset), k)
  {
    var s := ['$'] + (['{'] + inner);
    assert s[0] == '$' && s[1] == '{' && s[2..] == inner;
    assert s[2..][..|expr|] == expr && s[2..][|expr| + 1..] == k;
  }

  lemma VariablePrinted(lookup: Lookup, name: string, k: string, unset: seq<string>)
    requires IsName(name) && (k == "" || !IsNameChar(k[0]))
    ensures Substitute(lookup, ['$'] + (name + k), unset) == Then(lookup, EvalPart(lookup, Variable(name), unset), k)
  {
    var s := ['$'] + (name + k);
    assert s[1..] == name + k && s[1] == name[0];
    NameRunIs(name, k);
    if lookup(name).None? { BeforeNothing(Substitute(lookup, k, Noted(unset, name))); }
  }

  lemma BracesPrinted(lookup: Lookup, name: string, k: string, unset: seq<string>)
    requires IsName(name)
    ensures Substitute(lookup, ['$'] + (['{'] + (name + (['}'] + k))), unset)
      == Then(lookup, EvalPart(lookup, Braces(name), unset), k)
  {
    forall balance: Balance | Balances(balance) ensures balance(name + (['}'] + k), 1) == balance(['}'] + k, 1) {
      BalanceName(balance, name, ['}'] + k, 1);
    }
    ClosesAt(name, k);
    CutAt(name, '}', k);
    BracesRead(lookup, name + (['}'] + k), name, k, unset);
    BracedName(lookup, name, unset);
  }

  lemma BracedName(lookup: Lookup, name: string, unset: seq<string>)
    requires IsName(name)
    ensures Braced(lookup, name, unset) == EvalPart(lookup, Braces(name), unset)
  {
    NameRunIs(name, "");
    assert name + "" == name;
  }

  /**
    Substitution is the lazy evaluation of the template its text is: the same
    value, the same unset variables, or the same failure.
  */
  lemma {:induction false} SubstitutePrinted(lookup: Lookup, parts: seq<Part>, k: string, unset: seq<string>)
    requires WellFormed(parts, k)
    ensures Substitute(lookup, Print(parts, k), unset) == Then(lookup, Eval(lookup, parts, unset), k)
    decreases parts, 0
  {
    if parts == [] {
      BeforeNothing(Substitute(lookup, k, unset));
    } else {
      var rest := Print(parts[1..], k);
      PartPrinted(lookup, parts[0], rest, unset);
      match EvalPart(lookup, parts[0], unset)
      case Failed(_) =>
      case Substituted(value, unset') =>
        SubstitutePrinted(lookup, parts[1..], k, unset');
        ThenBefore(lookup, value, Eval(lookup, parts[1..], unset'), k);
    }
  }

  lemma SubstitutionIsEvaluation(lookup: Lookup, parts: seq<Part>)
    requires WellFormed(parts, "")
    ensures Substitute(lookup, Print(parts, ""), []) == Eval(lookup, parts, [])
  {
    SubstitutePrinted(lookup, parts, "", []);
    ThenNothing(lookup, Eval(lookup, parts, []));
  }

  // -------------------------------------------------------- unset variables

  /** The variables without an operator or a value that the evaluation uses, in the order it uses them. */
  function Uses(lookup: Lookup, parts: seq<Part>): seq<string>
    decreases parts, 0
  {
    if parts == [] then [] else PartUses(lookup, parts[0]) + Uses(lookup, parts[1..])
  }

  function PartUses(lookup: Lookup, part: Part): seq<string>
    decreases part, 1
  {
    match part
    case Variable(name) => if lookup(name).None? then [name] else []
    case Braces(name) => if lookup(name).None? then [name] else []
    case Modified(name, colon, op, word) =>
      if Present(lookup(name), colon) == op.Alternate? then Uses(lookup, word) else []
    case _ => []
  }

  function NotedAll(unset: seq<string>, names: seq<string>): seq<string>
    decreases |names|
  {
    if names == [] then unset else NotedAll(Noted(unset, names[0]), names[1..])
  }

  lemma {:induction false} NotedAllAppend(unset: seq<string>, a: seq<string>, b: seq<string>)
    ensures NotedAll(unset, a + b) == NotedAll(NotedAll(unset, a), b)
    decreases |a|
  {
    if a == [] {
      assert a + b == b;
    } else {
      assert (a + b)[1..] == a[1..] + b;
      NotedAllAppend(Noted(unset, a[0]), a[1..], b);
    }
  }

  /** What is noted is what is used. */
  lemma {:induction false} EvalNotesUses(lookup: Lookup, parts: seq<Part>, unset: seq<string>)
    ensures Eval(lookup, parts, unset).Substituted? ==>
      Eval(lookup, parts, unset).unset == NotedAll(unset, Uses(lookup, parts))
    decreases parts, 0
  {
    if parts != [] {
      EvalPartNotesUses(lookup, parts[0], unset);
      if EvalPart(lookup, parts[0], unset).Substituted? {
        EvalNotesUses(lookup, parts[1..], EvalPart(lookup, parts[0], unset).unset);
        NotedAllAppend(unset, PartUses(lookup, parts[0]), Uses(lookup, parts[1..]));
      }
    }
  }

  lemma {:induction false} EvalPartNotesUses(lookup: Lookup, part: Part, unset: seq<string>)
    ensures EvalPart(lookup, part, unset).Substituted? ==>
      EvalPart(lookup, part, unset).unset == NotedAll(unset, PartUses(lookup, part))
    decreases part, 1
  {
    match part
    case Modified(_, _, _, word) => EvalNotesUses(lookup, word, unset);
    case Variable(name) => assert [name][1..] == [];
    case Braces(name) => assert [name][1..] == [];
    case _ =>
  }

  function FirstUse(names: seq<string>, name: string): (i: nat)
    requires name in names
    ensures i < |names| && names[i] == name && forall j :: 0 <= j < i ==> names[j] != name
  {
    if names[0] == name then 0
    else
      assert names == [names[0]] + names[1..];
      1 + FirstUse(names[1..], name)
  }

  /** Each name used once, and in the order of its first use. */
  ghost predicate OnceInOrder(unset: seq<string>, names: seq<string>) {
    && (forall name :: name in unset <==> name in names)
    && forall i, j :: 0 <= i < j < |unset| ==>
         unset[i] in names && unset[j] in names && FirstUse(names, unset[i]) < FirstUse(names, unset[j])
  }

  lemma {:induction false} NotedInOrder(before: seq<string>, unset: seq<string>, names: seq<string>)
    requires OnceInOrder(unset, before)
    ensures OnceInOrder(NotedAll(unset, names), before + names)
    decreases |names|
  {
    if names == [] {
      assert before + names == before;
    } else {
      var name, longer := names[0], before + [names[0]];
      assert longer + names[1..] == before + names;
      assert forall x :: x in before ==> FirstUse(longer, x) == FirstUse(before, x) by {
        forall x | x in before ensures FirstUse(longer, x) == FirstUse(before, x) { FirstUseKept(before, name, x); }
      }
      if name !in before {
        assert FirstUse(longer, name) == |before|;
      }
      assert OnceInOrder(Noted(unset, name), longer);
      NotedInOrder(longer, Noted(unset, name), names[1..]);
    }
  }

  lemma FirstUseKept(before: seq<string>, name: string, x: string)
    requires x in before
    ensures FirstUse(before + [name], x) == FirstUse(before, x)
  {
    var longer := before + [name];
    var i, j := FirstUse(before, x), FirstUse(longer, x);
    assert longer[i] == x && forall l :: 0 <= l < i ==> longer[l] == before[l];
    assert i <= j <= i;
  }

  /** `substitute`'s `unset`: exactly the variables used without a value or operator, once each, first use first. */
  lemma UnsetIsUsed(lookup: Lookup, parts: seq<Part>)
    ensures Eval(lookup, parts, []).Substituted? ==>
      OnceInOrder(Eval(lookup, parts, []).unset, Uses(lookup, parts))
  {
    EvalNotesUses(lookup, parts, []);
    NotedInOrder([], [], Uses(lookup, parts));
    assert [] + Uses(lookup, parts) == Uses(lookup, parts);
  }

  // ------------------------------------------------------------ in the source

  method FirstDollar(s: string) returns (i: nat)
    ensures i <= |s| && (i < |s| ==> s[i] == '$') && forall j :: 0 <= j < i ==> s[j] != '$'
  {
    i := 0;
    while i < |s| && s[i] != '$'
      invariant i <= |s| && forall j :: 0 <= j < i ==> s[j] != '$'
    {
      i := i + 1;
    }
  }

  /** Text without a `$` is copied. */
  lemma {:induction false} CopyPlain(lookup: Lookup, s: string, i: nat, unset: seq<string>)
    requires i <= |s| && forall j :: 0 <= j < i ==> s[j] != '$'
    ensures Substitute(lookup, s, unset) == Before(s[..i], Substitute(lookup, s[i..], unset))
  {
    if i == 0 {
      BeforeNothing(Substitute(lookup, s, unset));
      assert s[0..] == s;
    } else {
      CopyPlain(lookup, s[1..], i - 1, unset);
      CopyOne(lookup, s, unset);
      FirstOf(s, i);
      BeforeTwice([s[0]], s[1..i], Substitute(lookup, s[i..], unset));
    }
  }

  lemma CopyOne(lookup: Lookup, s: string, unset: seq<string>)
    requires s != "" && s[0] != '$'
    ensures Substitute(lookup, s, unset) == Before([s[0]], Substitute(lookup, s[1..], unset))
  {
  }

  lemma FirstOf(s: string, i: nat)
    requires 0 < i <= |s|
    ensures s[1..][i - 1..] == s[i..] && s[1..][..i - 1] == s[1..i] && s[..i] == [s[0]] + s[1..i]
  {
  }

  lemma BeforeTwice(a: string, b: string, outcome: Outcome)
    ensures Before(a, Before(b, outcome)) == Before(a + b, outcome)
  {
    if outcome.Substituted? { assert a + (b + outcome.value) == a + b + outcome.value; }
  }

  /** The scan of `closing_brace` from position `i`: the balancing brace, else `first` or the first brace left. */
  function ScanFrom(s: string, i: nat, depth: nat, first: Option<nat>): Option<nat>
    requires i <= |s| && depth > 0
    decreases |s| - i
  {
    if i == |s| then first
    else if Deeper(s[i], depth) == 0 then Some(i)
    else ScanFrom(s, i + Stride(s[i..]), Deeper(s[i], depth), if first.None? && s[i] == '}' then Some(i) else first)
  }

  /** What both searches do at a character that does not close the last brace. */
  lemma ScanStep(s: string, i: nat, depth: nat)
    requires i < |s| && depth > 0 && Deeper(s[i], depth) > 0
    ensures var n := Stride(s[i..]);
      && AfterBalance(s[i..], depth) == AfterBalance(s[i + n..], Deeper(s[i], depth))
      && AfterFirst(s[i..]) == if s[i] == '}' then Some(s[i + 1..]) else AfterFirst(s[i + n..])
  {
    var n := Stride(s[i..]);
    assert s[i..][n..] == s[i + n..] && s[i..][1..] == s[i + 1..];
  }

  /** Where the balancing brace is, by what follows it; else the first found, by what follows that. */
  function Located(s: string, balanced: Option<string>, first: Option<nat>, fallback: Option<string>): Option<int> {
    if balanced.Some? then Some(|s| - |balanced.value| - 1)
    else if first.Some? then first
    else if fallback.Some? then Some(|s| - |fallback.value| - 1)
    else None
  }

  lemma {:induction false} ScanIsClosing(s: string, i: nat, depth: nat, first: Option<nat>)
    requires i <= |s| && depth > 0
    ensures ScanFrom(s, i, depth, first) == Located(s, AfterBalance(s[i..], depth), first, AfterFirst(s[i..]))
    decreases |s| - i
  {
    if i == |s| || Deeper(s[i], depth) == 0 {
      ScanEnds(s, i, depth, first);
    } else {
      var next, deeper := i + Stride(s[i..]), Deeper(s[i], depth);
      var seen := if first.None? && s[i] == '}' then Some(i) else first;
      ScanStep(s, i, depth);
      ScanIsClosing(s, next, deeper, seen);
      LocatedStep(s, i, AfterBalance(s[next..], deeper), first, AfterFirst(s[next..]));
    }
  }

  lemma ScanEnds(s: string, i: nat, depth: nat, first: Option<nat>)
    requires i <= |s| && depth > 0 && (i == |s| || Deeper(s[i], depth) == 0)
    ensures ScanFrom(s, i, depth, first) == Located(s, AfterBalance(s[i..], depth), first, AfterFirst(s[i..]))
  {
  }

  /** A brace that is passed is the first found, unless one was before. */
  lemma LocatedStep(s: string, i: nat, balanced: Option<string>, first: Option<nat>, fallback: Option<string>)
    requires i < |s|
    ensures Located(s, balanced, if first.None? && s[i] == '}' then Some(i) else first, fallback)
      == Located(s, balanced, first, if s[i] == '}' then Some(s[i + 1..]) else fallback)
  {
  }

  lemma StrideAt(s: string, i: nat)
    requires i < |s|
    ensures Stride(s[i..]) == if s[i] == '$' && i + 1 < |s| && s[i + 1] == '$' then 2 else 1
  {
  }

  /** `closing_brace`, byte by byte. */
  method FindClosingBrace(s: string) returns (r: Option<nat>)
    ensures r == ClosingBrace(s)
  {
    var depth: nat := 1;
    var first: Option<nat> := None;
    var i := 0;
    assert s[0..] == s;
    ScanIsClosing(s, 0, 1, None);
    while i < |s|
      invariant i <= |s| && depth > 0
      invariant ScanFrom(s, i, depth, first) == ClosingBrace(s)
    {
      StrideAt(s, i);
      if s[i] == '$' && i + 1 < |s| && s[i + 1] == '$' {
        i := i + 2;
        continue;
      }
      if s[i] == '{' {
        depth := depth + 1;
      } else if s[i] == '}' {
        if first.None? { first := Some(i); }
        depth := depth - 1;
        if depth == 0 { return Some(i); }
      }
      i := i + 1;
    }
    return first;
  }

  method FindNameLength(s: string) returns (n: nat)
    ensures n == NameLength(s)
  {
    n := 0;
    while n < |s| && (if n == 0 then IsNameStart(s[n]) else IsNameChar(s[n]))
      invariant n <= |s| && (n > 0 ==> IsNameStart(s[0])) && forall i :: 0 <= i < n ==> IsNameChar(s[i])
    {
      n := n + 1;
    }
    if n > 0 {
      assert s == s[..n] + s[n..];
      NameRunIs(s[..n], s[n..]);
    }
  }

  /** `substitute_into`: appends the substitution of `text` to `out`. */
  method SubstituteInto(text: string, lookup: Lookup, out: string, unset: seq<string>) returns (r: Outcome)
    ensures r == Before(out, Substitute(lookup, text, unset))
    decreases |text|, 0
  {
    var rest, value, names := text, out, unset;
    while true
      invariant |rest| <= |text|
      invariant Before(out, Substitute(lookup, text, unset)) == Before(value, Substitute(lookup, rest, names))
      decreases |rest|
    {
      var dollar;
      value, dollar := CopyInto(rest, lookup, value, names);
      if dollar == |rest| {
        assert value + "" == value;
        return Substituted(value, names);
      }
      ghost var here := rest[dollar..];
      var after := rest[dollar + 1..];
      assert here[0] == '$' && here[1..] == after;
      if after != "" && after[0] == '$' {
        assert here[2..] == after[1..];
        BeforeTwice(value, "$", Substitute(lookup, after[1..], names));
        value, rest := value + "$", after[1..];
      } else if after != "" && after[0] == '{' {
        assert here == ['$'] + (['{'] + after[1..]);
        var next;
        r, next := BracesInto(after[1..], lookup, value, names);
        if r.Failed? { return; }
        value, names, rest := r.value, r.unset, next;
      } else {
        assert here == ['$'] + after;
        var n, add;
        n, add, names := ReadVariable(after, lookup, names);
        BeforeTwice(value, add, Substitute(lookup, after[n..], names));
        value, rest := value + add, after[n..];
      }
    }
  }

  /** Appends the text before the next `$`. */
  method CopyInto(text: string, ghost lookup: Lookup, out: string, ghost unset: seq<string>) returns (value: string, n: nat)
    ensures n <= |text| && (n < |text| ==> text[n] == '$')
    ensures Before(out, Substitute(lookup, text, unset)) == Before(value, Substitute(lookup, text[n..], unset))
  {
    n := FirstDollar(text);
    CopyPlain(lookup, text, n, unset);
    BeforeTwice(out, text[..n], Substitute(lookup, text[n..], unset));
    value := out + text[..n];
  }

  /** After a `$` that starts no `$$` and no `${`: the variable's value, or the `$` itself. */
  method ReadVariable(after: string, lookup: Lookup, unset: seq<string>) returns (n: nat, add: string, names: seq<string>)
    requires after == "" || (after[0] != '$' && after[0] != '{')
    ensures n <= |after| && Substitute(lookup, ['$'] + after, unset) == Before(add, Substitute(lookup, after[n..], names))
  {
    ghost var here := ['$'] + after;
    assert here[1..] == after;
    n := FindNameLength(after);
    add, names := "$", unset;
    if n > 0 {
      match lookup(after[..n])
      case Some(v) => add := v;
      case None => add, names := "", Noted(unset, after[..n]);
    }
    assert after[0..] == after;
    BeforeNothing(Substitute(lookup, after[n..], names));
  }

  /** After a `${`: appends its value, and what follows its closing brace is left. */
  method BracesInto(inner: string, lookup: Lookup, out: string, unset: seq<string>) returns (r: Outcome, rest: string)
    ensures r.Failed? ==> Substitute(lookup, ['$'] + (['{'] + inner), unset) == r
    ensures r.Substituted? ==> |rest| <= |inner|
    ensures r.Substituted? ==>
      Before(out, Substitute(lookup, ['$'] + (['{'] + inner), unset)) == Before(r.value, Substitute(lookup, rest, r.unset))
    decreases |inner|, 2
  {
    rest := "";
    assert (['$'] + (['{'] + inner))[2..] == inner;
    var close := FindClosingBrace(inner);
    if close.None? { return Failed(Unclosed), rest; }
    var expr := inner[..close.value];
    rest := inner[close.value + 1..];
    ghost var b := Braced(lookup, expr, unset);
    BracesRead(lookup, inner, expr, rest, unset);
    r := BracedInto(expr, lookup, out, unset);
    if r.Substituted? {
      BeforeTwice(out, b.value, Substitute(lookup, rest, b.unset));
    }
  }

  /** `braced`: appends the value of what is between `${` and `}`. */
  method BracedInto(expr: string, lookup: Lookup, out: string, unset: seq<string>) returns (r: Outcome)
    ensures r == Before(out, Braced(lookup, expr, unset))
    decreases |expr|, 1
  {
    var n := FindNameLength(expr);
    if n == 0 { return Failed(NoName); }
    var name, tail := expr[..n], expr[n..];
    var value := lookup(name);
    if tail == "" {
      match value
      case Some(v) => return Substituted(out + v, unset);
      case None => return Substituted(out + "", Noted(unset, name));
    }
    match OperatorAt(tail)
    case None => return Failed(BadOperator);
    case Some((colon, op)) =>
      var word := if colon then tail[2..] else tail[1..];
      var present := Present(value, colon);
      match op
      case Alternate =>
        if present { r := SubstituteInto(word, lookup, out, unset); } else { r := Substituted(out + "", unset); }
      case Default =>
        if present { r := Substituted(out + value.value, unset); } else { r := SubstituteInto(word, lookup, out, unset); }
      case Require =>
        if present { return Substituted(out + value.value, unset); }
        BeforeNothing(Substitute(lookup, word, unset));
        r := SubstituteInto(word, lookup, "", unset);
        if r.Substituted? { r := Failed(RequiredVariable(name, r.value)); }
  }

  // --------------------------------------------------- the laws of the text

  // What each construct does, in the characters of the text alone; `k` is
  // whatever follows it.

  lemma IdentifierIsName(name: string)
    ensures Identifier(name) <==> IsName(name)
  {
  }

  /** The value, or nothing and the name noted, and then what follows. */
  function ValueThen(lookup: Lookup, name: string, k: string, unset: seq<string>): Outcome {
    match lookup(name)
    case Some(v) => Before(v, Substitute(lookup, k, unset))
    case None => Substitute(lookup, k, if name in unset then unset else unset + [name])
  }

  /** `$$` is a dollar, any character but `$` itself. */
  lemma PlainText(lookup: Lookup, c: char, k: string, unset: seq<string>)
    ensures Substitute(lookup, "$" + ("$" + k), unset) == Before("$", Substitute(lookup, k, unset))
    ensures c != '$' ==> Substitute(lookup, [c] + k, unset) == Before([c], Substitute(lookup, k, unset))
  {
    var s := "$" + ("$" + k);
    assert s[1] == '$' && s[2..] == k && ([c] + k)[1..] == k;
  }

  /** `$NAME` takes the longest name; `${NAME}` is the same, whatever follows. */
  lemma VariableText(lookup: Lookup, name: string, k: string, unset: seq<string>)
    requires Identifier(name)
    ensures EndsName(k) ==> Substitute(lookup, "$" + (name + k), unset) == ValueThen(lookup, name, k, unset)
    ensures Substitute(lookup, "$" + ("{" + (name + ("}" + k))), unset) == ValueThen(lookup, name, k, unset)
  {
    IdentifierIsName(name);
    if EndsName(k) {
      VariablePrinted(lookup, name, k, unset);
    }
    BracesPrinted(lookup, name, k, unset);
    BeforeNothing(Substitute(lookup, k, Noted(unset, name)));
  }

  /** A word without variables and braces. */
  predicate PlainWord(word: string) {
    forall i :: 0 <= i < |word| ==> word[i] != '$' && word[i] != '{' && word[i] != '}'
  }

  function CharactersOf(word: string): seq<Part> { seq(|word|, i requires 0 <= i < |word| => Character(word[i])) }

  lemma {:induction false} PlainWordPrinted(lookup: Lookup, word: string, k: string, level: nat, unset: seq<string>)
    requires PlainWord(word)
    ensures Print(CharactersOf(word), k) == word + k && WellFormed(CharactersOf(word), k)
    ensures Level(CharactersOf(word), level) == Some(level)
    ensures Eval(lookup, CharactersOf(word), unset) == Substituted(word, unset)
  {
    if word == "" {
      assert word + k == k;
    } else {
      PlainWordPrinted(lookup, word[1..], k, level, unset);
      assert CharactersOf(word)[1..] == CharactersOf(word[1..]);
      assert word + k == [word[0]] + (word[1..] + k) && word == [word[0]] + word[1..];
    }
  }

  /** What `${NAME<op>word}` gives, by whether the variable is set and, where a colon asks, not empty. */
  function OperatorValue(colon: bool, sign: char, name: string, value: Option<string>, word: string, unset: seq<string>): Outcome {
    var present := value.Some? && (colon ==> value.value != "");
    if sign == '-' then Substituted(if present then value.value else word, unset)
    else if sign == '+' then Substituted(if present then word else "", unset)
    else if present then Substituted(value.value, unset)
    else Failed(RequiredVariable(name, word))
  }

  function OperatorText(colon: bool, sign: char): string { if colon then [':', sign] else [sign] }

  function OperatorBy(sign: char): Operator { if sign == '-' then Default else if sign == '+' then Alternate else Require }

  /** The operators by their text: `-` and `:-` default, `+` and `:+` replace, `?` and `:?` require; none notes its name. */
  lemma OperatorsText(lookup: Lookup, name: string, colon: bool, sign: char, word: string, k: string, unset: seq<string>)
    requires Identifier(name) && (sign == '-' || sign == '+' || sign == '?') && PlainWord(word)
    ensures Substitute(lookup, "$" + ("{" + (name + (OperatorText(colon, sign) + (word + ("}" + k))))), unset)
      == Then(lookup, OperatorValue(colon, sign, name, lookup(name), word, unset), k)
  {
    var part := Modified(name, colon, OperatorBy(sign), CharactersOf(word));
    IdentifierIsName(name);
    PlainWordPrinted(lookup, word, "", 0, unset);
    PlainWordPrinted(lookup, word, "}" + k, 0, unset);
    OperatorPrinted(colon, sign, word + ("}" + k));
    OperatorEval(lookup, name, colon, sign, word, unset);
    ModifiedPrinted(lookup, part, k, unset);
  }

  lemma OperatorEval(lookup: Lookup, name: string, colon: bool, sign: char, word: string, unset: seq<string>)
    requires (sign == '-' || sign == '+' || sign == '?') && PlainWord(word)
    ensures EvalPart(lookup, Modified(name, colon, OperatorBy(sign), CharactersOf(word)), unset)
      == OperatorValue(colon, sign, name, lookup(name), word, unset)
  {
    PlainWordPrinted(lookup, word, "", 0, unset);
  }

  lemma OperatorPrinted(colon: bool, sign: char, rest: string)
    requires sign == '-' || sign == '+' || sign == '?'
    ensures PrintModifier(colon, OperatorBy(sign), rest) == OperatorText(colon, sign) + rest
  {
  }

  /** Where the braces do not balance, the first `}` closes. */
  lemma {:induction false} FirstBraceCloses(a: string, b: string)
    requires '}' !in a && '$' !in a && '{' in a && '}' !in b && '$' !in b
    ensures ClosingBrace(a + ("}" + b)) == Some(|a|)
  {
    Opened(a, b, 1);
    FirstFound(a, b);
  }

  lemma {:induction false} FirstFound(a: string, b: string)
    requires '}' !in a && '$' !in a
    ensures AfterFirst(a + ("}" + b)) == Some(b)
  {
    var s := a + ("}" + b);
    if a == "" {
      assert s[1..] == b;
    } else {
      assert s[1..] == a[1..] + ("}" + b) && s[0] == a[0] && a[0] in a;
      FirstFound(a[1..], b);
    }
  }

  /** Braces opened in `a` and never closed again but once. */
  lemma {:induction false} Opened(a: string, b: string, depth: nat)
    requires '}' !in a && '$' !in a && '}' !in b && '$' !in b && depth > 0 && (depth > 1 || '{' in a)
    ensures AfterBalance(a + ("}" + b), depth).None?
  {
    var s := a + ("}" + b);
    if a == "" {
      assert s[1..] == b;
      NeverClosed(b, depth - 1);
    } else {
      assert s[1..] == a[1..] + ("}" + b) && s[0] == a[0] && a[0] in a;
      Opened(a[1..], b, if a[0] == '{' then depth + 1 else depth);
    }
  }

  lemma {:induction false} NeverClosed(b: string, depth: nat)
    requires '}' !in b && '$' !in b && depth > 0
    ensures AfterBalance(b, depth).None?
  {
    if b != "" {
      assert b[0] in b;
      NeverClosed(b[1..], Deeper(b[0], depth));
    }
  }
}
