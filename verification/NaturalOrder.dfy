/**
  `natural_cmp` (`crates/rustlet-cli/src/format.rs`): the loop that walks two
  names at once compares their tokens lexicographically, numbers by value and
  then by leading zeros, and is a total order on names.
*/
module NaturalOrder {
  import opened Common
  import opened Decimals

  datatype Ordering = Less | Equal | Greater

  predicate IsDigit(b: byte) { '0' as int <= b <= '9' as int }

  predicate IsZero(b: byte) { b == '0' as int }

  function Compare(x: int, y: int): (order: Ordering)
    ensures order == Less <==> x < y
    ensures order == Equal <==> x == y
  {
    if x < y then Less else if x == y then Equal else Greater
  }

  function Flip(order: Ordering): Ordering {
    match order
    case Less => Greater
    case Equal => Equal
    case Greater => Less
  }

  /** The second order where the first does not decide. */
  function OrElse(first: Ordering, second: Ordering): Ordering {
    if first == Equal then second else first
  }

  // ------------------------------------------------------------ the meaning

  datatype Token = Number(value: nat, zeros: nat) | Other(b: byte)

  /** How many bytes of `kind` the text starts with. */
  function Run(s: Bytes, kind: byte -> bool): (n: nat)
    ensures n <= |s| && (n < |s| ==> !kind(s[n])) && forall i :: 0 <= i < n ==> kind(s[i])
  {
    if s == [] || !kind(s[0]) then 0 else 1 + Run(s[1..], kind)
  }

  predicate Digits(s: Bytes) { forall i :: 0 <= i < |s| ==> IsDigit(s[i]) }

  function Value(s: Bytes): nat
    requires Digits(s)
  {
    if s == [] then 0 else (s[0] - '0' as int) * Pow10(|s| - 1) + Value(s[1..])
  }

  /** A name as its numbers and its other bytes. */
  function Tokens(s: Bytes): seq<Token>
    decreases |s|
  {
    if s == [] then []
    else if !IsDigit(s[0]) then [Other(s[0])] + Tokens(s[1..])
    else
      var n := Run(s, IsDigit);
      [Number(Value(s[..n]), Run(s[..n], IsZero))] + Tokens(s[n..])
  }

  /** Numbers come first, by value and then by zeros. */
  function CompareToken(x: Token, y: Token): Ordering {
    match (x, y)
    case (Number(v, z), Number(w, u)) => OrElse(Compare(v, w), Compare(z, u))
    case (Number(_, _), Other(_)) => Less
    case (Other(_), Number(_, _)) => Greater
    case (Other(b), Other(c)) => Compare(b, c)
  }

  function CompareTokens(x: seq<Token>, y: seq<Token>): Ordering {
    if x == [] || y == [] then Compare(|x|, |y|)
    else OrElse(CompareToken(x[0], y[0]), CompareTokens(x[1..], y[1..]))
  }

  function NaturalOrder(a: Bytes, b: Bytes): Ordering {
    CompareTokens(Tokens(a), Tokens(b))
  }

  // ------------------------------------------------------ the order's laws

  lemma {:induction false} TokensFlip(x: seq<Token>, y: seq<Token>)
    ensures CompareTokens(y, x) == Flip(CompareTokens(x, y))
  {
    if x != [] && y != [] {
      TokensFlip(x[1..], y[1..]);
    }
  }

  lemma {:induction false} TokensEqual(x: seq<Token>, y: seq<Token>)
    ensures CompareTokens(x, y) == Equal <==> x == y
  {
    if x != [] && y != [] {
      TokensEqual(x[1..], y[1..]);
      assert x == [x[0]] + x[1..] && y == [y[0]] + y[1..];
    }
  }

  lemma {:induction false} TokensTransitive(x: seq<Token>, y: seq<Token>, z: seq<Token>)
    requires CompareTokens(x, y) != Greater && CompareTokens(y, z) != Greater
    ensures CompareTokens(x, z) != Greater
  {
    if x != [] && y != [] && z != [] && CompareToken(x[0], y[0]) == Equal && CompareToken(y[0], z[0]) == Equal {
      TokensTransitive(x[1..], y[1..], z[1..]);
    }
  }

  // ------------------------------------------------- numbers, digit by digit

  function CompareBytes(x: Bytes, y: Bytes): Ordering {
    if x == [] || y == [] then Compare(|x|, |y|)
    else OrElse(Compare(x[0], y[0]), CompareBytes(x[1..], y[1..]))
  }

  lemma {:induction false} ValueBelow(s: Bytes)
    requires Digits(s)
    ensures Value(s) < Pow10(|s|)
  {
    if s != [] {
      ValueBelow(s[1..]);
      AtMost(s[0] - '0' as int, 9, Pow10(|s| - 1));
    }
  }

  lemma AtMost(d: nat, e: nat, p: nat)
    requires d <= e
    ensures d * p <= e * p
  {
  }

  /** As many digits compare as they are written. */
  lemma {:induction false} SameLength(x: Bytes, y: Bytes)
    requires Digits(x) && Digits(y) && |x| == |y|
    ensures CompareBytes(x, y) == Compare(Value(x), Value(y))
    ensures CompareBytes(x, y) == Equal ==> x == y
  {
    if x != [] {
      var p, d, e := Pow10(|x| - 1), x[0] - '0' as int, y[0] - '0' as int;
      SameLength(x[1..], y[1..]);
      ValueBelow(x[1..]);
      ValueBelow(y[1..]);
      FirstDecides(d, Value(x[1..]), e, Value(y[1..]), p);
      assert x == [x[0]] + x[1..] && y == [y[0]] + y[1..];
    }
  }

  lemma FirstDecides(d: nat, v: nat, e: nat, w: nat, p: nat)
    requires v < p && w < p
    ensures Compare(d * p + v, e * p + w) == OrElse(Compare(d, e), Compare(v, w))
  {
    if d < e {
      AtMost(d + 1, e, p);
      assert (d + 1) * p == d * p + p;
    } else if e < d {
      AtMost(e + 1, d, p);
      assert (e + 1) * p == e * p + p;
    }
  }

  /** Digits without leading zeros. */
  predicate Significant(s: Bytes) { Digits(s) && (s != [] ==> !IsZero(s[0])) }

  lemma SignificantAbove(s: Bytes)
    requires Significant(s) && s != []
    ensures Value(s) >= Pow10(|s| - 1)
  {
    AtMost(1, s[0] - '0' as int, Pow10(|s| - 1));
  }

  lemma {:induction false} PowGrows(m: nat, n: nat)
    requires m <= n
    ensures Pow10(m) <= Pow10(n)
  {
    if m < n {
      PowGrows(m, n - 1);
    }
  }

  lemma ShorterIsLess(x: Bytes, y: Bytes)
    requires Significant(x) && Significant(y) && |x| < |y|
    ensures Value(x) < Value(y)
  {
    ValueBelow(x);
    SignificantAbove(y);
    PowGrows(|x|, |y| - 1);
  }

  /** Comparing lengths and then digits is comparing values, and only equal digits have equal values. */
  lemma SignificantCompare(x: Bytes, y: Bytes)
    requires Significant(x) && Significant(y)
    ensures OrElse(Compare(|x|, |y|), CompareBytes(x, y)) == Compare(Value(x), Value(y))
    ensures Value(x) == Value(y) ==> x == y
  {
    if |x| < |y| {
      ShorterIsLess(x, y);
    } else if |y| < |x| {
      ShorterIsLess(y, x);
    } else {
      SameLength(x, y);
    }
  }

  lemma {:induction false} ZerosAddNothing(s: Bytes, z: nat)
    requires Digits(s) && z <= |s| && forall i :: 0 <= i < z ==> IsZero(s[i])
    ensures Value(s) == Value(s[z..])
  {
    if z > 0 {
      ZerosAddNothing(s[1..], z - 1);
      assert s[1..][z - 1..] == s[z..];
    } else {
      assert s[0..] == s;
    }
  }

  /** What the loop finds of a number: its zeros, then its significant digits. */
  lemma NumberToken(s: Bytes, z: nat, k: nat)
    requires s != [] && IsDigit(s[0]) && z == Run(s, IsZero) && k == Run(s[z..], IsDigit)
    ensures z + k > 0 && Significant(s[z..z + k])
    ensures Tokens(s) == [Number(Value(s[z..z + k]), z)] + Tokens(s[z + k..])
  {
    NumberRun(s, z, k);
    NumberParts(s[..z + k], z);
    assert s[..z + k][z..] == s[z..z + k];
  }

  lemma NumberRun(s: Bytes, z: nat, k: nat)
    requires s != [] && IsDigit(s[0]) && z == Run(s, IsZero) && k == Run(s[z..], IsDigit)
    ensures z + k > 0 && Run(s, IsDigit) == z + k && Digits(s[..z + k])
    ensures (forall i :: 0 <= i < z ==> IsZero(s[i])) && (k > 0 ==> !IsZero(s[z]))
  {
    RunAfter(s, z, IsDigit);
    RunIs(s, IsDigit, z + k);
  }

  lemma RunAfter(s: Bytes, z: nat, kind: byte -> bool)
    requires z <= |s|
    ensures var n := z + Run(s[z..], kind);
      n <= |s| && (n < |s| ==> !kind(s[n])) && forall i :: z <= i < n ==> kind(s[i])
  {
    var t := s[z..];
    assert forall i :: z <= i < |s| ==> s[i] == t[i - z];
  }

  lemma NumberParts(number: Bytes, z: nat)
    requires Digits(number) && z <= |number| && (forall i :: 0 <= i < z ==> IsZero(number[i]))
    requires z < |number| ==> !IsZero(number[z])
    ensures Run(number, IsZero) == z && Value(number) == Value(number[z..]) && Significant(number[z..])
  {
    RunIs(number, IsZero, z);
    ZerosAddNothing(number, z);
  }

  lemma {:induction false} RunIs(s: Bytes, kind: byte -> bool, n: nat)
    requires n <= |s| && (n < |s| ==> !kind(s[n])) && forall i :: 0 <= i < n ==> kind(s[i])
    ensures Run(s, kind) == n
  {
  }

  // ------------------------------------------------------------- total order

  /** Equal first tokens are the same text. */
  lemma NumbersAlike(a: Bytes, b: Bytes) returns (n: nat)
    requires a != [] && b != [] && IsDigit(a[0]) && IsDigit(b[0]) && Tokens(a) == Tokens(b)
    ensures 0 < n <= |a| && n <= |b| && a[..n] == b[..n] && Tokens(a[n..]) == Tokens(b[n..])
  {
    var z, x := NumberHead(a);
    var u, y := NumberHead(b);
    n := z + |x|;
    HeadsAlike(Tokens, a, z, x, b, u, y);
  }

  /** How a text starts with a number: its zeros, its significant digits, and the token they make. */
  ghost predicate StartsWithNumber(tokens: Bytes -> seq<Token>, s: Bytes, z: nat, x: Bytes) {
    && 0 < z + |x| <= |s| && x == s[z..z + |x|] && Significant(x) && (forall i :: 0 <= i < z ==> IsZero(s[i]))
    && tokens(s) == [Number(Value(x), z)] + tokens(s[z + |x|..])
  }

  /** Equal sequences of tokens, taken apart without looking into how they were made. */
  lemma HeadsAlike(tokens: Bytes -> seq<Token>, a: Bytes, z: nat, x: Bytes, b: Bytes, u: nat, y: Bytes)
    requires tokens(a) == tokens(b) && StartsWithNumber(tokens, a, z, x) && StartsWithNumber(tokens, b, u, y)
    ensures var n := z + |x|; n <= |b| && a[..n] == b[..n] && tokens(a[n..]) == tokens(b[n..])
  {
    HeadsEqual(Number(Value(x), z), tokens(a[z + |x|..]), Number(Value(y), u), tokens(b[u + |y|..]));
    SameValue(x, y);
    SameParts(a, b, z, z + |x|);
  }

  lemma SameValue(x: Bytes, y: Bytes)
    requires Significant(x) && Significant(y) && Value(x) == Value(y)
    ensures x == y
  {
    SignificantCompare(x, y);
  }

  lemma NumberHead(s: Bytes) returns (z: nat, x: Bytes)
    requires s != [] && IsDigit(s[0])
    ensures StartsWithNumber(Tokens, s, z, x)
  {
    z := Run(s, IsZero);
    var k := Run(s[z..], IsDigit);
    NumberToken(s, z, k);
    x := s[z..z + k];
    Gathered(Tokens, s, z, k);
  }

  lemma Gathered(tokens: Bytes -> seq<Token>, s: Bytes, z: nat, k: nat)
    requires 0 < z + k <= |s| && Significant(s[z..z + k]) && (forall i :: 0 <= i < z ==> IsZero(s[i]))
    requires tokens(s) == [Number(Value(s[z..z + k]), z)] + tokens(s[z + k..])
    ensures StartsWithNumber(tokens, s, z, s[z..z + k])
  {
  }

  lemma HeadsEqual(x: Token, xs: seq<Token>, y: Token, ys: seq<Token>)
    requires [x] + xs == [y] + ys
    ensures x == y && xs == ys
  {
    assert ([x] + xs)[0] == ([y] + ys)[0] && ([x] + xs)[1..] == ([y] + ys)[1..];
  }

  lemma SameParts(a: Bytes, b: Bytes, z: nat, n: nat)
    requires z <= n <= |a| && n <= |b| && a[z..n] == b[z..n]
    requires forall i :: 0 <= i < z ==> IsZero(a[i]) && IsZero(b[i])
    ensures a[..n] == b[..n]
  {
    assert a[..n] == a[..z] + a[z..n] && b[..n] == b[..z] + b[z..n];
    assert a[..z] == b[..z];
  }

  lemma BytesAlike(a: Bytes, b: Bytes) returns (n: nat)
    requires a != [] && b != [] && Tokens(a) == Tokens(b)
    ensures 0 < n <= |a| && n <= |b| && a[..n] == b[..n] && Tokens(a[n..]) == Tokens(b[n..])
  {
    if IsDigit(a[0]) && IsDigit(b[0]) {
      n := NumbersAlike(a, b);
    } else {
      assert Tokens(a)[0] == Tokens(b)[0];
      HeadsEqual(Other(a[0]), Tokens(a[1..]), Other(b[0]), Tokens(b[1..]));
      n := 1;
    }
  }

  /** No two names have the same tokens. */
  lemma {:induction false} TokensInjective(a: Bytes, b: Bytes)
    requires Tokens(a) == Tokens(b)
    ensures a == b
    decreases |a|
  {
    if a != [] && b != [] {
      var n := BytesAlike(a, b);
      TokensInjective(a[n..], b[n..]);
      assert a == a[..n] + a[n..] && b == b[..n] + b[n..];
    }
  }

  /** A total order: total and antisymmetric, equal only on identical names, transitive. */
  lemma NaturalOrderIsTotal(a: Bytes, b: Bytes, c: Bytes)
    ensures NaturalOrder(b, a) == Flip(NaturalOrder(a, b))
    ensures NaturalOrder(a, b) == Equal <==> a == b
    ensures NaturalOrder(a, b) != Greater && NaturalOrder(b, c) != Greater ==> NaturalOrder(a, c) != Greater
  {
    TokensFlip(Tokens(a), Tokens(b));
    TokensEqual(Tokens(a), Tokens(b));
    if Tokens(a) == Tokens(b) {
      TokensInjective(a, b);
    }
    if NaturalOrder(a, b) != Greater && NaturalOrder(b, c) != Greater {
      TokensTransitive(Tokens(a), Tokens(b), Tokens(c));
    }
  }

  // ----------------------------------------------------- the order by the text

  /** The number a run of digits writes, digit by digit. */
  function Decimal(x: Bytes): int {
    if x == [] then 0 else 10 * Decimal(x[..|x| - 1]) + (x[|x| - 1] as int - 48)
  }

  lemma {:induction false} ValueLonger(x: Bytes, d: byte)
    requires Digits(x) && IsDigit(d)
    ensures Value(x + [d]) == 10 * Value(x) + (d - 48)
  {
    var y := x + [d];
    if x == [] {
      assert y[1..] == [];
    } else {
      assert y[1..] == x[1..] + [d] && y[0] == x[0];
      ValueLonger(x[1..], d);
      TenTimes(x[0] - 48, Pow10(|x| - 1));
    }
  }

  lemma TenTimes(d: int, p: int)
    ensures d * (10 * p) == 10 * (d * p)
  {
  }

  lemma {:induction false} ValueIsDecimal(x: Bytes)
    requires Digits(x)
    ensures Value(x) == Decimal(x)
  {
    if x != [] {
      var front := x[..|x| - 1];
      ValueIsDecimal(front);
      ValueLonger(front, x[|x| - 1]);
      assert x == front + [x[|x| - 1]];
    }
  }

  predicate AllDigits(x: Bytes) { forall i :: 0 <= i < |x| ==> 48 <= x[i] <= 57 }

  /** The number a text starts with, when nothing that continues it follows. */
  lemma NumberFirst(x: Bytes, s: Bytes)
    requires x != [] && AllDigits(x) && (s == [] || !(48 <= s[0] <= 57))
    ensures Digits(x) && Tokens(x + s) == [Number(Value(x), Run(x, IsZero))] + Tokens(s)
  {
    var t := x + s;
    assert forall i :: 0 <= i < |x| ==> t[i] == x[i];
    assert s != [] ==> t[|x|] == s[0];
    RunIs(t, IsDigit, |x|);
    assert t[..|x|] == x && t[|x|..] == s;
  }

  /** Numbers come by value, of equal ones that with fewer digits, hence zeros, first; equal texts leave it to what follows. */
  lemma NumbersByValue(x: Bytes, s: Bytes, y: Bytes, t: Bytes)
    requires x != [] && AllDigits(x) && (s == [] || !(48 <= s[0] <= 57))
    requires y != [] && AllDigits(y) && (t == [] || !(48 <= t[0] <= 57))
    ensures Decimal(x) < Decimal(y) ==> NaturalOrder(x + s, y + t) == Less
    ensures Decimal(x) == Decimal(y) && |x| < |y| ==> NaturalOrder(x + s, y + t) == Less
    ensures x == y ==> NaturalOrder(x + s, y + t) == NaturalOrder(s, t)
  {
    NumberFirst(x, s);
    NumberFirst(y, t);
    ValueIsDecimal(x);
    ValueIsDecimal(y);
    if Value(x) == Value(y) {
      ZerosByLength(x, y);
    }
    FirstTokens(Number(Value(x), Run(x, IsZero)), Tokens(s), Number(Value(y), Run(y, IsZero)), Tokens(t));
  }

  lemma ZerosByLength(x: Bytes, y: Bytes)
    requires Digits(x) && Digits(y) && Value(x) == Value(y)
    ensures |x| - Run(x, IsZero) == |y| - Run(y, IsZero)
  {
    var z, u := Run(x, IsZero), Run(y, IsZero);
    ZerosAddNothing(x, z);
    ZerosAddNothing(y, u);
    SameValue(x[z..], y[u..]);
  }

  /** Nothing comes before something, a digit before any other byte, smaller bytes first, and equal ones leave it to what follows. */
  lemma BytesInTurn(c: byte, a: Bytes, d: byte, b: Bytes)
    ensures NaturalOrder([], [c] + a) == Less
    ensures 48 <= c <= 57 && !(48 <= d <= 57) ==> NaturalOrder([c] + a, [d] + b) == Less
    ensures !(48 <= c <= 57) && !(48 <= d <= 57) && c < d ==> NaturalOrder([c] + a, [d] + b) == Less
    ensures !(48 <= c <= 57) && c == d ==> NaturalOrder([c] + a, [d] + b) == NaturalOrder(a, b)
  {
    var p, q := [c] + a, [d] + b;
    assert p[1..] == a && q[1..] == b;
    if !(IsDigit(c) && IsDigit(d)) {
      OthersRound(p, q);
    }
    SomeToken(p);
  }

  lemma SomeToken(p: Bytes)
    requires p != []
    ensures Tokens(p) != []
  {
  }

  // ---------------------------------------------------------------- the loop

  /** One round on two numbers: their order, and whether to go on behind them. */
  lemma NumbersRound(a: Bytes, b: Bytes, z: nat, k: nat, u: nat, l: nat)
    requires a != [] && IsDigit(a[0]) && z == Run(a, IsZero) && k == Run(a[z..], IsDigit)
    requires b != [] && IsDigit(b[0]) && u == Run(b, IsZero) && l == Run(b[u..], IsDigit)
    ensures z + k > 0 && u + l > 0
    ensures NaturalOrder(a, b)
         == OrElse(OrElse(OrElse(Compare(k, l), CompareBytes(a[z..z + k], b[u..u + l])), Compare(z, u)),
                   NaturalOrder(a[z + k..], b[u + l..]))
  {
    NumberToken(a, z, k);
    NumberToken(b, u, l);
    SignificantCompare(a[z..z + k], b[u..u + l]);
    FirstTokens(Number(Value(a[z..z + k]), z), Tokens(a[z + k..]), Number(Value(b[u..u + l]), u), Tokens(b[u + l..]));
  }

  lemma FirstTokens(x: Token, xs: seq<Token>, y: Token, ys: seq<Token>)
    ensures CompareTokens([x] + xs, [y] + ys) == OrElse(CompareToken(x, y), CompareTokens(xs, ys))
  {
  }

  /** The other rounds. */
  lemma OthersRound(a: Bytes, b: Bytes)
    requires a != [] && b != [] && !(IsDigit(a[0]) && IsDigit(b[0]))
    ensures IsDigit(a[0]) ==> NaturalOrder(a, b) == Less
    ensures IsDigit(b[0]) ==> NaturalOrder(a, b) == Greater
    ensures !IsDigit(a[0]) && !IsDigit(b[0]) ==>
      NaturalOrder(a, b) == OrElse(Compare(a[0], b[0]), NaturalOrder(a[1..], b[1..]))
  {
    if !IsDigit(a[0]) && !IsDigit(b[0]) {
      FirstTokens(Other(a[0]), Tokens(a[1..]), Other(b[0]), Tokens(b[1..]));
    }
  }

  /** A stand-in for `NaturalOrder`, known only where it is asked for. */
  ghost predicate Naturally(natural: (Bytes, Bytes) -> Ordering) {
    forall p, q {:trigger NaturalOrder(p, q)} :: natural(p, q) == NaturalOrder(p, q)
  }

  /** `natural_cmp`. */
  method NaturalCompare(a: Bytes, b: Bytes) returns (order: Ordering)
    ensures order == NaturalOrder(a, b)
  {
    order := CompareAll(a, b, NaturalOrder);
  }

  method CompareAll(a: Bytes, b: Bytes, ghost natural: (Bytes, Bytes) -> Ordering) returns (order: Ordering)
    requires Naturally(natural)
    ensures order == natural(a, b)
  {
    var i, j := 0, 0;
    while i < |a| && j < |b|
      invariant i <= |a| && j <= |b|
      invariant natural(a[i..], b[j..]) == natural(a, b)
    {
      var m, n;
      order, m, n := CompareNext(a[i..], b[j..], natural);
      if order != Equal {
        return;
      }
      Behind(a, i, m);
      Behind(b, j, n);
      i, j := i + m, j + n;
    }
    order := Compare(|a| - i, |b| - j);
    Exhausted(a[i..], b[j..], natural);
  }

  /** One round of the loop: the order of what comes next in both, and where that ends. */
  method CompareNext(p: Bytes, q: Bytes, ghost natural: (Bytes, Bytes) -> Ordering) returns (order: Ordering, m: nat, n: nat)
    requires Naturally(natural) && p != [] && q != []
    ensures 0 < m <= |p| && 0 < n <= |q|
    ensures natural(p, q) == OrElse(order, natural(p[m..], q[n..]))
  {
    order, m, n := CompareHeads(p, q);
    assert natural(p, q) == NaturalOrder(p, q) && natural(p[m..], q[n..]) == NaturalOrder(p[m..], q[n..]);
  }

  method CompareHeads(p: Bytes, q: Bytes) returns (order: Ordering, m: nat, n: nat)
    requires p != [] && q != []
    ensures 0 < m <= |p| && 0 < n <= |q|
    ensures NaturalOrder(p, q) == OrElse(order, NaturalOrder(p[m..], q[n..]))
  {
    m, n := 1, 1;
    if IsDigit(p[0]) && IsDigit(q[0]) {
      order, m, n := CompareNumbers(p, q);
      return;
    }
    OthersRound(p, q);
    if IsDigit(p[0]) {
      order := Less;
    } else if IsDigit(q[0]) {
      order := Greater;
    } else {
      order := Compare(p[0], q[0]);
    }
  }

  /** Two numbers' order, and where they end. */
  method CompareNumbers(p: Bytes, q: Bytes) returns (order: Ordering, m: nat, n: nat)
    requires p != [] && q != [] && IsDigit(p[0]) && IsDigit(q[0])
    ensures 0 < m <= |p| && 0 < n <= |q|
    ensures NaturalOrder(p, q) == OrElse(order, NaturalOrder(p[m..], q[n..]))
  {
    var z, u := Run(p, IsZero), Run(q, IsZero);
    var k, l := Run(p[z..], IsDigit), Run(q[u..], IsDigit);
    order := OrElse(OrElse(Compare(k, l), CompareBytes(p[z..z + k], q[u..u + l])), Compare(z, u));
    m, n := z + k, u + l;
    NumbersRound(p, q, z, k, u, l);
  }

  lemma Behind(s: Bytes, i: nat, n: nat)
    requires i + n <= |s|
    ensures s[i..][n..] == s[i + n..]
  {
  }

  lemma Exhausted(a: Bytes, b: Bytes, natural: (Bytes, Bytes) -> Ordering)
    requires Naturally(natural) && (a == [] || b == [])
    ensures natural(a, b) == Compare(|a|, |b|)
  {
    assert natural(a, b) == NaturalOrder(a, b);
  }
}
