/** Outcomes and the string vocabulary shared by the other modules. */
module Common {

  datatype Option<+T> = None | Some(value: T)

  datatype Result<+T, +E> = Ok(value: T) | Err(error: E)

  type byte = x: int | 0 <= x < 256

  type Bytes = seq<byte>

  lemma Regroup<T>(a: seq<T>, b: seq<T>, c: seq<T>)
    ensures a + b + c == a + (b + c)
  {
  }

  predicate EndsWith(s: string, suffix: string) {
    |suffix| <= |s| && s[|s| - |suffix|..] == suffix
  }
}

/**
  The order in which Rust sorts strings, and `sort` itself on entries that
  carry a name: the sorted sequence is characterised, not only computed.
*/
module ByteOrder {

  /** Strict lexicographic order, element by element. */
  predicate Less(a: string, b: string) {
    b != "" && (a == "" || a[0] < b[0] || (a[0] == b[0] && Less(a[1..], b[1..])))
  }

  /** At the first place where the two differ, the first ends or has the smaller element. */
  ghost predicate Precedes(a: string, b: string) {
    exists k :: 0 <= k <= |a| && k < |b| && a[..k] == b[..k] && (k == |a| || a[k] < b[k])
  }

  lemma {:induction false} LessIsPrecedes(a: string, b: string)
    ensures Less(a, b) <==> Precedes(a, b)
  {
    if a != "" && b != "" {
      LessIsPrecedes(a[1..], b[1..]);
      if a[0] == b[0] && Precedes(a[1..], b[1..]) {
        var k :| 0 <= k <= |a[1..]| && k < |b[1..]| && a[1..][..k] == b[1..][..k] && (k == |a[1..]| || a[1..][k] < b[1..][k]);
        assert a[..k + 1] == [a[0]] + a[1..][..k] && b[..k + 1] == [b[0]] + b[1..][..k];
      }
      if k :| 0 <= k <= |a| && k < |b| && a[..k] == b[..k] && (k == |a| || a[k] < b[k]) {
        if k > 0 {
          assert a[0] == a[..k][0] && b[0] == b[..k][0];
          assert a[1..][..k - 1] == a[..k][1..] && b[1..][..k - 1] == b[..k][1..];
        }
      }
    } else if a == "" && b != "" {
      assert a[..0] == b[..0];
    }
  }

  lemma {:induction false} LessTotal(a: string, b: string)
    ensures a != b ==> Less(a, b) || Less(b, a)
    ensures !(Less(a, b) && Less(b, a))
    ensures !Less(a, a)
  {
    if a != "" {
      LessTotal(a[1..], a[1..]);
      if b != "" {
        LessTotal(a[1..], b[1..]);
        assert a[0] == b[0] && a[1..] == b[1..] ==> a == [a[0]] + a[1..] == b;
      }
    }
  }

  lemma {:induction false} LessTransitive(a: string, b: string, c: string)
    requires Less(a, b) && Less(b, c)
    ensures Less(a, c)
  {
    if a != "" && a[0] == b[0] == c[0] {
      LessTransitive(a[1..], b[1..], c[1..]);
    }
  }

  /** Something sorted by its name. */
  datatype Named<+T> = Named(name: string, item: T)

  ghost predicate Sorted<T>(s: seq<Named<T>>) {
    forall i, j :: 0 <= i < j < |s| ==> !Less(s[j].name, s[i].name)
  }

  ghost predicate DistinctNames<T>(s: seq<Named<T>>) {
    forall i, j :: 0 <= i < j < |s| ==> s[i].name != s[j].name
  }

  function Insert<T(!new)>(x: Named<T>, s: seq<Named<T>>): (r: seq<Named<T>>)
    ensures |r| == |s| + 1
    ensures forall e :: e in r <==> e == x || e in s
  {
    if s == [] || !Less(s[0].name, x.name) then [x] + s
    else
      assert s == [s[0]] + s[1..];
      [s[0]] + Insert(x, s[1..])
  }

  /** `sort`, as a stable insertion sort. */
  function Sort<T(!new)>(s: seq<Named<T>>): (r: seq<Named<T>>)
    ensures |r| == |s|
    ensures forall e :: e in r <==> e in s
  {
    if s == [] then [] else
      assert s == [s[0]] + s[1..];
      Insert(s[0], Sort(s[1..]))
  }

  lemma {:induction false} InsertSorted<T(!new)>(x: Named<T>, s: seq<Named<T>>)
    requires Sorted(s)
    ensures Sorted(Insert(x, s))
  {
    if s == [] {
    } else if !Less(s[0].name, x.name) {
      forall j | 0 <= j < |s| ensures !Less(s[j].name, x.name) {
        if Less(s[j].name, x.name) {
          LessTotal(s[0].name, s[j].name);
          if s[0].name != s[j].name {
            LessTransitive(s[0].name, s[j].name, x.name);
          }
        }
      }
    } else {
      InsertSorted(x, s[1..]);
      var r := Insert(x, s[1..]);
      LessTotal(s[0].name, x.name);
      forall j | 0 <= j < |r| ensures !Less(r[j].name, s[0].name) {
        assert r[j] in r;
      }
    }
  }

  lemma {:induction false} SortSorted<T(!new)>(s: seq<Named<T>>)
    ensures Sorted(Sort(s))
  {
    if s != [] {
      SortSorted(s[1..]);
      InsertSorted(s[0], Sort(s[1..]));
    }
  }

  lemma {:induction false} InsertDistinct<T(!new)>(x: Named<T>, s: seq<Named<T>>)
    requires DistinctNames(s) && forall e :: e in s ==> e.name != x.name
    ensures DistinctNames(Insert(x, s))
  {
    if s != [] && Less(s[0].name, x.name) {
      InsertDistinct(x, s[1..]);
      var r := Insert(x, s[1..]);
      forall j | 0 <= j < |r| ensures r[j].name != s[0].name {
        assert r[j] in r;
        if r[j] != x {
          var k :| 0 <= k < |s[1..]| && s[1..][k] == r[j];
          assert s[k + 1] == r[j];
        }
      }
    } else {
      forall j | 0 <= j < |s| ensures s[j].name != x.name {
        assert s[j] in s;
      }
    }
  }

  lemma {:induction false} SortDistinct<T(!new)>(s: seq<Named<T>>)
    requires DistinctNames(s)
    ensures DistinctNames(Sort(s))
  {
    if s != [] {
      SortDistinct(s[1..]);
      forall e | e in Sort(s[1..]) ensures e.name != s[0].name {
        var k :| 0 <= k < |s[1..]| && s[1..][k] == e;
        assert s[k + 1] == e;
      }
      InsertDistinct(s[0], Sort(s[1..]));
    }
  }

  /** Distinct names have one sorted arrangement: `Sort` forgets the order it was given. */
  lemma {:induction false} SortedUnique<T(!new)>(s: seq<Named<T>>, t: seq<Named<T>>)
    requires Sorted(s) && Sorted(t) && DistinctNames(s) && DistinctNames(t)
    requires forall e :: e in s <==> e in t
    ensures s == t
  {
    assert s != [] ==> s[0] in t;
    assert t != [] ==> t[0] in s;
    if s != [] {
      assert s[0] in t && t[0] in s;
      var k :| 0 <= k < |t| && t[k] == s[0];
      LessTotal(s[0].name, t[0].name);
      var l :| 0 <= l < |s| && s[l] == t[0];
      assert s[0] == t[0];
      forall e ensures e in s[1..] <==> e in t[1..] {
        assert e in s[1..] ==> e in s && e != s[0];
        assert e in t[1..] ==> e in t && e != t[0];
        assert e in s ==> e == s[0] || e in s[1..];
        assert e in t ==> e == t[0] || e in t[1..];
      }
      SortedUnique(s[1..], t[1..]);
      assert s == [s[0]] + s[1..] && t == [t[0]] + t[1..];
    }
  }
}

/** Decimal digits, and the numbers they write. */
module Decimals {

  function Pow10(n: nat): (p: nat)
    ensures p > 0
  {
    if n == 0 then 1 else 10 * Pow10(n - 1)
  }

  predicate IsDigit(c: char) { '0' <= c <= '9' }

  function DigitValue(c: char): (d: nat)
    requires IsDigit(c)
    ensures d < 10
  {
    c as int - '0' as int
  }

  predicate AllDigits(s: string) { forall i :: 0 <= i < |s| ==> IsDigit(s[i]) }

  /** The number a run of digits writes. */
  function NumberOf(s: string): nat
    requires AllDigits(s)
  {
    if s == "" then 0 else DigitValue(s[0]) * Pow10(|s| - 1) + NumberOf(s[1..])
  }
}

/**
  The operators of `${NAME<op>word}`, by the table of section 2.6.2 (Parameter
  Expansion) of the POSIX Shell Command Language.
*/
module ParameterExpansion {
  import opened Common

  /** `-`, `+` and `?`. */
  datatype Operator = Default | Alternate | Require

  /** The table's columns, and its entries. */
  datatype State = SetNotNull | SetButNull | Unset
  datatype Substitution = UseParameter | UseWord | UseNull | Fail

  function StateOf(value: Option<string>): State {
    if value.None? then Unset else if value.value == "" then SetButNull else SetNotNull
  }

  function Table(op: Operator, colon: bool, state: State): Substitution {
    match (op, colon, state)
    case (Default, _, SetNotNull) => UseParameter
    case (Default, true, SetButNull) => UseWord
    case (Default, false, SetButNull) => UseNull
    case (Default, _, Unset) => UseWord
    case (Require, _, SetNotNull) => UseParameter
    case (Require, true, SetButNull) => Fail
    case (Require, false, SetButNull) => UseNull
    case (Require, _, Unset) => Fail
    case (Alternate, _, SetNotNull) => UseWord
    case (Alternate, true, SetButNull) => UseNull
    case (Alternate, false, SetButNull) => UseWord
    case (Alternate, _, Unset) => UseNull
  }

  /** ASCII letters, digits and `_`, by their codes. */
  predicate WordCharacter(c: char) {
    var n := c as int;
    48 <= n <= 57 || 65 <= n <= 90 || n == 95 || 97 <= n <= 122
  }

  /** A name: such characters, and no digit first. */
  predicate Identifier(name: string) {
    name != "" && !(48 <= name[0] as int <= 57) && forall i :: 0 <= i < |name| ==> WordCharacter(name[i])
  }

  predicate EndsName(k: string) { k == "" || !WordCharacter(k[0]) }
}
