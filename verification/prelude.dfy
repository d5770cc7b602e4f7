/** The few Python built-ins that the fault-tree scripts lean on, stated once:
    `str.split` on a one-character separator, `str()` and `int()` on
    non-negative integers, `list.index`, and `dict(zip(keys, values))`.
    Also the error-carrying result type used for the scripts' exceptions. */
module Prelude {

  datatype Result<+T, +E> = Ok(value: T) | Err(error: E)

  datatype Option<+T> = None | Some(value: T)

  // ---------------------------------------------------------------------------
  // str.split(sep)
  // ---------------------------------------------------------------------------

  /** Python's `s.split(sep)` for a one-character separator: the pieces between
      separators, so `"".split(',') == ['']` and `",".split(',') == ['', '']`. */
  function Split(s: string, sep: char): (r: seq<string>)
    ensures |r| >= 1
  {
    if |s| == 0 then [""]
    else
      var rest := Split(s[1..], sep);
      if s[0] == sep then [""] + rest
      else [[s[0]] + rest[0]] + rest[1..]
  }

  /** Python's `sep.join(parts)`. */
  function Join(parts: seq<string>, sep: char): string
    requires |parts| >= 1
  {
    if |parts| == 1 then parts[0] else parts[0] + [sep] + Join(parts[1..], sep)
  }

  /** Joining the pieces of a split gives back the string that was split. */
  lemma {:induction false} JoinSplit(s: string, sep: char)
    ensures Join(Split(s, sep), sep) == s
  {
    if |s| > 0 {
      var rest := Split(s[1..], sep);
      JoinSplit(s[1..], sep);
      if s[0] == sep {
        assert Split(s, sep) == [""] + rest;
        assert ([""] + rest)[1..] == rest;
        assert s == [sep] + s[1..];
      } else {
        var r := Split(s, sep);
        assert r == [[s[0]] + rest[0]] + rest[1..];
        if |rest| == 1 {
          assert s == [s[0]] + s[1..];
        } else {
          assert r[1..] == rest[1..];
          assert Join(rest, sep) == rest[0] + [sep] + Join(rest[1..], sep);
          assert s == [s[0]] + s[1..];
        }
      }
    }
  }

  /** A string without the separator splits into itself alone. */
  lemma {:induction false} SplitSingle(s: string, sep: char)
    requires sep !in s
    ensures Split(s, sep) == [s]
  {
    if |s| > 0 {
      assert sep !in s[1..];
      SplitSingle(s[1..], sep);
      assert s == [s[0]] + s[1..];
    }
  }

  /** No piece of a split contains the separator. */
  lemma {:induction false} SplitPiecesFree(s: string, sep: char)
    ensures forall k :: 0 <= k < |Split(s, sep)| ==> sep !in Split(s, sep)[k]
  {
    if |s| > 0 {
      SplitPiecesFree(s[1..], sep);
    }
  }

  /** `s` consists of separators only (the empty string included). */
  predicate OnlySeparators(s: string, sep: char)
  {
    forall j :: 0 <= j < |s| ==> s[j] == sep
  }

  /** Every piece of a split is empty exactly when the string is made of
      separators only (so `""`, `","`, `",,"` all split into empty pieces). */
  lemma {:induction false} SplitAllEmpty(s: string, sep: char)
    ensures (forall k :: 0 <= k < |Split(s, sep)| ==> Split(s, sep)[k] == "") <==> OnlySeparators(s, sep)
  {
    if |s| > 0 {
      SplitAllEmpty(s[1..], sep);
      var rest := Split(s[1..], sep);
      if s[0] == sep {
        var r := Split(s, sep);
        assert r == [""] + rest;
        assert forall k :: 0 <= k < |rest| ==> r[k + 1] == rest[k];
        assert forall j :: 0 <= j < |s[1..]| ==> s[1..][j] == s[j + 1];
      } else {
        assert Split(s, sep)[0] == [s[0]] + rest[0];
        assert Split(s, sep)[0] != "";
      }
    }
  }

  // ---------------------------------------------------------------------------
  // str(n) and int(s) for non-negative integers
  // ---------------------------------------------------------------------------

  predicate IsDigit(c: char) { '0' <= c <= '9' }

  /** A non-empty run of decimal digits: what the `\d+` capture delivers. */
  predicate IsDigits(s: string) { |s| >= 1 && forall j :: 0 <= j < |s| ==> IsDigit(s[j]) }

  function DigitChar(d: nat): (c: char)
    requires d < 10
    ensures IsDigit(c) && c as int - '0' as int == d
  {
    ('0' as int + d) as char
  }

  /** Python's `str(n)` for `n >= 0`: decimal digits, no leading zero. */
  function Decimal(n: nat): (s: string)
    ensures IsDigits(s)
    ensures |s| == 1 <==> n < 10
  {
    if n < 10 then [DigitChar(n)] else Decimal(n / 10) + [DigitChar(n % 10)]
  }

  /** Python's `int(s)` on a run of decimal digits. */
  function ParseDigits(s: string): nat
    requires forall j :: 0 <= j < |s| ==> IsDigit(s[j])
  {
    if |s| == 0 then 0
    else
      var last := s[|s| - 1];
      assert IsDigit(last);
      10 * ParseDigits(s[..|s| - 1]) + (last as int - '0' as int)
  }

  /** `int(str(n)) == n`. */
  lemma {:induction false} ParseDecimal(n: nat)
    ensures ParseDigits(Decimal(n)) == n
  {
    if n >= 10 {
      var s := Decimal(n);
      assert s[..|s| - 1] == Decimal(n / 10);
      ParseDecimal(n / 10);
    }
  }

  /** `str` is injective on non-negative integers. */
  lemma DecimalInjective(a: nat, b: nat)
    ensures Decimal(a) == Decimal(b) ==> a == b
  {
    ParseDecimal(a);
    ParseDecimal(b);
  }

  /** Python's `str(i)` for any integer. */
  function IntToString(i: int): (s: string)
    ensures |s| >= 1
    ensures i >= 0 ==> s == Decimal(i)
    ensures i < 0 ==> s == "-" + Decimal(-i)
  {
    if i < 0 then "-" + Decimal(-i) else Decimal(i)
  }

  // ---------------------------------------------------------------------------
  // list.index(x)
  // ---------------------------------------------------------------------------

  /** Python's `s.index(x)`: the position of the first element equal to `x`. */
  function FirstIndex<T(==)>(s: seq<T>, x: T): (k: nat)
    requires x in s
    ensures k < |s| && s[k] == x
    ensures forall j :: 0 <= j < k ==> s[j] != x
  {
    if s[0] == x then 0 else 1 + FirstIndex(s[1..], x)
  }

  // ---------------------------------------------------------------------------
  // dict(zip(keys, values))
  // ---------------------------------------------------------------------------

  /** Python's `dict(pairs[:n])`, built pair by pair. */
  function DictPrefix<K(==), V>(pairs: seq<(K, V)>, n: nat): (d: map<K, V>)
    requires n <= |pairs|
    ensures d.Keys == set i | 0 <= i < n :: pairs[i].0
  {
    if n == 0 then map[] else DictPrefix(pairs, n - 1)[pairs[n - 1].0 := pairs[n - 1].1]
  }

  /** Position `i` holds the last pair with its key among the first `n`. */
  predicate IsLastKeyBefore<K(==), V>(pairs: seq<(K, V)>, n: nat, i: nat)
    requires i < n <= |pairs|
  {
    forall j :: i < j < n ==> pairs[j].0 != pairs[i].0
  }

  lemma {:induction false} DictPrefixLast<K, V>(pairs: seq<(K, V)>, n: nat, i: nat)
    requires i < n <= |pairs| && IsLastKeyBefore(pairs, n, i)
    ensures DictPrefix(pairs, n)[pairs[i].0] == pairs[i].1
  {
    if i < n - 1 {
      DictPrefixLast(pairs, n - 1, i);
      assert pairs[n - 1].0 != pairs[i].0;
    }
  }

  /** Python's `dict(pairs)`: later pairs overwrite earlier ones with the same key. */
  function DictOf<K(==), V>(pairs: seq<(K, V)>): (d: map<K, V>)
    ensures d.Keys == set i | 0 <= i < |pairs| :: pairs[i].0
    ensures forall i :: 0 <= i < |pairs| && IsLastKeyBefore(pairs, |pairs|, i) ==> d[pairs[i].0] == pairs[i].1
  {
    assert forall i :: 0 <= i < |pairs| && IsLastKeyBefore(pairs, |pairs|, i) ==>
      DictPrefix(pairs, |pairs|)[pairs[i].0] == pairs[i].1 by {
      forall i | 0 <= i < |pairs| && IsLastKeyBefore(pairs, |pairs|, i) {
        DictPrefixLast(pairs, |pairs|, i);
      }
    }
    DictPrefix(pairs, |pairs|)
  }

  /** The elements of a sequence listed once each, in some order: the order in
      which Python hands out the members of a set or the keys of a dict. */
  ghost predicate IsEnumeration<T(!new)>(order: seq<T>, s: set<T>)
  {
    && (forall i, j :: 0 <= i < j < |order| ==> order[i] != order[j])
    && (forall x :: x in order <==> x in s)
  }

  /** Listing one more, new, member extends an enumeration. */
  lemma EnumerationAppend<T(!new)>(order: seq<T>, s: set<T>, x: T)
    requires IsEnumeration(order, s) && x !in s
    ensures IsEnumeration(order + [x], s + {x})
  {
    assert forall y :: y in order + [x] <==> y in order || y == x;
  }
}
