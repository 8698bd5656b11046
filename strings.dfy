/**
  The string operations of Python's `str` that the batch engine relies on:
  `isdigit`, `lower`, decimal formatting of integers, `sep.join(items)` and
  its inverse `split`.  Characters are Unicode scalar values, which are Python's code points
  other than lone surrogates;
  digits and case are the ASCII ones (see README).
 */
module Strings {

  predicate IsAsciiDigit(c: char) {
    '0' <= c <= '9'
  }

  /** `s.isdigit()`: non-empty and every character a digit. */
  predicate IsDigitString(s: string) {
    |s| > 0 && forall i :: 0 <= i < |s| ==> IsAsciiDigit(s[i])
  }

  function LowerChar(c: char): char {
    if 'A' <= c <= 'Z' then (c as int + 32) as char else c
  }

  /** `s.lower()` on the ASCII letters. */
  function Lower(s: string): (r: string)
    ensures |r| == |s|
    ensures forall i :: 0 <= i < |s| ==> r[i] == LowerChar(s[i])
  {
    seq(|s|, i requires 0 <= i < |s| => LowerChar(s[i]))
  }

  lemma LowerIdempotent(s: string)
    ensures Lower(Lower(s)) == Lower(s)
  {
  }

  function DigitChar(d: nat): (c: char)
    requires d < 10
    ensures IsAsciiDigit(c)
  {
    ('0' as int + d) as char
  }

  function DigitValue(c: char): nat {
    if IsAsciiDigit(c) then c as int - '0' as int else 0
  }

  /** `str(n)` for a natural number: its shortest decimal representation. */
  function NatToString(n: nat): (s: string)
    ensures IsDigitString(s)
    ensures |s| == 1 <==> n < 10
    ensures n > 0 ==> s[0] != '0'
    decreases n
  {
    if n < 10 then [DigitChar(n)] else NatToString(n / 10) + [DigitChar(n % 10)]
  }

  /** The decimal value of a string of digits (the inverse of NatToString). */
  function ParseNat(s: string): nat
    decreases |s|
  {
    if s == [] then 0 else ParseNat(s[..|s| - 1]) * 10 + DigitValue(s[|s| - 1])
  }

  lemma {:induction false} ParseNatToString(n: nat)
    ensures ParseNat(NatToString(n)) == n
    decreases n
  {
    if n >= 10 {
      var s := NatToString(n);
      assert s[..|s| - 1] == NatToString(n / 10);
      ParseNatToString(n / 10);
    }
  }

  /** Decimal representations of distinct numbers are distinct. */
  lemma NatToStringInjective(a: nat, b: nat)
    requires NatToString(a) == NatToString(b)
    ensures a == b
  {
    ParseNatToString(a);
    ParseNatToString(b);
  }

  /** `sep.join(items)`. */
  function Join(sep: string, items: seq<string>): string
    decreases |items|
  {
    if |items| == 0 then ""
    else if |items| == 1 then items[0]
    else items[0] + sep + Join(sep, items[1..])
  }

  /** `s.split(sep)` for a non-empty separator: the pieces between the
      non-overlapping occurrences of `sep`, scanning from the left. */
  function Split(s: string, sep: string): (parts: seq<string>)
    requires |sep| > 0
    ensures |parts| > 0
    decreases |s|
  {
    if |s| == 0 then [""]
    else if |sep| <= |s| && s[..|sep|] == sep then [""] + Split(s[|sep|..], sep)
    else
      var rest := Split(s[1..], sep);
      [[s[0]] + rest[0]] + rest[1..]
  }

  predicate Excludes(s: string, c: char) {
    forall i :: 0 <= i < |s| ==> s[i] != c
  }

  /** A prefix that holds no character of the separator's first letter is
      glued onto the first piece. */
  lemma {:induction false} SplitPrefix(x: string, t: string, sep: string)
    requires |sep| > 0 && Excludes(x, sep[0])
    ensures Split(x + t, sep) == [x + Split(t, sep)[0]] + Split(t, sep)[1..]
    decreases |x|
  {
    if |x| > 0 {
      var s := x + t;
      assert s[0] == x[0] && s[0] != sep[0];
      assert !(|sep| <= |s| && s[..|sep|] == sep) by {
        if |sep| <= |s| { assert s[..|sep|][0] == s[0]; }
      }
      assert s[1..] == x[1..] + t;
      SplitPrefix(x[1..], t, sep);
      assert [x[0]] + (x[1..] + Split(t, sep)[0]) == x + Split(t, sep)[0];
    } else {
      var r := Split(t, sep);
      assert x + t == t && x + r[0] == r[0];
      assert [r[0]] + r[1..] == r;
    }
  }

  lemma SplitNoSeparator(x: string, sep: string)
    requires |sep| > 0 && Excludes(x, sep[0])
    ensures Split(x, sep) == [x]
  {
    SplitPrefix(x, "", sep);
    assert x + "" == x;
  }

  /** `s.split(sep)` undoes `sep.join(items)` when no item holds the
      separator's first character. */
  lemma {:induction false} SplitJoin(items: seq<string>, sep: string)
    requires |sep| > 0 && |items| > 0
    requires forall i :: 0 <= i < |items| ==> Excludes(items[i], sep[0])
    ensures Split(Join(sep, items), sep) == items
    decreases |items|
  {
    if |items| == 1 {
      SplitNoSeparator(items[0], sep);
    } else {
      var tail := Join(sep, items[1..]);
      var t := sep + tail;
      assert Join(sep, items) == items[0] + t;
      SplitPrefix(items[0], t, sep);
      assert t[..|sep|] == sep && t[|sep|..] == tail;
      SplitJoin(items[1..], sep);
      assert Split(t, sep) == [""] + items[1..];
      assert items[0] + "" == items[0];
      assert [items[0]] + items[1..] == items;
    }
  }

  /** The pieces of a split on a one-character separator do not hold it. */
  lemma {:induction false} SplitPiecesExclude(s: string, sep: string)
    requires |sep| == 1
    ensures forall i :: 0 <= i < |Split(s, sep)| ==> Excludes(Split(s, sep)[i], sep[0])
    decreases |s|
  {
    if |s| > 0 {
      SplitPiecesExclude(s[|sep|..], sep);
      SplitPiecesExclude(s[1..], sep);
    }
  }

  /** Splitting on a one-character separator distributes over a
      concatenation joined by that separator. */
  lemma {:induction false} SplitAppend(a: string, b: string, sep: string)
    requires |sep| == 1
    ensures Split(a + sep + b, sep) == Split(a, sep) + Split(b, sep)
    decreases |a|
  {
    var s := a + sep + b;
    if |a| == 0 {
      assert s == sep + b;
      assert s[..1] == sep && s[1..] == b;
    } else if a[0] == sep[0] {
      assert s[..1] == sep && a[..1] == sep;
      assert s[1..] == a[1..] + sep + b;
      SplitAppend(a[1..], b, sep);
    } else {
      assert s[0] == a[0];
      assert s[..1] != sep && a[..1] != sep;
      assert s[1..] == a[1..] + sep + b;
      SplitAppend(a[1..], b, sep);
      var ra := Split(a[1..], sep);
      assert Split(a, sep) == [[a[0]] + ra[0]] + ra[1..];
    }
  }
}
