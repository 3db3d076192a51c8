/** The string operations the source takes from JavaScript: `startsWith`,
    `includes`, `split` on one character, `filter(Boolean)`, a global one-character
    `replace`, and `Number.prototype.toString` on integers. Each comes with the
    property that pins it down (a round trip or a positional characterisation). */
module Text {

  /** `s.startsWith(prefix)` */
  predicate StartsWith(s: string, prefix: string) {
    |prefix| <= |s| && s[..|prefix|] == prefix
  }

  /** `s.endsWith(suffix)` */
  predicate EndsWith(s: string, suffix: string) {
    |suffix| <= |s| && s[|s| - |suffix|..] == suffix
  }

  /** `t` occurs in `s` starting at index `i`. */
  predicate OccursAt(s: string, t: string, i: int) {
    0 <= i && i + |t| <= |s| && s[i..i + |t|] == t
  }

  /** `s.includes(t)`, computed by scanning the suffixes of `s`. */
  predicate Contains(s: string, t: string)
    decreases |s|
  {
    StartsWith(s, t) || (|s| > 0 && Contains(s[1..], t))
  }

  /** The scan agrees with the positional definition of an occurrence. */
  lemma {:induction false} ContainsIff(s: string, t: string)
    ensures Contains(s, t) <==> exists i :: OccursAt(s, t, i)
    decreases |s|
  {
    if StartsWith(s, t) {
      assert OccursAt(s, t, 0);
    }
    if |s| > 0 {
      ContainsIff(s[1..], t);
      if exists i :: OccursAt(s[1..], t, i) {
        var i :| OccursAt(s[1..], t, i);
        assert s[1..][i..i + |t|] == s[i + 1..i + 1 + |t|];
        assert OccursAt(s, t, i + 1);
      }
      if exists i :: OccursAt(s, t, i) {
        var i :| OccursAt(s, t, i);
        if i > 0 {
          assert s[1..][i - 1..i - 1 + |t|] == s[i..i + |t|];
          assert OccursAt(s[1..], t, i - 1);
        } else {
          assert StartsWith(s, t);
        }
      }
    } else if exists i :: OccursAt(s, t, i) {
      var i :| OccursAt(s, t, i);
      assert |t| == 0;
      assert StartsWith(s, t);
    }
  }

  /** `parts.join(sep)` */
  function Join(parts: seq<string>, sep: char): string
    decreases |parts|
  {
    if |parts| == 0 then ""
    else if |parts| == 1 then parts[0]
    else parts[0] + [sep] + Join(parts[1..], sep)
  }

  /** `s.split(sep)` for a one-character separator: never empty, no part holds
      the separator, and joining the parts gives back `s`. */
  function Split(s: string, sep: char): (parts: seq<string>)
    ensures |parts| >= 1
    ensures forall k :: 0 <= k < |parts| ==> sep !in parts[k]
    ensures Join(parts, sep) == s
    decreases |s|
  {
    if |s| == 0 then [""]
    else
      var rest := Split(s[1..], sep);
      if s[0] == sep then
        assert ([""] + rest)[1..] == rest;
        [""] + rest
      else
        var parts := [[s[0]] + rest[0]] + rest[1..];
        assert parts[1..] == rest[1..];
        parts
  }

  lemma {:induction false} SplitWithoutSeparator(a: string, sep: char)
    requires sep !in a
    ensures Split(a, sep) == [a]
    decreases |a|
  {
    if |a| > 0 {
      SplitWithoutSeparator(a[1..], sep);
      assert [a[0]] + a[1..] == a;
    }
  }

  lemma {:induction false} SplitAfterFirstPart(a: string, b: string, sep: char)
    requires sep !in a
    ensures Split(a + [sep] + b, sep) == [a] + Split(b, sep)
    decreases |a|
  {
    var s := a + [sep] + b;
    if |a| == 0 {
      assert s[1..] == b;
    } else {
      assert s[1..] == a[1..] + [sep] + b;
      SplitAfterFirstPart(a[1..], b, sep);
      assert [a[0]] + a[1..] == a;
    }
  }

  /** The converse round trip: splitting a join of separator-free parts gives
      the parts back. */
  lemma {:induction false} SplitJoin(parts: seq<string>, sep: char)
    requires |parts| >= 1
    requires forall k :: 0 <= k < |parts| ==> sep !in parts[k]
    ensures Split(Join(parts, sep), sep) == parts
    decreases |parts|
  {
    if |parts| == 1 {
      SplitWithoutSeparator(parts[0], sep);
    } else {
      SplitAfterFirstPart(parts[0], Join(parts[1..], sep), sep);
      SplitJoin(parts[1..], sep);
      assert [parts[0]] + parts[1..] == parts;
    }
  }

  /** `parts.filter(Boolean)`: the non-empty parts, in order. */
  function NonEmpty(parts: seq<string>): (r: seq<string>)
    ensures |r| <= |parts|
    ensures forall k :: 0 <= k < |r| ==> r[k] != "" && r[k] in parts
    ensures forall k :: 0 <= k < |parts| && parts[k] != "" ==> parts[k] in r
    decreases |parts|
  {
    if |parts| == 0 then []
    else
      var rest := NonEmpty(parts[1..]);
      if parts[0] == "" then rest else [parts[0]] + rest
  }

  /** Empty parts in front of the list are skipped. */
  lemma {:induction false} NonEmptyDropEmpty(parts: seq<string>, n: nat)
    requires n <= |parts|
    requires forall m :: 0 <= m < n ==> parts[m] == ""
    ensures NonEmpty(parts) == NonEmpty(parts[n..])
    decreases n
  {
    if n > 0 {
      NonEmptyDropEmpty(parts[1..], n - 1);
      assert parts[1..][n - 1..] == parts[n..];
    }
  }

  /** From `start` on, the first kept part is the part at the first non-empty
      position `i`. */
  lemma NonEmptyFirstFrom(parts: seq<string>, start: nat, i: nat)
    requires start <= i < |parts| && parts[i] != ""
    requires forall m :: start <= m < i ==> parts[m] == ""
    ensures NonEmpty(parts[start..]) == [parts[i]] + NonEmpty(parts[i + 1..])
  {
    var from := parts[start..];
    assert forall m :: 0 <= m < i - start ==> from[m] == parts[start + m];
    NonEmptyDropEmpty(from, i - start);
    var fromI := from[i - start..];
    assert fromI == parts[i..];
    assert fromI[0] == parts[i] && fromI[1..] == parts[i + 1..];
  }

  /** The first two kept parts are the first two non-empty parts: every part
      before `i` and every part strictly between `i` and `j` is empty. */
  lemma FirstTwoNonEmpty(parts: seq<string>, i: nat, j: nat)
    requires i < j < |parts| && parts[i] != "" && parts[j] != ""
    requires forall m :: 0 <= m < j && m != i ==> parts[m] == ""
    ensures |NonEmpty(parts)| >= 2
    ensures NonEmpty(parts)[0] == parts[i] && NonEmpty(parts)[1] == parts[j]
  {
    NonEmptyFirstFrom(parts, 0, i);
    assert parts[0..] == parts;
    NonEmptyFirstFrom(parts, i + 1, j);
    var rest := NonEmpty(parts[j + 1..]);
    assert NonEmpty(parts) == [parts[i]] + ([parts[j]] + rest);
  }

  /** `NonEmpty` skips empty parts and keeps the others in front. */
  lemma NonEmptyCons(head: string, tail: seq<string>)
    ensures NonEmpty([head] + tail) == (if head == "" then [] else [head]) + NonEmpty(tail)
  {
    assert ([head] + tail)[1..] == tail;
  }

  /** `s.replace(/f/g, t)` for one character `f`. */
  function ReplaceChar(s: string, from: char, to: char): (r: string)
    ensures |r| == |s|
    ensures forall i :: 0 <= i < |s| ==> r[i] == (if s[i] == from then to else s[i])
    ensures from != to ==> from !in r
    decreases |s|
  {
    if |s| == 0 then ""
    else [if s[0] == from then to else s[0]] + ReplaceChar(s[1..], from, to)
  }

  predicate IsDigit(c: char) {
    '0' <= c <= '9'
  }

  function DigitChar(d: nat): (c: char)
    requires d < 10
    ensures IsDigit(c)
  {
    ('0' as int + d) as char
  }

  function DigitValue(c: char): nat
    requires IsDigit(c)
  {
    c as int - '0' as int
  }

  predicate AllDigits(s: string) {
    forall i :: 0 <= i < |s| ==> IsDigit(s[i])
  }

  /** The value of a string of decimal digits, most significant first. */
  function DigitsValue(s: string): nat
    requires AllDigits(s)
    decreases |s|
  {
    if |s| == 0 then 0 else DigitsValue(s[..|s| - 1]) * 10 + DigitValue(s[|s| - 1])
  }

  /** Decimal rendering of a natural number: digits only, with no leading zero. */
  function NatToString(n: nat): (s: string)
    ensures |s| >= 1 && AllDigits(s)
    ensures s[0] == '0' <==> n == 0
    ensures n == 0 ==> s == "0"
    decreases n
  {
    if n < 10 then [DigitChar(n)] else NatToString(n / 10) + [DigitChar(n % 10)]
  }

  lemma {:induction false} NatToStringRoundTrip(n: nat)
    ensures DigitsValue(NatToString(n)) == n
    decreases n
  {
    var s := NatToString(n);
    if n >= 10 {
      NatToStringRoundTrip(n / 10);
      assert s[..|s| - 1] == NatToString(n / 10);
    }
  }

  /** `n.toString()` for an integer. */
  function IntToString(n: int): (s: string)
    ensures |s| >= 1
    ensures s[0] == '-' <==> n < 0
  {
    if n < 0 then "-" + NatToString(-n) else NatToString(n)
  }

  /** Distinct integers render to distinct strings, so `id.toString()` is a
      faithful key. */
  lemma IntToStringInjective(a: int, b: int)
    ensures IntToString(a) == IntToString(b) ==> a == b
  {
    if IntToString(a) == IntToString(b) {
      // The leading minus sign tells the signs apart.
      assert (a < 0) == (b < 0);
      if a < 0 {
        assert IntToString(a)[1..] == NatToString(-a);
        assert IntToString(b)[1..] == NatToString(-b);
        NatToStringInjective(-a, -b);
      } else {
        NatToStringInjective(a, b);
      }
    }
  }

  lemma NatToStringInjective(a: nat, b: nat)
    requires NatToString(a) == NatToString(b)
    ensures a == b
  {
    NatToStringRoundTrip(a);
    NatToStringRoundTrip(b);
  }
}
