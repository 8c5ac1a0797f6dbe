/** String operations the source borrows from JavaScript:
    `String.prototype.startsWith`, `String.prototype.split` on a literal
    separator, and the decimal rendering of an integer (`toString`,
    template literals). */
module Text {

  /** `s.startsWith(prefix)` */
  predicate StartsWith(s: string, prefix: string)
  {
    |prefix| <= |s| && s[..|prefix|] == prefix
  }

  /** `parts.join(sep)` */
  function Join(parts: seq<string>, sep: string): string
  {
    if |parts| == 0 then ""
    else if |parts| == 1 then parts[0]
    else parts[0] + sep + Join(parts[1..], sep)
  }

  /** `sep` occurs in `t` starting at index `k`. */
  predicate OccursAt(t: string, sep: string, k: nat)
  {
    k + |sep| <= |t| && t[k..k + |sep|] == sep
  }

  /** `sep` occurs nowhere in `t`. */
  predicate Free(t: string, sep: string)
  {
    forall k: nat :: k <= |t| ==> !OccursAt(t, sep, k)
  }

  /** `s.split(sep)` for a non-empty literal separator: the separator is
      searched left to right and non-overlapping matches cut the string.
      An empty string splits into one empty segment, as in JavaScript. */
  function Split(s: string, sep: string): (parts: seq<string>)
    requires sep != ""
    ensures |parts| >= 1
    ensures |s| < |sep| ==> parts == [s]
    ensures StartsWith(s, parts[0])
    ensures forall i :: 0 <= i < |parts| ==> Free(parts[i], sep)
    decreases |s|
  {
    if |s| < |sep| then
      assert Free(s, sep);
      [s]
    else if s[..|sep|] == sep then [""] + Split(s[|sep|..], sep)
    else
      var rest := Split(s[1..], sep);
      var first := [s[0]] + rest[0];
      assert first == s[..|first|] by {
        assert rest[0] == s[1..][..|rest[0]|];
      }
      assert Free(first, sep) by {
        forall k: nat | k <= |first|
          ensures !OccursAt(first, sep, k)
        {
          if k == 0 {
            if k + |sep| <= |first| {
              assert first[0..|sep|] == s[..|sep|];
            }
          } else {
            assert !OccursAt(rest[0], sep, k - 1);
            if k + |sep| <= |first| {
              assert first[k..k + |sep|] == rest[0][k - 1..k - 1 + |sep|];
            }
          }
        }
      }
      var parts := [first] + rest[1..];
      assert forall i :: 1 <= i < |parts| ==> parts[i] == rest[i];
      parts
  }

  /** Prepending a character to the first segment prepends it to the join. */
  lemma JoinConsFirst(c: char, parts: seq<string>, sep: string)
    requires |parts| >= 1
    ensures Join([[c] + parts[0]] + parts[1..], sep) == [c] + Join(parts, sep)
  {
    var q := [[c] + parts[0]] + parts[1..];
    assert q[1..] == parts[1..];
    if |parts| > 1 {
      assert Join(q, sep) == q[0] + sep + Join(q[1..], sep);
      assert Join(parts, sep) == parts[0] + sep + Join(parts[1..], sep);
    }
  }

  /** Splitting loses nothing: joining the segments with the same separator
      gives back the original string. */
  lemma {:induction false} JoinSplit(s: string, sep: string)
    requires sep != ""
    ensures Join(Split(s, sep), sep) == s
    decreases |s|
  {
    if |s| < |sep| {
    } else if s[..|sep|] == sep {
      var rest := Split(s[|sep|..], sep);
      JoinSplit(s[|sep|..], sep);
      var parts := [""] + rest;
      assert parts[1..] == rest;
      if |rest| == 1 {
        assert Join(rest, sep) == rest[0];
      }
      assert Join(parts, sep) == "" + sep + Join(rest, sep);
      assert s == s[..|sep|] + s[|sep|..];
    } else {
      var rest := Split(s[1..], sep);
      JoinSplit(s[1..], sep);
      JoinConsFirst(s[0], rest, sep);
      assert s == [s[0]] + s[1..];
    }
  }

  predicate IsDigitChar(c: char)
  {
    '0' <= c <= '9'
  }

  function DigitChar(d: nat): (c: char)
    requires d < 10
    ensures IsDigitChar(c)
  {
    "0123456789"[d]
  }

  function DigitValue(c: char): (d: nat)
    requires IsDigitChar(c)
    ensures d < 10
  {
    (c as int - '0' as int)
  }

  predicate AllDigits(s: string)
  {
    forall i :: 0 <= i < |s| ==> IsDigitChar(s[i])
  }

  /** The value of a string of decimal digits, most significant first. */
  function DecimalValue(s: string): nat
    requires AllDigits(s)
  {
    if |s| == 0 then 0
    else DecimalValue(s[..|s| - 1]) * 10 + DigitValue(s[|s| - 1])
  }

  /** Decimal digits of a natural number, without leading zeros. */
  function NatToString(n: nat): (s: string)
    ensures |s| >= 1
    ensures AllDigits(s)
    ensures s[0] == '0' ==> n == 0
    decreases n
  {
    if n < 10 then [DigitChar(n)]
    else NatToString(n / 10) + [DigitChar(n % 10)]
  }

  /** `String(n)` for an integer: a minus sign before the digits of a
      negative number. */
  function IntToString(n: int): (s: string)
    ensures s != ""
    ensures n < 0 <==> s[0] == '-'
  {
    if n < 0 then "-" + NatToString(-n) else NatToString(n)
  }

  /** Reading the digits back gives the number: `NatToString` is a faithful
      decimal encoding. */
  lemma {:induction false} NatToStringRoundTrip(n: nat)
    ensures DecimalValue(NatToString(n)) == n
    decreases n
  {
    if n < 10 {
      var s := NatToString(n);
      assert s[..0] == "";
      assert "0123456789"[n] as int - '0' as int == n;
    } else {
      var prefix := NatToString(n / 10);
      var s := prefix + [DigitChar(n % 10)];
      assert s[..|s| - 1] == prefix;
      NatToStringRoundTrip(n / 10);
      assert "0123456789"[n % 10] as int - '0' as int == n % 10;
    }
  }

  /** Different natural numbers have different digits. */
  lemma NatToStringInjective(a: nat, b: nat)
    requires NatToString(a) == NatToString(b)
    ensures a == b
  {
    NatToStringRoundTrip(a);
    NatToStringRoundTrip(b);
  }

  /** Different integers render as different strings. */
  lemma {:induction false} IntToStringInjective(a: int, b: int)
    requires IntToString(a) == IntToString(b)
    ensures a == b
  {
    var sa := IntToString(a);
    var sb := IntToString(b);
    if a < 0 {
      assert sa[0] == '-';
      assert b < 0;
      var da := NatToString(-a);
      var db := NatToString(-b);
      assert sa == "-" + da;
      assert sb == "-" + db;
      assert sa[1..] == da;
      assert sb[1..] == db;
      NatToStringInjective(-a, -b);
    } else {
      assert b >= 0;
      NatToStringInjective(a, b);
    }
  }
}
