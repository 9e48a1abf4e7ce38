/**
 * String helpers the source gets from Python: `sep.join(parts)`, splitting on a
 * separator (the inverse the joins are checked against), `str(n)` for a natural
 * number and the `in` test on strings.
 */
module Text {

  /** `sep.join(parts)`. */
  function Join(sep: string, parts: seq<string>): string {
    if |parts| == 0 then ""
    else if |parts| == 1 then parts[0]
    else parts[0] + sep + Join(sep, parts[1..])
  }

  /** Index of the first occurrence of `sep` in `s`, or |s| when there is none. */
  function Find(s: string, sep: string): (r: nat)
    requires |sep| > 0
    ensures r <= |s|
    ensures r < |s| ==> r + |sep| <= |s| && s[r..r + |sep|] == sep
  {
    if |s| < |sep| then |s|
    else if s[..|sep|] == sep then 0
    else
      var r := 1 + Find(s[1..], sep);
      assert r < |s| ==> s[r..r + |sep|] == s[1..][r - 1..r - 1 + |sep|];
      r
  }

  /** `s.split(sep)`. */
  function SplitOn(s: string, sep: string): seq<string>
    requires |sep| > 0
    decreases |s|
  {
    var i := Find(s, sep);
    if i == |s| then [s] else [s[..i]] + SplitOn(s[i + |sep|..], sep)
  }

  lemma {:induction false} FindAbsent(p: string, sep: string)
    requires |sep| > 0 && sep[0] !in p
    ensures Find(p, sep) == |p|
  {
    if |p| >= |sep| {
      assert p[..|sep|][0] == p[0] != sep[0];
      FindAbsent(p[1..], sep);
    }
  }

  lemma {:induction false} FindAfter(p: string, sep: string, rest: string)
    requires |sep| > 0 && sep[0] !in p
    ensures Find(p + sep + rest, sep) == |p|
  {
    var s := p + sep + rest;
    if |p| == 0 {
      assert s[..|sep|] == sep;
    } else {
      assert s[..|sep|][0] == p[0] != sep[0];
      assert s[1..] == p[1..] + sep + rest;
      FindAfter(p[1..], sep, rest);
    }
  }

  /** Splitting stops at the first separator after a part that cannot start one. */
  lemma SplitStep(p: string, sep: string, rest: string)
    requires |sep| > 0 && sep[0] !in p
    ensures SplitOn(p + sep + rest, sep) == [p] + SplitOn(rest, sep)
  {
    var s := p + sep + rest;
    FindAfter(p, sep, rest);
    assert s[..|p|] == p;
    assert s[|p| + |sep|..] == rest;
  }

  /**
   * Splitting a join gives the parts back, provided no part contains the
   * separator's first character.
   */
  lemma {:induction false} SplitJoin(sep: string, parts: seq<string>)
    requires |sep| > 0 && |parts| >= 1
    requires forall i :: 0 <= i < |parts| ==> sep[0] !in parts[i]
    ensures SplitOn(Join(sep, parts), sep) == parts
  {
    if |parts| == 1 {
      FindAbsent(parts[0], sep);
    } else {
      var tail := parts[1..];
      assert SplitOn(Join(sep, parts), sep) == [parts[0]] + SplitOn(Join(sep, tail), sep) by {
        assert Join(sep, parts) == parts[0] + sep + Join(sep, tail);
        SplitStep(parts[0], sep, Join(sep, tail));
      }
      assert SplitOn(Join(sep, tail), sep) == tail by {
        forall i | 0 <= i < |tail|
          ensures sep[0] !in tail[i]
        {
          assert tail[i] == parts[i + 1];
        }
        SplitJoin(sep, tail);
      }
      assert [parts[0]] + tail == parts;
    }
  }

  /** Python's `in` on strings: `needle` occurs somewhere in `hay` (the empty string always does). */
  predicate Contains(hay: string, needle: string)
    decreases |hay|
  {
    (|needle| <= |hay| && hay[..|needle|] == needle) || (|hay| > 0 && Contains(hay[1..], needle))
  }

  predicate IsDigit(c: char) {
    '0' <= c <= '9'
  }

  function DigitChar(d: nat): (c: char)
    requires d < 10
    ensures IsDigit(c) && c as int - '0' as int == d
  {
    "0123456789"[d]
  }

  /** `str(n)` for a natural number: decimal digits, no leading zero. */
  function NatToString(n: nat): (s: string)
    ensures |s| >= 1 && (forall i :: 0 <= i < |s| ==> IsDigit(s[i]))
    ensures s[0] == '0' ==> n == 0 && s == "0"
  {
    if n < 10 then [DigitChar(n)]
    else NatToString(n / 10) + [DigitChar(n % 10)]
  }

  /** `int(s)` on a string of decimal digits. */
  function ParseNat(s: string): nat
    requires forall i :: 0 <= i < |s| ==> IsDigit(s[i])
  {
    if |s| == 0 then 0
    else ParseNat(s[..|s| - 1]) * 10 + DigitValue(s[|s| - 1])
  }

  function DigitValue(c: char): (d: nat)
    requires IsDigit(c)
    ensures d < 10 && DigitChar(d) == c
  {
    c as int - '0' as int
  }

  /** Reading back the printed number gives the number. */
  lemma {:induction false} ParsePrinted(n: nat)
    ensures ParseNat(NatToString(n)) == n
  {
    var s := NatToString(n);
    if n >= 10 {
      ParsePrinted(n / 10);
      assert s[..|s| - 1] == NatToString(n / 10);
    }
  }
}
