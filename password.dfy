/**
 * Password rules and the password generator. A password is valid when it holds a
 * character of every enabled class (lower case, upper case, digit, punctuation)
 * and no white space. The generator draws `length` distinct characters of the
 * enabled alphabet until a draw is valid; the draws, random in the source, are an
 * input here.
 */
module Password {

  /** The characters with codes lo, lo + 1, ..., hi - 1. */
  function CharRange(lo: nat, hi: nat): (r: string)
    requires lo <= hi <= 0xD800
    ensures |r| == hi - lo
    ensures forall c :: c in r <==> lo <= c as int < hi
  {
    var r := seq(hi - lo, i requires 0 <= i < hi - lo => (lo + i) as char);
    assert forall c | lo <= c as int < hi :: c in r by {
      forall c | lo <= c as int < hi
        ensures c in r
      {
        assert r[c as int - lo] == c;
      }
    }
    r
  }

  /** `string.ascii_lowercase` */
  const AsciiLowercase: string := CharRange('a' as nat, 'z' as nat + 1)
  /** `string.ascii_uppercase` */
  const AsciiUppercase: string := CharRange('A' as nat, 'Z' as nat + 1)
  /** `string.digits` */
  const Digits: string := CharRange('0' as nat, '9' as nat + 1)
  /** `string.punctuation`: the printable ASCII characters that are neither letters, digits nor space. */
  const Punctuation: string := CharRange(33, 48) + CharRange(58, 65) + CharRange(91, 97) + CharRange(123, 127)

  lemma PunctuationIsStringPunctuation()
    ensures Punctuation == "!\"#$%&'()*+,-./:;<=>?@[\\]^_`{|}~"
  {
  }

  /** Which character classes are required (and used by the generator). */
  datatype Flags = Flags(lower: bool, upper: bool, num: bool, symbol: bool)

  datatype CharClass = Lower | Upper | Digit | Symbol | Space

  /**
   * `\s` of Python's `re` on a `str`: the Unicode white space (the ASCII controls
   * tab to carriage return, the separators 0x1C-0x1F, the space, and the Unicode
   * spaces and line/paragraph separators).
   */
  predicate IsSpace(c: char) {
    var n := c as int;
    (9 <= n <= 13) || (28 <= n <= 32) || n == 0x85 || n == 0xA0 || n == 0x1680
    || (0x2000 <= n <= 0x200A) || n == 0x2028 || n == 0x2029 || n == 0x202F
    || n == 0x205F || n == 0x3000
  }

  /** The characters `[a-z]`, `[A-Z]`, `[0-9]`, `string.punctuation` and `\s` match. */
  predicate InClass(c: char, k: CharClass) {
    match k
    case Lower => 'a' <= c <= 'z'
    case Upper => 'A' <= c <= 'Z'
    case Digit => '0' <= c <= '9'
    case Symbol => c in Punctuation
    case Space => IsSpace(c)
  }

  /** Some character of `p` is in class `k`. */
  predicate Has(p: string, k: CharClass) {
    exists i :: 0 <= i < |p| && InClass(p[i], k)
  }

  /** `re.search` for a one-character class, scanning from the left. */
  function Search(p: string, k: CharClass): (r: bool)
    ensures r <==> Has(p, k)
  {
    if |p| == 0 then false
    else if InClass(p[0], k) then
      assert InClass(p[0], k);
      true
    else
      var r := Search(p[1..], k);
      assert Has(p[1..], k) ==> Has(p, k) by {
        if Has(p[1..], k) {
          var i :| 0 <= i < |p[1..]| && InClass(p[1..][i], k);
          assert InClass(p[i + 1], k);
        }
      }
      assert Has(p, k) ==> Has(p[1..], k) by {
        if Has(p, k) {
          var i :| 0 <= i < |p| && InClass(p[i], k);
          assert i > 0 && InClass(p[1..][i - 1], k);
        }
      }
      r
  }

  /** The rule the validator checks. */
  predicate Valid(p: string, flags: Flags) {
    && (flags.lower ==> Has(p, Lower))
    && (flags.upper ==> Has(p, Upper))
    && (flags.num ==> Has(p, Digit))
    && (flags.symbol ==> Has(p, Symbol))
    && !Has(p, Space)
  }

  /** `func_validate_password`: the first failed check decides; no failure means valid. */
  function ValidatePassword(password: string, flags: Flags): (r: bool)
    ensures r <==> Valid(password, flags)
  {
    if flags.lower && !Search(password, Lower) then false
    else if flags.upper && !Search(password, Upper) then false
    else if flags.num && !Search(password, Digit) then false
    else if flags.symbol && !Search(password, Symbol) then false
    else if Search(password, Space) then false
    else true
  }

  /** The characters the generator draws from: the enabled classes, in this order. */
  function Alphabet(flags: Flags): string {
    (if flags.lower then AsciiLowercase else "")
    + (if flags.upper then AsciiUppercase else "")
    + (if flags.num then Digits else "")
    + (if flags.symbol then Punctuation else "")
  }

  /** All characters distinct. */
  predicate Distinct(s: string) {
    forall i, j :: 0 <= i < j < |s| ==> s[i] != s[j]
  }

  /** What `random.sample(all, length)` can return, joined into a string. */
  predicate IsSample(draw: string, alphabet: string, length: int) {
    |draw| == length && Distinct(draw) && forall i :: 0 <= i < |draw| ==> draw[i] in alphabet
  }

  datatype GenOutcome =
    | Generated(password: string)
    /** `random.sample` raises: the length is negative or above the alphabet's size. */
    | SampleError
    /** Every supplied draw failed validation (the source would keep drawing). */
    | Exhausted

  /** The string `func_generate_password` draws from, built up class by class. */
  method BuildAlphabet(flags: Flags) returns (all: string)
    ensures all == Alphabet(flags)
  {
    all := "";
    if flags.lower {
      all := all + AsciiLowercase;
    }
    if flags.upper {
      all := all + AsciiUppercase;
    }
    if flags.num {
      all := all + Digits;
    }
    if flags.symbol {
      all := all + Punctuation;
    }
  }

  /**
   * `func_generate_password`, with the successive outcomes of `random.sample`
   * supplied as `draws`. It returns the first valid draw.
   * Each draw is required to be a sample: `length` characters of the alphabet, none
   * repeated. `random.sample` picks distinct positions, and `AlphabetDistinct` shows
   * the alphabet repeats no character, so distinct positions give distinct characters.
   */
  method GeneratePassword(length: int, draws: seq<string>, flags: Flags := Flags(true, true, true, true))
    returns (r: GenOutcome)
    requires forall k :: 0 <= k < |draws| ==> IsSample(draws[k], Alphabet(flags), length)
    ensures r.SampleError? <==> length < 0 || length > |Alphabet(flags)|
    ensures r.Generated? ==>
              && Valid(r.password, flags)
              && IsSample(r.password, Alphabet(flags), length)
              && exists k :: 0 <= k < |draws| && draws[k] == r.password
                   && forall j :: 0 <= j < k ==> !Valid(draws[j], flags)
    ensures r.Exhausted? ==> forall k :: 0 <= k < |draws| ==> !Valid(draws[k], flags)
  {
    var all := BuildAlphabet(flags);
    if length < 0 || length > |all| {
      return SampleError;
    }
    var k := FirstValid(draws, flags);
    if k < |draws| {
      return Generated(draws[k]);
    }
    return Exhausted;
  }

  /** The drawing loop of `func_generate_password`: the index of the first valid draw, or |draws|. */
  method FirstValid(draws: seq<string>, flags: Flags) returns (k: nat)
    ensures k <= |draws|
    ensures forall j :: 0 <= j < k ==> !Valid(draws[j], flags)
    ensures k < |draws| ==> Valid(draws[k], flags)
  {
    k := 0;
    while k < |draws|
      invariant k <= |draws|
      invariant forall j :: 0 <= j < k ==> !Valid(draws[j], flags)
    {
      var isValid := ValidatePassword(draws[k], flags);
      if isValid {
        return;
      }
      k := k + 1;
    }
  }

  /** Every character of the alphabet is in one of the enabled classes, and none is white space. */
  lemma AlphabetClasses(flags: Flags, c: char)
    requires c in Alphabet(flags)
    ensures (flags.lower && InClass(c, Lower)) || (flags.upper && InClass(c, Upper))
      || (flags.num && InClass(c, Digit)) || (flags.symbol && InClass(c, Symbol))
    ensures !IsSpace(c)
  {
  }

  /** Strictly increasing codes: no character twice. */
  predicate Increasing(s: string) {
    forall i, j :: 0 <= i < j < |s| ==> s[i] < s[j]
  }

  lemma CharRangeIncreasing(lo: nat, hi: nat)
    requires lo <= hi <= 0xD800
    ensures Increasing(CharRange(lo, hi))
  {
    var r := CharRange(lo, hi);
    assert forall i :: 0 <= i < |r| ==> r[i] as int == lo + i;
  }

  /** Two strings without repeats and without a common character: their concatenation has no repeat. */
  lemma DistinctConcat(s: string, t: string)
    requires Distinct(s) && Distinct(t)
    requires forall x :: x in s ==> x !in t
    ensures Distinct(s + t)
  {
    var st := s + t;
    forall i, j | 0 <= i < j < |st|
      ensures st[i] != st[j]
    {
      if i < |s| && j >= |s| {
        assert st[i] in s && st[j] == t[j - |s|] && st[j] in t;
      } else if i >= |s| {
        assert st[i] == t[i - |s|] && st[j] == t[j - |s|];
      }
    }
  }

  /** `string.punctuation` holds no character twice. */
  lemma PunctuationDistinct()
    ensures Distinct(Punctuation)
  {
    var p1, p2, p3, p4 := CharRange(33, 48), CharRange(58, 65), CharRange(91, 97), CharRange(123, 127);
    CharRangeIncreasing(33, 48);
    CharRangeIncreasing(58, 65);
    CharRangeIncreasing(91, 97);
    CharRangeIncreasing(123, 127);
    DistinctConcat(p1, p2);
    DistinctConcat(p1 + p2, p3);
    DistinctConcat(p1 + p2 + p3, p4);
  }

  /**
   * The alphabet holds no character twice, so a sample of distinct positions is a
   * string of distinct characters.
   */
  lemma AlphabetDistinct(flags: Flags)
    ensures Distinct(Alphabet(flags))
  {
    var lo := if flags.lower then AsciiLowercase else "";
    var up := if flags.upper then AsciiUppercase else "";
    var nu := if flags.num then Digits else "";
    var sy := if flags.symbol then Punctuation else "";
    assert Distinct(lo) && Distinct(up) && Distinct(nu) && Distinct(sy) by {
      CharRangeIncreasing('a' as nat, 'z' as nat + 1);
      CharRangeIncreasing('A' as nat, 'Z' as nat + 1);
      CharRangeIncreasing('0' as nat, '9' as nat + 1);
      PunctuationDistinct();
    }
    assert Distinct(lo + up) by {
      DistinctConcat(lo, up);
    }
    assert Distinct(lo + up + nu) by {
      DistinctConcat(lo + up, nu);
    }
    DistinctConcat(lo + up + nu, sy);
  }

  /** Every enabled class is present in the alphabet. */
  lemma AlphabetCovers(flags: Flags)
    ensures flags.lower ==> Has(Alphabet(flags), Lower)
    ensures flags.upper ==> Has(Alphabet(flags), Upper)
    ensures flags.num ==> Has(Alphabet(flags), Digit)
    ensures flags.symbol ==> Has(Alphabet(flags), Symbol)
  {
    var a := Alphabet(flags);
    var lo := if flags.lower then 26 else 0;
    var up := lo + if flags.upper then 26 else 0;
    var nu := up + if flags.num then 10 else 0;
    assert flags.lower ==> InClass(a[0], Lower);
    assert flags.upper ==> InClass(a[lo], Upper);
    assert flags.num ==> InClass(a[up], Digit);
    assert flags.symbol ==> InClass(a[nu], Symbol);
  }

  /** A draw from the alphabet never fails the white-space check. */
  lemma SampleHasNoSpace(draw: string, flags: Flags)
    requires forall i :: 0 <= i < |draw| ==> draw[i] in Alphabet(flags)
    ensures !Has(draw, Space)
  {
    forall i | 0 <= i < |draw|
      ensures !InClass(draw[i], Space)
    {
      AlphabetClasses(flags, draw[i]);
    }
  }

  /** How many classes are enabled. */
  function Enabled(flags: Flags): nat {
    (if flags.lower then 1 else 0) + (if flags.upper then 1 else 0)
    + (if flags.num then 1 else 0) + (if flags.symbol then 1 else 0)
  }

  /** A set of positions below n has at most n elements. */
  lemma {:induction false} IndexSetSize(s: set<nat>, n: nat)
    requires forall i :: i in s ==> i < n
    ensures |s| <= n
  {
    if n > 0 {
      var below := s - {n - 1};
      IndexSetSize(below, n - 1);
      if n - 1 in s {
        assert s == below + {n - 1};
      } else {
        assert s == below;
      }
    } else {
      assert s == {};
    }
  }

  /** The letter, digit and punctuation classes do not overlap. */
  lemma ClassesDisjoint(c: char, k: CharClass, k': CharClass)
    requires k != Space && k' != Space && InClass(c, k) && InClass(c, k')
    ensures k == k'
  {
  }

  /** Rank of a class among the ones a password may require. */
  function Rank(k: CharClass): nat {
    match k
    case Lower => 0
    case Upper => 1
    case Digit => 2
    case Symbol => 3
    case Space => 4
  }

  /**
   * One more required class found at position i: the positions found so far hold
   * characters of classes of lower rank, so i is a new position.
   */
  lemma AddPosition(p: string, s: set<nat>, i: nat, k: CharClass) returns (s': set<nat>)
    requires k != Space && i < |p| && InClass(p[i], k)
    requires forall j :: j in s ==> j < |p| && exists k0 :: k0 != Space && Rank(k0) < Rank(k) && InClass(p[j], k0)
    ensures s' == s + {i} && |s'| == |s| + 1
    ensures forall j :: j in s' ==> j < |p| && exists k0 :: k0 != Space && Rank(k0) <= Rank(k) && InClass(p[j], k0)
  {
    if i in s {
      var k0 :| k0 != Space && Rank(k0) < Rank(k) && InClass(p[i], k0);
      ClassesDisjoint(p[i], k, k0);
    }
    s' := s + {i};
  }

  /**
   * A valid password holds one character of each enabled class, and the classes
   * do not overlap: a password shorter than the number of enabled classes is
   * never valid, so the generator's loop never ends for such a length.
   */
  lemma ShortPasswordNeverValid(p: string, flags: Flags)
    requires |p| < Enabled(flags)
    ensures !Valid(p, flags)
  {
    if Valid(p, flags) {
      var s: set<nat> := {};
      if flags.lower {
        var i :| 0 <= i < |p| && InClass(p[i], Lower);
        s := AddPosition(p, s, i, Lower);
      }
      if flags.upper {
        var i :| 0 <= i < |p| && InClass(p[i], Upper);
        s := AddPosition(p, s, i, Upper);
      }
      if flags.num {
        var i :| 0 <= i < |p| && InClass(p[i], Digit);
        s := AddPosition(p, s, i, Digit);
      }
      if flags.symbol {
        var i :| 0 <= i < |p| && InClass(p[i], Symbol);
        s := AddPosition(p, s, i, Symbol);
      }
      IndexSetSize(s, |p|);
    }
  }

  /** With the default classes, `aA0!` is a draw the generator accepts. */
  lemma DefaultDrawExample()
    ensures IsSample("aA0!", Alphabet(Flags(true, true, true, true)), 4)
    ensures ValidatePassword("aA0!", Flags(true, true, true, true))
  {
    var p := "aA0!";
    assert InClass(p[0], Lower) && InClass(p[1], Upper) && InClass(p[2], Digit) && InClass(p[3], Symbol);
    SampleHasNoSpace(p, Flags(true, true, true, true));
  }
}
