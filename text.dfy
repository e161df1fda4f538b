/**
 * Character- and string-level helpers shared by the client and the server
 * models: the two whitespace tables (JavaScript's and Go's), trimming, blank
 * tests, decimal rendering of naturals and UTF-16 length.
 */
module Text {

  /** Which runtime's notion of whitespace a trim or a `\s` class uses. */
  datatype SpaceTable = Js | Go

  /**
   * ECMAScript WhiteSpace and LineTerminator code points: the set both the
   * regular-expression class `\s` and `String.prototype.trim` use (general
   * category Zs taken from Unicode 15).
   */
  predicate IsJsSpace(c: char)
  {
    var u := c as int;
    u == 0x09 || u == 0x0A || u == 0x0B || u == 0x0C || u == 0x0D || u == 0x20
    || u == 0xA0 || u == 0x1680 || (0x2000 <= u <= 0x200A) || u == 0x2028 || u == 0x2029
    || u == 0x202F || u == 0x205F || u == 0x3000 || u == 0xFEFF
  }

  /**
   * Go's `unicode.IsSpace`, the table `strings.TrimSpace` uses: the Latin-1
   * spaces including NEL (U+0085), then the White_Space property.
   */
  predicate IsGoSpace(c: char)
  {
    var u := c as int;
    u == 0x09 || u == 0x0A || u == 0x0B || u == 0x0C || u == 0x0D || u == 0x20
    || u == 0x85 || u == 0xA0 || u == 0x1680 || (0x2000 <= u <= 0x200A) || u == 0x2028
    || u == 0x2029 || u == 0x202F || u == 0x205F || u == 0x3000
  }

  predicate IsSpace(t: SpaceTable, c: char)
  {
    match t
    case Js => IsJsSpace(c)
    case Go => IsGoSpace(c)
  }

  /** Every character of `s` is whitespace (vacuously true of ""). */
  predicate IsBlank(t: SpaceTable, s: string)
  {
    forall i :: 0 <= i < |s| ==> IsSpace(t, s[i])
  }

  /** The first position at or after `k` that is not whitespace, or the end of `s`. */
  function SkipSpace(t: SpaceTable, s: string, k: nat): (e: nat)
    requires k <= |s|
    ensures k <= e <= |s|
    ensures forall i :: k <= i < e ==> IsSpace(t, s[i])
    ensures e < |s| ==> !IsSpace(t, s[e])
    decreases |s| - k
  {
    if k == |s| || !IsSpace(t, s[k]) then k else SkipSpace(t, s, k + 1)
  }

  /** The position just after the last character before `k` that is not whitespace, or 0. */
  function SkipSpaceBack(t: SpaceTable, s: string, k: nat): (e: nat)
    requires k <= |s|
    ensures e <= k
    ensures forall i :: e <= i < k ==> IsSpace(t, s[i])
    ensures e > 0 ==> !IsSpace(t, s[e - 1])
  {
    if k == 0 || !IsSpace(t, s[k - 1]) then k else SkipSpaceBack(t, s, k - 1)
  }

  /** Drops leading whitespace: the result is a suffix of `s`, what was dropped is all whitespace. */
  function TrimStart(t: SpaceTable, s: string): (r: string)
    ensures |r| <= |s| && r == s[|s| - |r|..]
    ensures forall i :: 0 <= i < |s| - |r| ==> IsSpace(t, s[i])
    ensures r != [] ==> !IsSpace(t, r[0])
  {
    s[SkipSpace(t, s, 0)..]
  }

  /** Drops trailing whitespace: the result is a prefix of `s`, what was dropped is all whitespace. */
  function TrimEnd(t: SpaceTable, s: string): (r: string)
    ensures |r| <= |s| && r == s[..|r|]
    ensures forall i :: |r| <= i < |s| ==> IsSpace(t, s[i])
    ensures r != [] ==> !IsSpace(t, r[|r| - 1])
  {
    s[..SkipSpaceBack(t, s, |s|)]
  }

  /** `String.prototype.trim` (table Js) and `strings.TrimSpace` (table Go). */
  function Trim(t: SpaceTable, s: string): (r: string)
  {
    TrimEnd(t, TrimStart(t, s))
  }

  /** What `TrimStart` drops is blank. */
  lemma TrimStartDropsBlank(t: SpaceTable, s: string)
    ensures IsBlank(t, s[..|s| - |TrimStart(t, s)|])
  {
    var i := |s| - |TrimStart(t, s)|;
    forall k | 0 <= k < i
      ensures IsSpace(t, s[..i][k])
    {
      assert s[..i][k] == s[k];
    }
  }

  /** What `TrimEnd` drops is blank. */
  lemma TrimEndDropsBlank(t: SpaceTable, s: string)
    ensures IsBlank(t, s[|TrimEnd(t, s)|..])
  {
    var j := |TrimEnd(t, s)|;
    forall k | 0 <= k < |s| - j
      ensures IsSpace(t, s[j..][k])
    {
      assert s[j..][k] == s[j + k];
    }
  }

  /** A blank prefix cut from `s`, then a blank suffix cut from the rest, leave an infix of `s`. */
  lemma InfixOfCuts(t: SpaceTable, s: string, a: string, r: string)
    requires |a| <= |s| && a == s[|s| - |a|..] && IsBlank(t, s[..|s| - |a|])
    requires |r| <= |a| && r == a[..|r|] && IsBlank(t, a[|r|..])
    ensures var i := |s| - |a|;
            && r == s[i..i + |r|] && IsBlank(t, s[..i]) && IsBlank(t, s[i + |r|..])
  {
    var i := |s| - |a|;
    assert a[..|r|] == s[i..i + |r|];
    assert a[|r|..] == s[i + |r|..];
  }

  /**
   * The trimmed string is the infix of `s` left after removing a whitespace
   * prefix and a whitespace suffix, and it neither starts nor ends with whitespace.
   */
  lemma TrimIsInfix(t: SpaceTable, s: string)
    ensures var i := |s| - |TrimStart(t, s)|;
            var j := i + |Trim(t, s)|;
            && j <= |s| && Trim(t, s) == s[i..j] && IsBlank(t, s[..i]) && IsBlank(t, s[j..])
    ensures Trim(t, s) != [] ==> !IsSpace(t, Trim(t, s)[0]) && !IsSpace(t, Trim(t, s)[|Trim(t, s)| - 1])
  {
    var a := TrimStart(t, s);
    var r := TrimEnd(t, a);
    TrimStartDropsBlank(t, s);
    TrimEndDropsBlank(t, a);
    InfixOfCuts(t, s, a, r);
    if r != [] {
      assert r[0] == a[0];
    }
  }

  /** Trimming gives "" exactly on blank strings. */
  lemma TrimEmptyIffBlank(t: SpaceTable, s: string)
    ensures Trim(t, s) == [] <==> IsBlank(t, s)
  {
    var a := TrimStart(t, s);
    if Trim(t, s) != [] {
      assert !IsSpace(t, a[0]);
      assert a[0] == s[|s| - |a|];
    }
  }

  /** Trimming twice is trimming once. */
  lemma TrimIdempotent(t: SpaceTable, s: string)
    ensures Trim(t, Trim(t, s)) == Trim(t, s)
  {
    var a := TrimStart(t, s);
    var r := TrimEnd(t, a);
    if r != [] {
      assert r[0] == a[0];
      assert SkipSpace(t, r, 0) == 0 && r[0..] == r;
      assert SkipSpaceBack(t, r, |r|) == |r| && r[..|r|] == r;
    }
  }

  function DigitChar(d: nat): (c: char)
    requires d < 10
    ensures '0' <= c <= '9' && c as int - '0' as int == d
  {
    "0123456789"[d]
  }

  predicate IsDigit(c: char)
  {
    '0' <= c <= '9'
  }

  predicate AllDigits(s: string)
  {
    forall i :: 0 <= i < |s| ==> IsDigit(s[i])
  }

  /** The value of a string of decimal digits, most significant first. */
  function DigitsValue(s: string): nat
    requires AllDigits(s)
  {
    if s == [] then 0 else DigitsValue(s[..|s| - 1]) * 10 + (s[|s| - 1] as int - '0' as int)
  }

  /**
   * Shortest decimal rendering of a natural number, as JavaScript's
   * `${n}` and Go's `strconv.Itoa` produce for non-negative integers.
   */
  function Decimal(n: nat): (r: string)
    ensures |r| >= 1 && AllDigits(r)
    ensures r[0] == '0' ==> n == 0 && r == "0"
  {
    if n < 10 then [DigitChar(n)] else Decimal(n / 10) + [DigitChar(n % 10)]
  }

  /** Reading back a decimal rendering gives the number: `Decimal` is the inverse of `DigitsValue`. */
  lemma {:induction false} DecimalValue(n: nat)
    ensures DigitsValue(Decimal(n)) == n
  {
    if n >= 10 {
      var d := Decimal(n);
      assert d[..|d| - 1] == Decimal(n / 10);
      DecimalValue(n / 10);
    }
  }

  /** Different numbers have different renderings. */
  lemma DecimalInjective(m: nat, n: nat)
    ensures Decimal(m) == Decimal(n) ==> m == n
  {
    DecimalValue(m);
    DecimalValue(n);
  }

  /** UTF-16 code units a code point occupies in a JavaScript string. */
  function Utf16Units(c: char): nat
  {
    if c as int > 0xFFFF then 2 else 1
  }

  /** JavaScript's `length` of a string: its length in UTF-16 code units. */
  function Utf16Length(s: string): (n: nat)
    ensures n >= |s|
    ensures n == 0 <==> s == []
  {
    if s == [] then 0 else Utf16Units(s[0]) + Utf16Length(s[1..])
  }

  lemma {:induction false} Utf16LengthAppend(a: string, b: string)
    ensures Utf16Length(a + b) == Utf16Length(a) + Utf16Length(b)
  {
    if a != [] {
      assert (a + b)[0] == a[0] && (a + b)[1..] == a[1..] + b;
      Utf16LengthAppend(a[1..], b);
    } else {
      assert a + b == b;
    }
  }
}
