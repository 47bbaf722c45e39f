/** The three pieces of Python's text handling the pipeline leans on:
    `str.strip()`, `int(text)` on a decimal string, and `str(n)` of an integer. */
module Decimal {
  import opened Common

  /** Python's `str.isspace()` for a single character: the characters that
      `strip()` removes. */
  predicate IsSpace(c: char)
  {
    || c == ' '
    || '\U{9}' <= c <= '\U{D}'
    || '\U{1C}' <= c <= '\U{1F}'
    || c == '\U{85}' || c == '\U{A0}' || c == '\U{1680}'
    || '\U{2000}' <= c <= '\U{200A}'
    || c == '\U{2028}' || c == '\U{2029}' || c == '\U{202F}' || c == '\U{205F}' || c == '\U{3000}'
  }

  /** The whitespace `int()` skips around its digits: every non-ASCII space
      of `str.isspace()` (read as a blank), and of ASCII only tab, line
      feed, vertical tab, form feed, carriage return and the blank. The
      separators U+001C to U+001F are spaces to `strip()` but not to `int()`. */
  predicate IsIntSpace(c: char)
  {
    IsSpace(c) && !('\U{1C}' <= c <= '\U{1F}')
  }

  /** Which of the two notions of whitespace a strip removes. */
  datatype Spaces = StrSpaces | IntSpaces

  predicate IsSpaceOf(ws: Spaces, c: char)
  {
    match ws
    case StrSpaces => IsSpace(c)
    case IntSpaces => IsIntSpace(c)
  }

  predicate IsDigit(c: char)
  {
    '0' <= c <= '9'
  }

  /** `s` without its leading characters of the class `ws`. */
  function StripLeft(s: string, ws: Spaces): (r: string)
    ensures |r| <= |s| && r == s[|s| - |r|..]
    ensures r == [] || !IsSpaceOf(ws, r[0])
    ensures forall i :: 0 <= i < |s| - |r| ==> IsSpaceOf(ws, s[i])
  {
    if s != [] && IsSpaceOf(ws, s[0]) then StripLeft(s[1..], ws) else s
  }

  /** `s` without its trailing characters of the class `ws`. */
  function StripRight(s: string, ws: Spaces): (r: string)
    ensures |r| <= |s| && r == s[..|r|]
    ensures r == [] || !IsSpaceOf(ws, r[|r| - 1])
    ensures forall i :: |r| <= i < |s| ==> IsSpaceOf(ws, s[i])
  {
    if s != [] && IsSpaceOf(ws, s[|s| - 1]) then StripRight(s[..|s| - 1], ws) else s
  }

  /** `t` is the slice of `s` from `a`, and everything of `s` before and
      after that slice is of the class `ws`. */
  ghost predicate CutFrom(s: string, t: string, a: nat, ws: Spaces)
  {
    && a + |t| <= |s| && t == s[a..a + |t|]
    && (forall i :: 0 <= i < a ==> IsSpaceOf(ws, s[i]))
    && (forall i :: a + |t| <= i < |s| ==> IsSpaceOf(ws, s[i]))
  }

  /** Both ends stripped: a slice of `s` cut out of characters of the class
      `ws`, with no such character at either of its own ends. */
  function StripBoth(s: string, ws: Spaces): (t: string)
    ensures t == [] || (!IsSpaceOf(ws, t[0]) && !IsSpaceOf(ws, t[|t| - 1]))
    ensures exists a :: CutFrom(s, t, a, ws)
  {
    var l := StripLeft(s, ws);
    var t := StripRight(l, ws);
    assert CutFrom(s, t, |s| - |l|, ws);
    t
  }

  /** Python's `s.strip()`: `s` without its leading and trailing whitespace,
      and nothing else removed. */
  function Strip(s: string): (t: string)
    ensures |t| <= |s|
    ensures t == [] || (!IsSpace(t[0]) && !IsSpace(t[|t| - 1]))
    ensures exists a :: CutFrom(s, t, a, StrSpaces)
  {
    StripBoth(s, StrSpaces)
  }

  /** The text `int()` reads digits from: `s` without the whitespace
      `int()` skips at either end. */
  function IntStrip(s: string): (t: string)
    ensures t == [] || (!IsIntSpace(t[0]) && !IsIntSpace(t[|t| - 1]))
    ensures exists a :: CutFrom(s, t, a, IntSpaces)
  {
    StripBoth(s, IntSpaces)
  }

  /** A field is blank when `strip()` leaves nothing, that is when every
      character of it is whitespace. */
  lemma StripEmptyIff(s: string)
    ensures Strip(s) == [] <==> forall i :: 0 <= i < |s| ==> IsSpace(s[i])
  {
    var a: nat :| CutFrom(s, Strip(s), a, StrSpaces);
  }

  /** Text with no character of the class `ws` at either end loses nothing. */
  lemma StripTrimmed(s: string, ws: Spaces)
    requires s == [] || (!IsSpaceOf(ws, s[0]) && !IsSpaceOf(ws, s[|s| - 1]))
    ensures StripBoth(s, ws) == s
  {
  }

  /** The digits Python's `int()` accepts in base 10: ASCII digits, with
      single underscores allowed between two digits. */
  predicate WellFormedDigits(t: string)
  {
    && |t| > 0
    && IsDigit(t[0])
    && (|t| == 1 || if t[1] == '_' then WellFormedDigits(t[2..]) else WellFormedDigits(t[1..]))
  }

  /** The digits of `t`, its underscores dropped. */
  function DropUnderscores(t: string): string
  {
    if t == [] then []
    else (if t[0] == '_' then [] else [t[0]]) + DropUnderscores(t[1..])
  }

  /** Value of a string of ASCII digits, most significant first. */
  function DigitsValue(ds: string): nat
  {
    if ds == [] then 0
    else DigitsValue(ds[..|ds| - 1]) * 10 + Digit(ds[|ds| - 1])
  }

  function Digit(c: char): nat
  {
    if IsDigit(c) then (c as int) - ('0' as int) else 0
  }

  /** Python's `int(s)`: `Some(n)` when `s` is an optionally signed decimal
      integer surrounded by optional whitespace, `None` where Python raises
      `ValueError`. */
  function ParseInt(s: string): (r: Option<int>)
    ensures Strip(s) == [] ==> r == None
  {
    BlankIsNoInt(s);
    ParseSigned(IntStrip(s))
  }

  /** Blank text holds no digit: what `int()` keeps of it is empty or starts
      with a separator U+001C to U+001F. */
  lemma {:induction false} BlankIsNoInt(s: string)
    ensures Strip(s) == [] ==> ParseSigned(IntStrip(s)) == None
  {
    if Strip(s) == [] && IntStrip(s) != [] {
      StripEmptyIff(s);
      var t := IntStrip(s);
      var a: nat :| CutFrom(s, t, a, IntSpaces);
      assert t[0] == s[a];
      assert !IsDigit(t[0]) && t[0] != '-' && t[0] != '+';
    }
  }

  /** `int()` raises on text holding one of the separators U+001C to U+001F
      anywhere, although `strip()` would remove one at either end. */
  lemma {:induction false} ParseIntRefusesSeparators(s: string, i: nat)
    requires i < |s| && '\U{1C}' <= s[i] <= '\U{1F}'
    ensures ParseInt(s) == None
  {
    var t := IntStrip(s);
    var a := IntStripCut(s);
    CutKeeps(s, t, a, IntSpaces, i);
    ParseSignedRefusesSeparators(t, i - a);
  }

  /** Where the text `int()` reads starts in `s`. */
  lemma {:induction false} IntStripCut(s: string) returns (a: nat)
    ensures CutFrom(s, IntStrip(s), a, IntSpaces)
  {
    a :| CutFrom(s, IntStrip(s), a, IntSpaces);
  }

  /** A character that is not of the class cut away survives the cut, at
      its own place in the slice. */
  lemma {:induction false} CutKeeps(s: string, t: string, a: nat, ws: Spaces, i: nat)
    requires CutFrom(s, t, a, ws) && i < |s| && !IsSpaceOf(ws, s[i])
    ensures a <= i < a + |t| && t[i - a] == s[i]
  {
  }

  lemma {:induction false} ParseSignedRefusesSeparators(t: string, k: nat)
    requires k < |t| && '\U{1C}' <= t[k] <= '\U{1F}'
    ensures ParseSigned(t) == None
  {
    if t[0] == '-' || t[0] == '+' {
      NoDigitNotWellFormed(t[1..], k - 1);
    } else {
      NoDigitNotWellFormed(t, k);
    }
  }

  /** A word that starts with neither a sign nor a digit and has no
      whitespace at its ends is not an integer to `int()`. */
  lemma {:induction false} WordIsNotAnInteger(s: string)
    requires |s| > 0 && !IsIntSpace(s[0]) && !IsIntSpace(s[|s| - 1])
    requires !IsDigit(s[0]) && s[0] != '-' && s[0] != '+'
    ensures ParseInt(s) == None
  {
    StripTrimmed(s, IntSpaces);
    assert IntStrip(s) == s;
    assert !WellFormedDigits(s);
  }

  /** Well-formed digits hold only digits and underscores. */
  lemma {:induction false} NoDigitNotWellFormed(t: string, k: nat)
    requires k < |t| && !IsDigit(t[k]) && t[k] != '_'
    ensures !WellFormedDigits(t)
  {
    if WellFormedDigits(t) && k > 0 && |t| > 1 {
      if t[1] == '_' {
        if k > 1 {
          NoDigitNotWellFormed(t[2..], k - 2);
        }
      } else {
        NoDigitNotWellFormed(t[1..], k - 1);
      }
    }
  }

  /** The most digits `int()` and `str()` accept for a decimal integer
      (`sys.int_info.default_max_str_digits`); longer input raises `ValueError`. */
  const MaxStrDigits := 4300

  /** `int()` on text already stripped of surrounding whitespace. */
  function ParseSigned(t: string): Option<int>
  {
    if t == [] then None
    else
      var body := if t[0] == '-' || t[0] == '+' then t[1..] else t;
      if !WellFormedDigits(body) || |DropUnderscores(body)| > MaxStrDigits then None
      else
        var v: int := DigitsValue(DropUnderscores(body));
        Some(if t[0] == '-' then -v else v)
  }

  function DigitChar(d: nat): (c: char)
    requires d < 10
    ensures IsDigit(c) && Digit(c) == d
  {
    ('0' as int + d) as char
  }

  /** Python's `str(n)` for a natural number: its decimal digits, no leading zero. */
  function ShowNat(n: nat): (s: string)
    ensures |s| > 0 && forall i :: 0 <= i < |s| ==> IsDigit(s[i])
    ensures s[0] != '0' || n == 0
  {
    if n < 10 then [DigitChar(n)] else ShowNat(n / 10) + [DigitChar(n % 10)]
  }

  /** Python's `str(n)` (and `f"{n}"`) for an integer. */
  function Show(n: int): (t: string)
    ensures |t| > 0 && (t[0] == '-' <==> n < 0)
    ensures forall i :: (if n < 0 then 1 else 0) <= i < |t| ==> IsDigit(t[i])
  {
    if n < 0 then "-" + ShowNat(-n) else ShowNat(n)
  }

  lemma {:induction false} DigitsValueShowNat(n: nat)
    ensures DigitsValue(ShowNat(n)) == n
  {
    var s := ShowNat(n);
    if n >= 10 {
      DigitsValueShowNat(n / 10);
      assert s[..|s| - 1] == ShowNat(n / 10);
    }
  }

  lemma {:induction false} DropUnderscoresOfDigits(t: string)
    requires forall i :: 0 <= i < |t| ==> IsDigit(t[i])
    ensures DropUnderscores(t) == t
  {
    if t != [] {
      DropUnderscoresOfDigits(t[1..]);
    }
  }

  /** `abs(n)`. */
  function Abs(n: int): nat
  {
    if n < 0 then -n else n
  }

  /** `int(str(n)) == n` whenever `n` has at most `MaxStrDigits` digits; a
      longer rendering is refused by `int()`. */
  lemma ParseShow(n: int)
    ensures ParseInt(Show(n)) == if |ShowNat(Abs(n))| <= MaxStrDigits then Some(n) else None
  {
    ShowIsTrimmed(n);
    ParseSignedShow(n);
  }

  /** `str(n)` has no whitespace around it. */
  lemma ShowIsTrimmed(n: int)
    ensures IntStrip(Show(n)) == Show(n)
  {
    var s := Show(n);
    var digits := ShowNat(Abs(n));
    assert s[|s| - 1] == digits[|digits| - 1];
    assert IsDigit(s[|s| - 1]);
    assert s[0] == '-' || IsDigit(s[0]);
    StripTrimmed(s, IntSpaces);
  }

  /** The sign and digits of `str(n)` read back as `n`, within the digit limit. */
  lemma ParseSignedShow(n: int)
    ensures ParseSigned(Show(n)) == if |ShowNat(Abs(n))| <= MaxStrDigits then Some(n) else None
  {
    var digits := ShowNat(Abs(n));
    ParseShowDigits(Abs(n));
    if n < 0 {
      assert Show(n)[0] == '-' && Show(n)[1..] == digits;
    } else {
      assert Show(n) == digits && IsDigit(digits[0]);
    }
  }

  /** The decimal digits of `m` are a well-formed body of `m`'s own length. */
  lemma ParseShowDigits(m: nat)
    ensures WellFormedDigits(ShowNat(m))
    ensures DropUnderscores(ShowNat(m)) == ShowNat(m)
    ensures DigitsValue(ShowNat(m)) == m
  {
    var digits := ShowNat(m);
    ParseDigits(digits);
    DropUnderscoresOfDigits(digits);
    DigitsValueShowNat(m);
  }

  /** `10^k`. */
  function Pow10(k: nat): nat
  {
    if k == 0 then 1 else 10 * Pow10(k - 1)
  }

  /** A number below `10^k` has at most `k` digits. */
  lemma {:induction false} ShowNatLength(m: nat, k: nat)
    requires 0 < k && m < Pow10(k)
    ensures |ShowNat(m)| <= k
  {
    if m >= 10 {
      assert k > 1;
      assert m / 10 < Pow10(k - 1);
      ShowNatLength(m / 10, k - 1);
    }
  }

  lemma {:induction false} Pow10Add(a: nat, b: nat)
    ensures Pow10(a + b) == Pow10(a) * Pow10(b)
  {
    if a > 0 {
      Pow10Add(a - 1, b);
    }
  }

  lemma Pow10Of19()
    ensures Pow10(19) == 10_000_000_000_000_000_000
  {
    assert Pow10(3) == 1000;
    Pow10Add(3, 3);
    Pow10Add(6, 6);
    Pow10Add(12, 6);
    Pow10Add(18, 1);
  }

  /** A 64-bit signed integer, as numpy's `int64` holds it. */
  predicate IsInt64(n: int)
  {
    -0x8000_0000_0000_0000 <= n < 0x8000_0000_0000_0000
  }

  /** An `int64` has at most nineteen digits, well within the limit, so
      `int(str(n)) == n` holds for it. */
  lemma ParseShowInt64(n: int)
    requires IsInt64(n)
    ensures |ShowNat(Abs(n))| <= 19
    ensures ParseInt(Show(n)) == Some(n)
  {
    Pow10Of19();
    ShowNatLength(Abs(n), 19);
    ParseShow(n);
  }

  /** A run of ASCII digits is well formed and reads as its plain value. */
  lemma {:induction false} ParseDigits(digits: string)
    requires |digits| > 0 && forall i :: 0 <= i < |digits| ==> IsDigit(digits[i])
    ensures WellFormedDigits(digits)
    ensures DigitsValue(DropUnderscores(digits)) == DigitsValue(digits)
  {
    DropUnderscoresOfDigits(digits);
    if |digits| > 1 {
      ParseDigits(digits[1..]);
    }
  }

  /** Distinct integers have distinct decimal renderings. */
  lemma ShowInjective(a: int, b: int)
    requires Show(a) == Show(b)
    ensures a == b
  {
    var da, db := ShowNat(Abs(a)), ShowNat(Abs(b));
    assert a < 0 <==> Show(a)[0] == '-' by {
      if a >= 0 { assert Show(a)[0] == da[0] && IsDigit(da[0]); }
    }
    assert b < 0 <==> Show(b)[0] == '-' by {
      if b >= 0 { assert Show(b)[0] == db[0] && IsDigit(db[0]); }
    }
    if a < 0 {
      assert Show(a)[1..] == da && Show(b)[1..] == db;
    }
    DigitsValueShowNat(Abs(a));
    DigitsValueShowNat(Abs(b));
  }
}
