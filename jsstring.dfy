/** The JavaScript string operations the application applies to identifiers,
    emails and counts: `toLowerCase` (on ASCII letters), `trim`,
    `split('@')[0]`, `replace(/[^a-zA-Z0-9]/g, '')` and `parseInt(s, 10)`. */
module JsString {
  import opened JsArray

  // ---------------------------------------------------------------- case

  /** `toLowerCase` on one character, restricted to the ASCII letters. */
  function LowerChar(c: char): char
  {
    if 'A' <= c <= 'Z' then (c as int - 'A' as int + 'a' as int) as char else c
  }

  predicate IsUpper(c: char)
  {
    'A' <= c <= 'Z'
  }

  /** `String.prototype.toLowerCase`, with ASCII case folding. */
  function Lower(s: string): (r: string)
    ensures |r| == |s|
    ensures forall i :: 0 <= i < |s| ==> !IsUpper(r[i])
    ensures forall i :: 0 <= i < |s| && !IsUpper(s[i]) ==> r[i] == s[i]
    ensures forall i :: 0 <= i < |s| && IsUpper(s[i]) ==> r[i] == (s[i] as int + 32) as char
  {
    if s == [] then [] else [LowerChar(s[0])] + Lower(s[1..])
  }

  /** Lower-casing twice is lower-casing once. */
  lemma {:induction false} LowerIdempotent(s: string)
    ensures Lower(Lower(s)) == Lower(s)
  {
    LowerKeepsLower(Lower(s));
  }

  /** A string without upper-case ASCII letters is its own lower-case form. */
  lemma {:induction false} LowerKeepsLower(s: string)
    requires forall i :: 0 <= i < |s| ==> !IsUpper(s[i])
    ensures Lower(s) == s
  {
    if s != [] {
      LowerKeepsLower(s[1..]);
    }
  }

  // ---------------------------------------------------------------- trim

  /** The characters `trim` and `parseInt` skip: ECMAScript WhiteSpace and
      LineTerminator code points. */
  predicate IsJsSpace(c: char)
  {
    c == '\t' || c == '\n' || c == '\U{000B}' || c == '\U{000C}' || c == '\r' || c == ' '
    || c == '\U{00A0}' || c == '\U{1680}' || ('\U{2000}' <= c <= '\U{200A}')
    || c == '\U{2028}' || c == '\U{2029}' || c == '\U{202F}' || c == '\U{205F}'
    || c == '\U{3000}' || c == '\U{FEFF}'
  }

  /** How many characters `trimStart` removes. */
  function LeadingSpaces(s: string): (k: nat)
    ensures k <= |s|
    ensures forall i :: 0 <= i < k ==> IsJsSpace(s[i])
    ensures k < |s| ==> !IsJsSpace(s[k])
  {
    if s == [] || !IsJsSpace(s[0]) then 0 else 1 + LeadingSpaces(s[1..])
  }

  /** How many characters `trimEnd` removes. */
  function TrailingSpaces(s: string): (k: nat)
    ensures k <= |s|
    ensures forall i :: |s| - k <= i < |s| ==> IsJsSpace(s[i])
    ensures k < |s| ==> !IsJsSpace(s[|s| - 1 - k])
  {
    if s == [] || !IsJsSpace(s[|s| - 1]) then 0 else 1 + TrailingSpaces(s[..|s| - 1])
  }

  /** `String.prototype.trim`. */
  function Trim(s: string): string
  {
    var t := s[LeadingSpaces(s)..];
    t[..|t| - TrailingSpaces(t)]
  }

  /** What `trim` returns: the middle of `s` once the white space at both ends
      is gone; it neither starts nor ends with white space. */
  lemma TrimShape(s: string)
    ensures var r := Trim(s);
      exists a, b :: 0 <= a <= b <= |s| && r == s[a..b]
        && (forall i :: 0 <= i < a ==> IsJsSpace(s[i]))
        && (forall i :: b <= i < |s| ==> IsJsSpace(s[i]))
    ensures var r := Trim(s); r == [] || (!IsJsSpace(r[0]) && !IsJsSpace(r[|r| - 1]))
  {
    var a := LeadingSpaces(s);
    var t := s[a..];
    var k := TrailingSpaces(t);
    var b := |s| - k;
    assert Trim(s) == s[a..b];
    forall i | b <= i < |s| ensures IsJsSpace(s[i]) {
      assert s[i] == t[i - a];
    }
  }

  /** Trimming a trimmed string changes nothing. */
  lemma TrimIdempotent(s: string)
    ensures Trim(Trim(s)) == Trim(s)
  {
    var r := Trim(s);
    TrimShape(s);
    if r != [] {
      assert LeadingSpaces(r) == 0;
      assert TrailingSpaces(r) == 0;
      assert r[0..] == r;
    }
  }

  // ------------------------------------------------------- email username

  /** `s.split('@')[0]`: everything before the first '@'. */
  function LocalPart(s: string): (r: string)
    ensures '@' !in r
    ensures r <= s
    ensures |r| < |s| ==> s[|r|] == '@'
  {
    match FindIndex(s, c => c == '@')
    case Some(i) => s[..i]
    case None => s
  }

  predicate IsAsciiAlnum(c: char)
  {
    ('a' <= c <= 'z') || ('A' <= c <= 'Z') || ('0' <= c <= '9')
  }

  /** `s.replace(/[^a-zA-Z0-9]/g, '')`: the ASCII letters and digits of `s`, in order. */
  function AlnumOnly(s: string): (r: string)
    ensures forall i :: 0 <= i < |r| ==> IsAsciiAlnum(r[i]) && r[i] in s
    ensures forall i :: 0 <= i < |s| && IsAsciiAlnum(s[i]) ==> s[i] in r
  {
    FilterMembers(s, IsAsciiAlnum);
    Filter(s, IsAsciiAlnum)
  }

  /** The strip works character by character: on a concatenation it is the
      concatenation of the strips, and a single character is kept iff it is
      an ASCII letter or digit. So the kept characters stay in their order
      and keep their multiplicity. */
  lemma AlnumOnlyLaws(a: string, b: string, c: char)
    ensures AlnumOnly(a + b) == AlnumOnly(a) + AlnumOnly(b)
    ensures AlnumOnly([c]) == if IsAsciiAlnum(c) then [c] else []
    ensures AlnumOnly([]) == []
  {
    FilterConcat(a, b, IsAsciiAlnum);
    assert [c][1..] == [];
  }

  // ---------------------------------------------------- parseInt(s, 10)

  predicate IsDigit(c: char)
  {
    '0' <= c <= '9'
  }

  function DigitValue(c: char): nat
    requires IsDigit(c)
  {
    c as int - '0' as int
  }

  function DigitChar(d: nat): (c: char)
    requires d < 10
    ensures IsDigit(c) && DigitValue(c) == d
  {
    ('0' as int + d) as char
  }

  /** Length of the run of decimal digits that starts `s`. */
  function LeadingDigits(s: string): (k: nat)
    ensures k <= |s|
    ensures forall i :: 0 <= i < k ==> IsDigit(s[i])
    ensures k < |s| ==> !IsDigit(s[k])
  {
    if s == [] || !IsDigit(s[0]) then 0 else 1 + LeadingDigits(s[1..])
  }

  /** The number a run of decimal digits denotes. */
  function DigitsValue(ds: string): nat
    requires forall i :: 0 <= i < |ds| ==> IsDigit(ds[i])
  {
    if ds == [] then 0 else DigitsValue(ds[..|ds| - 1]) * 10 + DigitValue(ds[|ds| - 1])
  }

  /** What `parseInt` reads after skipping leading white space. */
  function AfterSpaces(s: string): string
  {
    s[LeadingSpaces(s)..]
  }

  /** The text after an optional sign. */
  function Unsigned(t: string): string
  {
    if |t| > 0 && (t[0] == '-' || t[0] == '+') then t[1..] else t
  }

  /** `parseInt(s, 10)`: skip leading white space, read an optional sign and
      the longest run of digits after it; `None` is the NaN JavaScript
      returns when there is no digit. */
  function ParseInt10(s: string): (r: Option<int>)
    ensures r.None? <==> var u := Unsigned(AfterSpaces(s)); u == [] || !IsDigit(u[0])
  {
    var t := AfterSpaces(s);
    var u := Unsigned(t);
    var k := LeadingDigits(u);
    if k == 0 then None
    else
      var magnitude: int := DigitsValue(u[..k]);
      if |t| > 0 && t[0] == '-' then Some(-magnitude) else Some(magnitude)
  }

  /** The decimal digits of a natural number, most significant first. */
  function Digits(n: nat): (ds: string)
    ensures |ds| >= 1
    ensures forall i :: 0 <= i < |ds| ==> IsDigit(ds[i])
  {
    if n < 10 then [DigitChar(n)] else Digits(n / 10) + [DigitChar(n % 10)]
  }

  /** `String(n)` for an integer `n`. */
  function Decimal(n: int): string
  {
    if n < 0 then "-" + Digits(-n) else Digits(n)
  }

  lemma {:induction false} DigitsValueOfDigits(n: nat)
    ensures DigitsValue(Digits(n)) == n
  {
    if n >= 10 {
      var ds := Digits(n);
      assert ds[..|ds| - 1] == Digits(n / 10);
      DigitsValueOfDigits(n / 10);
    }
  }

  lemma {:induction false} LeadingDigitsOfRun(ds: string, rest: string)
    requires forall i :: 0 <= i < |ds| ==> IsDigit(ds[i])
    requires rest == [] || !IsDigit(rest[0])
    ensures LeadingDigits(ds + rest) == |ds|
  {
    if ds != [] {
      assert (ds + rest)[1..] == ds[1..] + rest;
      LeadingDigitsOfRun(ds[1..], rest);
    }
  }

  /** `parseInt(String(n) + rest, 10) == n` for every integer `n` and every
      `rest` that does not continue the digits: leading white space is
      skipped as well. */
  lemma ParseIntOfDecimal(spaces: string, n: int, rest: string)
    requires forall i :: 0 <= i < |spaces| ==> IsJsSpace(spaces[i])
    requires rest == [] || !IsDigit(rest[0])
    ensures ParseInt10(spaces + Decimal(n) + rest) == Some(n)
  {
    var t := Decimal(n) + rest;
    assert spaces + Decimal(n) + rest == spaces + t;
    ParseIntOfDecimalAlone(n, rest);
    SpacesThenNonSpace(spaces, t);
    assert (spaces + t)[|spaces|..] == t;
    assert AfterSpaces(spaces + t) == AfterSpaces(t);
  }

  /** The same without leading white space. */
  lemma {:induction false} ParseIntOfDecimalAlone(n: int, rest: string)
    requires rest == [] || !IsDigit(rest[0])
    ensures var t := Decimal(n) + rest; t != [] && !IsJsSpace(t[0]) && ParseInt10(t) == Some(n)
  {
    if n < 0 {
      ParseIntOfNegative(n, rest);
    } else {
      ParseIntOfNatural(n, rest);
    }
  }

  lemma {:induction false} ParseIntOfNegative(n: int, rest: string)
    requires n < 0
    requires rest == [] || !IsDigit(rest[0])
    ensures var t := Decimal(n) + rest; t != [] && !IsJsSpace(t[0]) && ParseInt10(t) == Some(n)
  {
    var m: nat := -n;
    var ds := Digits(m);
    DigitsValueOfDigits(m);
    NegativeDecimal(n, m, rest);
    ParseIntOfSignedRun(Decimal(n) + rest, ds, rest);
  }

  lemma {:induction false} NegativeDecimal(n: int, m: nat, rest: string)
    requires n < 0 && m == -n
    ensures Decimal(n) + rest == "-" + (Digits(m) + rest)
  {
    assert Decimal(n) == "-" + Digits(m);
  }

  lemma {:induction false} ParseIntOfNatural(n: int, rest: string)
    requires n >= 0
    requires rest == [] || !IsDigit(rest[0])
    ensures var t := Decimal(n) + rest; t != [] && !IsJsSpace(t[0]) && ParseInt10(t) == Some(n)
  {
    var ds := Digits(n);
    DigitsValueOfDigits(n);
    assert Decimal(n) == ds;
    ParseIntOfRun(ds, rest);
  }

  /** A non-space first character is not skipped. */
  lemma {:induction false} NothingToSkip(t: string)
    requires t != [] && !IsJsSpace(t[0])
    ensures AfterSpaces(t) == t
  {
    assert LeadingSpaces(t) == 0;
  }

  /** `parseInt` of a run of digits followed by a non-digit tail. */
  lemma {:induction false} ParseIntOfRun(ds: string, rest: string)
    requires ds != [] && forall i :: 0 <= i < |ds| ==> IsDigit(ds[i])
    requires rest == [] || !IsDigit(rest[0])
    ensures var u := ds + rest; !IsJsSpace(u[0]) && ParseInt10(u) == Some(DigitsValue(ds))
  {
    var u := ds + rest;
    assert u[0] == ds[0];
    NothingToSkip(u);
    assert Unsigned(u) == u;
    LeadingDigitsOfRun(ds, rest);
    assert u[..|ds|] == ds;
  }

  /** `parseInt` of a minus sign, a run of digits and a non-digit tail. */
  lemma {:induction false} ParseIntOfSignedRun(t: string, ds: string, rest: string)
    requires ds != [] && forall i :: 0 <= i < |ds| ==> IsDigit(ds[i])
    requires rest == [] || !IsDigit(rest[0])
    requires t == "-" + (ds + rest)
    ensures !IsJsSpace(t[0]) && ParseInt10(t) == Some(-(DigitsValue(ds) as int))
  {
    var u := ds + rest;
    MinusFirst(u);
    RunPrefix(ds, rest);
    SignedParse(t, u, |ds|);
  }

  lemma {:induction false} MinusFirst(u: string)
    ensures var t := "-" + u; t[0] == '-' && !IsJsSpace(t[0]) && t[1..] == u && AfterSpaces(t) == t
  {
    var t := "-" + u;
    assert t[0] == '-';
    NothingToSkip(t);
  }

  lemma {:induction false} RunPrefix(ds: string, rest: string)
    requires ds != [] && forall i :: 0 <= i < |ds| ==> IsDigit(ds[i])
    requires rest == [] || !IsDigit(rest[0])
    ensures LeadingDigits(ds + rest) == |ds| && (ds + rest)[..|ds|] == ds
  {
    LeadingDigitsOfRun(ds, rest);
  }

  /** `parseInt` of a minus sign and a text whose digit run is `k` long. */
  lemma {:induction false} SignedParse(t: string, u: string, k: nat)
    requires t != [] && t[0] == '-' && t[1..] == u
    requires AfterSpaces(t) == t
    requires 0 < k <= |u| && LeadingDigits(u) == k
    ensures ParseInt10(t) == Some(-(DigitsValue(u[..k]) as int))
  {
    assert Unsigned(t) == u;
  }

  lemma {:induction false} SpacesThenNonSpace(spaces: string, t: string)
    requires forall i :: 0 <= i < |spaces| ==> IsJsSpace(spaces[i])
    requires t != [] && !IsJsSpace(t[0])
    ensures LeadingSpaces(spaces + t) == |spaces|
  {
    if spaces != [] {
      assert (spaces + t)[1..] == spaces[1..] + t;
      SpacesThenNonSpace(spaces[1..], t);
    }
  }
}
