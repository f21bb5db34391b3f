/** The JavaScript string and number primitives the render-job logic is built from:
    `trim`, `split`, `join`, `replace`, decimal printing of integers and `parseInt`.
    Strings are sequences of characters; JavaScript's UTF-16 code units are not modelled. */
module JsText {
  import opened Wrappers

  // ------------------------------------------------------------------ whitespace and trim

  /** ECMAScript WhiteSpace and LineTerminator code points: what `String.prototype.trim` strips. */
  predicate IsWhitespace(c: char) {
    || c == '\t' || c == '\n' || c == '\U{B}' || c == '\U{C}' || c == '\r' || c == ' '
    || c == '\U{A0}' || c == '\U{1680}' || ('\U{2000}' <= c <= '\U{200A}')
    || c == '\U{2028}' || c == '\U{2029}' || c == '\U{202F}' || c == '\U{205F}'
    || c == '\U{3000}' || c == '\U{FEFF}'
  }

  predicate AllWhitespace(s: string) {
    forall j :: 0 <= j < |s| ==> IsWhitespace(s[j])
  }

  /** Neither end of `s` is whitespace. */
  predicate IsTrimmed(s: string) {
    s == [] || (!IsWhitespace(s[0]) && !IsWhitespace(s[|s| - 1]))
  }

  /** `s.trimStart()`: `s` without its longest all-whitespace prefix. */
  function TrimStart(s: string): (r: string)
    ensures |r| <= |s| && r == s[|s| - |r|..]
    ensures AllWhitespace(s[..|s| - |r|])
    ensures r == [] || !IsWhitespace(r[0])
  {
    if s != [] && IsWhitespace(s[0]) then
      var r := TrimStart(s[1..]);
      WhitespacePrefixStep(s, r);
      r
    else s
  }

  /** A whitespace character before an all-whitespace prefix of the rest extends it. */
  lemma WhitespacePrefixStep(s: string, r: string)
    requires s != [] && IsWhitespace(s[0]) && |r| < |s|
    requires r == s[1..][|s| - 1 - |r|..] && AllWhitespace(s[1..][..|s| - 1 - |r|])
    ensures r == s[|s| - |r|..] && AllWhitespace(s[..|s| - |r|])
  {
    var k := |s| - 1 - |r|;
    assert s[1..][k..] == s[k + 1..];
    var prefix := s[..k + 1];
    forall j | 0 <= j < |prefix|
      ensures IsWhitespace(prefix[j])
    {
      if j > 0 {
        assert prefix[j] == s[1..][..k][j - 1];
      }
    }
  }

  /** A whitespace character after an all-whitespace suffix of the rest extends it. */
  lemma WhitespaceSuffixStep(s: string, r: string)
    requires s != [] && IsWhitespace(s[|s| - 1]) && |r| < |s|
    requires r == s[..|s| - 1][..|r|] && AllWhitespace(s[..|s| - 1][|r|..])
    ensures r == s[..|r|] && AllWhitespace(s[|r|..])
  {
    var k := |r|;
    forall j | 0 <= j < |s| - 1 - k
      ensures s[k..][j] == s[..|s| - 1][k..][j]
    {
    }
  }

  /** `s.trimEnd()`: `s` without its longest all-whitespace suffix. */
  function TrimEnd(s: string): (r: string)
    ensures |r| <= |s| && r == s[..|r|]
    ensures AllWhitespace(s[|r|..])
    ensures r == [] || !IsWhitespace(r[|r| - 1])
  {
    if s != [] && IsWhitespace(s[|s| - 1]) then
      var r := TrimEnd(s[..|s| - 1]);
      WhitespaceSuffixStep(s, r);
      r
    else s
  }

  /** `s.trim()`: a trimmed infix of `s` (see `TrimIsInfix`), empty exactly when `s` is all whitespace. */
  function Trim(s: string): (r: string)
    ensures IsTrimmed(r)
    ensures r == [] <==> AllWhitespace(s)
  {
    TrimEndOfTrimStart(s);
    TrimEnd(TrimStart(s))
  }

  lemma TrimEndOfTrimStart(s: string)
    ensures IsTrimmed(TrimEnd(TrimStart(s)))
    ensures TrimEnd(TrimStart(s)) == [] <==> AllWhitespace(s)
  {
    var t := TrimStart(s);
    var r := TrimEnd(t);
    var k := |s| - |t|;
    AllWhitespaceSplit(s, k);
    assert s[k..] == t;
    if r != [] {
      assert r[0] == t[0];
    } else {
      assert t[|r|..] == t;
    }
  }

  /** What `trim()` keeps lies between an all-whitespace prefix and an all-whitespace suffix. */
  lemma TrimIsInfix(s: string)
    ensures exists k :: WhitespaceAround(s, Trim(s), k)
  {
    var t := TrimStart(s);
    InfixAround(s, t, TrimEnd(t));
    assert Trim(s) == TrimEnd(t);
  }

  /** Stripping a whitespace prefix and then a whitespace suffix leaves an infix of the text. */
  lemma InfixAround(s: string, t: string, r: string)
    requires |t| <= |s| && t == s[|s| - |t|..] && AllWhitespace(s[..|s| - |t|])
    requires |r| <= |t| && r == t[..|r|] && AllWhitespace(t[|r|..])
    ensures WhitespaceAround(s, r, |s| - |t|)
  {
    var k := |s| - |t|;
    assert r == s[k..k + |r|];
    assert s[k + |r|..] == t[|r|..];
  }

  /** `r` occurs in `s` at `k`, with only whitespace before and after it. */
  predicate WhitespaceAround(s: string, r: string, k: nat) {
    k <= |s| - |r| && r == s[k..k + |r|] && AllWhitespace(s[..k]) && AllWhitespace(s[k + |r|..])
  }

  /** A text is all whitespace exactly when both of its parts are. */
  lemma AllWhitespaceSplit(s: string, k: nat)
    requires k <= |s|
    ensures AllWhitespace(s) <==> AllWhitespace(s[..k]) && AllWhitespace(s[k..])
  {
    if AllWhitespace(s[..k]) && AllWhitespace(s[k..]) {
      forall j | 0 <= j < |s|
        ensures IsWhitespace(s[j])
      {
        if j < k { assert s[j] == s[..k][j]; } else { assert s[j] == s[k..][j - k]; }
      }
    }
  }

  lemma TrimOfTrimmed(s: string)
    requires IsTrimmed(s)
    ensures Trim(s) == s
  {
  }

  // ------------------------------------------------------------------ split and join

  /** `s.split(sep)` for a one-character separator: the pieces between separators, always at least one. */
  function Split(s: string, sep: char): (parts: seq<string>)
    ensures |parts| >= 1
    ensures forall j :: 0 <= j < |parts| ==> sep !in parts[j]
  {
    if s == [] then [[]]
    else
      var rest := Split(s[1..], sep);
      if s[0] == sep then [[]] + rest else [[s[0]] + rest[0]] + rest[1..]
  }

  /** `parts.join(sep)`. */
  function Join(parts: seq<string>, sep: string): string
  {
    if parts == [] then []
    else if |parts| == 1 then parts[0]
    else parts[0] + sep + Join(parts[1..], sep)
  }

  /** Joining the pieces of a split with the separator gives back the original text. */
  lemma {:induction false} JoinSplit(s: string, sep: char)
    ensures Join(Split(s, sep), [sep]) == s
  {
    if s != [] {
      JoinSplit(s[1..], sep);
      var rest := Split(s[1..], sep);
      if s[0] == sep {
        assert ([[]] + rest)[1..] == rest;
      } else {
        var parts := [[s[0]] + rest[0]] + rest[1..];
        if |rest| > 1 {
          assert parts[1..] == rest[1..];
        }
      }
      assert s == [s[0]] + s[1..];
    }
  }

  /** Splitting text that starts with a non-separator glues that character onto the first piece. */
  lemma SplitCons(c: char, s: string, sep: char)
    requires c != sep
    ensures Split([c] + s, sep) == [[c] + Split(s, sep)[0]] + Split(s, sep)[1..]
  {
    assert ([c] + s)[1..] == s;
  }

  /** Splitting `p + t` where `p` holds no separator glues `p` onto the first piece of `t`. */
  lemma {:induction false} SplitConcat(p: string, t: string, sep: char)
    requires sep !in p
    ensures Split(p + t, sep) == [p + Split(t, sep)[0]] + Split(t, sep)[1..]
  {
    var parts := Split(t, sep);
    if p != [] {
      SplitConcat(p[1..], t, sep);
      var rest := Split(p[1..] + t, sep);
      assert p + t == [p[0]] + (p[1..] + t);
      SplitCons(p[0], p[1..] + t, sep);
      assert rest[0] == p[1..] + parts[0] && rest[1..] == parts[1..];
      assert [p[0]] + (p[1..] + parts[0]) == p + parts[0];
      assert ([p[1..] + parts[0]] + parts[1..])[1..] == parts[1..];
    } else {
      assert p + t == t && p + parts[0] == parts[0];
      assert parts == [parts[0]] + parts[1..];
    }
  }

  /** Splitting a join of separator-free pieces gives back the pieces. */
  lemma {:induction false} SplitJoin(parts: seq<string>, sep: char)
    requires |parts| >= 1
    requires forall j :: 0 <= j < |parts| ==> sep !in parts[j]
    ensures Split(Join(parts, [sep]), sep) == parts
  {
    if |parts| == 1 {
      SplitConcat(parts[0], [], sep);
      assert parts[0] + [] == parts[0];
    } else {
      SplitJoin(parts[1..], sep);
      var t := [sep] + Join(parts[1..], [sep]);
      SplitConcat(parts[0], t, sep);
      assert parts[0] + [sep] + Join(parts[1..], [sep]) == parts[0] + t;
      assert t[1..] == Join(parts[1..], [sep]);
      assert Split(t, sep) == [[]] + parts[1..];
      assert parts[0] + [] == parts[0];
      assert parts == [parts[0]] + parts[1..];
    }
  }

  /** Joining one more piece adds a separator and the piece at the end. */
  lemma {:induction false} JoinAppend(parts: seq<string>, x: string, sep: string)
    requires parts != []
    ensures Join(parts + [x], sep) == Join(parts, sep) + sep + x
  {
    if |parts| > 1 {
      JoinAppend(parts[1..], x, sep);
      assert (parts + [x])[1..] == parts[1..] + [x];
    }
  }

  /** The pairs laid out one after the other: `[a0, b0, a1, b1, ...]`. */
  function Flatten<T>(ps: seq<(T, T)>): (r: seq<T>)
    ensures |r| == 2 * |ps|
  {
    if ps == [] then [] else [ps[0].0, ps[0].1] + Flatten(ps[1..])
  }

  lemma {:induction false} FlattenAt<T>(ps: seq<(T, T)>, j: nat)
    requires j < |ps|
    ensures Flatten(ps)[2 * j] == ps[j].0 && Flatten(ps)[2 * j + 1] == ps[j].1
  {
    if j > 0 {
      FlattenAt(ps[1..], j - 1);
      assert Flatten(ps)[2..] == Flatten(ps[1..]);
    }
  }

  /** Each pair joined by `sep`. */
  function JoinPairs(ps: seq<(string, string)>, sep: string): (r: seq<string>)
    ensures |r| == |ps| && forall j :: 0 <= j < |ps| ==> r[j] == Join([ps[j].0, ps[j].1], sep)
  {
    seq(|ps|, j requires 0 <= j < |ps| => Join([ps[j].0, ps[j].1], sep))
  }

  /** Joining the joined pairs with the same separator joins the flat sequence. */
  lemma {:induction false} JoinFlatten(ps: seq<(string, string)>, sep: string)
    ensures Join(JoinPairs(ps, sep), sep) == Join(Flatten(ps), sep)
  {
    if ps != [] {
      JoinFlatten(ps[1..], sep);
      var a, b := ps[0].0, ps[0].1;
      var js := JoinPairs(ps, sep);
      var tail := JoinPairs(ps[1..], sep);
      var flat := Flatten(ps);
      var rest := Flatten(ps[1..]);
      JoinOfPair(a, b, sep);
      Cons(js, tail);
      assert flat == [a, b] + rest;
      assert flat[1..] == [b] + rest;
      if ps[1..] == [] {
        assert js == [a + sep + b] && flat == [a, b];
      } else {
        assert js[1..] == tail && ([b] + rest)[1..] == rest;
        assert Join(flat[1..], sep) == b + sep + Join(rest, sep);
      }
    }
  }

  lemma JoinOfPair(a: string, b: string, sep: string)
    ensures Join([a, b], sep) == a + sep + b
  {
    assert [a, b][1..] == [b];
  }

  /** A sequence whose entries after the first are those of `s` is its first entry then `s`. */
  lemma Cons<T>(r: seq<T>, s: seq<T>)
    requires |r| == |s| + 1
    requires forall k :: 0 <= k < |s| ==> r[k + 1] == s[k]
    ensures r == [r[0]] + s
  {
  }

  // ------------------------------------------------------------------ replace

  /** `s.replace(c, rep)` with a one-character string pattern: only the first occurrence is replaced. */
  function ReplaceFirst(s: string, c: char, rep: string): string
  {
    if s == [] then []
    else if s[0] == c then rep + s[1..]
    else [s[0]] + ReplaceFirst(s[1..], c, rep)
  }

  /** The first occurrence of `c`, and only it, becomes `rep`; text without `c` is unchanged. */
  lemma {:induction false} ReplaceFirstAt(a: string, b: string, c: char, rep: string)
    requires c !in a
    ensures ReplaceFirst(a + [c] + b, c, rep) == a + rep + b
    ensures ReplaceFirst(a, c, rep) == a
  {
    if a != [] {
      ReplaceFirstAt(a[1..], b, c, rep);
      assert (a + [c] + b)[1..] == a[1..] + [c] + b;
      assert a == [a[0]] + a[1..];
    }
  }

  /** `s.replace(/c/g, d)` for single characters. */
  function ReplaceAll(s: string, c: char, d: char): (r: string)
    ensures |r| == |s|
    ensures c != d ==> c !in r
    ensures c !in s ==> r == s
  {
    seq(|s|, j requires 0 <= j < |s| => if s[j] == c then d else s[j])
  }

  lemma ReplaceAllConcat(a: string, b: string, c: char, d: char)
    ensures ReplaceAll(a + b, c, d) == ReplaceAll(a, c, d) + ReplaceAll(b, c, d)
  {
    assert forall j :: 0 <= j < |a + b| ==>
      ReplaceAll(a + b, c, d)[j] == (ReplaceAll(a, c, d) + ReplaceAll(b, c, d))[j];
  }

  // ------------------------------------------------------------------ numbers

  predicate IsDigit(c: char) {
    '0' <= c <= '9'
  }

  predicate AllDigits(s: string) {
    forall j :: 0 <= j < |s| ==> IsDigit(s[j])
  }

  /** The value of `c` as a digit of a radix up to 36, or 36 when `c` is no digit at all. */
  function DigitValue(c: char): (v: nat)
    ensures v <= 36
    ensures v < 10 <==> IsDigit(c)
  {
    if '0' <= c <= '9' then c as int - '0' as int
    else if 'a' <= c <= 'z' then c as int - 'a' as int + 10
    else if 'A' <= c <= 'Z' then c as int - 'A' as int + 10
    else 36
  }

  function DigitChar(d: nat): (c: char)
    requires d < 10
    ensures IsDigit(c) && DigitValue(c) == d
  {
    ('0' as int + d) as char
  }

  /** `${n}` for a non-negative integer: its decimal numeral. */
  function NatText(n: nat): (r: string)
    ensures |r| >= 1 && AllDigits(r)
    decreases n
  {
    if n < 10 then [DigitChar(n)] else NatText(n / 10) + [DigitChar(n % 10)]
  }

  /** The number a digit string denotes in `radix`. */
  function Value(ds: string, radix: nat): nat
  {
    if ds == [] then 0 else Value(ds[..|ds| - 1], radix) * radix + DigitValue(ds[|ds| - 1])
  }

  /** Reading a printed numeral gives back the number. */
  lemma {:induction false} NatTextValue(n: nat)
    ensures Value(NatText(n), 10) == n
    decreases n
  {
    if n >= 10 {
      NatTextValue(n / 10);
      var t := NatText(n / 10) + [DigitChar(n % 10)];
      assert t[..|t| - 1] == NatText(n / 10);
    }
  }

  /** Distinct numbers print as distinct numerals. */
  lemma NatTextInjective(m: nat, n: nat)
    ensures NatText(m) == NatText(n) <==> m == n
  {
    NatTextValue(m);
    NatTextValue(n);
  }

  /** The longest prefix of `s` made of digits of `radix`. */
  function DigitPrefix(s: string, radix: nat): (r: string)
    ensures |r| <= |s| && r == s[..|r|]
    ensures forall j :: 0 <= j < |r| ==> DigitValue(r[j]) < radix
    ensures |r| < |s| ==> DigitValue(s[|r|]) >= radix
  {
    if s != [] && DigitValue(s[0]) < radix then [s[0]] + DigitPrefix(s[1..], radix) else []
  }

  /** `parseInt(s)` without a radix argument: skip leading whitespace, read a sign, then the
      magnitude; `None` stands for `NaN`. */
  function ParseInt(s: string): Option<int>
  {
    var t := TrimStart(s);
    if t != [] && t[0] == '-' then
      match ParseMagnitude(t[1..])
      case None => None
      case Some(n) => Some(-(n as int))
    else
      var unsigned := if t != [] && t[0] == '+' then t[1..] else t;
      match ParseMagnitude(unsigned)
      case None => None
      case Some(n) => Some(n as int)
  }

  /** The unsigned part of `parseInt`: a `0x` prefix selects radix 16, then the longest digit
      prefix is read; `None` when there is no digit. */
  function ParseMagnitude(u: string): Option<nat>
  {
    if |u| >= 2 && u[0] == '0' && (u[1] == 'x' || u[1] == 'X') then ReadDigits(DigitPrefix(u[2..], 16), 16)
    else ReadDigits(DigitPrefix(u, 10), 10)
  }

  /** The value of the digits read, or `None` when there are none. */
  function ReadDigits(digits: string, radix: nat): Option<nat>
  {
    if digits == [] then None else Some(Value(digits, radix))
  }

  /** `${n}` for an integer (negative zero does not arise: integers have one zero). */
  function IntText(n: int): string
  {
    if n < 0 then "-" + NatText(-n) else NatText(n)
  }

  /** `${parseInt(s)}`: the numeral `parseInt` yields, or `NaN`. */
  function ParseIntText(s: string): string
  {
    match ParseInt(s)
    case None => "NaN"
    case Some(n) => IntText(n)
  }

  lemma {:induction false} DigitPrefixOfDigits(d: string, u: string, radix: nat)
    requires forall j :: 0 <= j < |d| ==> DigitValue(d[j]) < radix
    requires u == [] || DigitValue(u[0]) >= radix
    ensures DigitPrefix(d + u, radix) == d
  {
    if d != [] {
      DigitPrefixOfDigits(d[1..], u, radix);
      assert (d + u)[1..] == d[1..] + u;
      assert d == [d[0]] + d[1..];
    }
  }

  /** Text that starts with neither whitespace nor a sign parses as its magnitude. */
  lemma ParseIntOfUnsigned(s: string)
    requires s != [] && !IsWhitespace(s[0]) && s[0] != '-' && s[0] != '+'
    ensures ParseMagnitude(s).Some? ==> ParseInt(s) == Some(ParseMagnitude(s).value as int)
  {
    assert TrimStart(s) == s;
  }

  /** Decimal digits followed by a unit that is no digit (and no `x` that would make `0x`)
      have the digits' value as magnitude. */
  lemma DecimalMagnitude(d: string, unit: string)
    requires |d| >= 1 && AllDigits(d)
    requires unit == [] || (DigitValue(unit[0]) >= 10 && unit[0] != 'x' && unit[0] != 'X')
    ensures ParseMagnitude(d + unit) == Some(Value(d, 10))
  {
    NoHexPrefix(d, unit);
    DigitPrefixOfDigits(d, unit, 10);
    assert ParseMagnitude(d + unit) == ReadDigits(d, 10);
  }

  /** Digits followed by anything but an `x` do not start with `0x`. */
  lemma NoHexPrefix(d: string, unit: string)
    requires |d| >= 1 && AllDigits(d)
    requires unit == [] || (unit[0] != 'x' && unit[0] != 'X')
    ensures var u := d + unit; !(|u| >= 2 && u[0] == '0' && (u[1] == 'x' || u[1] == 'X'))
  {
    var u := d + unit;
    if |u| >= 2 {
      if |d| >= 2 {
        assert u[1] == d[1];
      } else {
        assert u[1] == unit[0];
      }
    }
  }

  /** A numeral followed by a unit that is no digit (and no `x` that would make `0x`) parses
      back to the numeral: `parseInt("68px")` prints as `68`. */
  lemma ParseIntOfNumeral(n: nat, unit: string)
    requires unit == [] || (DigitValue(unit[0]) >= 10 && unit[0] != 'x' && unit[0] != 'X')
    ensures ParseIntText(NatText(n) + unit) == NatText(n)
  {
    var d := NatText(n);
    DecimalMagnitude(d, unit);
    assert (d + unit)[0] == d[0];
    ParseIntOfUnsigned(d + unit);
    NatTextValue(n);
  }
}
