/**
 * The JavaScript string primitives the server's logic is built from, with the
 * meaning ECMAScript gives them: the `\d`, `\w` and `\s` classes of regular
 * expressions, `includes`, `trim`, `split` and `replace` with a one-character
 * pattern, the truthiness of an optional string, and `parseInt`.
 */
module JsText {
  import opened Wrappers

  /** A number produced by `parseInt`: an integer, or NaN when no digit could be read. */
  datatype JsInt = NaN | Num(value: int)

  /** `a <= b` on numbers: false when either side is NaN. */
  predicate AtMost(a: JsInt, b: JsInt)
  {
    a.Num? && b.Num? && a.value <= b.value
  }

  /** `a > b` on numbers: false when either side is NaN. */
  predicate Above(a: JsInt, b: JsInt)
  {
    a.Num? && b.Num? && a.value > b.value
  }

  /** `a * k`: NaN stays NaN. */
  function Times(a: JsInt, k: int): JsInt
  {
    match a
    case NaN => NaN
    case Num(v) => Num(v * k)
  }

  /** `\d` */
  predicate IsDigit(c: char)
  {
    '0' <= c <= '9'
  }

  /** `\w` of a regular expression without the `u` flag: ASCII letters, digits and `_`. */
  predicate IsWordChar(c: char)
  {
    ('a' <= c <= 'z') || ('A' <= c <= 'Z') || IsDigit(c) || c == '_'
  }

  /** The line terminators: the characters `.` does not match. */
  predicate IsLineTerminator(c: char)
  {
    c == '\n' || c == '\r' || c == '\U{2028}' || c == '\U{2029}'
  }

  /** `\s`: white space and line terminators, the same set that `trim` and `parseInt` skip. */
  predicate IsSpace(c: char)
  {
    || c == ' ' || c == '\t' || c == '\U{B}' || c == '\U{C}' || c == '\U{A0}' || c == '\U{FEFF}'
    || c == '\U{1680}' || ('\U{2000}' <= c <= '\U{200A}') || c == '\U{202F}' || c == '\U{205F}'
    || c == '\U{3000}' || IsLineTerminator(c)
  }

  predicate AllSpace(s: string)
  {
    forall i | 0 <= i < |s| :: IsSpace(s[i])
  }

  predicate AllDigits(s: string)
  {
    forall i | 0 <= i < |s| :: IsDigit(s[i])
  }

  /** JavaScript truthiness of a string that may be missing: `undefined` and `''` are falsy. */
  predicate Truthy(v: Option<string>)
  {
    v.Some? && v.value != ""
  }

  /** `v || fallback` */
  function Or(v: Option<string>, fallback: string): string
  {
    if Truthy(v) then v.value else fallback
  }

  /** `s.includes(sub)` */
  predicate Contains(s: string, sub: string)
    decreases |s|
  {
    (|sub| <= |s| && s[..|sub|] == sub) || (|s| > 0 && Contains(s[1..], sub))
  }

  /** For a one-character needle, `includes` is membership. */
  lemma {:induction false} ContainsCharIff(s: string, c: char)
    ensures Contains(s, [c]) <==> c in s
  {
    if |s| > 0 {
      ContainsCharIff(s[1..], c);
      assert s == [s[0]] + s[1..];
    }
  }

  /** A string that contains `t` contains every prefix of `t`. */
  lemma {:induction false} ContainsPrefixOfNeedle(s: string, t: string, p: string)
    requires Contains(s, t)
    requires |p| <= |t| && t[..|p|] == p
    ensures Contains(s, p)
    decreases |s|
  {
    if |t| <= |s| && s[..|t|] == t {
      assert s[..|p|] == t[..|p|];
    } else {
      ContainsPrefixOfNeedle(s[1..], t, p);
    }
  }

  /** Number of white-space characters at the start of `s`. */
  function LeadingSpace(s: string): (n: nat)
    ensures n <= |s|
    ensures forall i | 0 <= i < n :: IsSpace(s[i])
    ensures n < |s| ==> !IsSpace(s[n])
    decreases |s|
  {
    if |s| > 0 && IsSpace(s[0]) then 1 + LeadingSpace(s[1..]) else 0
  }

  /** Number of white-space characters at the end of `s`. */
  function TrailingSpace(s: string): (n: nat)
    ensures n <= |s|
    ensures forall i | |s| - n <= i < |s| :: IsSpace(s[i])
    ensures n < |s| ==> !IsSpace(s[|s| - 1 - n])
    decreases |s|
  {
    if |s| > 0 && IsSpace(s[|s| - 1]) then 1 + TrailingSpace(s[..|s| - 1]) else 0
  }

  /** `s.trimStart()`: what is left once the leading white space is cut away. */
  function TrimStart(s: string): string
  {
    s[LeadingSpace(s)..]
  }

  /** `s.trimEnd()`: what is left once the trailing white space is cut away. */
  function TrimEnd(s: string): string
  {
    s[..|s| - TrailingSpace(s)]
  }

  /** `s.trim()` */
  function Trim(s: string): string
  {
    TrimEnd(TrimStart(s))
  }

  /** The trim is a contiguous piece of `s`, with only white space around it and none at its ends. */
  lemma TrimSpec(s: string)
    ensures var r := Trim(s); r == [] || (!IsSpace(r[0]) && !IsSpace(r[|r| - 1]))
    ensures exists i, j | 0 <= i <= j <= |s| :: (Trim(s) == s[i..j] &&
      (forall k | 0 <= k < i :: IsSpace(s[k])) && (forall k | j <= k < |s| :: IsSpace(s[k])))
  {
    var a := LeadingSpace(s);
    var t := s[a..];
    var b := TrailingSpace(t);
    var j := |s| - b;
    assert Trim(s) == s[a..j];
    assert forall k | j <= k < |s| :: IsSpace(s[k]) by {
      forall k | j <= k < |s| ensures IsSpace(s[k]) {
        assert s[k] == t[k - a];
      }
    }
    assert a < j ==> s[a..j][j - a - 1] == t[|t| - 1 - b];
    assert 0 <= a <= j <= |s| && Trim(s) == s[a..j] &&
      (forall k | 0 <= k < a :: IsSpace(s[k])) && (forall k | j <= k < |s| :: IsSpace(s[k]));
  }

  /** A string with no white space at either end is its own trim. */
  lemma TrimOfTrimmed(s: string)
    requires s == [] || (!IsSpace(s[0]) && !IsSpace(s[|s| - 1]))
    ensures Trim(s) == s
  {
  }

  /** `trim` is idempotent. */
  lemma TrimIdempotent(s: string)
    ensures Trim(Trim(s)) == Trim(s)
  {
    TrimSpec(s);
    TrimOfTrimmed(Trim(s));
  }

  /** `trim` drops white space only: it keeps every other character and adds none. */
  lemma TrimKeeps(s: string)
    ensures forall c | c in Trim(s) :: c in s
    ensures forall c | c in s && !IsSpace(c) :: c in Trim(s)
  {
    var i := LeadingSpace(s);
    var t := s[i..];
    var j := |s| - TrailingSpace(t);
    assert Trim(s) == s[i..j];
    forall c | c in s && !IsSpace(c)
      ensures c in Trim(s)
    {
      var k :| 0 <= k < |s| && s[k] == c;
      assert t[k - i] == c;
      assert s[i..j][k - i] == c;
    }
  }

  /** `s.trim()` is falsy exactly when `s` is all white space. */
  lemma TrimEmptyIff(s: string)
    ensures Trim(s) == "" <==> AllSpace(s)
  {
    TrimSpec(s);
  }

  /** `s.split(sep)` for a one-character separator: the pieces between separators, at least one. */
  function Split(s: string, sep: char): (parts: seq<string>)
    ensures |parts| >= 1
    ensures forall i | 0 <= i < |parts| :: sep !in parts[i]
    decreases |s|
  {
    if |s| == 0 then [""]
    else if s[0] == sep then [""] + Split(s[1..], sep)
    else
      var rest := Split(s[1..], sep);
      [[s[0]] + rest[0]] + rest[1..]
  }

  /** `parts.join(sep)` */
  function Join(parts: seq<string>, sep: char): string
    requires |parts| >= 1
  {
    if |parts| == 1 then parts[0] else parts[0] + [sep] + Join(parts[1..], sep)
  }

  /** A string without the separator splits into itself alone. */
  lemma {:induction false} SplitWithoutSeparator(s: string, sep: char)
    requires sep !in s
    ensures Split(s, sep) == [s]
    decreases |s|
  {
    if |s| > 0 {
      SplitWithoutSeparator(s[1..], sep);
      assert [s[0]] + s[1..] == s;
    }
  }

  /** The first separator ends the first piece. */
  lemma {:induction false} SplitAtFirstSeparator(a: string, sep: char, b: string)
    requires sep !in a
    ensures Split(a + [sep] + b, sep) == [a] + Split(b, sep)
    decreases |a|
  {
    if |a| == 0 {
      assert a + [sep] + b == [sep] + b;
      assert ([sep] + b)[1..] == b;
    } else {
      assert (a + [sep] + b)[1..] == a[1..] + [sep] + b;
      SplitAtFirstSeparator(a[1..], sep, b);
      assert [a[0]] + a[1..] == a;
    }
  }

  /** A string with one separator splits into the two sides. */
  lemma SplitInTwo(a: string, sep: char, b: string)
    requires sep !in a && sep !in b
    ensures Split(a + [sep] + b, sep) == [a, b]
  {
    SplitAtFirstSeparator(a, sep, b);
    SplitWithoutSeparator(b, sep);
  }

  /** Splitting a join of separator-free pieces gives back the pieces. */
  lemma {:induction false} SplitJoin(parts: seq<string>, sep: char)
    requires |parts| >= 1
    requires forall i | 0 <= i < |parts| :: sep !in parts[i]
    ensures Split(Join(parts, sep), sep) == parts
    decreases |parts|
  {
    if |parts| == 1 {
      SplitWithoutSeparator(parts[0], sep);
    } else {
      SplitJoin(parts[1..], sep);
      SplitAtFirstSeparator(parts[0], sep, Join(parts[1..], sep));
    }
  }

  /** Position of the first `c` in `s`, or `|s|` when there is none. */
  function IndexOf(s: string, c: char): (k: nat)
    ensures k <= |s| && c !in s[..k]
    ensures k < |s| ==> s[k] == c
    decreases |s|
  {
    if |s| == 0 then 0
    else if s[0] == c then 0
    else
      var k := 1 + IndexOf(s[1..], c);
      assert s[..k] == [s[0]] + s[1..][..k - 1];
      k
  }

  /** `s.replace(c, '')` with a one-character string `c`: only the first occurrence is removed. */
  function RemoveFirst(s: string, c: char): (r: string)
    ensures var k := IndexOf(s, c); r == if k < |s| then s[..k] + s[k + 1..] else s
    decreases |s|
  {
    if |s| == 0 then s
    else if s[0] == c then s[1..]
    else
      var r := [s[0]] + RemoveFirst(s[1..], c);
      RemoveFirstStep(s, c, RemoveFirst(s[1..], c));
      r
  }

  /** Removing the first `c` after a first character that is not `c`. */
  lemma RemoveFirstStep(s: string, c: char, tail: string)
    requires |s| > 0 && s[0] != c
    requires var k := IndexOf(s[1..], c); tail == if k < |s| - 1 then s[1..][..k] + s[1..][k + 1..] else s[1..]
    ensures var k := IndexOf(s, c); [s[0]] + tail == if k < |s| then s[..k] + s[k + 1..] else s
  {
    var k1 := IndexOf(s[1..], c);
    assert IndexOf(s, c) == k1 + 1;
    if k1 < |s| - 1 {
      assert s[..k1 + 1] == [s[0]] + s[1..][..k1];
      assert s[k1 + 2..] == s[1..][k1 + 1..];
    } else {
      assert [s[0]] + s[1..] == s;
    }
  }

  /** Removing a character adds none: what `s` lacks, the result lacks. */
  lemma RemoveFirstKeepsOut(s: string, c: char, d: char)
    requires d !in s
    ensures d !in RemoveFirst(s, c)
  {
    var k := IndexOf(s, c);
    if k < |s| {
      assert s == s[..k] + [s[k]] + s[k + 1..];
    }
  }

  /** When `c` first occurs at the very end, removing it leaves what came before. */
  lemma RemoveFirstAtEnd(d: string, c: char)
    requires c !in d
    ensures RemoveFirst(d + [c], c) == d
  {
    assert (d + [c])[..|d|] == d && (d + [c])[|d|] == c;
  }

  /** Only the first `c` goes: what follows it is kept whatever it holds. */
  lemma RemoveFirstAfter(d: string, c: char, rest: string)
    requires c !in d
    ensures RemoveFirst(d + [c] + rest, c) == d + rest
  {
    var s := d + [c] + rest;
    assert s[..|d|] == d && s[|d|] == c && s[|d| + 1..] == rest;
    assert IndexOf(s, c) == |d|;
  }

  /** Numeric value of a digit in bases up to 36; 36 for a character that is no digit at all. */
  function DigitValue(c: char): nat
  {
    if '0' <= c <= '9' then (c as int - '0' as int) as nat
    else if 'a' <= c <= 'z' then (c as int - 'a' as int + 10) as nat
    else if 'A' <= c <= 'Z' then (c as int - 'A' as int + 10) as nat
    else 36
  }

  /** Length of the longest prefix of `s` made of digits of the given base. */
  function DigitRun(s: string, base: nat): (n: nat)
    ensures n <= |s|
    ensures forall i | 0 <= i < n :: DigitValue(s[i]) < base
    ensures n < |s| ==> DigitValue(s[n]) >= base
    decreases |s|
  {
    if |s| > 0 && DigitValue(s[0]) < base then 1 + DigitRun(s[1..], base) else 0
  }

  /** The number a string of digits denotes in the given base, most significant digit first. */
  function DigitsValue(d: string, base: nat): nat
  {
    if d == [] then 0 else DigitsValue(d[..|d| - 1], base) * base + DigitValue(d[|d| - 1])
  }

  /** Whether `parseInt` is given the radix 10 or none at all (then a `0x` prefix selects base 16). */
  datatype Radix = Radix10 | NoRadix

  /**
   * `parseInt(s)` / `parseInt(s, 10)`: skip leading white space, read an optional sign,
   * then the longest run of digits; NaN when that run is empty. Trailing text is ignored.
   */
  function ParseInt(s: string, radix: Radix): JsInt
  {
    var t := TrimStart(s);
    var negative := |t| > 0 && t[0] == '-';
    var u := if |t| > 0 && (t[0] == '-' || t[0] == '+') then t[1..] else t;
    if radix == NoRadix && HasHexPrefix(u) then ReadDigits(u[2..], 16, negative)
    else ReadDigits(u, 10, negative)
  }

  predicate HasHexPrefix(u: string)
  {
    |u| >= 2 && u[0] == '0' && (u[1] == 'x' || u[1] == 'X')
  }

  /** The longest run of digits at the start of `v`, as a signed number; NaN when there is none. */
  function ReadDigits(v: string, base: nat, negative: bool): JsInt
  {
    var n := DigitRun(v, base);
    if n == 0 then NaN
    else if negative then Num(-(DigitsValue(v[..n], base) as int))
    else Num(DigitsValue(v[..n], base))
  }

  /** Appending a digit multiplies the value so far by the base and adds the digit. */
  lemma DigitsValueStep(d: string, c: char)
    ensures DigitsValue(d + [c], 10) == DigitsValue(d, 10) * 10 + DigitValue(c)
  {
    assert (d + [c])[..|d|] == d;
  }

  /** A decimal digit string, followed by the end or by anything but a digit, `x` or `X`, parses to its value. */
  lemma ParseIntOfDigits(d: string, rest: string, radix: Radix)
    requires |d| > 0 && AllDigits(d)
    requires rest == [] || (!IsDigit(rest[0]) && rest[0] != 'x' && rest[0] != 'X')
    ensures ParseInt(d + rest, radix) == Num(DigitsValue(d, 10))
  {
    DigitsThenNoHexPrefix(d, rest);
    ParseIntFromDigit(d + rest, radix);
    ReadDigitsOfDigits(d, rest);
  }

  lemma DigitsThenNoHexPrefix(d: string, rest: string)
    requires |d| > 0 && AllDigits(d)
    requires rest == [] || (rest[0] != 'x' && rest[0] != 'X')
    ensures |d + rest| > 0 && IsDigit((d + rest)[0]) && !HasHexPrefix(d + rest)
  {
    var s := d + rest;
    assert s[0] == d[0];
    if |s| >= 2 {
      if |d| >= 2 {
        assert s[1] == d[1];
      } else {
        assert s[1] == rest[0];
      }
    }
  }

  /** Text that starts with a digit (and no `0x`) is read in base 10 from its first character. */
  lemma ParseIntFromDigit(s: string, radix: Radix)
    requires |s| > 0 && IsDigit(s[0]) && !HasHexPrefix(s)
    ensures ParseInt(s, radix) == ReadDigits(s, 10, false)
  {
    TrimStartOfNonSpace(s);
    assert !IsSpace(s[0]) && s[0] != '-' && s[0] != '+';
  }

  lemma TrimStartOfNonSpace(s: string)
    requires |s| > 0 && !IsSpace(s[0])
    ensures TrimStart(s) == s
  {
  }

  lemma ReadDigitsOfDigits(d: string, rest: string)
    requires |d| > 0 && AllDigits(d)
    requires rest == [] || !IsDigit(rest[0])
    ensures ReadDigits(d + rest, 10, false) == Num(DigitsValue(d, 10))
  {
    var s := d + rest;
    assert forall i | 0 <= i < |d| :: s[i] == d[i] && DigitValue(s[i]) < 10;
    assert rest != [] ==> s[|d|] == rest[0] && DigitValue(s[|d|]) >= 10;
    assert DigitRun(s, 10) == |d|;
    assert s[..|d|] == d;
  }
}
