/** The string functions of Go's standard library that the chat handlers use to
    take a command apart: `strings.TrimPrefix`, `strings.TrimSpace`,
    `strings.SplitN`, `strings.Join`, `strconv.Atoi`, and `%d` formatting. */
module Text {
  import opened Common

  /** The white-space characters of `unicode.IsSpace` outside the range U+2000..U+200A. */
  const SpaceChars: set<char> := {
    '\t', '\n', '\U{000B}', '\U{000C}', '\r', ' ', '\U{0085}', '\U{00A0}', '\U{1680}',
    '\U{2028}', '\U{2029}', '\U{202F}', '\U{205F}', '\U{3000}'
  }

  /** `unicode.IsSpace`: the Latin-1 spaces and the Unicode White_Space characters above U+00FF. */
  predicate IsSpace(c: char) {
    c in SpaceChars || '\U{2000}' <= c <= '\U{200A}'
  }

  /** `strings.TrimPrefix`. */
  function TrimPrefix(s: string, prefix: string): (r: string)
    ensures prefix <= s ==> prefix + r == s
    ensures !(prefix <= s) ==> r == s
  {
    if prefix <= s then s[|prefix|..] else s
  }

  /** Drops the leading white space. */
  function TrimLeft(s: string): (r: string)
    ensures |r| <= |s| && r == s[|s| - |r|..]
    ensures forall i :: 0 <= i < |s| - |r| ==> IsSpace(s[i])
    ensures |r| == 0 || !IsSpace(r[0])
    decreases |s|
  {
    if |s| > 0 && IsSpace(s[0]) then TrimLeft(s[1..]) else s
  }

  /** Drops the trailing white space. */
  function TrimRight(s: string): (r: string)
    ensures |r| <= |s| && r == s[..|r|]
    ensures forall i :: |r| <= i < |s| ==> IsSpace(s[i])
    ensures |r| == 0 || !IsSpace(r[|r| - 1])
    decreases |s|
  {
    if |s| > 0 && IsSpace(s[|s| - 1]) then TrimRight(s[..|s| - 1]) else s
  }

  /** The part kept by trimming both ends sits right after the leading white space. */
  lemma TrimmedInfix(s: string)
    ensures var left := TrimLeft(s);
            var r := TrimRight(left);
            var k := |s| - |left|;
            k + |r| <= |s| && forall i :: 0 <= i < |r| ==> r[i] == s[k + i]
  {
    var left := TrimLeft(s);
    var r := TrimRight(left);
    var k := |s| - |left|;
    assert left == s[k..];
    forall i | 0 <= i < |r| ensures r[i] == s[k + i] {
      assert r[i] == left[i];
    }
  }

  /** Everything after the kept part is white space. */
  lemma TrimmedTail(s: string)
    ensures var left := TrimLeft(s);
            var r := TrimRight(left);
            var k := |s| - |left|;
            forall i :: k + |r| <= i < |s| ==> IsSpace(s[i])
  {
    var left := TrimLeft(s);
    var r := TrimRight(left);
    var k := |s| - |left|;
    assert left == s[k..];
    forall i | k + |r| <= i < |s| ensures IsSpace(s[i]) {
      assert s[i] == left[i - k];
    }
  }

  /** `strings.TrimSpace`: the result is an infix of `s` that neither starts nor ends
      with white space, and only white space was cut off on either side. */
  function TrimSpace(s: string): (r: string)
    ensures |r| <= |s|
    ensures |r| == 0 || (!IsSpace(r[0]) && !IsSpace(r[|r| - 1]))
    ensures var k := |s| - |TrimLeft(s)|;
            k + |r| <= |s| && (forall i :: 0 <= i < |r| ==> r[i] == s[k + i])
            && (forall i :: 0 <= i < k ==> IsSpace(s[i]))
            && (forall i :: k + |r| <= i < |s| ==> IsSpace(s[i]))
  {
    var left := TrimLeft(s);
    var r := TrimRight(left);
    assert |r| > 0 ==> r[0] == left[0];
    TrimmedInfix(s);
    TrimmedTail(s);
    r
  }

  /** Index of the first occurrence of `c` in `s`, or -1 (`strings.Index` for a one-character separator). */
  function IndexOf(s: string, c: char): (i: int)
    ensures -1 <= i < |s|
    ensures i == -1 ==> c !in s
    ensures 0 <= i ==> s[i] == c && c !in s[..i]
    decreases |s|
  {
    if |s| == 0 then -1
    else if s[0] == c then 0
    else
      var j := IndexOf(s[1..], c);
      assert j >= 0 ==> s[..j + 1] == [s[0]] + s[1..][..j];
      if j < 0 then -1 else j + 1
  }

  /** `strings.Join`. */
  function Join(parts: seq<string>, sep: char): string
    decreases |parts|
  {
    if |parts| == 0 then ""
    else if |parts| == 1 then parts[0]
    else parts[0] + [sep] + Join(parts[1..], sep)
  }

  /** A first part cut off at the first separator, in front of parts that join back to
      the rest, joins back to the whole string. */
  lemma SplitStep(s: string, sep: char, i: int, rest: seq<string>)
    requires 0 <= i < |s| && s[i] == sep && sep !in s[..i]
    requires |rest| >= 1
    requires forall k :: 0 <= k < |rest| - 1 ==> sep !in rest[k]
    requires Join(rest, sep) == s[i + 1..]
    ensures var parts := [s[..i]] + rest;
            && (forall k :: 0 <= k < |parts| - 1 ==> sep !in parts[k])
            && Join(parts, sep) == s
  {
    var parts := [s[..i]] + rest;
    assert parts[1..] == rest;
    assert forall k :: 1 <= k < |parts| ==> parts[k] == rest[k - 1];
    assert Join(parts, sep) == s[..i] + [sep] + Join(rest, sep);
    assert s == s[..i] + [sep] + s[i + 1..];
  }

  /** `strings.SplitN(s, sep, n)` for n >= 1 and a one-character separator: at most `n`
      parts, no separator inside any part but the last, no separator at all in the last
      part when fewer than `n` came out, and joining the parts gives `s` back. */
  function SplitN(s: string, sep: char, n: nat): (parts: seq<string>)
    requires n >= 1
    ensures 1 <= |parts| <= n
    ensures forall k :: 0 <= k < |parts| - 1 ==> sep !in parts[k]
    ensures |parts| < n ==> sep !in parts[|parts| - 1]
    ensures Join(parts, sep) == s
    decreases n
  {
    var i := IndexOf(s, sep);
    if n == 1 || i < 0 then [s]
    else
      var rest := SplitN(s[i + 1..], sep, n - 1);
      SplitStep(s, sep, i, rest);
      [s[..i]] + rest
  }

  /** Three parts join with two separators. */
  lemma JoinThree(parts: seq<string>, sep: char)
    requires |parts| == 3
    ensures Join(parts, sep) == parts[0] + [sep] + parts[1] + [sep] + parts[2]
  {
    var tail := parts[1..];
    var last := tail[1..];
    assert |last| == 1 && last[0] == parts[2];
    assert Join(tail, sep) == parts[1] + [sep] + parts[2];
  }

  /** Three parts out of `SplitN(s, sep, 3)` are exactly `s` cut at its first two separators. */
  lemma SplitThree(s: string, sep: char)
    requires |SplitN(s, sep, 3)| == 3
    ensures var parts := SplitN(s, sep, 3);
            sep !in parts[0] && sep !in parts[1]
            && parts[0] + [sep] + parts[1] + [sep] + parts[2] == s
  {
    var parts := SplitN(s, sep, 3);
    JoinThree(parts, sep);
    assert sep !in parts[0] && sep !in parts[1];
  }

  predicate IsDigit(c: char) {
    '0' <= c <= '9'
  }

  predicate AllDigits(s: string) {
    forall i :: 0 <= i < |s| ==> IsDigit(s[i])
  }

  /** The value of a string of decimal digits, read most significant first. */
  function DigitsValue(s: string): nat
    requires AllDigits(s)
    decreases |s|
  {
    if |s| == 0 then 0
    else DigitsValue(s[..|s| - 1]) * 10 + (s[|s| - 1] as int - '0' as int)
  }

  const MinInt64: int := -0x8000_0000_0000_0000
  const MaxInt64: int := 0x7FFF_FFFF_FFFF_FFFF

  /** `strconv.Atoi` on a 64-bit platform: an optional sign, then one or more decimal
      digits, with a value that fits in 64 bits; anything else is an error. */
  function Atoi(s: string): (r: Option<int>)
    ensures r.Some? <==>
              && |s| > 0
              && var body := if s[0] == '+' || s[0] == '-' then s[1..] else s;
                 && |body| > 0 && AllDigits(body)
                 && MinInt64 <= (if s[0] == '-' then -(DigitsValue(body) as int) else DigitsValue(body)) <= MaxInt64
    ensures r.Some? ==>
              var body := if s[0] == '+' || s[0] == '-' then s[1..] else s;
              r.value == if s[0] == '-' then -(DigitsValue(body) as int) else DigitsValue(body)
    ensures r.Some? ==> MinInt64 <= r.value <= MaxInt64
    ensures r.Some? ==> |s| > 0 && (IsDigit(s[0]) || s[0] == '+' || s[0] == '-')
                        && AllDigits(s[1..])
    ensures r.Some? && r.value < 0 ==> s[0] == '-'
    ensures s == "" ==> r == None
  {
    if |s| == 0 then None
    else
      var signed := s[0] == '+' || s[0] == '-';
      var body := if signed then s[1..] else s;
      if |body| == 0 || !AllDigits(body) then None
      else
        var v: int := if s[0] == '-' then -(DigitsValue(body) as int) else DigitsValue(body);
        if MinInt64 <= v <= MaxInt64 then Some(v) else None
  }

  /** Decimal digits of a natural number, most significant first, without leading zeros. */
  function Digits(n: nat): (r: string)
    ensures |r| > 0 && AllDigits(r)
    decreases n
  {
    if n < 10 then [('0' as int + n) as char]
    else Digits(n / 10) + [('0' as int + n % 10) as char]
  }

  /** `fmt.Sprintf("%d", n)`. */
  function FormatInt(n: int): string {
    if n < 0 then "-" + Digits(-n) else Digits(n)
  }

  lemma {:induction false} DigitsValueOfDigits(n: nat)
    ensures DigitsValue(Digits(n)) == n
    decreases n
  {
    if n >= 10 {
      DigitsValueOfDigits(n / 10);
      var d := Digits(n);
      assert d[..|d| - 1] == Digits(n / 10);
    }
  }

  /** An id printed with `%d` (as the `/list` answer prints it) is read back by `Atoi`
      (as `/delete` reads it) to the same id. */
  lemma AtoiFormatInt(n: int)
    requires MinInt64 <= n <= MaxInt64
    ensures Atoi(FormatInt(n)) == Some(n)
  {
    if n < 0 {
      DigitsValueOfDigits(-n);
      assert FormatInt(n)[1..] == Digits(-n);
    } else {
      DigitsValueOfDigits(n);
    }
  }
}
