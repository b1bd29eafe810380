/** The Python string operations the service relies on: printing and parsing integers, and `str.split`. */
module Text {
  import opened Common

  predicate IsDigit(c: char) {
    '0' <= c <= '9'
  }

  function DigitValue(c: char): nat
    requires IsDigit(c)
  {
    c as int - '0' as int
  }

  predicate Numeral(s: string) {
    s != "" && forall c :: c in s ==> IsDigit(c)
  }

  function NatString(n: nat): (s: string)
    ensures Numeral(s)
  {
    if n < 10 then [('0' as int + n) as char] else NatString(n / 10) + NatString(n % 10)
  }

  /** `str(i)` */
  function IntString(i: int): (s: string)
    ensures s != "" && forall c :: c in s ==> IsDigit(c) || c == '-'
  {
    if i < 0 then "-" + NatString(-i) else NatString(i)
  }

  function NumeralValue(s: string): nat
    requires forall c :: c in s ==> IsDigit(c)
  {
    if s == "" then 0 else NumeralValue(s[..|s| - 1]) * 10 + DigitValue(s[|s| - 1])
  }

  predicate IsSpace(c: char) {
    c == ' ' || '\t' <= c <= '\r'
  }

  function Strip(s: string): string {
    if s == "" then s
    else if IsSpace(s[0]) then Strip(s[1..])
    else if IsSpace(s[|s| - 1]) then Strip(s[..|s| - 1])
    else s
  }

  /** `int(s)` on ASCII text without underscores: surrounding blanks, an optional sign, digits. */
  function ParseInt(s: string): (i: Option<int>) {
    var t := Strip(s);
    if Numeral(t) then Some(NumeralValue(t))
    else if t != "" && t[0] == '-' && Numeral(t[1..]) then Some(0 - NumeralValue(t[1..]))
    else if t != "" && t[0] == '+' && Numeral(t[1..]) then Some(NumeralValue(t[1..]))
    else None
  }

  /** The blanks `int` skips, among ASCII characters. */
  predicate Blank(s: string) {
    forall c :: c in s ==> c in {' ', '\t', '\n', 11 as char, 12 as char, '\r'}
  }

  predicate Digits(s: string) {
    s != "" && forall c :: c in s ==> c in "0123456789"
  }

  /** A decimal numeral with an optional sign. */
  predicate Denotes(body: string, i: int) {
    || (Digits(body) && i == Decimal(body))
    || (body != "" && body[0] == '+' && Digits(body[1..]) && i == Decimal(body[1..]))
    || (body != "" && body[0] == '-' && Digits(body[1..]) && i == 0 - Decimal(body[1..]))
  }

  /** The sum of the digits, each times a power of ten: the first one counts for the most. */
  function Decimal(s: string): nat
    requires forall c :: c in s ==> c in "0123456789"
  {
    if s == "" then 0 else DigitOf(s[0]) * Power(10, |s| - 1) + Decimal(s[1..])
  }

  function DigitOf(c: char): nat
    requires c in "0123456789"
  {
    var k :| 0 <= k < 10 && "0123456789"[k] == c; k
  }

  function Power(b: nat, e: nat): nat {
    if e == 0 then 1 else b * Power(b, e - 1)
  }

  lemma DigitsAreNumerals(s: string)
    ensures (forall c :: c in s ==> c in "0123456789") <==> forall c :: c in s ==> IsDigit(c)
    ensures Digits(s) <==> Numeral(s)
  {
    forall c: char
      ensures c in "0123456789" <==> IsDigit(c)
    {
      DigitIs(c);
    }
  }

  lemma DigitIs(c: char)
    ensures c in "0123456789" <==> IsDigit(c)
    ensures c in "0123456789" ==> DigitOf(c) == DigitValue(c)
  {
    if IsDigit(c) {
      var k := c as int - '0' as int;
      assert "0123456789"[k] == c;
    }
    assert forall k :: 0 <= k < 10 ==> "0123456789"[k] as int == '0' as int + k;
  }

  lemma {:induction false} DecimalAppend(s: string, c: char)
    requires forall d :: d in s + [c] ==> d in "0123456789"
    ensures forall d :: d in s ==> d in s + [c]
    ensures c in s + [c]
    ensures Decimal(s + [c]) == 10 * Decimal(s) + DigitOf(c)
  {
    assert forall d :: d in s ==> d in s + [c];
    assert (s + [c])[|s|] == c;
    if s == "" {
      assert s + [c] == [c] && [c][1..] == "";
      assert Power(10, 0) == 1;
    } else {
      assert (s + [c])[1..] == s[1..] + [c];
      assert forall d :: d in s[1..] + [c] ==> d in s + [c];
      DecimalAppend(s[1..], c);
      TenTimes(DigitOf(s[0]), |s| - 1);
    }
  }

  lemma TenTimes(d: nat, e: nat)
    ensures d * Power(10, e + 1) == 10 * (d * Power(10, e))
  {
  }

  /** Reading digits left to right gives the decimal value. */
  lemma {:induction false} NumeralIsDecimal(s: string)
    requires forall c :: c in s ==> IsDigit(c)
    ensures forall c :: c in s ==> c in "0123456789"
    ensures NumeralValue(s) == Decimal(s)
  {
    DigitsAreNumerals(s);
    if s != "" {
      var before, last := s[..|s| - 1], s[|s| - 1];
      assert s == before + [last];
      NumeralIsDecimal(before);
      DecimalAppend(before, last);
      DigitIs(last);
    }
  }

  predicate Spaces(s: string) {
    forall c :: c in s ==> IsSpace(c)
  }

  lemma BlankIsSpaces(s: string)
    ensures Blank(s) <==> Spaces(s)
  {
    assert forall c: char :: IsSpace(c) <==> c in {' ', '\t', '\n', 11 as char, 12 as char, '\r'};
  }

  lemma MoreSpaces(c: char, s: string)
    requires IsSpace(c) && Spaces(s)
    ensures Spaces([c] + s) && Spaces(s + [c])
  {
  }

  lemma FewerSpaces(s: string)
    requires s != "" && Spaces(s)
    ensures IsSpace(s[0]) && IsSpace(s[|s| - 1]) && Spaces(s[1..]) && Spaces(s[..|s| - 1])
  {
    assert s[0] in s && s[|s| - 1] in s;
    assert forall c :: c in s[1..] || c in s[..|s| - 1] ==> c in s;
  }

  lemma Regroup(c: char, pre: string, body: string, post: string)
    ensures [c] + (pre + body + post) == ([c] + pre) + body + post
    ensures (pre + body + post) + [c] == pre + body + (post + [c])
  {
  }

  lemma Ends(s: string)
    requires s != ""
    ensures s == [s[0]] + s[1..] == s[..|s| - 1] + [s[|s| - 1]]
  {
  }

  /** What is left after stripping starts and ends with no blank, and only blanks are gone. */
  lemma {:induction false} StripIs(s: string) returns (pre: string, post: string)
    ensures s == pre + Strip(s) + post && Spaces(pre) && Spaces(post)
    ensures Strip(s) != "" ==> !IsSpace(Strip(s)[0]) && !IsSpace(Strip(s)[|Strip(s)| - 1])
  {
    if s == "" {
      return "", "";
    }
    Ends(s);
    var first, last := s[0], s[|s| - 1];
    if IsSpace(first) {
      pre, post := StripIs(s[1..]);
      MoreSpaces(first, pre);
      Regroup(first, pre, Strip(s), post);
      pre := [first] + pre;
    } else if IsSpace(last) {
      pre, post := StripIs(s[..|s| - 1]);
      MoreSpaces(last, post);
      Regroup(last, pre, Strip(s), post);
      post := post + [last];
    } else {
      pre, post := "", "";
    }
  }

  lemma {:induction false} StripSurrounded(pre: string, body: string, post: string)
    requires Spaces(pre) && Spaces(post) && body != "" && !IsSpace(body[0]) && !IsSpace(body[|body| - 1])
    ensures Strip(pre + body + post) == body
    decreases |pre| + |post|
  {
    var s := pre + body + post;
    if pre != "" {
      FewerSpaces(pre);
      assert s[0] == pre[0] && s[1..] == pre[1..] + body + post;
      StripSurrounded(pre[1..], body, post);
    } else if post != "" {
      FewerSpaces(post);
      assert s[0] == body[0] && s[|s| - 1] == post[|post| - 1];
      assert s[..|s| - 1] == pre + body + post[..|post| - 1];
      StripSurrounded(pre, body, post[..|post| - 1]);
    } else {
      assert s == body;
    }
  }

  lemma DenotesHasNoBlankEnds(body: string, i: int)
    requires Denotes(body, i)
    ensures body != "" && !IsSpace(body[0]) && !IsSpace(body[|body| - 1])
  {
    if body[0] == '+' || body[0] == '-' {
      assert body[1..] != "" ==> body[|body| - 1] == body[1..][|body| - 2] && body[|body| - 1] in body[1..];
    } else {
      assert body[0] in body && body[|body| - 1] in body;
    }
  }

  lemma SignedIsRead(body: string, i: int)
    ensures Denotes(body, i) <==>
              (Numeral(body) && i == NumeralValue(body)) ||
              (body != "" && body[0] == '+' && Numeral(body[1..]) && i == NumeralValue(body[1..])) ||
              (body != "" && body[0] == '-' && Numeral(body[1..]) && i == 0 - NumeralValue(body[1..]))
  {
    DigitsAreNumerals(body);
    if Numeral(body) {
      NumeralIsDecimal(body);
    }
    if body != "" {
      DigitsAreNumerals(body[1..]);
      if Numeral(body[1..]) {
        NumeralIsDecimal(body[1..]);
      }
    }
  }

  lemma SignIsNoDigit(body: string)
    requires body != "" && Numeral(body)
    ensures body[0] != '+' && body[0] != '-'
  {
    assert body[0] in body;
  }

  /** `int` reads exactly the decimal numerals with an optional sign between blanks. */
  lemma ParseIntIff(s: string, i: int)
    ensures ParseInt(s) == Some(i) <==>
              exists pre, body, post :: Surrounds(s, pre, body, post) && Denotes(body, i)
  {
    var t := Strip(s);
    SignedIsRead(t, i);
    if Numeral(t) {
      SignIsNoDigit(t);
    }
    if ParseInt(s) == Some(i) {
      var pre, post := StripIs(s);
      BlankIsSpaces(pre);
      BlankIsSpaces(post);
      assert Surrounds(s, pre, t, post) && Denotes(t, i);
    }
    forall pre, body, post | Surrounds(s, pre, body, post) && Denotes(body, i)
      ensures ParseInt(s) == Some(i)
    {
      DenotesHasNoBlankEnds(body, i);
      BlankIsSpaces(pre);
      BlankIsSpaces(post);
      SignedIsRead(body, i);
      StripSurrounded(pre, body, post);
    }
  }

  predicate Surrounds(s: string, pre: string, body: string, post: string) {
    s == pre + body + post && Blank(pre) && Blank(post)
  }

  lemma {:induction false} NatRoundTrip(n: nat)
    ensures NumeralValue(NatString(n)) == n
  {
    if n >= 10 {
      NatRoundTrip(n / 10);
      var s := NatString(n);
      assert s[..|s| - 1] == NatString(n / 10);
    } else {
      assert NatString(n)[..0] == "";
    }
  }

  lemma NothingToStrip(i: int)
    ensures Strip(IntString(i)) == IntString(i)
  {
    var s := IntString(i);
    assert s[0] in s && s[|s| - 1] in s;
  }

  lemma MinusIsNoDigit(n: nat)
    ensures !Numeral("-" + NatString(n)) && ("-" + NatString(n))[1..] == NatString(n)
  {
    assert ("-" + NatString(n))[0] in "-" + NatString(n);
  }

  /** Printing an integer and reading it back is the identity. */
  lemma IntRoundTrip(i: int)
    ensures ParseInt(IntString(i)) == Some(i)
  {
    NothingToStrip(i);
    if i < 0 {
      NatRoundTrip(-i);
      MinusIsNoDigit(-i);
    } else {
      NatRoundTrip(i);
    }
  }

  lemma IntStringInjective(i: int, j: int)
    requires IntString(i) == IntString(j)
    ensures i == j
  {
    IntRoundTrip(i);
    IntRoundTrip(j);
  }

  /** `s.split(sep)` for a one-character separator. */
  function Split(s: string, sep: char): (parts: seq<string>)
    ensures |parts| >= 1
    ensures forall p :: p in parts ==> sep !in p
  {
    if s == "" then [""]
    else
      var rest := Split(s[1..], sep);
      if s[0] == sep then [""] + rest else [[s[0]] + rest[0]] + rest[1..]
  }

  function Join(parts: seq<string>, sep: char): string
    requires |parts| >= 1
  {
    if |parts| == 1 then parts[0] else parts[0] + [sep] + Join(parts[1..], sep)
  }

  lemma {:induction false} JoinSplit(s: string, sep: char)
    ensures Join(Split(s, sep), sep) == s
  {
    if s != "" {
      var rest := Split(s[1..], sep);
      JoinSplit(s[1..], sep);
      if s[0] == sep {
        assert ([""] + rest)[1..] == rest;
      } else {
        assert ([[s[0]] + rest[0]] + rest[1..])[1..] == rest[1..];
      }
    }
  }

  lemma {:induction false} SplitJoin(parts: seq<string>, sep: char)
    requires |parts| >= 1 && forall p :: p in parts ==> sep !in p
    ensures Split(Join(parts, sep), sep) == parts
    decreases |parts|, |parts[0]|
  {
    var s := Join(parts, sep);
    if parts[0] == "" {
      if |parts| > 1 {
        assert s == [sep] + Join(parts[1..], sep) && s[1..] == Join(parts[1..], sep);
        SplitJoin(parts[1..], sep);
      }
    } else {
      var shorter := parts[0 := parts[0][1..]];
      assert parts[0][0] in parts[0];
      assert s[1..] == Join(shorter, sep) by {
        assert shorter[1..] == parts[1..];
      }
      forall p | p in shorter
        ensures sep !in p
      {
        assert parts[0] in parts;
      }
      SplitJoin(shorter, sep);
      assert s[0] == parts[0][0] && [s[0]] + shorter[0] == parts[0];
      assert parts == [[s[0]] + shorter[0]] + shorter[1..];
    }
  }

  /** Text before the last separator and text after it are both recovered from the whole. */
  lemma LastSeparator(a: string, b: string, c: string, d: string, sep: char)
    requires a + [sep] + b == c + [sep] + d
    requires sep !in b && sep !in d
    ensures a == c && b == d
  {
    var whole := a + [sep] + b;
    assert whole[|a|] == sep && whole[|c|] == sep;
    assert forall k | |a| < k < |whole| :: whole[k] == b[k - |a| - 1] && whole[k] in b;
    assert forall k | |c| < k < |whole| :: whole[k] == d[k - |c| - 1] && whole[k] in d;
    assert a == whole[..|a|] == c;
    assert b == whole[|a| + 1..] == d;
  }

  /** The same at the first separator. */
  lemma FirstSeparator(a: string, b: string, c: string, d: string, sep: char)
    requires a + [sep] + b == c + [sep] + d
    requires sep !in a && sep !in c
    ensures a == c && b == d
  {
    var whole := a + [sep] + b;
    assert whole[|a|] == sep && whole[|c|] == sep;
    assert forall k | 0 <= k < |a| :: whole[k] == a[k] && whole[k] in a;
    assert forall k | 0 <= k < |c| :: whole[k] == c[k] && whole[k] in c;
    assert a == whole[..|a|] == c;
    assert b == whole[|a| + 1..] == d;
  }
}
