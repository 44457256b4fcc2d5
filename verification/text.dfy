/** Text helpers the controller interface relies on: Python's `str.strip`,
    removal of double quotes, `str(int)` rendering, and the split of a
    command line into its header and its argument. */
module Text {
  import opened Wrappers

  /** The characters Python's `str.isspace` accepts (and `str.strip()` removes). */
  predicate IsSpace(c: char) {
    var n := c as int;
    n == 0x20 || 0x09 <= n <= 0x0D || 0x1C <= n <= 0x1F || n == 0x85 || n == 0xA0
    || n == 0x1680 || 0x2000 <= n <= 0x200A || n == 0x2028 || n == 0x2029
    || n == 0x202F || n == 0x205F || n == 0x3000
  }

  /** Python's `s.strip()`. */
  function Strip(s: string): string {
    StripEnd(StripStart(s))
  }

  /** `s` without its leading whitespace. */
  function StripStart(s: string): string {
    if s != [] && IsSpace(s[0]) then StripStart(s[1..]) else s
  }

  /** `s` without its trailing whitespace. */
  function StripEnd(s: string): string {
    if s != [] && IsSpace(s[|s| - 1]) then StripEnd(s[..|s| - 1]) else s
  }

  /** What `StripStart` cuts off is a prefix of whitespace, and what it leaves
      does not start with whitespace. */
  lemma {:induction false} StripStartSpec(s: string)
    ensures |StripStart(s)| <= |s| && StripStart(s) == s[|s| - |StripStart(s)|..]
    ensures forall j :: 0 <= j < |s| - |StripStart(s)| ==> IsSpace(s[j])
    ensures StripStart(s) != [] ==> !IsSpace(StripStart(s)[0])
  {
    if s != [] && IsSpace(s[0]) {
      StripStartSpec(s[1..]);
      assert forall j :: 1 <= j < |s| ==> s[j] == s[1..][j - 1];
    }
  }

  /** What `StripEnd` cuts off is a suffix of whitespace, and what it leaves
      does not end with whitespace. */
  lemma {:induction false} StripEndSpec(s: string)
    ensures |StripEnd(s)| <= |s| && StripEnd(s) == s[..|StripEnd(s)|]
    ensures forall j :: |StripEnd(s)| <= j < |s| ==> IsSpace(s[j])
    ensures StripEnd(s) != [] ==> !IsSpace(StripEnd(s)[|StripEnd(s)| - 1])
  {
    if s != [] && IsSpace(s[|s| - 1]) {
      StripEndSpec(s[..|s| - 1]);
      assert forall j :: 0 <= j < |s| - 1 ==> s[j] == s[..|s| - 1][j];
    }
  }

  /** `Strip(s)` is the infix of `s` left once the whitespace at both ends is
      gone: what is cut off is whitespace, and what is left neither starts nor
      ends with whitespace. */
  lemma StripSpec(s: string)
    ensures exists i, k ::
      && 0 <= i <= k <= |s| && Strip(s) == s[i..k]
      && (forall j :: 0 <= j < i ==> IsSpace(s[j]))
      && (forall j :: k <= j < |s| ==> IsSpace(s[j]))
    ensures Strip(s) != [] ==> !IsSpace(Strip(s)[0]) && !IsSpace(Strip(s)[|Strip(s)| - 1])
  {
    var t := StripStart(s);
    StripStartSpec(s);
    StripEndSpec(t);
    var i := |s| - |t|;
    var k := i + |Strip(s)|;
    assert Strip(s) == s[i..k];
    assert forall j :: k <= j < |s| ==> s[j] == t[j - i];
  }

  /** Python's `s.replace('"', '')`: every double quote dropped, every other
      character kept, in order. */
  function RemoveQuotes(s: string): (r: string)
    ensures '"' !in r
  {
    if s == [] then []
    else KeepUnlessQuote(s[0]) + RemoveQuotes(s[1..])
  }

  function KeepUnlessQuote(c: char): string {
    if c == '"' then [] else [c]
  }

  /** Removing quotes leaves text without quotes unchanged ... */
  lemma {:induction false} RemoveQuotesNone(s: string)
    requires '"' !in s
    ensures RemoveQuotes(s) == s
  {
    if s != [] {
      RemoveQuotesNone(s[1..]);
      assert s == [s[0]] + s[1..];
    }
  }

  /** ... and works piece by piece, so it drops exactly the quotes and keeps
      every other character in order. */
  lemma {:induction false} RemoveQuotesConcat(a: string, b: string)
    ensures RemoveQuotes(a + b) == RemoveQuotes(a) + RemoveQuotes(b)
  {
    if a == [] {
      assert a + b == b;
    } else {
      var c := a + b;
      assert c != [] && c[0] == a[0] && c[1..] == a[1..] + b;
      RemoveQuotesConcat(a[1..], b);
      var k, x, y := KeepUnlessQuote(a[0]), RemoveQuotes(a[1..]), RemoveQuotes(b);
      assert RemoveQuotes(c) == k + (x + y);
      assert RemoveQuotes(a) == k + x;
      assert k + (x + y) == k + x + y;
    }
  }

  /** Digits of a natural number, most significant first (no leading zeros). */
  function NatText(n: nat): string
    decreases n
  {
    if n < 10 then [Digit(n)] else NatText(n / 10) + [Digit(n % 10)]
  }

  function Digit(d: nat): char
    requires d < 10
  {
    ('0' as int + d) as char
  }

  /** Python's `str(n)` for an integer: a minus sign for negatives, then the digits. */
  function IntText(n: int): string {
    if n < 0 then "-" + NatText(-n) else NatText(n)
  }

  /** Rendered integers hold only digits and a minus sign. */
  lemma IntTextChars(n: int)
    ensures forall j :: 0 <= j < |IntText(n)| ==> IntText(n)[j] == '-' || '0' <= IntText(n)[j] <= '9'
  {
    NatTextValue(if n < 0 then -n else n);
  }

  predicate AllDigits(s: string) {
    forall j :: 0 <= j < |s| ==> '0' <= s[j] <= '9'
  }

  /** The value of a string of decimal digits. */
  function DigitsValue(s: string): nat
    requires AllDigits(s)
  {
    if s == [] then 0 else 10 * DigitsValue(s[..|s| - 1]) + (s[|s| - 1] as int - '0' as int)
  }

  /** Reading back an integer written by `IntText`: an optional minus sign,
      then at least one digit. */
  function ParseInt(s: string): Option<int> {
    if s != [] && s[0] == '-' then
      if |s| > 1 && AllDigits(s[1..]) then Some(-(DigitsValue(s[1..]) as int)) else None
    else if s != [] && AllDigits(s) then Some(DigitsValue(s))
    else None
  }

  lemma {:induction false} NatTextValue(n: nat)
    ensures NatText(n) != [] && AllDigits(NatText(n)) && DigitsValue(NatText(n)) == n
    decreases n
  {
    if n >= 10 {
      NatTextValue(n / 10);
      var s := NatText(n);
      assert s[..|s| - 1] == NatText(n / 10);
    }
  }

  /** A non-empty run of digits reads back as its value, with or without a
      minus sign in front. */
  lemma ParseDigits(s: string)
    requires s != [] && AllDigits(s)
    ensures ParseInt(s) == Some(DigitsValue(s))
    ensures ParseInt("-" + s) == Some(-(DigitsValue(s) as int))
  {
    assert ("-" + s)[1..] == s;
  }

  /** Rendering an integer and reading it back gives the same integer. */
  lemma IntTextRoundTrip(n: int)
    ensures ParseInt(IntText(n)) == Some(n)
  {
    var m: nat := if n < 0 then -n else n;
    NatTextValue(m);
    ParseDigits(NatText(m));
  }

  /** Distinct integers are rendered as distinct text. */
  lemma IntTextInjective(a: int, b: int)
    requires IntText(a) == IntText(b)
    ensures a == b
  {
    IntTextRoundTrip(a);
    IntTextRoundTrip(b);
  }

  /** A command line is a header, then optionally one space and an argument. */
  function SplitCommand(s: string): (r: (string, Option<string>))
    ensures r.1.None? ==> r.0 == s && ' ' !in s
    ensures r.1.Some? ==> s == r.0 + " " + r.1.value && ' ' !in r.0
  {
    if s == [] then ("", None)
    else if s[0] == ' ' then ("", Some(s[1..]))
    else
      var rest := SplitCommand(s[1..]);
      assert s == [s[0]] + s[1..];
      ([s[0]] + rest.0, rest.1)
  }

  /** The header of a command is everything up to its first space. */
  lemma {:induction false} SplitCommandOf(header: string, arg: Option<string>)
    requires ' ' !in header
    ensures SplitCommand(if arg.Some? then header + " " + arg.value else header) == (header, arg)
  {
    var s := if arg.Some? then header + " " + arg.value else header;
    if header != [] {
      SplitCommandOf(header[1..], arg);
      assert s[1..] == (if arg.Some? then header[1..] + " " + arg.value else header[1..]);
      assert [s[0]] + header[1..] == header;
    }
  }

  /** Two texts each followed by a tail that starts with a colon, where
      neither leading text holds a colon, split the same way. */
  lemma SplitAtColon(a: string, x: string, b: string, y: string)
    requires ':' !in a && ':' !in b
    requires x != [] && x[0] == ':' && y != [] && y[0] == ':'
    requires a + x == b + y
    ensures a == b && x == y
  {
    var s := a + x;
    assert s[|a|] == ':' && s[|b|] == ':';
    assert forall j :: 0 <= j < |a| ==> s[j] == a[j];
    assert forall j :: 0 <= j < |b| ==> s[j] == b[j];
    assert a == s[..|a|] == b;
    assert x == s[|a|..] == y;
  }

  /** The same, behind a common prefix. */
  lemma PrefixColon(p: string, a: string, x: string, b: string, y: string)
    requires ':' !in a && ':' !in b
    requires x != [] && x[0] == ':' && y != [] && y[0] == ':'
    requires p + a + x == p + b + y
    ensures a == b && x == y
  {
    var s := p + a + x;
    assert s[|p|..] == a + x;
    assert (p + b + y)[|p|..] == b + y;
    SplitAtColon(a, x, b, y);
  }
}
