/** Decimal text of numbers: the digits `ToString()` writes for a
    non-negative integer, the value a digit string stands for, and
    `int.TryParse` for an optional sign followed by digits. */
module DecimalText {
  import opened Wrappers
  import opened CSharpInt

  function DigitChar(d: int): (c: char)
    requires 0 <= d < 10
    ensures '0' <= c <= '9'
  {
    (48 + d) as char
  }

  /** The decimal digits of a number, most significant first (`ToString()`). */
  function Digits(n: nat): (s: string)
    ensures |s| >= 1
  {
    if n < 10 then [DigitChar(n)] else Digits(n / 10) + [DigitChar(n % 10)]
  }

  /** The number a string of decimal digits stands for. */
  function DecimalValue(s: string): int
  {
    if s == [] then 0 else DecimalValue(s[..|s| - 1]) * 10 + (s[|s| - 1] as int - 48)
  }

  /** `Digits` writes the number in canonical decimal: digits only, no leading
      zero except for 0 itself, and it reads back as the number. */
  lemma {:induction false} DigitsDecimal(n: nat)
    ensures DecimalValue(Digits(n)) == n
    ensures forall k :: 0 <= k < |Digits(n)| ==> '0' <= Digits(n)[k] <= '9'
    ensures Digits(n)[0] == '0' <==> n == 0
  {
    if n >= 10 {
      DigitsDecimal(n / 10);
      var s := Digits(n);
      assert s[..|s| - 1] == Digits(n / 10);
    }
  }

  /** A non-empty run of decimal digits. */
  predicate IsDigits(s: string)
  {
    |s| >= 1 && forall k :: 0 <= k < |s| ==> '0' <= s[k] <= '9'
  }

  /** The white space `NumberStyles.Integer` allows around a number: tab,
      line feed, vertical tab, form feed, carriage return and space. */
  predicate IsWhite(c: char)
  {
    c == ' ' || ('\t' <= c <= '\r')
  }

  /** The text without its leading white space. */
  function TrimStart(s: string): string
  {
    if |s| > 0 && IsWhite(s[0]) then TrimStart(s[1..]) else s
  }

  /** The text without its trailing white space. */
  function TrimEnd(s: string): string
  {
    if |s| > 0 && IsWhite(s[|s| - 1]) then TrimEnd(s[..|s| - 1]) else s
  }

  /** An optional sign and decimal digits whose value fits in 32 bits. */
  function ParseSigned(s: string): (r: Option<int>)
    ensures r.Some? ==> IsInt32(r.value)
  {
    if |s| >= 1 && (s[0] == '-' || s[0] == '+') then
      if !IsDigits(s[1..]) then None
      else
        var v := if s[0] == '-' then -DecimalValue(s[1..]) else DecimalValue(s[1..]);
        if IsInt32(v) then Some(v) else None
    else if IsDigits(s) && IsInt32(DecimalValue(s)) then Some(DecimalValue(s))
    else None
  }

  /** `int.TryParse(s, out v)` with `NumberStyles.Integer`: white space
      around an optional sign and decimal digits whose value fits in 32
      bits. */
  function TryParseInt(s: string): (r: Option<int>)
    ensures r.Some? ==> IsInt32(r.value)
  {
    ParseSigned(TrimEnd(TrimStart(s)))
  }

  /** A text that neither starts nor ends with white space is parsed as it
      stands. */
  lemma NoWhiteEnds(s: string)
    requires |s| >= 1 && !IsWhite(s[0]) && !IsWhite(s[|s| - 1])
    ensures TryParseInt(s) == ParseSigned(s)
  {
  }

  /** White space before and after a number changes nothing: `" 5 "` reads
      as `"5"`. */
  lemma {:induction false} TryParseIntWhite(pre: string, s: string, post: string)
    requires forall k :: 0 <= k < |pre| ==> IsWhite(pre[k])
    requires forall k :: 0 <= k < |post| ==> IsWhite(post[k])
    requires |s| >= 1 && !IsWhite(s[0]) && !IsWhite(s[|s| - 1])
    ensures TryParseInt(pre + s + post) == TryParseInt(s)
  {
    TrimStartWhite(pre, s + post);
    assert (pre + s + post) == pre + (s + post);
    TrimEndWhite(s, post);
  }

  lemma {:induction false} TrimStartWhite(pre: string, t: string)
    requires forall k :: 0 <= k < |pre| ==> IsWhite(pre[k])
    requires |t| >= 1 && !IsWhite(t[0])
    ensures TrimStart(pre + t) == t
  {
    if pre == [] {
      assert pre + t == t;
    } else {
      assert (pre + t)[1..] == pre[1..] + t;
      TrimStartWhite(pre[1..], t);
    }
  }

  lemma {:induction false} TrimEndWhite(t: string, post: string)
    requires forall k :: 0 <= k < |post| ==> IsWhite(post[k])
    requires |t| >= 1 && !IsWhite(t[|t| - 1])
    ensures TrimEnd(t + post) == t
  {
    if post == [] {
      assert t + post == t;
    } else {
      var n := |post| - 1;
      assert (t + post)[..|t + post| - 1] == t + post[..n];
      TrimEndWhite(t, post[..n]);
    }
  }

  /** `TryParse` reads back what `ToString` writes, for every 32-bit value. */
  lemma TryParseIntDigits(n: nat)
    ensures n < TwoTo31 ==> TryParseInt(Digits(n)) == Some(n)
    ensures n <= TwoTo31 ==> TryParseInt(['-'] + Digits(n)) == Some(-(n as int))
  {
    var s := Digits(n);
    DigitsDecimal(n);
    assert IsDigits(s);
    assert s[0] != '-' && s[0] != '+';
    var t := ['-'] + s;
    assert t[0] == '-' && t[1..] == s;
    NoWhiteEnds(s);
    assert t[|t| - 1] == s[|s| - 1];
    NoWhiteEnds(t);
  }
}
