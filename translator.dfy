/** Localisation (Assets/Scripts/Localization/Translator.cs): the table of
    translated texts, placeholder substitution, decimal digits with thousands
    separators, the clock-time text and the sign and symbol of a currency
    amount. */
module Translator {
  import opened Wrappers
  import opened CSharpInt
  import DT = DateTimes
  import opened DecimalText

  /** An entry of a language file. */
  datatype LanguageItem = LanguageItem(key: string, text: string)

  /** How a language writes amounts of money. */
  datatype Currency = Currency(name: string, symbol: string, beforeNumber: bool, valueInDollars: real)

  /** How a language writes the time of day. */
  datatype DateFormat = DateFormat(hours: int, am: bool, pm: bool, maxTimeStringLength: int)

  // ---------------------------------------------------------------------------
  // The table of texts
  // ---------------------------------------------------------------------------

  /** No two entries of the language file share a key (`Dictionary.Add` throws
      on a repeated one). */
  predicate KeysDistinct(list: seq<LanguageItem>)
  {
    forall i, j :: 0 <= i < j < |list| ==> list[i].key != list[j].key
  }

  /** The dictionary built by adding the entries in order. */
  function ItemsOf(list: seq<LanguageItem>): map<string, string>
  {
    if list == [] then map[]
    else ItemsOf(list[..|list| - 1])[list[|list| - 1].key := list[|list| - 1].text]
  }

  /** The table holds exactly the file's keys, each one with its own text. */
  lemma {:induction false} ItemsOfLookup(list: seq<LanguageItem>)
    requires KeysDistinct(list)
    ensures ItemsOf(list).Keys == set i | 0 <= i < |list| :: list[i].key
    ensures forall i :: 0 <= i < |list| ==> ItemsOf(list)[list[i].key] == list[i].text
  {
    if list != [] {
      var init := list[..|list| - 1];
      assert KeysDistinct(init);
      ItemsOfLookup(init);
      KeysSnoc(list, init);
      LookupSnoc(list, init);
    }
  }

  /** The keys of a list are those of all but its last entry, and the last. */
  lemma KeysSnoc(list: seq<LanguageItem>, init: seq<LanguageItem>)
    requires list != [] && init == list[..|list| - 1]
    ensures (set i | 0 <= i < |list| :: list[i].key)
      == (set i | 0 <= i < |init| :: init[i].key) + {list[|list| - 1].key}
  {
    forall i | 0 <= i < |init| ensures init[i].key == list[i].key {
    }
  }

  /** Adding the last entry keeps every earlier key's text. */
  lemma LookupSnoc(list: seq<LanguageItem>, init: seq<LanguageItem>)
    requires list != [] && init == list[..|list| - 1] && KeysDistinct(list)
    requires forall i :: 0 <= i < |init| ==> init[i].key in ItemsOf(init) && ItemsOf(init)[init[i].key] == init[i].text
    ensures forall i :: 0 <= i < |list| ==> list[i].key in ItemsOf(list) && ItemsOf(list)[list[i].key] == list[i].text
  {
    var last := list[|list| - 1];
    forall i | 0 <= i < |list|
      ensures list[i].key in ItemsOf(list) && ItemsOf(list)[list[i].key] == list[i].text
    {
      if i < |list| - 1 {
        assert list[i] == init[i];
        assert list[i].key != last.key;
      }
    }
  }

  /** `Translator`: the loaded language's texts by key. */
  class Translator {
    var items: map<string, string>
    /** Whether this is a `DEBUG` build, where a missing text shows its key. */
    const debug: bool

    /** `new Translator(file, langId)`: load the language's entries. */
    constructor (languageItems: seq<LanguageItem>, debugBuild: bool)
      requires KeysDistinct(languageItems)
      ensures items == ItemsOf(languageItems) && debug == debugBuild
    {
      var table := map[];
      var i := 0;
      while i < |languageItems|
        invariant 0 <= i <= |languageItems|
        invariant table == ItemsOf(languageItems[..i])
      {
        assert languageItems[..i + 1][..i] == languageItems[..i];
        table := table[languageItems[i].key := languageItems[i].text];
        i := i + 1;
      }
      assert languageItems[..i] == languageItems;
      items := table;
      debug := debugBuild;
    }

    /** `Translate(key)`: the text stored under the key; a missing key gives
        the key itself in a debug build and the empty text otherwise. */
    function Translate(key: string): (r: string)
      reads this
      ensures key in items ==> r == items[key]
      ensures key !in items && debug ==> r == key
      ensures key !in items && !debug ==> r == []
    {
      if key in items then items[key] else if debug then key else []
    }

    /** `Get(key, args)`: the translated text with `$0`, `$1`, … replaced in
        turn by the arguments. */
    method Get(key: string, args: seq<string>) returns (text: string)
      ensures text == Substitute(Translate(key), args, |args|)
    {
      text := Translate(key);
      var i := 0;
      while i < |args|
        invariant 0 <= i <= |args|
        invariant text == Substitute(Translate(key), args, i)
      {
        text := ReplaceAll(text, Placeholder(i), args[i]);
        i := i + 1;
      }
    }
  }

  /** A translator loaded from a file finds every entry's text under its key. */
  lemma TranslateLoaded(t: Translator, list: seq<LanguageItem>, i: int)
    requires KeysDistinct(list) && t.items == ItemsOf(list) && 0 <= i < |list|
    ensures t.Translate(list[i].key) == list[i].text
  {
    ItemsOfLookup(list);
    assert list[i].key in ItemsOf(list).Keys;
  }

  // ---------------------------------------------------------------------------
  // Placeholder substitution
  // ---------------------------------------------------------------------------

  /** Whether `pat` occurs in `s` starting at position `k`. */
  predicate OccursAt(s: string, pat: string, k: int)
  {
    0 <= k && k + |pat| <= |s| && s[k..k + |pat|] == pat
  }

  /** `string.Replace(pat, rep)`: every occurrence, scanned from the left and
      never overlapping, replaced. */
  function ReplaceAll(s: string, pat: string, rep: string): string
    requires |pat| > 0
    decreases |s|
  {
    if |s| < |pat| then s
    else if s[..|pat|] == pat then rep + ReplaceAll(s[|pat|..], pat, rep)
    else [s[0]] + ReplaceAll(s[1..], pat, rep)
  }

  /** A text without the pattern is left as it is. */
  lemma {:induction false} ReplaceAbsent(s: string, pat: string, rep: string)
    requires |pat| > 0
    requires forall k :: 0 <= k <= |s| - |pat| ==> !OccursAt(s, pat, k)
    ensures ReplaceAll(s, pat, rep) == s
  {
    if |s| >= |pat| {
      assert !OccursAt(s, pat, 0);
      forall k | 0 <= k <= |s[1..]| - |pat|
        ensures !OccursAt(s[1..], pat, k)
      {
        assert !OccursAt(s, pat, k + 1);
        assert s[1..][k..k + |pat|] == s[k + 1..k + 1 + |pat|];
      }
      ReplaceAbsent(s[1..], pat, rep);
      assert s == [s[0]] + s[1..];
    }
  }

  /** A prefix in which no occurrence of the pattern starts is copied through
      unchanged. */
  lemma {:induction false} ReplaceSkipsPrefix(p: string, rest: string, pat: string, rep: string)
    requires |pat| > 0
    requires forall k :: 0 <= k < |p| ==> !OccursAt(p + rest, pat, k)
    ensures ReplaceAll(p + rest, pat, rep) == p + ReplaceAll(rest, pat, rep)
  {
    if p != [] {
      var s := p + rest;
      if |s| < |pat| {
        ReplaceAbsent(rest, pat, rep);
        assert ReplaceAll(s, pat, rep) == s;
      } else {
        assert !OccursAt(s, pat, 0);
        SkipFirst(p, rest, pat);
        ReplaceSkipsPrefix(p[1..], rest, pat, rep);
        ReplaceKeepsFirst(s, pat, rep);
        ConsRest(p, rest, ReplaceAll(rest, pat, rep));
      }
    } else {
      assert p + rest == rest;
    }
  }

  /** With no occurrence at its start, the rest of the prefix still has
      none. */
  lemma SkipFirst(p: string, rest: string, pat: string)
    requires p != [] && forall k :: 0 <= k < |p| ==> !OccursAt(p + rest, pat, k)
    ensures (p + rest)[1..] == p[1..] + rest
    ensures forall k :: 0 <= k < |p[1..]| ==> !OccursAt(p[1..] + rest, pat, k)
  {
    var s := p + rest;
    assert s[1..] == p[1..] + rest;
    forall k | 0 <= k < |p[1..]|
      ensures !OccursAt(p[1..] + rest, pat, k)
    {
      assert !OccursAt(s, pat, k + 1);
      if k + |pat| <= |s[1..]| {
        assert s[1..][k..k + |pat|] == s[k + 1..k + 1 + |pat|];
      }
    }
  }

  /** A first character that starts no occurrence is copied. */
  lemma ReplaceKeepsFirst(s: string, pat: string, rep: string)
    requires |pat| > 0 && |s| >= |pat| && !OccursAt(s, pat, 0)
    ensures ReplaceAll(s, pat, rep) == [s[0]] + ReplaceAll(s[1..], pat, rep)
  {
  }

  /** The first character of a prefix, then the rest of the prefix and a tail. */
  lemma ConsRest(p: string, rest: string, t: string)
    requires p != []
    ensures (p + rest)[0] == p[0] && [p[0]] + (p[1..] + t) == p + t
  {
  }

  /** A text holding the pattern exactly once comes back with that occurrence
      replaced and nothing else changed. */
  lemma ReplaceOne(p: string, q: string, pat: string, rep: string)
    requires |pat| > 0
    requires forall k :: 0 <= k < |p| ==> !OccursAt(p + pat + q, pat, k)
    requires forall k :: 0 <= k <= |q| - |pat| ==> !OccursAt(q, pat, k)
    ensures ReplaceAll(p + pat + q, pat, rep) == p + rep + q
  {
    Regroup(p, pat, q);
    ReplaceSkipsPrefix(p, pat + q, pat, rep);
    ReplaceHead(pat, q, rep);
    ReplaceAbsent(q, pat, rep);
    Regroup(p, rep, q);
  }

  lemma Regroup(a: string, b: string, c: string)
    ensures a + b + c == a + (b + c)
  {
  }

  /** A text that starts with the pattern gets the replacement first. */
  lemma ReplaceHead(pat: string, q: string, rep: string)
    requires |pat| > 0
    ensures ReplaceAll(pat + q, pat, rep) == rep + ReplaceAll(q, pat, rep)
  {
    var t := pat + q;
    assert t[..|pat|] == pat && t[|pat|..] == q;
  }

  /** The placeholder for argument `i`: `"$" + i`. */
  function Placeholder(i: nat): string
  {
    ['$'] + Digits(i)
  }

  /** The text after the placeholders of the first `n` arguments have been
      replaced, in order. */
  function Substitute(text: string, args: seq<string>, n: nat): string
    requires n <= |args|
  {
    if n == 0 then text
    else ReplaceAll(Substitute(text, args, n - 1), Placeholder(n - 1), args[n - 1])
  }

  /** A text with one `$0` placeholder and no other `$` gets its single
      argument in that place. */
  lemma SubstituteSingle(p: string, q: string, arg: string)
    requires '$' !in p && '$' !in q
    ensures Substitute(p + Placeholder(0) + q, [arg], 1) == p + arg + q
  {
    var pat := Placeholder(0);
    assert pat == ['$', '0'];
    var s := p + pat + q;
    forall k | 0 <= k < |p|
      ensures !OccursAt(s, pat, k)
    {
      assert s[k] == p[k];
    }
    forall k | 0 <= k <= |q| - |pat|
      ensures !OccursAt(q, pat, k)
    {
      assert q[k..k + |pat|][0] == q[k];
    }
    ReplaceOne(p, q, pat, arg);
  }

  /** The placeholder of argument 1 is a prefix of that of argument 10: with
      eleven or more arguments, the replacement of `$1` also consumes the start
      of every `$10`. */
  lemma PlaceholderPrefix()
    ensures Placeholder(10)[..|Placeholder(1)|] == Placeholder(1)
  {
    assert Digits(1) == ['1'];
    assert Digits(10) == Digits(1) + ['0'];
  }

  // ---------------------------------------------------------------------------
  // Decimal digits and thousands separators
  // ---------------------------------------------------------------------------

  /** The three digits of a group below 1000, with leading zeros. */
  function Pad3(m: int): string
    requires 0 <= m < 1000
  {
    [DigitChar(m / 100), DigitChar((m / 10) % 10), DigitChar(m % 10)]
  }

  /** The digits of `n` with `sep` before every group of three, counted from
      the right. */
  function Grouped(n: nat, sep: string): string
  {
    if n < 1000 then Digits(n) else Grouped(n / 1000, sep) + sep + Pad3(n % 1000)
  }

  /** With an empty separator the groups are just the digits. */
  lemma {:induction false} GroupedWithoutSeparator(n: nat)
    ensures Grouped(n, []) == Digits(n)
  {
    if n >= 1000 {
      GroupedWithoutSeparator(n / 1000);
      ThreeDigits(n);
      assert Grouped(n, []) == Digits(n / 1000) + Pad3(n % 1000);
    }
  }

  /** The last three digits of a number from 1000 on. */
  lemma ThreeDigits(n: nat)
    requires n >= 1000
    ensures Digits(n) == Digits(n / 1000) + Pad3(n % 1000)
  {
    DivSteps(n);
    assert Digits(n) == Digits(n / 10) + [DigitChar(n % 10)];
    assert Digits(n / 10) == Digits(n / 100) + [DigitChar((n / 10) % 10)];
    assert Digits(n / 100) == Digits(n / 1000) + [DigitChar((n / 100) % 10)];
  }

  /** Dividing by ten three times, and the digits that drops. */
  lemma DivSteps(n: nat)
    ensures (n / 10) / 10 == n / 100 && (n / 100) / 10 == n / 1000
    ensures (n / 100) % 10 == (n % 1000) / 100
    ensures (n / 10) % 10 == ((n % 1000) / 10) % 10
    ensures n % 10 == (n % 1000) % 10
  {
    var q := n / 1000;
    var r := n % 1000;
    assert n == 1000 * q + r;
    assert n / 10 == 100 * q + r / 10;
    assert n / 100 == 10 * q + r / 100;
    assert (n / 10) / 10 == 10 * q + (r / 10) / 10;
    assert (n / 100) / 10 == q;
    assert (n / 100) % 10 == r / 100;
    assert (n / 10) % 10 == (r / 10) % 10;
    assert n % 10 == r % 10;
  }

  /** Sequence reversal (`Reverse()` on the characters). */
  function Reverse<T>(s: seq<T>): (r: seq<T>)
    ensures |r| == |s|
  {
    if s == [] then [] else Reverse(s[1..]) + [s[0]]
  }

  lemma {:induction false} ReverseConcat<T>(a: seq<T>, b: seq<T>)
    ensures Reverse(a + b) == Reverse(b) + Reverse(a)
  {
    if a == [] {
      assert a + b == b;
    } else {
      assert (a + b)[1..] == a[1..] + b;
      ReverseConcat(a[1..], b);
    }
  }

  /** What the digit loop of `AppendInteger` still appends to its buffer once
      `n` is left and `i` digits have been written: the least significant
      digit first, and the separator after every third digit as long as more
      digits follow. */
  function RevText(n: nat, i: nat, sep: Option<string>): string
    decreases n
  {
    [DigitChar(n % 10)]
      + (if n / 10 == 0 then []
         else (if sep.Some? && (i + 1) % 3 == 0 then sep.value else []) + RevText(n / 10, i + 1, sep))
  }

  /** `AppendInteger(str, value, thousandsSeparator)`: append the decimal
      digits of the value, with the separator between groups of three when one
      is given. The buffer is reversed as a whole, so a separator of several
      characters comes out reversed too. */
  method AppendInteger(str: string, value: nat, thousandsSeparator: Option<string>) returns (result: string)
    ensures thousandsSeparator.None? ==> result == str + Digits(value)
    ensures thousandsSeparator.Some? ==> result == str + Grouped(value, Reverse(thousandsSeparator.value))
  {
    var tmp := ReversedDigits(value, thousandsSeparator);
    result := str + Reverse(tmp);
    if thousandsSeparator.None? {
      RevTextPlain(value, 0);
    } else {
      RevTextGrouped(value, thousandsSeparator.value);
    }
  }

  /** The `do … while (value > 0)` loop of `AppendInteger`: the buffer of
      digits, least significant first, with the separators. */
  method ReversedDigits(value: nat, thousandsSeparator: Option<string>) returns (tmp: string)
    ensures tmp == RevText(value, 0, thousandsSeparator)
  {
    tmp := [];
    var n := value;
    var i: nat := 0;
    while true
      invariant n > 0 || i == 0
      invariant tmp + RevText(n, i, thousandsSeparator) == RevText(value, 0, thousandsSeparator)
      decreases n
    {
      ghost var tmp0, n0, i0 := tmp, n, i;
      tmp := tmp + [DigitChar(n % 10)];
      n := n / 10;
      i := i + 1;
      if n == 0 {
        AppendLastDigit(tmp0, n0, i0, thousandsSeparator);
        return;
      }
      if thousandsSeparator.Some? && i % 3 == 0 {
        tmp := tmp + thousandsSeparator.value;
      }
      AppendDigit(tmp0, n0, i0, thousandsSeparator);
    }
  }

  /** One pass of the loop in `AppendInteger` when digits remain: the digit,
      then the separator after every third one. */
  lemma AppendDigit(tmp: string, n: nat, i: nat, sep: Option<string>)
    requires n / 10 != 0
    ensures (tmp + [DigitChar(n % 10)] + (if sep.Some? && (i + 1) % 3 == 0 then sep.value else []))
      + RevText(n / 10, i + 1, sep) == tmp + RevText(n, i, sep)
  {
    var d := [DigitChar(n % 10)];
    var g := if sep.Some? && (i + 1) % 3 == 0 then sep.value else [];
    var rest := RevText(n / 10, i + 1, sep);
    assert RevText(n, i, sep) == d + (g + rest);
    assert (tmp + d + g) + rest == tmp + (d + (g + rest));
  }

  /** The last pass: the most significant digit ends the buffer. */
  lemma AppendLastDigit(tmp: string, n: nat, i: nat, sep: Option<string>)
    requires n / 10 == 0
    ensures tmp + [DigitChar(n % 10)] == tmp + RevText(n, i, sep)
  {
    assert RevText(n, i, sep) == [DigitChar(n % 10)] + [];
  }

  /** Without a separator, the reversed buffer is the digits. */
  lemma {:induction false} RevTextPlain(n: nat, i: nat)
    ensures Reverse(RevText(n, i, None)) == Digits(n)
  {
    if n >= 10 {
      assert RevText(n, i, None) == [DigitChar(n % 10)] + RevText(n / 10, i + 1, None);
      RevTextPlain(n / 10, i + 1);
      ReverseConcat([DigitChar(n % 10)], RevText(n / 10, i + 1, None));
      SingleReversed(DigitChar(n % 10));
    } else {
      assert RevText(n, i, None) == [DigitChar(n)];
      SingleReversed(DigitChar(n));
    }
  }

  /** Only the position of the digit count within a group matters. */
  lemma {:induction false} RevTextShift(n: nat, i: nat, j: nat, sep: Option<string>)
    requires j == i + 3
    ensures RevText(n, j, sep) == RevText(n, i, sep)
    decreases n
  {
    if n / 10 != 0 {
      RevTextShift(n / 10, i + 1, j + 1, sep);
      assert (j + 1) % 3 == (i + 1) % 3;
    }
  }

  /** With a separator, the reversed buffer is the grouped digits, the
      separator reversed. */
  lemma {:induction false} RevTextGrouped(n: nat, sep: string)
    ensures Reverse(RevText(n, 0, Some(sep))) == Grouped(n, Reverse(sep))
  {
    if n < 1000 {
      RevTextBelowThousand(n, sep);
      RevTextPlain(n, 0);
    } else {
      var group := [DigitChar(n % 10), DigitChar((n / 10) % 10), DigitChar((n / 100) % 10)];
      var tail := RevText(n / 1000, 0, Some(sep));
      RevTextGroup(n, sep);
      DivSteps(n);
      RevTextGrouped(n / 1000, sep);
      ReverseConcat(group + sep, tail);
      ReverseConcat(group, sep);
      ReverseGroup(n);
    }
  }

  /** Below 1000 no separator is written. */
  lemma RevTextBelowThousand(n: nat, sep: string)
    requires n < 1000
    ensures RevText(n, 0, Some(sep)) == RevText(n, 0, None)
  {
    DivSteps(n);
    if n >= 100 {
      assert RevText(n / 10, 1, Some(sep)) == RevText(n / 10, 1, None);
    }
  }

  /** From 1000 on, the buffer starts with the last three digits and a
      separator, followed by the buffer for the remaining digits. */
  lemma RevTextGroup(n: nat, sep: string)
    requires n >= 1000
    ensures RevText(n, 0, Some(sep))
      == [DigitChar(n % 10), DigitChar((n / 10) % 10), DigitChar(((n / 10) / 10) % 10)] + sep
         + RevText(((n / 10) / 10) / 10, 0, Some(sep))
  {
    var s := Some(sep);
    var n1 := n / 10;
    var n2 := n1 / 10;
    var n3 := n2 / 10;
    assert n3 != 0;
    var d0, d1, d2 := DigitChar(n % 10), DigitChar(n1 % 10), DigitChar(n2 % 10);
    var tail := RevText(n3, 0, s);
    RevTextShift(n3, 0, 3, s);
    RevTextSeparatorStep(n2, 2, sep);
    assert RevText(n2, 2, s) == [d2] + (sep + tail);
    RevTextStep(n1, 1, s);
    assert RevText(n1, 1, s) == [d1] + RevText(n2, 2, s);
    RevTextStep(n, 0, s);
    assert RevText(n, 0, s) == [d0] + RevText(n1, 1, s);
    ConsThree(d0, d1, d2, sep, tail);
  }

  lemma ConsThree<T>(a: T, b: T, c: T, x: seq<T>, y: seq<T>)
    ensures [a] + ([b] + ([c] + (x + y))) == [a, b, c] + x + y
  {
  }

  /** One step of the digit loop that writes no separator after the digit. */
  lemma RevTextStep(n: nat, i: nat, sep: Option<string>)
    requires n / 10 != 0 && (sep.None? || (i + 1) % 3 != 0)
    ensures RevText(n, i, sep) == [DigitChar(n % 10)] + RevText(n / 10, i + 1, sep)
  {
  }

  /** One step of the digit loop that writes the separator after the digit. */
  lemma RevTextSeparatorStep(n: nat, i: nat, sep: string)
    requires n / 10 != 0 && (i + 1) % 3 == 0
    ensures RevText(n, i, Some(sep)) == [DigitChar(n % 10)] + (sep + RevText(n / 10, i + 1, Some(sep)))
  {
  }

  /** The last three digits, reversed, are the padded group. */
  lemma ReverseGroup(n: nat)
    ensures Reverse([DigitChar(n % 10), DigitChar((n / 10) % 10), DigitChar((n / 100) % 10)])
      == Pad3(n % 1000)
  {
    DivSteps(n);
    var d0, d1, d2 := DigitChar(n % 10), DigitChar((n / 10) % 10), DigitChar((n / 100) % 10);
    ReverseConcat([d0], [d1, d2]);
    ReverseConcat([d1], [d2]);
    SingleReversed(d0);
    SingleReversed(d1);
    SingleReversed(d2);
    assert [d0] + [d1, d2] == [d0, d1, d2] && [d1] + [d2] == [d1, d2];
  }

  /** A one-character separator, the usual case, comes out as given. */
  lemma SingleReversed<T>(c: T)
    ensures Reverse([c]) == [c]
  {
    assert [c][1..] == [];
  }

  // ---------------------------------------------------------------------------
  // The time of day
  // ---------------------------------------------------------------------------

  /** The hour `FormatTime` writes, as the program computes it: 12 for
      midnight, and the hour modulo the format's hours otherwise. */
  function DisplayHourAsWritten(hour: int, hours: int): int
    requires 0 <= hour < 24 && hours != 0
  {
    if hour == 0 then 12 else TruncRem(hour, hours)
  }

  /** The hour the clock shows: modulo the format's hours, and 12 in place of
      0 on a 12-hour clock. */
  function DisplayHour(hour: int, hours: int): (h: int)
    requires 0 <= hour < 24 && hours != 0
    ensures 0 <= h < 24
  {
    TruncRemBelow(hour, hours);
    var r := TruncRem(hour, hours);
    if r == 0 && hours == 12 then 12 else r
  }

  /** On a 12-hour clock the hour shown runs from 1 to 12 and agrees with the
      hour modulo 12 (so midnight and noon both show 12); on a 24-hour clock it
      is the hour itself. */
  lemma DisplayHourClock(hour: int)
    requires 0 <= hour < 24
    ensures 1 <= DisplayHour(hour, 12) <= 12 && DisplayHour(hour, 12) % 12 == hour % 12
    ensures DisplayHour(hour, 24) == hour
    ensures DisplayHour(0, 12) == 12
  {
  }

  /** Two digits of a number below 100, with a leading zero below 10. */
  function TwoDigits(x: int): string
    requires 0 <= x < 100
  {
    if x >= 10 then [DigitChar(x / 10), DigitChar(x % 10)] else ['0', DigitChar(x)]
  }

  lemma TwoDigitsValue(x: int)
    requires 0 <= x < 100
    ensures |TwoDigits(x)| == 2 && DecimalValue(TwoDigits(x)) == x
  {
    var s := TwoDigits(x);
    assert s[..1] == [s[0]];
    assert DecimalValue([s[0]]) == s[0] as int - 48 by {
      assert [s[0]][..0] == [];
    }
  }

  /** The AM/PM suffix. */
  function Suffix(hour: int, fmt: DateFormat): string
  {
    if hour <= 11 && fmt.am then " AM" else if hour > 11 && fmt.pm then " PM" else []
  }

  /** The text `FormatTime` writes for a given displayed hour. */
  function ClockText(shown: int, hour: int, minute: int, fmt: DateFormat): string
    requires 0 <= shown < 100 && 0 <= minute < 100
  {
    TwoDigits(shown) + [':'] + TwoDigits(minute) + Suffix(hour, fmt)
  }

  /** `FormatTime(time)`'s text, with the hour shown as the clock shows it. */
  function TimeText(time: DT.DateTime, fmt: DateFormat): string
    requires fmt.hours != 0
  {
    ClockText(DisplayHour(DT.Hour(time), fmt.hours), DT.Hour(time), DT.Minute(time), fmt)
  }

  /** `FormatTime(time)`'s text as the program writes it. */
  function TimeTextAsWritten(time: DT.DateTime, fmt: DateFormat): string
    requires fmt.hours != 0
  {
    TruncRemBelow(DT.Hour(time), fmt.hours);
    var h := DisplayHourAsWritten(DT.Hour(time), fmt.hours);
    ClockText(h, DT.Hour(time), DT.Minute(time), fmt)
  }

  /** The time text: two-digit hour, ':', two-digit minute, then " AM" exactly
      for a morning hour when the format has AM and " PM" exactly for an
      afternoon hour when it has PM. */
  lemma TimeTextLayout(time: DT.DateTime, fmt: DateFormat)
    requires fmt.hours != 0
    ensures var s := TimeText(time, fmt);
      (|s| == 5 || |s| == 8) && s[2] == ':'
      && DecimalValue(s[..2]) == DisplayHour(DT.Hour(time), fmt.hours)
      && DecimalValue(s[3..5]) == DT.Minute(time)
      && (s[5..] == " AM" <==> DT.Hour(time) <= 11 && fmt.am)
      && (s[5..] == " PM" <==> DT.Hour(time) > 11 && fmt.pm)
  {
    var h := DisplayHour(DT.Hour(time), fmt.hours);
    var s := TimeText(time, fmt);
    TwoDigitsValue(h);
    TwoDigitsValue(DT.Minute(time));
    assert s[..2] == TwoDigits(h);
    assert s[3..5] == TwoDigits(DT.Minute(time));
    assert s[5..] == Suffix(DT.Hour(time), fmt);
  }

  /** The program's 12-hour clock writes noon as "00" (12 modulo 12), and its
      24-hour clock writes midnight as "12". */
  lemma FormatTimeNoonAndMidnight(am: bool, pm: bool, max: int)
    ensures TimeTextAsWritten(12 * DT.SecondsPerHour, DateFormat(12, am, pm, max))[..2] == "00"
    ensures TimeText(12 * DT.SecondsPerHour, DateFormat(12, am, pm, max))[..2] == "12"
    ensures TimeTextAsWritten(0, DateFormat(24, am, pm, max))[..2] == "12"
    ensures TimeText(0, DateFormat(24, am, pm, max))[..2] == "00"
  {
    DT.FieldsOf(0, 12, 0, 0);
    DT.FieldsOf(0, 0, 0, 0);
  }

  /** `FormatTime(time, ref bytes)`: write the time text into the start of
      the buffer, leaving the rest of it alone. */
  method FormatTime(time: DT.DateTime, fmt: DateFormat, bytes: array<char>)
    requires fmt.hours != 0 && bytes.Length >= |TimeText(time, fmt)|
    modifies bytes
    ensures forall k :: 0 <= k < |TimeText(time, fmt)| ==> bytes[k] == TimeText(time, fmt)[k]
    ensures forall k :: |TimeText(time, fmt)| <= k < bytes.Length ==> bytes[k] == old(bytes[k])
  {
    var i := 0;
    var hour := DT.Hour(time);
    var isAM := hour <= 11;
    TruncRemBelow(hour, fmt.hours);
    hour := TruncRem(hour, fmt.hours);
    if hour == 0 && fmt.hours == 12 {
      hour := 12;
    }
    var min := DT.Minute(time);
    ghost var text := TimeText(time, fmt);
    assert text == TwoDigits(hour) + [':'] + TwoDigits(min) + Suffix(DT.Hour(time), fmt);
    i := WriteTwoDigits(bytes, i, hour);
    bytes[i] := ':';
    i := i + 1;
    i := WriteTwoDigits(bytes, i, min);
    i := WriteSuffix(bytes, i, isAM, fmt);
  }

  /** The two digits of a number below 100 written at `i`; the next index is
      returned. */
  method WriteTwoDigits(bytes: array<char>, i: int, x: int) returns (j: int)
    requires 0 <= i && i + 2 <= bytes.Length && 0 <= x < 100
    modifies bytes
    ensures j == i + 2 && bytes[i] == TwoDigits(x)[0] && bytes[i + 1] == TwoDigits(x)[1]
    ensures forall k :: 0 <= k < bytes.Length && k != i && k != i + 1 ==> bytes[k] == old(bytes[k])
  {
    j := i;
    if x >= 10 {
      bytes[j] := DigitChar(x / 10);
      j := j + 1;
      bytes[j] := DigitChar(x % 10);
      j := j + 1;
    } else {
      bytes[j] := '0';
      j := j + 1;
      bytes[j] := DigitChar(x);
      j := j + 1;
    }
  }

  /** The AM/PM suffix written at `i`; the next index is returned. */
  method WriteSuffix(bytes: array<char>, i: int, isAM: bool, fmt: DateFormat) returns (j: int)
    requires 0 <= i && i + |Suffix(if isAM then 0 else 12, fmt)| <= bytes.Length
    modifies bytes
    ensures var suffix := Suffix(if isAM then 0 else 12, fmt);
      j == i + |suffix| && forall k :: 0 <= k < |suffix| ==> bytes[i + k] == suffix[k]
    ensures forall k :: 0 <= k < bytes.Length && !(i <= k < j) ==> bytes[k] == old(bytes[k])
  {
    j := i;
    if isAM && fmt.am {
      bytes[j] := ' ';
      j := j + 1;
      bytes[j] := 'A';
      j := j + 1;
      bytes[j] := 'M';
      j := j + 1;
    } else if !isAM && fmt.pm {
      bytes[j] := ' ';
      j := j + 1;
      bytes[j] := 'P';
      j := j + 1;
      bytes[j] := 'M';
      j := j + 1;
    }
  }

  /** `FormatTime(time)`: the text in a fresh buffer of the language's maximum
      length, the unused places left as `'\0'`. */
  method FormatTimeString(time: DT.DateTime, fmt: DateFormat) returns (s: string)
    requires fmt.hours != 0 && fmt.maxTimeStringLength >= |TimeText(time, fmt)|
    ensures |s| == fmt.maxTimeStringLength
    ensures s[..|TimeText(time, fmt)|] == TimeText(time, fmt)
    ensures forall k :: |TimeText(time, fmt)| <= k < |s| ==> s[k] == '\0'
  {
    var bytes := new char[fmt.maxTimeStringLength](_ => '\0');
    FormatTime(time, fmt, bytes);
    s := bytes[..];
  }

  // ---------------------------------------------------------------------------
  // Currency amounts
  // ---------------------------------------------------------------------------

  /** `GetCurrency(amount, includeSymbol, includePlusSign)`, given the
      culture's rendering `number` of the amount in the language's currency:
      the symbol before or after the number, separated by a space, and a '+'
      in front of a positive amount when asked for. */
  function CurrencyText(number: string, amount: real, currency: Currency,
                        includeSymbol: bool, includePlusSign: bool): string
  {
    var str := if !includeSymbol then number
      else if currency.beforeNumber then currency.symbol + " " + number
      else number + " " + currency.symbol;
    if includePlusSign && amount > 0.0 then "+" + str else str
  }

  /** The plus sign is prefixed exactly to positive amounts and changes
      nothing else; the number keeps its place beside the symbol. */
  lemma CurrencyPlusSign(number: string, amount: real, currency: Currency, includeSymbol: bool)
    ensures amount > 0.0 ==>
      CurrencyText(number, amount, currency, includeSymbol, true)
        == "+" + CurrencyText(number, amount, currency, includeSymbol, false)
    ensures amount <= 0.0 ==>
      CurrencyText(number, amount, currency, includeSymbol, true)
        == CurrencyText(number, amount, currency, includeSymbol, false)
    ensures var s := CurrencyText(number, amount, currency, includeSymbol, false);
      (!includeSymbol ==> s == number)
      && (includeSymbol && currency.beforeNumber ==> s[|s| - |number|..] == number)
      && (includeSymbol && !currency.beforeNumber ==> s[..|number|] == number)
  {
  }
}
