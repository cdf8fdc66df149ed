/** packages/core/src/extract/price.ts: reading an amount from text without a locale. */
module Price {
  import opened Prelude
  import opened Digits
  import opened Texts
  import opened Decimal
  import opened Sequences

  const GROUP_DIGIT_COUNT := 3

  // ----- Characters -----

  /** `SPACE_LIKE`. */
  predicate IsSpaceLike(c: char) {
    c == '\U{00A0}' || '\U{2000}' <= c <= '\U{200B}' || c == '\U{202F}' || c == '\U{3000}'
  }

  function Normal(c: char): char { if IsSpaceLike(c) then ' ' else c }

  predicate IsApostrophe(c: char) { c == '\'' || c == '\U{2019}' }

  /** What may stand between the digits of a number. */
  predicate IsSeparator(c: char) { IsSpace(c) || c == '.' || c == ',' || IsApostrophe(c) }

  predicate IsRunChar(c: char) { IsDigit(c) || IsSeparator(c) }

  // ----- The passes over the text -----

  function NormalizeSpaces(s: string): (r: string)
    ensures |r| == |s| && forall i :: 0 <= i < |s| ==> r[i] == Normal(s[i])
  {
    seq(|s|, i requires 0 <= i < |s| => Normal(s[i]))
  }

  predicate StartsNumber(s: string) { s != [] && (IsDigit(s[0]) || (s[0] == '-' && |s| > 1 && IsDigit(s[1]))) }

  /** Where `NUMBER_RUN` first matches, or the length. */
  function StartAt(s: string): (k: nat)
    ensures k <= |s| && (k < |s| ==> StartsNumber(s[k..]))
  {
    if s == [] || StartsNumber(s) then 0 else 1 + StartAt(s[1..])
  }

  function RunLength(s: string): (n: nat)
    ensures n <= |s|
  {
    if s == [] || !IsRunChar(s[0]) then 0 else 1 + RunLength(s[1..])
  }

  function SignLength(s: string): nat { if s != [] && s[0] == '-' then 1 else 0 }

  /** The match of `NUMBER_RUN` at the start of a text that starts one. */
  function RunAtStart(s: string): string { s[..SignLength(s) + RunLength(s[SignLength(s)..])] }

  /** `text.match(NUMBER_RUN)`. */
  function NumberRun(s: string): Option<string> {
    if StartAt(s) == |s| then None else Some(RunAtStart(s[StartAt(s)..]))
  }

  /** Without `TRAILING_SEPARATORS`. */
  function TrimSeparators(s: string): string {
    if s != [] && IsSeparator(s[|s| - 1]) then TrimSeparators(s[..|s| - 1]) else s
  }

  /** Without `NON_DIGITS`. */
  function OnlyDigits(s: string): (r: string)
    ensures AllDigits(r)
  {
    if s == [] then [] else OnlyDigits(s[..|s| - 1]) + if IsDigit(s[|s| - 1]) then [s[|s| - 1]] else []
  }

  /** Without `LEADING_ZEROS`. */
  function StripZeros(s: string): string { if |s| > 1 && s[0] == '0' && IsDigit(s[1]) then StripZeros(s[1..]) else s }

  function Count(s: string, c: char): nat {
    if s == [] then 0 else Count(s[..|s| - 1], c) + if s[|s| - 1] == c then 1 else 0
  }

  function LastIndexOf(s: string, c: char): (k: int)
    ensures -1 <= k < |s|
  {
    if s == [] then -1 else if s[|s| - 1] == c then |s| - 1 else LastIndexOf(s[..|s| - 1], c)
  }

  // ----- The decimal separator -----

  method DigitsAfter(token: string, index: nat) returns (count: nat)
    requires index < |token|
    ensures count == |OnlyDigits(token[index + 1..])|
  {
    count := 0;
    var i := index + 1;
    while i < |token|
      invariant index < i <= |token| && count == |OnlyDigits(token[index + 1..i])|
    {
      assert token[index + 1..i + 1][..i - index - 1] == token[index + 1..i];
      if IsDigit(token[i]) {
        count := count + 1;
      }
      i := i + 1;
    }
    assert token[index + 1..i] == token[index + 1..];
  }

  method Occurrences(token: string, separator: char) returns (count: nat)
    ensures count == Count(token, separator)
  {
    count := 0;
    var i := 0;
    while i < |token|
      invariant 0 <= i <= |token| && count == Count(token[..i], separator)
    {
      assert token[..i + 1][..i] == token[..i];
      if token[i] == separator {
        count := count + 1;
      }
      i := i + 1;
    }
    assert token[..i] == token;
  }

  /** What `resolveDecimalSeparator` returns without a locale. */
  function DecimalSeparator(token: string): Option<char> {
    var dots, commas := Count(token, '.'), Count(token, ',');
    if dots > 0 && commas > 0 then Some(if LastIndexOf(token, '.') > LastIndexOf(token, ',') then '.' else ',')
    else if dots > 1 || commas > 1 || (dots == 0 && commas == 0) then None
    else LoneSeparator(token, if dots == 1 then '.' else ',')
  }

  function LoneSeparator(token: string, separator: char): Option<char> {
    var k := IndexOf(token, separator);
    if k < |token| && |OnlyDigits(token[k + 1..])| == GROUP_DIGIT_COUNT then None else Some(separator)
  }

  lemma {:induction false} CountedIsFound(s: string, c: char)
    ensures Count(s, c) > 0 <==> c in s
  {
    if s != [] { CountedIsFound(s[..|s| - 1], c); }
  }

  method ResolveDecimalSeparator(token: string) returns (r: Option<char>)
    ensures r == DecimalSeparator(token)
  {
    var dots := Occurrences(token, '.');
    var commas := Occurrences(token, ',');
    if dots > 0 && commas > 0 {
      return Some(if LastIndexOf(token, '.') > LastIndexOf(token, ',') then '.' else ',');
    }
    if dots > 1 || commas > 1 {
      return None;
    }
    if dots == 0 && commas == 0 {
      return None;
    }
    var separator := if dots == 1 then '.' else ',';
    CountedIsFound(token, separator);
    assert token[..|token|] == token;
    var digits := DigitsAfter(token, IndexOf(token, separator));
    return if digits == GROUP_DIGIT_COUNT then None else Some(separator);
  }

  // ----- The amount -----

  function OrZero(s: string): string { if s == [] then "0" else s }

  function Written(negative: bool, whole: string, fraction: string): string {
    Sign(negative) + whole + if fraction == [] then "" else "." + fraction
  }

  /** The end of `toDecimalString`, on what stands before and behind the decimal separator. */
  function DecimalText(rawInteger: string, rawFraction: string): Option<string> {
    var integer, fraction := OnlyDigits(rawInteger), OnlyDigits(rawFraction);
    if integer == [] && fraction == [] then None
    else
      var trimmed := TrimStart(rawInteger);
      Some(Written(trimmed != [] && trimmed[0] == '-', OrZero(StripZeros(integer)), fraction))
  }

  /** `toDecimalString`. */
  function ToDecimalString(token: string, separator: Option<char>): Option<string> {
    var splitAt := if separator.Some? then LastIndexOf(token, separator.value) else -1;
    if splitAt >= 0 then DecimalText(token[..splitAt], token[splitAt + 1..]) else DecimalText(token, "")
  }

  function TokenAmount(token: string): Option<string> { ToDecimalString(token, DecimalSeparator(token)) }

  /** The amount `parsePrice` finds in a text. */
  function Amount(input: string): Option<string> {
    var run := NumberRun(NormalizeSpaces(input));
    if run.None? then None else TokenAmount(TrimSeparators(run.value))
  }

  method ParsePrice(input: string) returns (amount: Option<string>)
    ensures amount == Amount(input)
  {
    var text := NormalizeSpaces(input);
    var run := NumberRun(text);
    if run.None? {
      return None;
    }
    var token := TrimSeparators(run.value);
    var separator := ResolveDecimalSeparator(token);
    return ToDecimalString(token, separator);
  }

  // ----- Every amount is a decimal -----

  lemma {:induction false} StripZerosKeepsDigits(s: string)
    requires AllDigits(s)
    ensures AllDigits(StripZeros(s)) && (s != [] ==> StripZeros(s) != [])
  {
    if |s| > 1 && s[0] == '0' { StripZerosKeepsDigits(s[1..]); }
  }

  lemma FractionIsDecimal(whole: string, fraction: string)
    requires IsWhole(whole) && IsWhole(fraction)
    ensures IsDecimal(whole + "." + fraction)
  {
    var body := whole + "." + fraction;
    assert IsDigit(body[0]);
    DotAfter(whole, fraction);
    assert body[..|whole|] == whole && body[|whole| + 1..] == fraction;
  }

  lemma SignedIsDecimal(negative: bool, body: string)
    requires body != [] && IsDigit(body[0]) && IsDecimal(body)
    ensures IsDecimal(Sign(negative) + body)
  {
    assert Unsigned(Sign(negative) + body) == body;
  }

  lemma WrittenIs(negative: bool, whole: string, fraction: string)
    ensures Written(negative, whole, fraction)
      == Sign(negative) + if fraction == [] then whole else whole + "." + fraction
  {
  }

  lemma WrittenIsDecimal(negative: bool, whole: string, fraction: string)
    requires IsWhole(whole) && AllDigits(fraction)
    ensures IsDecimal(Written(negative, whole, fraction))
  {
    assert IsDigit(whole[0]);
    WrittenIs(negative, whole, fraction);
    if fraction == [] {
      NoDotIn(whole);
      SignedIsDecimal(negative, whole);
    } else {
      FractionIsDecimal(whole, fraction);
      SignedIsDecimal(negative, whole + "." + fraction);
    }
  }

  lemma NoDotIn(whole: string)
    requires AllDigits(whole)
    ensures DotAt(whole) == |whole|
  {
    assert DotAt(whole) < |whole| ==> IsDigit(whole[DotAt(whole)]);
  }

  lemma DecimalTextIsDecimal(rawInteger: string, rawFraction: string)
    requires DecimalText(rawInteger, rawFraction).Some?
    ensures IsDecimal(DecimalText(rawInteger, rawFraction).value)
  {
    var trimmed := TrimStart(rawInteger);
    StripZerosKeepsDigits(OnlyDigits(rawInteger));
    WrittenIsDecimal(
      trimmed != [] && trimmed[0] == '-', OrZero(StripZeros(OnlyDigits(rawInteger))), OnlyDigits(rawFraction));
  }

  lemma TokensAreDecimals(token: string, separator: Option<char>)
    requires ToDecimalString(token, separator).Some?
    ensures IsDecimal(ToDecimalString(token, separator).value)
  {
    var splitAt := if separator.Some? then LastIndexOf(token, separator.value) else -1;
    if splitAt >= 0 {
      DecimalTextIsDecimal(token[..splitAt], token[splitAt + 1..]);
    } else {
      DecimalTextIsDecimal(token, "");
    }
  }

  /** Every amount `parsePrice` returns is a decimal string `toMinorUnits` accepts. */
  lemma AmountsAreDecimals(input: string)
    requires Amount(input).Some?
    ensures ToMinorUnits(Amount(input).value).Some?
  {
    var token := TrimSeparators(NumberRun(NormalizeSpaces(input)).value);
    TokensAreDecimals(token, DecimalSeparator(token));
  }

  // ----- What a written number is read as -----

  lemma {:induction false} CountAppend(a: string, b: string, c: char)
    ensures Count(a + b, c) == Count(a, c) + Count(b, c)
  {
    if b == [] {
      assert a + b == a;
    } else {
      assert (a + b)[..|a + b| - 1] == a + b[..|b| - 1];
      CountAppend(a, b[..|b| - 1], c);
    }
  }

  lemma {:induction false} OnlyDigitsCons(c: char, s: string)
    ensures OnlyDigits([c] + s) == (if IsDigit(c) then [c] else []) + OnlyDigits(s)
  {
    if s == [] {
      assert ([c] + s)[..0] == [];
    } else {
      assert ([c] + s)[..|s|] == [c] + s[..|s| - 1];
      OnlyDigitsCons(c, s[..|s| - 1]);
    }
  }

  lemma {:induction false} OnlyDigitsAppend(a: string, b: string)
    ensures OnlyDigits(a + b) == OnlyDigits(a) + OnlyDigits(b)
  {
    if b == [] {
      assert a + b == a;
    } else {
      assert (a + b)[..|a + b| - 1] == a + b[..|b| - 1];
      OnlyDigitsAppend(a, b[..|b| - 1]);
    }
  }

  /** A separator between two stretches of text adds no digit. */
  lemma OnlyDigitsAround(a: string, c: char, b: string)
    requires !IsDigit(c)
    ensures OnlyDigits(a + [c] + b) == OnlyDigits(a) + OnlyDigits(b)
  {
    assert (a + [c])[..|a|] == a;
    assert OnlyDigits(a + [c]) == OnlyDigits(a);
    OnlyDigitsAppend(a + [c], b);
  }

  lemma {:induction false} OnlyDigitsSame(s: string)
    requires AllDigits(s)
    ensures OnlyDigits(s) == s
  {
    if s != [] {
      OnlyDigitsSame(s[..|s| - 1]);
      assert s == s[..|s| - 1] + [s[|s| - 1]];
    }
  }

  lemma {:induction false} LastIndexBefore(a: string, b: string, c: char)
    requires c !in b
    ensures LastIndexOf(a + b, c) == LastIndexOf(a, c)
  {
    if b == [] {
      assert a + b == a;
    } else {
      assert (a + b)[..|a + b| - 1] == a + b[..|b| - 1];
      LastIndexBefore(a, b[..|b| - 1], c);
    }
  }

  lemma {:induction false} StartAfter(prefix: string, tail: string)
    requires (forall c :: c in prefix ==> !IsDigit(c)) && StartsNumber(tail)
    requires prefix == [] || prefix[|prefix| - 1] != '-' || tail[0] == '-'
    ensures StartAt(prefix + tail) == |prefix|
  {
    if prefix == [] {
      assert prefix + tail == tail;
    } else {
      assert (prefix + tail)[1..] == prefix[1..] + tail;
      assert prefix[0] in prefix && (|prefix| > 1 ==> prefix[1] in prefix);
      StartAfter(prefix[1..], tail);
    }
  }

  lemma {:induction false} RunOf(body: string, rest: string)
    requires (forall c :: c in body ==> IsRunChar(c)) && (rest == [] || !IsRunChar(rest[0]))
    ensures RunLength(body + rest) == |body|
  {
    if body == [] {
      assert body + rest == rest;
    } else {
      assert (body + rest)[1..] == body[1..] + rest;
      assert body[0] in body;
      RunOf(body[1..], rest);
    }
  }

  lemma {:induction false} TrimOf(token: string, separators: string)
    requires token != [] && !IsSeparator(token[|token| - 1]) && forall c :: c in separators ==> IsSeparator(c)
    ensures TrimSeparators(token + separators) == token
  {
    if separators == [] {
      assert token + separators == token;
    } else {
      var init := separators[..|separators| - 1];
      assert (token + separators)[..|token + separators| - 1] == token + init;
      assert separators[|separators| - 1] in separators;
      TrimOf(token, init);
    }
  }

  lemma {:induction false} LeadingZero(d: string)
    requires d != [] && AllDigits(d) && d[0] == '0'
    ensures NatValue(d) == NatValue(d[1..])
  {
    if |d| > 1 {
      LeadingZero(d[..|d| - 1]);
      assert d[1..][..|d| - 2] == d[..|d| - 1][1..];
    }
  }

  lemma NatTextSnoc(n: nat, c: char)
    requires n > 0 && IsDigit(c)
    ensures NatText(10 * n + DigitValue(c)) == NatText(n) + [c]
  {
    var m := 10 * n + DigitValue(c);
    assert m / 10 == n && m % 10 == DigitValue(c);
  }

  lemma {:induction false} NoLeadingZero(d: string)
    requires d != [] && AllDigits(d) && d[0] != '0'
    ensures NatValue(d) > 0 && NatText(NatValue(d)) == d
  {
    if |d| == 1 {
      assert NatValue(d[..0]) == 0;
    } else {
      NoLeadingZero(d[..|d| - 1]);
      NatTextSnoc(NatValue(d[..|d| - 1]), d[|d| - 1]);
      assert d == d[..|d| - 1] + [d[|d| - 1]];
    }
  }

  /** Stripping zeros leaves the number as `String` would write it. */
  lemma {:induction false} StripZerosIsNatText(d: string)
    requires d != [] && AllDigits(d)
    ensures StripZeros(d) == NatText(NatValue(d))
  {
    if d[0] != '0' {
      NoLeadingZero(d);
    } else if |d| > 1 {
      LeadingZero(d);
      StripZerosIsNatText(d[1..]);
    } else {
      assert d == "0" && NatValue(d[..0]) == 0;
    }
  }

  function Other(decimal: char): char { if decimal == '.' then ',' else '.' }

  /** A whole part with any grouping that does not use the decimal separator itself. */
  ghost predicate IsGrouped(g: string, decimal: char) {
    g != [] && IsDigit(g[0]) && (forall c :: c in g ==> IsRunChar(c)) && decimal !in g
  }

  /** The digits behind a lone separator are a group exactly if there are three of them. */
  ghost predicate ReadsAsGroup(g: string, decimal: char, fraction: string) {
    |fraction| == GROUP_DIGIT_COUNT && Other(decimal) !in g
  }

  ghost predicate IsDecimalMark(c: char) { c == '.' || c == ',' }

  lemma CountsOf(a: string, decimal: char, fraction: string, c: char)
    requires IsDecimalMark(c) && AllDigits(fraction)
    ensures Count(a + [decimal] + fraction, c) == Count(a, c) + if c == decimal then 1 else 0
  {
    CountAppend(a + [decimal], fraction, c);
    CountAppend(a, [decimal], c);
    CountedIsFound(fraction, c);
    assert [decimal][..0] == [];
  }

  lemma LastDecimal(a: string, decimal: char, fraction: string)
    requires IsDecimalMark(decimal) && AllDigits(fraction)
    ensures var token := a + [decimal] + fraction;
      && LastIndexOf(token, decimal) == |a| && token[..|a|] == a && token[|a| + 1..] == fraction
      && LastIndexOf(token, Other(decimal)) < |a|
  {
    LastIndexBefore(a + [decimal], fraction, decimal);
    assert a + [decimal] + fraction == a + ([decimal] + fraction);
    LastIndexBefore(a, [decimal] + fraction, Other(decimal));
  }

  lemma SeparatorOf(a: string, decimal: char, fraction: string)
    requires IsDecimalMark(decimal) && decimal !in a && IsWhole(fraction)
    ensures DecimalSeparator(a + [decimal] + fraction)
      == if ReadsAsGroup(a, decimal, fraction) then None else Some(decimal)
  {
    var token := a + [decimal] + fraction;
    CountsOf(a, decimal, fraction, '.');
    CountsOf(a, decimal, fraction, ',');
    CountedIsFound(a, '.');
    CountedIsFound(a, ',');
    LastDecimal(a, decimal, fraction);
    assert token == a + ([decimal] + fraction);
    IndexOfAppend(a, [decimal] + fraction, decimal);
    OnlyDigitsSame(fraction);
  }

  function WholeText(digits: string): string
    requires AllDigits(digits)
  {
    NatText(NatValue(digits))
  }

  /** What such a number is read as. */
  ghost function ReadAs(negative: bool, g: string, decimal: char, fraction: string): string
    requires AllDigits(fraction)
  {
    if ReadsAsGroup(g, decimal, fraction) then Written(negative, WholeText(OnlyDigits(g) + fraction), "")
    else Written(negative, WholeText(OnlyDigits(g)), fraction)
  }

  lemma SignIsKept(negative: bool, g: string)
    requires g != [] && IsDigit(g[0])
    ensures var raw := Sign(negative) + g; TrimStart(raw) == raw && (raw[0] == '-' <==> negative)
  {
  }

  lemma SignHasNoDigits(negative: bool, g: string)
    requires g != [] && IsDigit(g[0])
    ensures OnlyDigits(Sign(negative) + g) == OnlyDigits(g) && OnlyDigits(g) != []
  {
    OnlyDigitsCons('-', g);
    OnlyDigitsCons(g[0], g[1..]);
    assert g == [g[0]] + g[1..];
    assert Sign(negative) + g == if negative then ['-'] + g else g;
  }

  lemma SplitIsRead(negative: bool, g: string, fraction: string)
    requires g != [] && IsDigit(g[0]) && AllDigits(fraction)
    ensures DecimalText(Sign(negative) + g, fraction) == Some(Written(negative, WholeText(OnlyDigits(g)), fraction))
  {
    SignIsKept(negative, g);
    SignHasNoDigits(negative, g);
    OnlyDigitsSame(fraction);
    StripZerosIsNatText(OnlyDigits(g));
  }

  /** Without a decimal separator all digits of a token are one whole number. */
  lemma WholeIsRead(negative: bool, g: string)
    requires g != [] && IsDigit(g[0])
    ensures ToDecimalString(Sign(negative) + g, None) == Some(Written(negative, WholeText(OnlyDigits(g)), ""))
  {
    SplitIsRead(negative, g, "");
  }

  lemma GroupIsRead(negative: bool, g: string, decimal: char, fraction: string)
    requires IsDecimalMark(decimal) && IsGrouped(g, decimal) && IsWhole(fraction)
    ensures ToDecimalString(Sign(negative) + g + [decimal] + fraction, None)
      == Some(Written(negative, WholeText(OnlyDigits(g) + fraction), ""))
  {
    Regroup(Sign(negative), g, [decimal], fraction);
    OnlyDigitsAround(g, decimal, fraction);
    OnlyDigitsSame(fraction);
    WholeIsRead(negative, g + [decimal] + fraction);
  }

  lemma FractionIsRead(negative: bool, g: string, decimal: char, fraction: string)
    requires IsDecimalMark(decimal) && IsGrouped(g, decimal) && IsWhole(fraction)
    ensures ToDecimalString(Sign(negative) + g + [decimal] + fraction, Some(decimal))
      == Some(Written(negative, WholeText(OnlyDigits(g)), fraction))
  {
    LastDecimal(Sign(negative) + g, decimal, fraction);
    SplitIsRead(negative, g, fraction);
  }

  lemma TokenIsRead(negative: bool, g: string, decimal: char, fraction: string)
    requires IsDecimalMark(decimal) && IsGrouped(g, decimal) && IsWhole(fraction)
    ensures TokenAmount(Sign(negative) + g + [decimal] + fraction) == Some(ReadAs(negative, g, decimal, fraction))
  {
    SeparatorOf(Sign(negative) + g, decimal, fraction);
    if ReadsAsGroup(g, decimal, fraction) {
      GroupIsRead(negative, g, decimal, fraction);
    } else {
      FractionIsRead(negative, g, decimal, fraction);
    }
  }

  /** Text before a number that does not itself look like the start of one. */
  ghost predicate LeadsIn(prefix: string, negative: bool) {
    (forall c :: c in prefix ==> !IsDigit(c)) && (prefix == [] || prefix[|prefix| - 1] != '-' || negative)
  }

  ghost predicate AllSeparators(s: string) { forall c :: c in s ==> IsSeparator(c) }

  ghost predicate EndsRun(rest: string) { rest == [] || !IsRunChar(rest[0]) }

  ghost predicate IsNumber(g: string, decimal: char, fraction: string) {
    IsDecimalMark(decimal) && IsGrouped(g, decimal) && IsWhole(fraction)
  }

  function Token(negative: bool, g: string, decimal: char, fraction: string): string {
    Sign(negative) + g + [decimal] + fraction
  }

  lemma RunOfSigned(negative: bool, body: string, rest: string)
    requires EndsRun(rest) && body != [] && IsDigit(body[0]) && forall c :: c in body ==> IsRunChar(c)
    ensures var tail := Sign(negative) + body + rest;
      StartsNumber(tail) && (negative ==> tail[0] == '-') && RunAtStart(tail) == Sign(negative) + body
  {
    var sign := Sign(negative);
    var tail := sign + body + rest;
    assert tail[|sign|..] == body + rest;
    RunOf(body, rest);
    assert tail[..|sign| + |body|] == sign + body;
  }

  lemma RunIsFound(prefix: string, negative: bool, body: string, rest: string)
    requires LeadsIn(prefix, negative) && EndsRun(rest)
    requires body != [] && IsDigit(body[0]) && forall c :: c in body ==> IsRunChar(c)
    ensures NumberRun(prefix + (Sign(negative) + body + rest)) == Some(Sign(negative) + body)
  {
    var tail := Sign(negative) + body + rest;
    RunOfSigned(negative, body, rest);
    StartAfter(prefix, tail);
    assert (prefix + tail)[|prefix|..] == tail;
  }

  /** A run of digits and separators that starts and ends with a digit. */
  ghost predicate IsBody(body: string) {
    body != [] && IsDigit(body[0]) && IsDigit(body[|body| - 1]) && forall c :: c in body ==> IsRunChar(c)
  }

  /** Whatever separators and other text follow, such a run with its sign is the token. */
  lemma TokenIsFound(input: string, prefix: string, negative: bool, body: string, separators: string, rest: string)
    requires IsBody(body) && LeadsIn(prefix, negative) && AllSeparators(separators) && EndsRun(rest)
    requires NormalizeSpaces(input) == prefix + (Sign(negative) + body + separators + rest)
    ensures Amount(input) == TokenAmount(Sign(negative) + body)
  {
    var token := Sign(negative) + body;
    Associative(Sign(negative), body, separators);
    RunIsFound(prefix, negative, body + separators, rest);
    assert token[|token| - 1] == body[|body| - 1];
    TrimOf(token, separators);
  }

  lemma BodyOf(negative: bool, g: string, decimal: char, fraction: string)
    requires IsNumber(g, decimal, fraction)
    ensures var body := g + [decimal] + fraction;
      IsBody(body) && Token(negative, g, decimal, fraction) == Sign(negative) + body
  {
    Regroup(Sign(negative), g, [decimal], fraction);
  }

  /**
    Wherever a number stands in a text: two-digit fractions are always read as fractions, and a fraction of
    three digits is read as a last group exactly if its separator is the only one of its kind and no other occurs.
  */
  lemma NumberIsRead(input: string, prefix: string, negative: bool, g: string, decimal: char, fraction: string,
                     separators: string, rest: string)
    requires IsNumber(g, decimal, fraction) && LeadsIn(prefix, negative) && AllSeparators(separators) && EndsRun(rest)
    requires NormalizeSpaces(input) == prefix + (Token(negative, g, decimal, fraction) + separators + rest)
    ensures Amount(input) == Some(ReadAs(negative, g, decimal, fraction))
  {
    var token := Token(negative, g, decimal, fraction);
    BodyOf(negative, g, decimal, fraction);
    TokenIsFound(input, prefix, negative, g + [decimal] + fraction, separators, rest);
    TokenIsRead(negative, g, decimal, fraction);
  }

  // ----- Numbers without a fraction -----

  /** Where a mark stands alone it is read as a group separator exactly if three digits stand behind it. */
  ghost predicate LoneGroup(g: string, mark: char) {
    Count(g, mark) == 1 && IndexOf(g, mark) < |g| && |OnlyDigits(g[IndexOf(g, mark) + 1..])| == GROUP_DIGIT_COUNT
  }

  /** No decimal mark, one kind of it repeated, or a lone one before three digits. */
  ghost predicate IsWholeNumber(g: string) {
    || (Count(g, '.') == 0 && Count(g, ',') == 0)
    || (Count(g, '.') == 0 && (Count(g, ',') > 1 || LoneGroup(g, ',')))
    || (Count(g, ',') == 0 && (Count(g, '.') > 1 || LoneGroup(g, '.')))
  }

  lemma {:induction false} IndexIsFirst(s: string, c: char, k: nat)
    requires k < |s| && s[k] == c && forall i :: 0 <= i < k ==> s[i] != c
    ensures IndexOf(s, c) == k
    decreases k
  {
    if k > 0 { IndexIsFirst(s[1..], c, k - 1); }
  }

  lemma SignHasNoMark(negative: bool, g: string, mark: char)
    requires IsDecimalMark(mark)
    ensures Count(Sign(negative) + g, mark) == Count(g, mark)
    ensures mark in g ==> IndexOf(Sign(negative) + g, mark) == |Sign(negative)| + IndexOf(g, mark)
  {
    var sign := Sign(negative);
    CountAppend(sign, g, mark);
    assert Count(sign, mark) == 0 by { if negative { assert sign[..0] == []; } }
    if mark in g {
      assert forall i :: 0 <= i < IndexOf(g, mark) ==> g[..IndexOf(g, mark)][i] != mark;
      IndexIsFirst(sign + g, mark, |sign| + IndexOf(g, mark));
    }
  }

  lemma SignedLone(negative: bool, g: string, mark: char)
    requires IsDecimalMark(mark) && Count(g, mark) == 1
    ensures LoneSeparator(Sign(negative) + g, mark) == if LoneGroup(g, mark) then None else Some(mark)
  {
    CountedIsFound(g, mark);
    SignHasNoMark(negative, g, mark);
    BehindSign(Sign(negative), g, IndexOf(g, mark) + 1);
  }

  lemma BehindSign(sign: string, g: string, k: nat)
    requires k <= |g|
    ensures (sign + g)[|sign| + k..] == g[k..]
  {
  }

  /** A token has no decimal separator exactly if it is such a number. */
  lemma NoSeparatorIff(negative: bool, g: string)
    ensures DecimalSeparator(Sign(negative) + g).None? <==> IsWholeNumber(g)
  {
    SignHasNoMark(negative, g, '.');
    SignHasNoMark(negative, g, ',');
    if Count(g, '.') == 1 { SignedLone(negative, g, '.'); }
    if Count(g, ',') == 1 { SignedLone(negative, g, ','); }
  }

  lemma WholeValue(negative: bool, whole: nat)
    ensures ToMinorUnits(Written(negative, NatText(whole), "")) == Some(Signed(negative, 100 * whole))
  {
    var digits := NatText(whole);
    NatTextValue(whole);
    WholeMagnitude(digits);
    WrittenIs(negative, digits, "");
    SignedReads(negative, digits, 100 * whole);
  }

  lemma WholeMagnitude(digits: string)
    requires IsWhole(digits)
    ensures IsDigit(digits[0]) && IsDecimal(digits) && Magnitude(digits) == 100 * NatValue(digits)
  {
    NoDotIn(digits);
    assert digits[..|digits|] == digits && IsDigit(digits[0]);
  }

  /**
    Wherever a whole number stands in a text, with any separators between its digits: `1 234`, `1,234,567` and `1.234`
    are read as all their digits, and worth a hundred minor units each.
  */
  lemma WholeNumberIsRead(input: string, prefix: string, negative: bool, g: string, separators: string, rest: string)
    requires IsBody(g) && IsWholeNumber(g)
    requires LeadsIn(prefix, negative) && AllSeparators(separators) && EndsRun(rest)
    requires NormalizeSpaces(input) == prefix + (Sign(negative) + g + separators + rest)
    ensures Amount(input) == Some(Written(negative, WholeText(OnlyDigits(g)), ""))
    ensures ToMinorUnits(Amount(input).value) == Some(Signed(negative, 100 * NatValue(OnlyDigits(g))))
  {
    TokenIsFound(input, prefix, negative, g, separators, rest);
    NoSeparatorIff(negative, g);
    WholeIsRead(negative, g);
    WholeValue(negative, NatValue(OnlyDigits(g)));
  }

  lemma TwoDigitValue(fraction: string)
    requires AllDigits(fraction) && |fraction| == 2
    ensures NatValue(fraction) == Hundredths(fraction)
  {
    assert fraction[..1] == [fraction[0]];
    assert NatValue([fraction[0]]) == DigitValue(fraction[0]) by { assert [fraction[0]][..0] == []; }
  }

  ghost predicate IsMoney(text: string, negative: bool, whole: nat, fraction: string) {
    && text == Sign(negative) + (NatText(whole) + "." + fraction)
    && AllDigits(fraction) && ToMinorUnits(text) == Some(Signed(negative, whole * 100 + NatValue(fraction)))
  }

  lemma MoneyIs(negative: bool, whole: nat, fraction: string, value: nat)
    requires IsWhole(fraction) && value == Hundredths(fraction)
    ensures ToMinorUnits(Sign(negative) + (NatText(whole) + "." + fraction))
      == Some(Signed(negative, whole * 100 + value))
  {
    ReadsWritten(negative, whole, fraction);
  }

  lemma WrittenValue(negative: bool, whole: nat, fraction: string)
    requires AllDigits(fraction) && |fraction| == 2
    ensures IsMoney(Written(negative, NatText(whole), fraction), negative, whole, fraction)
  {
    var value := NatValue(fraction);
    assert value == Hundredths(fraction) by { TwoDigitValue(fraction); }
    assert Written(negative, NatText(whole), fraction) == Sign(negative) + (NatText(whole) + "." + fraction) by {
      WrittenIs(negative, NatText(whole), fraction);
    }
    MoneyIs(negative, whole, fraction, value);
  }

  lemma TwoDigitsAreAFraction(negative: bool, g: string, decimal: char, fraction: string)
    requires AllDigits(fraction) && |fraction| == 2
    ensures IsMoney(ReadAs(negative, g, decimal, fraction), negative, NatValue(OnlyDigits(g)), fraction)
  {
    WrittenValue(negative, NatValue(OnlyDigits(g)), fraction);
  }

  /** Any grouping of a whole part with a two-digit fraction is read as the same decimal, worth the same minor units. */
  lemma GroupingDoesNotMatter(input: string, prefix: string, negative: bool, g: string, decimal: char, fraction: string,
                              separators: string, rest: string)
    requires IsNumber(g, decimal, fraction) && |fraction| == 2
    requires LeadsIn(prefix, negative) && AllSeparators(separators) && EndsRun(rest)
    requires NormalizeSpaces(input) == prefix + (Token(negative, g, decimal, fraction) + separators + rest)
    ensures Amount(input).Some? && IsMoney(Amount(input).value, negative, NatValue(OnlyDigits(g)), fraction)
  {
    NumberIsRead(input, prefix, negative, g, decimal, fraction, separators, rest);
    TwoDigitsAreAFraction(negative, g, decimal, fraction);
  }

  lemma NothingToNormalize(s: string)
    requires forall c :: c in s ==> !IsSpaceLike(c)
    ensures NormalizeSpaces(s) == s
  {
    forall i | 0 <= i < |s| ensures NormalizeSpaces(s)[i] == s[i] { assert s[i] in s; }
  }

  lemma PlainNumberIsRead(negative: bool, whole: nat, fraction: string)
    requires AllDigits(fraction) && |fraction| == 2
    ensures var text := Sign(negative) + (NatText(whole) + "." + fraction); Amount(text) == Some(text)
  {
    var g := NatText(whole);
    var text := Sign(negative) + (g + "." + fraction);
    assert text == [] + (Token(negative, g, '.', fraction) + [] + []);
    forall c | c in text ensures !IsSpaceLike(c) {
      assert c in g || c in fraction || c == '.' || c == '-';
    }
    NothingToNormalize(text);
    assert IsNumber(g, '.', fraction);
    GroupingDoesNotMatter(text, [], negative, g, '.', fraction, [], []);
    OnlyDigitsSame(g);
    NatTextValue(whole);
  }

  /** `parsePrice` reads back what `fromMinorUnits` writes, for every integer. */
  lemma PriceRoundTrip(minor: int)
    ensures Amount(FromMinorUnits(minor)) == Some(FromMinorUnits(minor))
  {
    var magnitude := if minor < 0 then -minor else minor;
    PlainNumberIsRead(minor < 0, magnitude / 100, TwoDigits(magnitude % 100));
  }
}
