/** Which characters group the digits of an amount in packages/core/src/extract/price.ts, one by one. */
module PriceMarks {
  import opened Prelude
  import opened Digits
  import opened Texts
  import opened Decimal
  import opened Price

  /**
    A dot, a comma, a straight or a curly apostrophe, or a space: of ASCII, of ECMAScript's white
    space, or of zero width.
  */
  predicate IsGroupMark(c: char) {
    || c in ".,'" || c == '\U{2019}'
    || c in " \t\n\r" || c == '\U{000B}' || c == '\U{000C}'
    || c == '\U{00A0}' || c == '\U{1680}' || c == '\U{2028}' || c == '\U{2029}' || c == '\U{202F}'
    || c == '\U{205F}' || c == '\U{3000}' || c == '\U{FEFF}'
    || '\U{2000}' <= c <= '\U{200B}'
  }

  lemma MarkIsRunChar(c: char)
    ensures IsRunChar(Normal(c)) <==> IsGroupMark(c) || IsDigit(c)
  {
  }

  lemma NormalizeParts(a: string, mark: char, b: string)
    requires AllDigits(a) && AllDigits(b)
    ensures NormalizeSpaces(a + [mark] + b) == a + [Normal(mark)] + b
  {
    assert |NormalizeSpaces(a + [mark] + b)| == |a + [Normal(mark)] + b|;
    forall i | 0 <= i < |a + [mark] + b| ensures NormalizeSpaces(a + [mark] + b)[i] == (a + [Normal(mark)] + b)[i] {
    }
  }

  lemma EmptyAround<T>(g: seq<T>, rest: seq<T>)
    ensures g + rest == [] + ([] + g + [] + rest)
  {
  }

  lemma WholeAlone(input: string, g: string, rest: string)
    requires IsBody(g) && IsWholeNumber(g) && EndsRun(rest) && NormalizeSpaces(input) == g + rest
    ensures Amount(input).Some? && ToMinorUnits(Amount(input).value) == Some(100 * NatValue(OnlyDigits(g)))
  {
    EmptyAround(g, rest);
    WholeNumberIsRead(input, [], false, g, [], rest);
  }

  lemma MarkGroups(input: string, a: string, m: char, b: string)
    requires IsWhole(a) && IsWhole(b) && |b| == 3 && IsRunChar(m) && !IsDigit(m)
    requires NormalizeSpaces(input) == a + [m] + b
    ensures Amount(input).Some? && ToMinorUnits(Amount(input).value) == Some(100 * NatValue(a + b))
  {
    GroupIsWhole(a, m, b);
    WholeAlone(input, a + [m] + b, []);
  }

  lemma NoMarkEnds(input: string, a: string, m: char, b: string)
    requires IsWhole(a) && !IsRunChar(m) && NormalizeSpaces(input) == a + [m] + b
    ensures Amount(input).Some? && ToMinorUnits(Amount(input).value) == Some(100 * NatValue(a))
  {
    OnlyDigitsSame(a);
    NoMarks(a);
    assert a + [m] + b == a + ([m] + b);
    WholeAlone(input, a, [m] + b);
  }

  /**
    Between digits and a group of three, exactly these characters are passed over: with any other,
    the number ends in front of it.
  */
  lemma GroupMarkIff(a: string, mark: char, b: string)
    requires IsWhole(a) && IsWhole(b) && |b| == 3 && !IsDigit(mark)
    ensures Amount(a + [mark] + b).Some?
    ensures ToMinorUnits(Amount(a + [mark] + b).value)
      == Some(100 * NatValue(if IsGroupMark(mark) then a + b else a))
  {
    NormalizeParts(a, mark, b);
    MarkIsRunChar(mark);
    if IsGroupMark(mark) {
      MarkGroups(a + [mark] + b, a, Normal(mark), b);
    } else {
      NoMarkEnds(a + [mark] + b, a, Normal(mark), b);
    }
  }

  lemma NoMarks(a: string)
    requires AllDigits(a)
    ensures Count(a, '.') == 0 && Count(a, ',') == 0
  {
    CountedIsFound(a, '.');
    CountedIsFound(a, ',');
  }

  lemma GroupIsBody(a: string, m: char, b: string)
    requires IsWhole(a) && IsWhole(b) && IsRunChar(m)
    ensures IsBody(a + [m] + b)
  {
    var g := a + [m] + b;
    assert g[0] == a[0] && g[|g| - 1] == b[|b| - 1];
  }

  /** A decimal mark before three digits groups them. */
  lemma DecimalMarkGroups(a: string, m: char, b: string)
    requires IsWhole(a) && IsWhole(b) && |b| == 3 && IsDecimalMark(m)
    ensures IsWholeNumber(a + [m] + b)
  {
    NoMarks(a);
    CountsOf(a, m, b, '.');
    CountsOf(a, m, b, ',');
    Cut(a, m, b, a + [m] + b);
    LoneBefore(a, m, b, a + [m] + b);
  }

  lemma Cut(a: string, m: char, b: string, g: string)
    requires g == a + [m] + b
    ensures g == a + ([m] + b) && g[|a| + 1..] == b
  {
  }

  lemma LoneBefore(a: string, m: char, b: string, g: string)
    requires AllDigits(a) && IsWhole(b) && |b| == 3 && IsDecimalMark(m)
    requires g == a + ([m] + b) && g[|a| + 1..] == b && Count(g, m) == 1
    ensures LoneGroup(g, m)
  {
    IndexOfAppend(a, [m] + b, m);
    OnlyDigitsSame(b);
  }

  lemma OtherMarkGroups(a: string, m: char, b: string)
    requires IsWhole(a) && IsWhole(b) && !IsDecimalMark(m)
    ensures IsWholeNumber(a + [m] + b)
  {
    CountedIsFound(a + [m] + b, '.');
    CountedIsFound(a + [m] + b, ',');
    assert '.' !in a && '.' !in b && ',' !in a && ',' !in b;
  }

  lemma GroupIsWhole(a: string, m: char, b: string)
    requires IsWhole(a) && IsWhole(b) && |b| == 3 && IsRunChar(m) && !IsDigit(m)
    ensures IsBody(a + [m] + b) && IsWholeNumber(a + [m] + b) && OnlyDigits(a + [m] + b) == a + b
  {
    OnlyDigitsAround(a, m, b);
    OnlyDigitsSame(a);
    OnlyDigitsSame(b);
    GroupIsBody(a, m, b);
    if IsDecimalMark(m) {
      DecimalMarkGroups(a, m, b);
    } else {
      OtherMarkGroups(a, m, b);
    }
  }
}
