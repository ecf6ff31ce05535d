/** Localised decimals (normalize.py): which separator is the fraction, and when groups of three are
    thousands. Digits are ASCII digits. */
module Decimal {
  import opened Texts

  datatype Error = FractionNotDigits | GroupsNotOfThree | WholeNotDigits | Ambiguous

  datatype Result = Ok(text: string) | Err(error: Error)

  predicate IsDigit(c: char) {
    '0' <= c <= '9'
  }

  /** `str.isdigit()`: false on the empty string. */
  predicate IsDigits(s: string) {
    s != "" && forall i | 0 <= i < |s| :: IsDigit(s[i])
  }

  function Concat(chunks: seq<string>): string {
    if chunks == [] then "" else Concat(chunks[..|chunks| - 1]) + chunks[|chunks| - 1]
  }

  /** `text.count(c)` is one less than the number of pieces. */
  function Count(s: string, c: char): nat {
    |Split(s, c)| - 1
  }

  /** `_valid_thousand_chunks` */
  predicate ValidThousandChunks(chunks: seq<string>) {
    && chunks != []
    && IsDigits(chunks[0]) && 1 <= |chunks[0]| <= 3
    && forall i | 0 < i < |chunks| :: IsDigits(chunks[i]) && |chunks[i]| == 3
  }

  function BothSeparators(text: string, thousands: char, decimal: char): Result
    requires LastIndex(text, decimal) >= 0
  {
    var at := LastIndex(text, decimal);
    var whole, frac := text[..at], text[at + 1..];
    if !IsDigits(frac) then Err(FractionNotDigits)
    else if LastIndex(whole, thousands) >= 0 && !ValidThousandChunks(Split(whole, thousands)) then Err(GroupsNotOfThree)
    else
      var digits := if LastIndex(whole, thousands) >= 0 then Concat(Split(whole, thousands)) else whole;
      if !IsDigits(digits) then Err(WholeNotDigits) else Ok(digits + "." + frac)
  }

  function Thousands(text: string, c: char): Result {
    if ValidThousandChunks(Split(text, c)) then Ok(Concat(Split(text, c))) else Err(GroupsNotOfThree)
  }

  /** `_localize_decimal` */
  function LocalizeDecimal(text: string): Result {
    var lastComma, lastDot := LastIndex(text, ','), LastIndex(text, '.');
    if lastComma != -1 && lastDot != -1 then
      if lastComma > lastDot then BothSeparators(text, '.', ',') else BothSeparators(text, ',', '.')
    else if lastDot != -1 then
      if Count(text, '.') == 1 then
        var left, right := text[..lastDot], text[lastDot + 1..];
        if IsDigits(left) && IsDigits(right) && left[0] != '0' && |left| == 1 && |right| == 3
        then Err(Ambiguous)
        else Ok(text)
      else Thousands(text, '.')
    else if lastComma != -1 then
      if Count(text, ',') == 1 then Ok(text[..lastComma] + "." + text[lastComma + 1..])
      else Thousands(text, ',')
    else Ok(text)
  }

  // ----- the printer ------------------------------------------------------------------------------

  /** Digits grouped by three from the right. */
  function Grouped(digits: string, sep: char): string {
    if |digits| <= 3 then digits
    else Grouped(digits[..|digits| - 3], sep) + [sep] + digits[|digits| - 3..]
  }

  /** The two conventions: 1,254.30 and 1.254,30. */
  predicate Convention(thousands: char, decimal: char) {
    (thousands == ',' && decimal == '.') || (thousands == '.' && decimal == ',')
  }

  predicate IsSeparator(c: char) {
    c == ',' || c == '.'
  }

  // ----- strings ------------------------------------------------------------------------------------

  lemma LastIndexIs(s: string, c: char, at: nat)
    requires at < |s| && s[at] == c && forall i | at < i < |s| :: s[i] != c
    ensures LastIndex(s, c) == at
  {
  }

  lemma NoIndex(s: string, c: char)
    requires forall i | 0 <= i < |s| :: s[i] != c
    ensures LastIndex(s, c) == -1
  {
  }

  lemma DigitsNoSeparator(s: string, c: char)
    requires IsDigits(s) && IsSeparator(c)
    ensures forall i | 0 <= i < |s| :: s[i] != c
  {
  }

  /** The last separator of front + sep + piece, when the piece has none. */
  lemma LastSeparator(front: string, c: char, piece: string)
    requires forall i | 0 <= i < |piece| :: piece[i] != c
    ensures var s := front + [c] + piece;
            LastIndex(s, c) == |front| && s[..|front|] == front && s[|front| + 1..] == piece
  {
    LastIndexIs(front + [c] + piece, c, |front|);
  }

  lemma SplitLast(front: string, c: char, piece: string)
    requires forall i | 0 <= i < |piece| :: piece[i] != c
    ensures Split(front + [c] + piece, c) == Split(front, c) + [piece]
  {
    LastSeparator(front, c, piece);
  }

  function Join(chunks: seq<string>, c: char): string
    requires chunks != []
  {
    if |chunks| == 1 then chunks[0] else Join(chunks[..|chunks| - 1], c) + [c] + chunks[|chunks| - 1]
  }

  lemma {:induction false} JoinSplit(s: string, c: char)
    ensures Join(Split(s, c), c) == s
    decreases |s|
  {
    var i := LastIndex(s, c);
    if i >= 0 {
      JoinSplit(s[..i], c);
      var head := Split(s[..i], c);
      assert (head + [s[i + 1..]])[..|head|] == head;
      assert s == s[..i] + [c] + s[i + 1..];
    }
  }

  lemma ValidInit(chunks: seq<string>)
    requires ValidThousandChunks(chunks) && |chunks| > 1
    ensures ValidThousandChunks(chunks[..|chunks| - 1]) && IsDigits(chunks[|chunks| - 1]) && |chunks[|chunks| - 1]| == 3
  {
    hide IsDigits;
  }

  lemma ValidSnoc(chunks: seq<string>, last: string)
    requires ValidThousandChunks(chunks) && IsDigits(last) && |last| == 3
    ensures ValidThousandChunks(chunks + [last])
  {
    hide IsDigits;
  }

  lemma DigitsConcat(a: string, b: string)
    ensures a != "" && b != "" ==> (IsDigits(a + b) <==> IsDigits(a) && IsDigits(b))
  {
    if a != "" && b != "" && IsDigits(a + b) {
      forall i | 0 <= i < |a| ensures IsDigit(a[i]) { assert IsDigit((a + b)[i]); }
      forall i | 0 <= i < |b| ensures IsDigit(b[i]) { assert IsDigit((a + b)[|a| + i]); }
    }
  }

  /** Valid chunks are the groups of their digits. */
  lemma {:induction false} ValidChunksAreGroups(chunks: seq<string>, c: char)
    requires ValidThousandChunks(chunks)
    ensures var d := Concat(chunks);
            IsDigits(d) && 3 * |chunks| - 2 <= |d| <= 3 * |chunks| && Join(chunks, c) == Grouped(d, c)
  {
    var n := |chunks| - 1;
    if n == 0 {
      assert chunks[..0] == [];
      assert Concat(chunks) == chunks[0];
    } else {
      ValidInit(chunks);
      ValidChunksAreGroups(chunks[..n], c);
      hide ValidThousandChunks;
      var head, last := Concat(chunks[..n]), chunks[n];
      DigitsConcat(head, last);
      hide IsDigits;
      assert Concat(chunks) == head + last;
      assert (head + last)[..|head|] == head && (head + last)[|head|..] == last;
    }
  }

  lemma SplitDigits(s: string, c: char)
    requires IsDigits(s) && IsSeparator(c)
    ensures Split(s, c) == [s] && LastIndex(s, c) == -1
  {
    DigitsNoSeparator(s, c);
    NoIndex(s, c);
  }

  /** Splitting grouped digits gives valid chunks that spell the digits. */
  lemma {:induction false} SplitGrouped(digits: string, c: char)
    requires IsDigits(digits) && IsSeparator(c)
    ensures var chunks := Split(Grouped(digits, c), c);
            ValidThousandChunks(chunks) && Concat(chunks) == digits
    decreases |digits|
  {
    if |digits| <= 3 {
      SplitDigits(digits, c);
      assert [digits][..0] == [];
    } else {
      var head, last := digits[..|digits| - 3], digits[|digits| - 3..];
      assert digits == head + last;
      DigitsConcat(head, last);
      SplitGrouped(head, c);
      DigitsNoSeparator(last, c);
      SplitLast(Grouped(head, c), c, last);
      var chunks := Split(Grouped(head, c), c);
      ValidSnoc(chunks, last);
      assert (chunks + [last])[..|chunks|] == chunks;
    }
  }

  /** Only digits and the group separator occur; the separator does as soon as there are two groups. */
  lemma {:induction false} GroupedChars(digits: string, c: char, other: char)
    requires IsDigits(digits) && IsSeparator(c) && IsSeparator(other) && c != other
    ensures forall i | 0 <= i < |Grouped(digits, c)| :: Grouped(digits, c)[i] != other
    ensures |digits| > 3 ==> LastIndex(Grouped(digits, c), c) >= 0
    ensures Grouped(digits, c) != ""
    decreases |digits|
  {
    if |digits| <= 3 {
      DigitsNoSeparator(digits, other);
    } else {
      var head, last := digits[..|digits| - 3], digits[|digits| - 3..];
      assert digits == head + last;
      DigitsConcat(head, last);
      GroupedChars(head, c, other);
      DigitsNoSeparator(last, other);
      DigitsNoSeparator(last, c);
      LastSeparator(Grouped(head, c), c, last);
    }
  }

  // ----- both separators -----------------------------------------------------------------------------

  /** `text` is some digit string grouped by three, a separator and a non-empty digit fraction. */
  ghost predicate Printed(text: string, digits: string, frac: string, thousands: char, decimal: char) {
    && Convention(thousands, decimal) && IsDigits(digits) && IsDigits(frac)
    && text == Grouped(digits, thousands) + [decimal] + frac
  }

  lemma PrintedIndexes(text: string, digits: string, frac: string, thousands: char, decimal: char)
    requires Printed(text, digits, frac, thousands, decimal)
    ensures LastIndex(text, decimal) == |Grouped(digits, thousands)|
    ensures text[..|Grouped(digits, thousands)|] == Grouped(digits, thousands)
    ensures text[|Grouped(digits, thousands)| + 1..] == frac
    ensures LastIndex(text, thousands) == LastIndex(Grouped(digits, thousands), thousands)
    ensures |digits| <= 3 <==> LastIndex(text, thousands) == -1
  {
    var g := Grouped(digits, thousands);
    DigitsNoSeparator(frac, decimal);
    DigitsNoSeparator(frac, thousands);
    LastSeparator(g, decimal, frac);
    GroupedChars(digits, thousands, decimal);
    var at := LastIndex(g, thousands);
    if at >= 0 {
      LastIndexIs(text, thousands, at);
    } else {
      NoIndex(text, thousands);
    }
    if |digits| <= 3 {
      SplitDigits(digits, thousands);
    }
  }

  /** Parsing undoes printing when there is more than one group. */
  lemma ParsesPrinted(text: string, digits: string, frac: string, thousands: char, decimal: char)
    requires Printed(text, digits, frac, thousands, decimal) && |digits| > 3
    ensures LocalizeDecimal(text) == Ok(digits + "." + frac)
  {
    PrintedIndexes(text, digits, frac, thousands, decimal);
    SplitGrouped(digits, thousands);
    hide IsDigits; hide ValidThousandChunks; hide Split; hide Concat; hide Grouped;
  }

  lemma AcceptedPieces(text: string, thousands: char, decimal: char)
    requires Convention(thousands, decimal) && 0 <= LastIndex(text, thousands) < LastIndex(text, decimal)
    requires BothSeparators(text, thousands, decimal).Ok?
    ensures var at := LastIndex(text, decimal);
            var chunks := Split(text[..at], thousands);
            && ValidThousandChunks(chunks) && |chunks| >= 2 && IsDigits(text[at + 1..])
            && BothSeparators(text, thousands, decimal) == Ok(Concat(chunks) + "." + text[at + 1..])
  {
    hide IsDigits; hide Concat; hide ValidThousandChunks;
    LastIndexIs(text[..LastIndex(text, decimal)], thousands, LastIndex(text, thousands));
  }

  lemma AcceptedIsPrinted(text: string, thousands: char, decimal: char) returns (digits: string, frac: string)
    requires Convention(thousands, decimal) && 0 <= LastIndex(text, thousands) < LastIndex(text, decimal)
    requires BothSeparators(text, thousands, decimal).Ok?
    ensures Printed(text, digits, frac, thousands, decimal) && |digits| > 3
    ensures BothSeparators(text, thousands, decimal) == Ok(digits + "." + frac)
  {
    hide IsDigits; hide Concat; hide Grouped; hide ValidThousandChunks; hide Split; hide LastIndex;
    hide BothSeparators; hide Convention;
    AcceptedPieces(text, thousands, decimal);
    var at := LastIndex(text, decimal);
    frac := text[at + 1..];
    var chunks := Split(text[..at], thousands);
    digits := Concat(chunks);
    ValidChunksAreGroups(chunks, thousands);
    JoinSplit(text[..at], thousands);
    assert text == text[..at] + [decimal] + frac;
  }

  lemma AcceptedIsSomePrint(text: string, r: string)
    requires LastIndex(text, ',') >= 0 && LastIndex(text, '.') >= 0 && LocalizeDecimal(text) == Ok(r)
    ensures exists digits, frac, thousands, decimal ::
              Printed(text, digits, frac, thousands, decimal) && |digits| > 3 && r == digits + "." + frac
  {
    hide Printed; hide BothSeparators; hide LastIndex; hide Count; hide IsDigits; hide Thousands;
    if LastIndex(text, ',') > LastIndex(text, '.') {
      var digits, frac := AcceptedIsPrinted(text, '.', ',');
    } else {
      SeparatorsApart(text);
      var digits, frac := AcceptedIsPrinted(text, ',', '.');
    }
  }

  lemma SeparatorsApart(text: string)
    requires LastIndex(text, ',') >= 0 && LastIndex(text, '.') >= 0
    ensures LastIndex(text, ',') != LastIndex(text, '.')
  {
  }

  /** A string with both separators is accepted exactly when it is a printed number with at least two
      groups, in either convention, and the result is its digits, a dot and the fraction. */
  lemma BothSeparatorsExact(text: string, r: string)
    requires LastIndex(text, ',') >= 0 && LastIndex(text, '.') >= 0
    ensures LocalizeDecimal(text) == Ok(r) <==>
            exists digits, frac, thousands, decimal ::
              Printed(text, digits, frac, thousands, decimal) && |digits| > 3 && r == digits + "." + frac
  {
    if LocalizeDecimal(text) == Ok(r) {
      AcceptedIsSomePrint(text, r);
    }
    hide *;
    forall digits, frac, thousands, decimal | Printed(text, digits, frac, thousands, decimal) && |digits| > 3
      ensures LocalizeDecimal(text) == Ok(digits + "." + frac)
    {
      ParsesPrinted(text, digits, frac, thousands, decimal);
    }
  }

  /** Printing with a fraction and parsing gives the number back, except for one digit, a dot and three
      digits, which could be either reading and is refused. */
  lemma PrintThenParse(text: string, digits: string, frac: string, thousands: char, decimal: char)
    requires Printed(text, digits, frac, thousands, decimal)
    ensures LocalizeDecimal(text) == Ok(digits + "." + frac) <==>
            !(decimal == '.' && |digits| == 1 && digits != "0" && |frac| == 3)
    ensures !LocalizeDecimal(text).Ok? ==> LocalizeDecimal(text) == Err(Ambiguous)
  {
    if |digits| > 3 {
      ParsesPrinted(text, digits, frac, thousands, decimal);
    } else {
      PrintedIndexes(text, digits, frac, thousands, decimal);
      assert Grouped(digits, thousands) == digits;
      SplitDigits(digits, decimal);
      DigitsNoSeparator(frac, decimal);
      SplitLast(digits, decimal, frac);
      assert Count(text, decimal) == 1;
      hide Split; hide Grouped; hide Count;
      assert digits == "0" <==> |digits| == 1 && digits[0] == '0';
    }
  }

  // ----- groups without a fraction ----------------------------------------------------------------------

  /** Two or more equal separators: accepted exactly when the string is grouped digits, at least seven
      of them, and the result is the digits alone. */
  lemma RepeatedSeparatorExact(text: string, c: char, other: char, r: string)
    requires Convention(c, other) && LastIndex(text, other) == -1 && Count(text, c) >= 2
    ensures LocalizeDecimal(text) == Ok(r) <==> IsDigits(r) && |r| >= 7 && text == Grouped(r, c)
  {
    assert LastIndex(text, c) >= 0;
    assert LocalizeDecimal(text) == Thousands(text, c);
    hide LocalizeDecimal;
    if Thousands(text, c) == Ok(r) {
      ValidChunksAreGroups(Split(text, c), c);
      JoinSplit(text, c);
    }
    if IsDigits(r) && text == Grouped(r, c) {
      SplitGrouped(r, c);
    }
  }

  lemma {:induction false} GroupCount(digits: string, c: char)
    requires IsDigits(digits) && IsSeparator(c)
    ensures Count(Grouped(digits, c), c) == (|digits| - 1) / 3
  {
    SplitGrouped(digits, c);
    ValidChunksAreGroups(Split(Grouped(digits, c), c), c);
  }

  /** Grouped digits without a fraction come back as they were only with one group or with three and
      more: the single separator of four to six digits is read as a fraction or refused. */
  lemma GroupsAloneComeBack(digits: string, c: char, other: char)
    requires Convention(c, other) && IsDigits(digits)
    ensures LocalizeDecimal(Grouped(digits, c)) == Ok(digits) <==> |digits| <= 3 || |digits| >= 7
  {
    var text := Grouped(digits, c);
    GroupedChars(digits, c, other);
    NoIndex(text, other);
    GroupCount(digits, c);
    if |digits| <= 3 {
      SplitDigits(digits, c);
    } else if |digits| >= 7 {
      RepeatedSeparatorExact(text, c, other, digits);
    } else {
      assert LastIndex(text, c) >= 0;
      DigitsNoSeparator(digits, '.');
      if LocalizeDecimal(text).Ok? {
        assert '.' in LocalizeDecimal(text).text by { OneSeparatorKeepsDot(text, c, other); }
      }
    }
  }

  lemma OneSeparatorKeepsDot(text: string, c: char, other: char)
    requires Convention(c, other) && LastIndex(text, other) == -1 && LastIndex(text, c) >= 0 && Count(text, c) == 1
    requires LocalizeDecimal(text).Ok?
    ensures '.' in LocalizeDecimal(text).text
  {
    hide Count; hide IsDigits;
    if c == ',' {
      var at := LastIndex(text, ',');
      assert LocalizeDecimal(text).text[at] == '.';
    } else {
      assert text[LastIndex(text, '.')] == '.';
    }
  }

  // ----- one separator or none ----------------------------------------------------------------------------

  /** Neither a comma nor a dot occurs. */
  predicate Whole(s: string) {
    forall i | 0 <= i < |s| :: s[i] != ',' && s[i] != '.'
  }

  /** A string without separators comes back as it is, a number of any length included. */
  lemma NoSeparatorComesBack(text: string)
    requires Whole(text)
    ensures LocalizeDecimal(text) == Ok(text)
  {
    NoIndex(text, ',');
    NoIndex(text, '.');
  }

  lemma OneSeparator(a: string, b: string, c: char, other: char)
    requires Whole(a) && Whole(b) && Convention(c, other)
    ensures var text := a + [c] + b;
            && LastIndex(text, c) == |a| && LastIndex(text, other) == -1 && Count(text, c) == 1
            && text[..|a|] == a && text[|a| + 1..] == b
  {
    NoIndex(a, c);
    LastSeparator(a, c, b);
    SplitLast(a, c, b);
    NoIndex(a + [c] + b, other);
  }

  /** One comma is a fraction, whatever the length of the whole part. */
  lemma OneCommaIsFraction(a: string, b: string)
    requires Whole(a) && Whole(b)
    ensures LocalizeDecimal(a + "," + b) == Ok(a + "." + b)
  {
    OneSeparator(a, b, ',', '.');
    hide LastIndex; hide Count;
  }

  /** One dot is a fraction too, but for one non-zero digit before it and three digits behind it. */
  lemma OneDotIsFraction(a: string, b: string)
    requires Whole(a) && Whole(b)
    ensures LocalizeDecimal(a + "." + b) ==
            if |a| == 1 && '1' <= a[0] <= '9' && |b| == 3 && (forall i | 0 <= i < 3 :: '0' <= b[i] <= '9')
            then Err(Ambiguous) else Ok(a + "." + b)
  {
    OneSeparator(a, b, '.', ',');
    hide LastIndex; hide Count;
  }

  // ----- refusals -------------------------------------------------------------------------------------------

  /** With both separators a refusal names the fraction if what follows the last of them is not digits, and the groups
      otherwise. */
  lemma BothRefused(text: string)
    requires LastIndex(text, ',') >= 0 && LastIndex(text, '.') >= 0 && LocalizeDecimal(text).Err?
    ensures var comma, dot := LastIndex(text, ','), LastIndex(text, '.');
            LocalizeDecimal(text).error ==
            if IsDigits(text[(if comma > dot then comma else dot) + 1..]) then GroupsNotOfThree else FractionNotDigits
  {
    hide BothSeparators; hide Split; hide ValidThousandChunks; hide LastIndex; hide IsDigits; hide Concat; hide Count;
    hide Thousands;
    if LastIndex(text, ',') > LastIndex(text, '.') {
      GroupsComeFirst(text, '.', ',');
    } else {
      GroupsComeFirst(text, ',', '.');
    }
  }

  /** With a repeated separator it names the groups. */
  lemma RepeatedRefused(text: string, c: char, other: char)
    requires Convention(c, other) && LastIndex(text, other) == -1 && Count(text, c) >= 2
    ensures LocalizeDecimal(text).Err? ==> LocalizeDecimal(text) == Err(GroupsNotOfThree)
  {
    assert LastIndex(text, c) >= 0;
    hide LastIndex; hide Count; hide ValidThousandChunks; hide Split; hide Concat; hide BothSeparators; hide IsDigits;
  }

  lemma GroupsComeFirst(text: string, thousands: char, decimal: char)
    requires Convention(thousands, decimal) && 0 <= LastIndex(text, thousands) < LastIndex(text, decimal)
    ensures BothSeparators(text, thousands, decimal).Err? ==>
              BothSeparators(text, thousands, decimal).error ==
              if IsDigits(text[LastIndex(text, decimal) + 1..]) then GroupsNotOfThree else FractionNotDigits
  {
    var whole := text[..LastIndex(text, decimal)];
    LastIndexIs(whole, thousands, LastIndex(text, thousands));
    if ValidThousandChunks(Split(whole, thousands)) {
      ValidChunksAreGroups(Split(whole, thousands), thousands);
    }
    hide Split; hide ValidThousandChunks; hide IsDigits; hide Concat;
  }
}
