/** The folio printed on each card: `f"Tabla #{folio_number:02d}"`. */
module Folio {
  const FOLIO_PREFIX: string := "Tabla #"

  predicate IsDigit(c: char) {
    '0' <= c <= '9'
  }

  function DigitChar(d: nat): (c: char)
    requires d < 10
    ensures IsDigit(c) && c as int - '0' as int == d
  {
    ('0' as int + d) as char
  }

  /** Decimal digits of `n` without leading zeros ("0" for zero). */
  function Digits(n: nat): (s: string)
    ensures |s| >= 1
    ensures forall k :: 0 <= k < |s| ==> IsDigit(s[k])
    ensures |s| > 1 ==> s[0] != '0'
    ensures n < 10 <==> |s| == 1
  {
    if n < 10 then [DigitChar(n)] else Digits(n / 10) + [DigitChar(n % 10)]
  }

  /** The value of a string of decimal digits. */
  function ParseDigits(s: string): nat
    requires forall k :: 0 <= k < |s| ==> IsDigit(s[k])
  {
    if |s| == 0 then 0
    else
      assert IsDigit(s[|s| - 1]);
      10 * ParseDigits(s[..|s| - 1]) + (s[|s| - 1] as int - '0' as int)
  }

  /** Leading zeros do not change the value. */
  lemma {:induction false} ParseDigitsLeadingZeros(zeros: string, s: string)
    requires forall k :: 0 <= k < |zeros| ==> zeros[k] == '0'
    requires forall k :: 0 <= k < |s| ==> IsDigit(s[k])
    ensures forall k :: 0 <= k < |zeros + s| ==> IsDigit((zeros + s)[k])
    ensures ParseDigits(zeros + s) == ParseDigits(s)
    decreases |s|
  {
    if |s| == 0 {
      ParseZeros(zeros);
      assert zeros + s == zeros;
    } else {
      ParseDigitsLeadingZeros(zeros, s[..|s| - 1]);
      assert (zeros + s)[..|zeros + s| - 1] == zeros + s[..|s| - 1];
    }
  }

  lemma {:induction false} ParseZeros(zeros: string)
    requires forall k :: 0 <= k < |zeros| ==> zeros[k] == '0'
    ensures ParseDigits(zeros) == 0
  {
    if |zeros| > 0 {
      ParseZeros(zeros[..|zeros| - 1]);
    }
  }

  /** Printing and reading back a number gives the number. */
  lemma {:induction false} DigitsRoundTrip(n: nat)
    ensures ParseDigits(Digits(n)) == n
  {
    if n >= 10 {
      DigitsRoundTrip(n / 10);
      var s := Digits(n);
      assert s[..|s| - 1] == Digits(n / 10);
    }
  }

  function Zeros(k: nat): (z: string)
    ensures |z| == k && forall i :: 0 <= i < k ==> z[i] == '0'
  {
    if k == 0 then "" else Zeros(k - 1) + "0"
  }

  /** `format(n, "02d")`: zero-padded to width 2; a negative number keeps its sign in the width. */
  function Format02(n: int): string {
    if n < 0 then "-" + Digits(-n)
    else
      var digits := Digits(n);
      (if |digits| < 2 then Zeros(2 - |digits|) else "") + digits
  }

  function FolioText(folioNumber: int): (text: string)
    ensures |text| >= |FOLIO_PREFIX| + 2 && text[..|FOLIO_PREFIX|] == FOLIO_PREFIX
  {
    FOLIO_PREFIX + Format02(folioNumber)
  }

  /**
   * For a folio number of at least zero the folio text is the prefix followed by only digits,
   * at least two and no more than needed, which read back as the folio number.
   */
  lemma {:induction false} FolioTextRoundTrip(folioNumber: nat)
    ensures var rest := FolioText(folioNumber)[|FOLIO_PREFIX|..];
      && (forall k :: 0 <= k < |rest| ==> IsDigit(rest[k]))
      && |rest| == (if folioNumber < 10 then 2 else |Digits(folioNumber)|)
      && ParseDigits(rest) == folioNumber
  {
    var rest := FolioText(folioNumber)[|FOLIO_PREFIX|..];
    var digits := Digits(folioNumber);
    var zeros := if |digits| < 2 then Zeros(2 - |digits|) else "";
    assert rest == zeros + digits;
    ParseDigitsLeadingZeros(zeros, digits);
    DigitsRoundTrip(folioNumber);
  }

  /** The first cards read "Tabla #01", "Tabla #02", ...; the hundredth widens to three digits. */
  lemma FolioExamples()
    ensures FolioText(1) == "Tabla #01"
    ensures FolioText(12) == "Tabla #12"
    ensures FolioText(100) == "Tabla #100"
  {
    assert Digits(1) == "1";
    assert Digits(12) == "12";
    assert Digits(100) == "100";
  }
}
