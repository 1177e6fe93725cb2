/** The built-in currency catalog, display lookup and amount formatting with its fallback. */
module Currencies {
  import opened Base

  datatype CatalogEntry = CatalogEntry(code: string, nameKey: string, symbol: string)

  /** The six built-in currencies, in catalog order. */
  const Catalog: seq<CatalogEntry> := [
    CatalogEntry("JOD", "jod", "د.أ"),
    CatalogEntry("USD", "usd", "$"),
    CatalogEntry("TRY", "try", "₺"),
    CatalogEntry("SAR", "sar", "ر.س"),
    CatalogEntry("AED", "aed", "د.إ"),
    CatalogEntry("EUR", "eur", "€")
  ]

  /** Array.prototype.find over a list of entries: the first entry with the code. */
  function FindIn(entries: seq<CatalogEntry>, code: string): (r: Option<CatalogEntry>)
    ensures r.Some? ==> r.value in entries && r.value.code == code
    ensures r.None? <==> forall i :: 0 <= i < |entries| ==> entries[i].code != code
    ensures r.Some? ==> exists k :: 0 <= k < |entries| && entries[k] == r.value
                          && forall i :: 0 <= i < k ==> entries[i].code != code
  {
    if entries == [] then None
    else if entries[0].code == code then Some(entries[0])
    else
      var rest := FindIn(entries[1..], code);
      assert rest.Some? ==> exists k :: 0 <= k < |entries[1..]| && entries[1..][k] == rest.value
                                        && forall i :: 0 <= i < k ==> entries[1..][i].code != code;
      assert rest.Some? ==> exists k :: 0 <= k < |entries| && entries[k] == rest.value
                                        && forall i :: 0 <= i < k ==> entries[i].code != code by {
        if rest.Some? {
          var k :| 0 <= k < |entries[1..]| && entries[1..][k] == rest.value
                   && forall i :: 0 <= i < k ==> entries[1..][i].code != code;
          assert entries[k + 1] == rest.value;
          assert forall i :: 0 <= i < k + 1 ==> entries[i].code != code by {
            forall i | 0 <= i < k + 1 ensures entries[i].code != code {
              if i > 0 { assert entries[i] == entries[1..][i - 1]; }
            }
          }
        }
      }
      rest
  }

  function Find(code: string): Option<CatalogEntry> {
    FindIn(Catalog, code)
  }

  /** JOD when the catalog lists it, else the first catalog entry. */
  const DefaultCurrency: CatalogEntry := Find("JOD").GetOr(Catalog[0])

  lemma DefaultCurrencyIsJod()
    ensures DefaultCurrency == CatalogEntry("JOD", "jod", "د.أ")
  {
    assert Catalog[0].code == "JOD";
  }

  /** The catalog has six entries with pairwise distinct codes. */
  lemma CatalogCodesDistinct()
    ensures |Catalog| == 6
    ensures forall i, j :: 0 <= i < j < |Catalog| ==> Catalog[i].code != Catalog[j].code
  {
  }

  datatype DisplayKind = SymbolDisplay | NameDisplay

  /** getCurrencyDisplay: the code itself for an unknown code; for a known one the translated
      name when a name is asked for and a translator is given, otherwise the symbol. */
  function Display(code: string, t: Option<string -> string>, kind: DisplayKind): (r: string)
    ensures Find(code).None? ==> r == code
    ensures Find(code).Some? && kind == NameDisplay && t.Some? ==> r == t.value(Find(code).value.nameKey)
    ensures Find(code).Some? && (kind == SymbolDisplay || t.None?) ==> r == Find(code).value.symbol
  {
    match Find(code)
    case None => code
    case Some(entry) =>
      if kind == NameDisplay && t.Some? then t.value(entry.nameKey) else entry.symbol
  }

  // ---------------------------------------------------------------------
  // Number.prototype.toFixed(2) on an amount held in cents
  // ---------------------------------------------------------------------

  function Abs(x: int): nat {
    if x < 0 then -x else x
  }

  predicate AllDigits(s: string) {
    forall i :: 0 <= i < |s| ==> IsDigit(s[i])
  }

  /** The integer part of a fixed-two string: everything before the point, sign removed. */
  function IntegerPart(s: string): string
    requires |s| >= 4
  {
    if s[0] == '-' then s[1..|s| - 3] else s[..|s| - 3]
  }

  predicate WellFormedFixed(s: string) {
    && |s| >= 4
    && s[|s| - 3] == '.'
    && AllDigits(s[|s| - 2..])
    && |IntegerPart(s)| >= 1
    && AllDigits(IntegerPart(s))
  }

  /** The amount in cents that a fixed-two string denotes. */
  function ParseFixedTwo(s: string): int
    requires WellFormedFixed(s)
  {
    var v := DecimalValue(IntegerPart(s)) * 100 + DecimalValue(s[|s| - 2..]);
    if s[0] == '-' then -v else v
  }

  /** The layout of a fixed-two string: an optional sign, the integer digits, a point and two
      digits. */
  lemma FixedLayout(sign: string, ip: string, frac: string)
    requires sign == "" || sign == "-"
    requires |ip| >= 1 && AllDigits(ip) && |frac| == 2 && AllDigits(frac)
    ensures var s := sign + ip + "." + frac;
            && WellFormedFixed(s) && IntegerPart(s) == ip && s[|s| - 2..] == frac
            && (s[0] == '-' <==> sign == "-")
  {
    var s := sign + ip + "." + frac;
    assert s[|s| - 3] == '.';
    assert s[|s| - 2..] == frac;
    if sign == "-" {
      assert s == "-" + (ip + "." + frac);
      assert s[1..|s| - 3] == ip;
    } else {
      assert s == ip + "." + frac;
      assert s[..|s| - 3] == ip;
      assert IsDigit(s[0]);
    }
  }

  /** The two digits after the point stand for the cents. */
  lemma CentsDigits(c: nat)
    requires c < 100
    ensures var frac := [DigitChar(c / 10), DigitChar(c % 10)];
            AllDigits(frac) && DecimalValue(frac) == c
  {
    var frac := [DigitChar(c / 10), DigitChar(c % 10)];
    assert frac[..1] == [frac[0]];
    assert [frac[0]][..0] == [];
    assert DecimalValue(frac[..1]) == c / 10;
  }

  /** toFixed(2) of the amount `cents / 100`: exactly two decimals, a leading '-' when negative.
      The rendering is exact: reading it back gives the amount. */
  function FixedTwo(cents: int): (r: string)
    ensures WellFormedFixed(r)
    ensures ParseFixedTwo(r) == cents
    ensures r[0] == '-' <==> cents < 0
    ensures |IntegerPart(r)| > 1 ==> IntegerPart(r)[0] != '0'
  {
    var m := Abs(cents);
    var sign: string := if cents < 0 then "-" else "";
    var ip := NatToString(m / 100);
    var frac := [DigitChar(m % 100 / 10), DigitChar(m % 100 % 10)];
    CentsDigits(m % 100);
    FixedLayout(sign, ip, frac);
    NatToStringRoundTrip(m / 100);
    sign + ip + "." + frac
  }

  /** formatCurrency: '' for an amount that does not parse; the locale formatter's text when it
      succeeds; otherwise "<amount to 2 decimals> <symbol or code>", never an error.
      `intl` stands for Intl.NumberFormat and returns None where it would throw. */
  function FormatCurrency(amount: Option<int>, code: string, intl: (int, string) -> Option<string>): (r: string)
    ensures amount.None? ==> r == ""
    ensures amount.Some? && intl(amount.value, code).Some? ==> r == intl(amount.value, code).value
    ensures amount.Some? && intl(amount.value, code).None? ==>
              r == FixedTwo(amount.value) + " " + Display(code, None, SymbolDisplay)
  {
    match amount
    case None => ""
    case Some(x) =>
      match intl(x, code)
      case Some(text) => text
      case None => FixedTwo(x) + " " + Display(code, None, SymbolDisplay)
  }

  /** When the formatter fails, the text is an exact two-decimal rendering of the amount (see
      FixedTwo), one space, and the currency's symbol, or the code itself outside the catalog. */
  lemma FormatFallbackShape(x: int, code: string, intl: (int, string) -> Option<string>)
    requires intl(x, code).None?
    ensures var r := FormatCurrency(Some(x), code, intl);
            var sym := if Find(code).Some? then Find(code).value.symbol else code;
            && r == FixedTwo(x) + " " + sym
            && |r| > |sym|
            && r[..|r| - |sym| - 1] == FixedTwo(x)
            && r[|r| - |sym| - 1] == ' '
  {
    var sym := if Find(code).Some? then Find(code).value.symbol else code;
    assert Display(code, None, SymbolDisplay) == sym;
    SplitAtSpace(FixedTwo(x), sym);
  }

  /** A text joined to a suffix by one space splits back at that space. */
  lemma SplitAtSpace(text: string, suffix: string)
    ensures var r := text + " " + suffix;
            && |r| > |suffix| && r[..|r| - |suffix| - 1] == text && r[|r| - |suffix| - 1] == ' '
  {
    var r := text + " " + suffix;
    assert r[..|text|] == text;
  }

  /** The default currency of a form: JOD when the available list holds it, else the first listed,
      else the hard-coded default. */
  function PreferredCurrency(available: seq<string>, hardcoded: string): (r: string)
    ensures available == [] ==> r == hardcoded
    ensures "JOD" in available ==> r == "JOD"
    ensures available != [] && "JOD" !in available ==> r == available[0]
  {
    if available == [] then hardcoded
    else if "JOD" in available then "JOD"
    else available[0]
  }
}
