/** The currency reference table and the three lookup sets that src/lib.rs
    builds from it once (`SEPARATORS_DIGIT`, `SEPARATORS_EXPONENT`,
    `SYMBOLS_CODES`), with the separator test `is_seperator`. */
module CurrencyIndex {
  import opened Text

  /** The separators a locale formats numbers with, as `LocalFormat` gives them. */
  datatype LocalFormat = LocalFormat(digitSeparator: char, exponentSeparator: char)

  /** One entry of the currency table; `L` is the type of locale identifiers. */
  datatype Currency<L> = Currency(isoAlphaCode: string, symbol: string, locale: L)

  /** The lookup sets, built once from the table and only read afterwards. */
  datatype Index = Index(
    digitSeparators: set<char>,
    exponentSeparators: set<char>,
    symbolsCodes: set<string>)

  /** The ISO alpha codes of `CURRENCIES`, in table order. The list is written as
      several displays so that indexing into it stays cheap to verify. */
  const SupportedCodes: seq<string> :=
    ["AED", "AFN", "ALL", "AMD", "ANG", "AOA", "ARS", "AUD", "AWG", "AZN", "BAM", "BBD", "BDT", "BGN", "BHD", "BIF", "BMD", "BND", "BOB"]
    + ["BRL", "BSD", "BTN", "BWP", "BYN", "BYR", "BZD", "CAD", "CDF", "CHF", "CLF", "CLP", "CNY", "COP", "CRC", "CUC", "CUP", "CVE", "CZK"]
    + ["DJF", "DKK", "DOP", "DZD", "EGP", "ERN", "ETB", "EUR", "FJD", "FKP", "GBP", "GEL", "GHS", "GIP", "GMD", "GNF", "GTQ", "GYD", "HKD"]
    + ["HNL", "HRK", "HTG", "HUF", "IDR", "ILS", "INR", "IQD", "IRR", "ISK", "JMD", "JOD", "JPY", "KES", "KGS", "KHR", "KMF", "KPW", "KRW"]
    + ["KWD", "KYD", "KZT", "LAK", "LBP", "LKR", "LRD", "LSL", "LYD", "MAD", "MDL", "MGA", "MKD", "MMK", "MNT", "MOP", "MRU", "MUR", "MVR"]
    + ["MWK", "MXN", "MYR", "MZN", "NAD", "NGN", "NIO", "NOK", "NPR", "NZD", "OMR", "PAB", "PEN", "PGK", "PHP", "PKR", "PLN", "PYG", "QAR"]
    + ["RON", "RSD", "RUB", "RWF", "SAR", "SBD", "SCR", "SDG", "SEK", "SGD", "SHP", "SKK", "SLL", "SOS", "SRD", "SSP", "STD", "STN", "SVC"]
    + ["SYP", "SZL", "THB", "TJS", "TMT", "TND", "TOP", "TRY", "TTD", "TWD", "TZS", "UAH", "UGX", "USD", "UYU", "UYW", "UZS", "VES", "VND"]
    + ["VUV", "WST", "XAF", "XAG", "XAU", "XBA", "XBB", "XBC", "XBD", "XCD", "XDR", "XOF", "XPD", "XPF", "XPT", "XTS", "YER", "ZAR", "ZMK"]
    + ["ZMW", "ZWL"]

  /** `table` is `CURRENCIES`, as far as its ISO codes go. */
  ghost predicate IsCurrencyTable<L>(table: seq<Currency<L>>) {
    |table| == |SupportedCodes| &&
    forall i :: 0 <= i < |table| ==> table[i].isoAlphaCode == SupportedCodes[i]
  }

  /** `idx` holds exactly what the three builders collect from `table`. */
  ghost predicate IsIndexOf<L>(table: seq<Currency<L>>, fromLocale: L -> LocalFormat, idx: Index) {
    (forall c :: c in idx.digitSeparators <==>
       exists i :: 0 <= i < |table| && fromLocale(table[i].locale).digitSeparator == c) &&
    (forall c :: c in idx.exponentSeparators <==>
       exists i :: 0 <= i < |table| && fromLocale(table[i].locale).exponentSeparator == c) &&
    (forall t :: t in idx.symbolsCodes <==>
       exists i :: 0 <= i < |table| && (table[i].symbol == t || table[i].isoAlphaCode == t))
  }

  /** `SEPARATORS_DIGIT`: insert each currency's locale digit separator. */
  method BuildDigitSeparators<L>(table: seq<Currency<L>>, fromLocale: L -> LocalFormat)
    returns (m: set<char>)
    ensures forall c :: c in m <==>
      exists i :: 0 <= i < |table| && fromLocale(table[i].locale).digitSeparator == c
  {
    m := {};
    for k := 0 to |table|
      invariant forall c :: c in m <==>
        exists i :: 0 <= i < k && fromLocale(table[i].locale).digitSeparator == c
    {
      m := m + {fromLocale(table[k].locale).digitSeparator};
    }
  }

  /** `SEPARATORS_EXPONENT`: insert each currency's locale exponent separator. */
  method BuildExponentSeparators<L>(table: seq<Currency<L>>, fromLocale: L -> LocalFormat)
    returns (m: set<char>)
    ensures forall c :: c in m <==>
      exists i :: 0 <= i < |table| && fromLocale(table[i].locale).exponentSeparator == c
  {
    m := {};
    for k := 0 to |table|
      invariant forall c :: c in m <==>
        exists i :: 0 <= i < k && fromLocale(table[i].locale).exponentSeparator == c
    {
      m := m + {fromLocale(table[k].locale).exponentSeparator};
    }
  }

  /** `SYMBOLS_CODES`: insert each currency's symbol, then its ISO alpha code. */
  method BuildSymbolsCodes<L>(table: seq<Currency<L>>) returns (m: set<string>)
    ensures forall t :: t in m <==>
      exists i :: 0 <= i < |table| && (table[i].symbol == t || table[i].isoAlphaCode == t)
  {
    m := {};
    for k := 0 to |table|
      invariant forall t :: t in m <==>
        exists i :: 0 <= i < k && (table[i].symbol == t || table[i].isoAlphaCode == t)
    {
      m := m + {table[k].symbol};
      m := m + {table[k].isoAlphaCode};
    }
  }

  /** The whole `lazy_static!` block: the three sets, built from one table. */
  method BuildIndex<L>(table: seq<Currency<L>>, fromLocale: L -> LocalFormat)
    returns (idx: Index)
    ensures IsIndexOf(table, fromLocale, idx)
  {
    var digits := BuildDigitSeparators(table, fromLocale);
    var exponents := BuildExponentSeparators(table, fromLocale);
    var tokens := BuildSymbolsCodes(table);
    idx := Index(digits, exponents, tokens);
  }

  /** `is_seperator`: membership in the digit-separator set, which makes the
      separators exactly the characters that `validate`'s filter deletes. */
  predicate IsSeparator(idx: Index, c: char): (r: bool)
    ensures r <==> Delete([c], idx.digitSeparators) == []
  {
    c in idx.digitSeparators
  }

  /** On a built index, a character is a separator exactly when some
      currency's locale groups digits with it. */
  lemma SeparatorFromLocale<L>(table: seq<Currency<L>>, fromLocale: L -> LocalFormat, idx: Index, c: char)
    requires IsIndexOf(table, fromLocale, idx)
    ensures IsSeparator(idx, c) <==>
      exists i :: 0 <= i < |table| && fromLocale(table[i].locale).digitSeparator == c
  {
  }

  /** Every ISO code of `CURRENCIES` is a token of an index built from it. */
  lemma SupportedCodesAreTokens<L>(table: seq<Currency<L>>, fromLocale: L -> LocalFormat, idx: Index, k: nat)
    requires IsCurrencyTable(table) && IsIndexOf(table, fromLocale, idx)
    requires k < |SupportedCodes|
    ensures SupportedCodes[k] in idx.symbolsCodes
  {
    assert table[k].isoAlphaCode == SupportedCodes[k];
  }

  /** The codes the documentation examples use are tokens. */
  lemma ExampleCodesAreTokens<L>(table: seq<Currency<L>>, fromLocale: L -> LocalFormat, idx: Index)
    requires IsCurrencyTable(table) && IsIndexOf(table, fromLocale, idx)
    ensures "USD" in idx.symbolsCodes && "EUR" in idx.symbolsCodes && "PAB" in idx.symbolsCodes
  {
    assert SupportedCodes[146] == "USD";
    assert SupportedCodes[45] == "EUR";
    assert SupportedCodes[106] == "PAB";
    SupportedCodesAreTokens(table, fromLocale, idx, 146);
    SupportedCodesAreTokens(table, fromLocale, idx, 45);
    SupportedCodesAreTokens(table, fromLocale, idx, 106);
  }
}
