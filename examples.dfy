/** The documentation examples of `split` and `validate` in src/lib.rs, for
    an index whose digit separators are ',' and '.' (and possibly whitespace,
    which `split` deletes before it looks at separators). */
module DocExamples {
  import opened Text
  import opened CurrencyIndex
  import opened Splitter
  import opened Validator

  /** The digit separators the examples depend on. */
  predicate ExampleSeparators(idx: Index) {
    ',' in idx.digitSeparators && '.' in idx.digitSeparators &&
    forall c :: c in idx.digitSeparators ==> c == ',' || c == '.' || c in WhiteSpace
  }

  /** Under `ExampleSeparators`, a visible ASCII character is whitespace
      never, and a separator exactly when it is ',' or '.'. */
  lemma VisibleAscii(idx: Index, c: char)
    requires ExampleSeparators(idx) && '!' <= c <= '~'
    ensures c !in WhiteSpace
    ensures IsSeparator(idx, c) <==> c == ',' || c == '.'
  {
  }

  /** `VisibleAscii` for every character of `s`. */
  lemma VisibleAsciiString(idx: Index, s: string)
    requires ExampleSeparators(idx)
    requires forall i :: 0 <= i < |s| ==> '!' <= s[i] <= '~'
    ensures forall i :: 0 <= i < |s| ==>
      s[i] !in WhiteSpace && (IsSeparator(idx, s[i]) <==> s[i] == ',' || s[i] == '.')
  {
    forall i | 0 <= i < |s|
      ensures s[i] !in WhiteSpace && (IsSeparator(idx, s[i]) <==> s[i] == ',' || s[i] == '.')
    {
      VisibleAscii(idx, s[i]);
    }
  }

  /** A whitespace-free `a + b` that meets `IsSplitOf` splits into `(a, b)`,
      with or without a space between the two parts. */
  lemma SplitsAs(a: string, b: string, idx: Index)
    requires forall i :: 0 <= i < |a + b| ==> (a + b)[i] !in WhiteSpace
    requires IsSplitOf(a + b, idx, a, b)
    ensures Split(a + b, idx) == Some((a, b))
    ensures Split(a + " " + b, idx) == Some((a, b))
  {
    DeleteIdentity(a + b, WhiteSpace);
    SplitComplete(a + b, idx, a, b);
    SplitIgnoresInsertedWhitespace(a, " ", b, idx);
  }

  /** `split("$50")` and `split("$ 50")` give `("$", "50")`. */
  lemma SplitDollarFifty(idx: Index)
    requires ExampleSeparators(idx)
    ensures Split("$50", idx) == Some(("$", "50"))
    ensures Split("$ 50", idx) == Some(("$", "50"))
  {
    var s := "$" + "50";
    assert s == "$50" && "$" + " " + "50" == "$ 50";
    VisibleAsciiString(idx, s);
    assert IsSplitOf(s, idx, "$", "50");
    SplitsAs("$", "50", idx);
  }

  /** `split("50$")` and `split("50 $")` give `("50", "$")`. */
  lemma SplitFiftyDollar(idx: Index)
    requires ExampleSeparators(idx)
    ensures Split("50$", idx) == Some(("50", "$"))
    ensures Split("50 $", idx) == Some(("50", "$"))
  {
    var s := "50" + "$";
    assert s == "50$" && "50" + " " + "$" == "50 $";
    VisibleAsciiString(idx, s);
    assert IsSplitOf(s, idx, "50", "$");
    SplitsAs("50", "$", idx);
  }

  /** `split("USD50")` and `split("USD 50")` give `("USD", "50")`. */
  lemma SplitUsdFifty(idx: Index)
    requires ExampleSeparators(idx)
    ensures Split("USD50", idx) == Some(("USD", "50"))
    ensures Split("USD 50", idx) == Some(("USD", "50"))
  {
    var s := "USD" + "50";
    assert s == "USD50" && "USD" + " " + "50" == "USD 50";
    VisibleAsciiString(idx, s);
    assert IsSplitOf(s, idx, "USD", "50");
    SplitsAs("USD", "50", idx);
  }

  /** `split("50USD")` and `split("50 USD")` give `("50", "USD")`. */
  lemma SplitFiftyUsd(idx: Index)
    requires ExampleSeparators(idx)
    ensures Split("50USD", idx) == Some(("50", "USD"))
    ensures Split("50 USD", idx) == Some(("50", "USD"))
  {
    var s := "50" + "USD";
    assert s == "50USD" && "50" + " " + "USD" == "50 USD";
    VisibleAsciiString(idx, s);
    assert IsSplitOf(s, idx, "50", "USD");
    SplitsAs("50", "USD", idx);
  }

  /** `split("50.0 $")` gives `("50.0", "$")`: the '.' stays with the digits. */
  lemma SplitDecimalDollar(idx: Index)
    requires ExampleSeparators(idx)
    ensures Split("50.0$", idx) == Some(("50.0", "$"))
    ensures Split("50.0 $", idx) == Some(("50.0", "$"))
  {
    var s := "50.0" + "$";
    assert s == "50.0$" && "50.0" + " " + "$" == "50.0 $";
    VisibleAsciiString(idx, s);
    assert IsSplitOf(s, idx, "50.0", "$");
    SplitsAs("50.0", "$", idx);
  }

  /** `split("50,000 PAB")` gives `("50,000", "PAB")`: the ',' stays with the digits. */
  lemma SplitGroupedPab(idx: Index)
    requires ExampleSeparators(idx)
    ensures Split("50,000PAB", idx) == Some(("50,000", "PAB"))
    ensures Split("50,000 PAB", idx) == Some(("50,000", "PAB"))
  {
    var s := "50,000" + "PAB";
    assert s == "50,000PAB" && "50,000" + " " + "PAB" == "50,000 PAB";
    VisibleAsciiString(idx, s);
    assert IsSplitOf(s, idx, "50,000", "PAB");
    SplitsAs("50,000", "PAB", idx);
  }

  /** `split("50")` fails: there is no second run. */
  lemma SplitFiftyFails(idx: Index)
    ensures Split("50", idx) == None
  {
    SplitNeedsNonDigit("50", idx);
  }
  /** Text after the trailing run is dropped: `"50$50"` splits as `("50", "$")`. */
  lemma SplitDropsTail(idx: Index)
    requires ExampleSeparators(idx)
    ensures Split("50$50", idx) == Some(("50", "$"))
  {
    var s := "50$50";
    VisibleAsciiString(idx, s);
    assert "50" + "$" <= s;
    assert IsSplitOf(s, idx, "50", "$");
    DeleteIdentity(s, WhiteSpace);
    SplitComplete(s, idx, "50", "$");
  }

  /** A leading separator that is not a digit makes the leading run the
      non-digit run, so a string of separators and digits can split when it
      starts with a separator that is neither whitespace nor a digit and holds
      a digit: `",5"` gives `(",", "5")`. */
  lemma SplitLeadingSeparator(idx: Index)
    requires ExampleSeparators(idx)
    ensures Split(",5", idx) == Some((",", "5"))
  {
    var s := "," + "5";
    assert s == ",5" && s[0] == ',' && s[1] == '5';
    VisibleAscii(idx, ',');
    VisibleAscii(idx, '5');
    assert IsSplitOf(s, idx, ",", "5");
    SplitsAs(",", "5", idx);
  }

  /** `split("€ 50")` gives `("€", "50")`. */
  lemma SplitEuroFifty(idx: Index)
    requires ExampleSeparators(idx)
    ensures Split("€ 50", idx) == Some(("€", "50"))
  {
    var s := "€" + "50";
    assert s == "€50" && "€" + " " + "50" == "€ 50";
    assert '€' !in WhiteSpace && !IsSeparator(idx, '€');
    forall i | 1 <= i < |s|
      ensures s[i] !in WhiteSpace && !IsSeparator(idx, s[i]) && IsDigit(s[i])
    {
      VisibleAscii(idx, s[i]);
    }
    assert IsSplitOf(s, idx, "€", "50");
    SplitsAs("€", "50", idx);
  }

  /** `validate("$50")` and `validate("€ 50")`. */
  lemma ValidateSymbolFirst(idx: Index, parsesAsF64: string -> bool)
    requires ExampleSeparators(idx)
    requires "$" in idx.symbolsCodes && "€" in idx.symbolsCodes && parsesAsF64("50")
    ensures Validate("$50", idx, parsesAsF64)
    ensures Validate("€ 50", idx, parsesAsF64)
  {
    SplitDollarFifty(idx);
    SplitEuroFifty(idx);
    VisibleAscii(idx, '5');
    VisibleAscii(idx, '0');
    DeleteIdentity("50", idx.digitSeparators);
  }

  /** Deleting separators from the amount of `"50,000 PAB"`. */
  lemma StripGrouped(idx: Index)
    requires ExampleSeparators(idx)
    ensures StripSeparators("50,000", idx) == "50000"
  {
    var seps := idx.digitSeparators;
    assert '5' !in seps && '0' !in seps && ',' in seps by {
      VisibleAscii(idx, '5');
      VisibleAscii(idx, '0');
    }
    assert Delete(",000", seps) == "000" by {
      DeleteIdentity("000", seps);
    }
    assert Delete("50,000", seps) == "50000";
  }

  /** Deleting separators from the amount of `"50.0 ¥"`. */
  lemma StripDecimal(idx: Index)
    requires ExampleSeparators(idx)
    ensures StripSeparators("50.0", idx) == "500"
  {
    var seps := idx.digitSeparators;
    assert '5' !in seps && '0' !in seps && '.' in seps by {
      VisibleAscii(idx, '5');
      VisibleAscii(idx, '0');
    }
    assert Delete(".0", seps) == "0" by {
      DeleteIdentity("0", seps);
    }
    assert Delete("50.0", seps) == "500";
  }

  /** `split("50 EUR")` gives `("50", "EUR")`. */
  lemma SplitFiftyEur(idx: Index)
    requires ExampleSeparators(idx)
    ensures Split("50 EUR", idx) == Some(("50", "EUR"))
  {
    var s := "50" + "EUR";
    assert s == "50EUR" && "50" + " " + "EUR" == "50 EUR";
    VisibleAsciiString(idx, s);
    assert IsSplitOf(s, idx, "50", "EUR");
    SplitsAs("50", "EUR", idx);
  }

  /** `split("50.0 ¥")` gives `("50.0", "¥")`. */
  lemma SplitDecimalYen(idx: Index)
    requires ExampleSeparators(idx)
    ensures Split("50.0 ¥", idx) == Some(("50.0", "¥"))
  {
    var s := "50.0" + "¥";
    assert s == "50.0¥" && "50.0" + " " + "¥" == "50.0 ¥";
    assert '¥' !in WhiteSpace && !IsSeparator(idx, '¥');
    forall i | 0 <= i < 4
      ensures s[i] !in WhiteSpace && (IsSeparator(idx, s[i]) <==> s[i] == '.')
    {
      VisibleAscii(idx, s[i]);
    }
    assert IsSplitOf(s, idx, "50.0", "¥");
    SplitsAs("50.0", "¥", idx);
  }

  /** `validate("50 EUR")` holds when "EUR" is a token and "50" parses. */
  lemma ValidateFiftyEur(idx: Index, parsesAsF64: string -> bool)
    requires ExampleSeparators(idx)
    requires "EUR" in idx.symbolsCodes && parsesAsF64("50")
    ensures Validate("50 EUR", idx, parsesAsF64)
  {
    SplitFiftyEur(idx);
    VisibleAscii(idx, '5');
    VisibleAscii(idx, '0');
    DeleteIdentity("50", idx.digitSeparators);
  }

  /** `validate("50,000 PAB")` holds when "PAB" is a token and "50000"
      parses: the ',' is deleted before the number is read. */
  lemma ValidateGroupedPab(idx: Index, parsesAsF64: string -> bool)
    requires ExampleSeparators(idx)
    requires "PAB" in idx.symbolsCodes && parsesAsF64("50000")
    ensures Validate("50,000 PAB", idx, parsesAsF64)
  {
    SplitGroupedPab(idx);
    StripGrouped(idx);
  }

  /** For an index built from `CURRENCIES`, `validate("50 EUR")` and
      `validate("50,000 PAB")` hold once the amounts parse. */
  lemma ValidateCodeLast<L>(table: seq<Currency<L>>, fromLocale: L -> LocalFormat, idx: Index, parsesAsF64: string -> bool)
    requires IsCurrencyTable(table) && IsIndexOf(table, fromLocale, idx)
    requires ExampleSeparators(idx)
    requires parsesAsF64("50") && parsesAsF64("50000")
    ensures Validate("50 EUR", idx, parsesAsF64)
    ensures Validate("50,000 PAB", idx, parsesAsF64)
  {
    ExampleCodesAreTokens(table, fromLocale, idx);
    ValidateFiftyEur(idx, parsesAsF64);
    ValidateGroupedPab(idx, parsesAsF64);
  }

  /** `validate("50.0 ¥")`: the '.' is a digit separator here, so the amount
      is read as "500". */
  lemma ValidateDecimalYen(idx: Index, parsesAsF64: string -> bool)
    requires ExampleSeparators(idx)
    requires "¥" in idx.symbolsCodes && parsesAsF64("500")
    ensures Validate("50.0 ¥", idx, parsesAsF64)
  {
    SplitDecimalYen(idx);
    StripDecimal(idx);
  }

  /** `split("50 ER")` gives `("50", "ER")`. */
  lemma SplitFiftyEr(idx: Index)
    requires ExampleSeparators(idx)
    ensures Split("50 ER", idx) == Some(("50", "ER"))
  {
    var s := "50" + "ER";
    assert s == "50ER" && "50" + " " + "ER" == "50 ER";
    VisibleAsciiString(idx, s);
    assert IsSplitOf(s, idx, "50", "ER");
    SplitsAs("50", "ER", idx);
  }

  /** `split("50_$")` gives `("50", "_$")`: '_' is not a digit, so it starts
      the trailing run. */
  lemma SplitFiftyUnderscore(idx: Index)
    requires ExampleSeparators(idx)
    ensures Split("50_$", idx) == Some(("50", "_$"))
  {
    var s := "50" + "_$";
    assert s == "50_$";
    VisibleAsciiString(idx, s);
    assert IsSplitOf(s, idx, "50", "_$");
    SplitsAs("50", "_$", idx);
  }

  /** `validate("50")`, `validate("50 ER")` and `validate("50_$")` are false:
      the first does not split, the others split into parts that are not
      tokens (`("50", "ER")` and `("50", "_$")`). */
  lemma ValidateRejects(idx: Index, parsesAsF64: string -> bool)
    requires ExampleSeparators(idx)
    requires "50" !in idx.symbolsCodes && "ER" !in idx.symbolsCodes && "_$" !in idx.symbolsCodes
    ensures !Validate("50", idx, parsesAsF64)
    ensures !Validate("50 ER", idx, parsesAsF64)
    ensures !Validate("50_$", idx, parsesAsF64)
  {
    SplitFiftyFails(idx);
    SplitFiftyEr(idx);
    SplitFiftyUnderscore(idx);
  }
}
