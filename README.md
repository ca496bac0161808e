# liquidity_check in Dafny

This project models `liquidity_check`, a small Rust library that decides whether a string
is a money amount such as `"$50"`, `"50 USD"` or `"50,000 PAB"`. It has two public
operations:

- `split` deletes all whitespace. It then cuts the string into a leading run and a trailing
  run. Each run is made of characters of one digit class (ASCII digit or not) plus digit
  separators.
- `validate` requires a split. One part must be a known currency symbol or ISO code. One
  part must read as a number once the digit separators are deleted.

The library builds three sets once from its currency table: the digit separators, the
exponent separators, and the symbols and codes. `split` reads the digit separators.
`validate` also reads the symbols and codes. Neither reads the exponent set, which is
built and never used.

Files and modules:

- `text.dfy` (module `Text`): ASCII digits, the Unicode White_Space characters, and
  `Delete`, which removes every character of a set from a string.
- `index.dfy` (module `CurrencyIndex`): the currency table and its ISO codes. It holds the
  three builder loops as methods with loop invariants, collected by `BuildIndex`, and
  `is_seperator` as `IsSeparator`.
- `splitter.dfy` (module `Splitter`): `split` as the function `Split` over `seq<char>`. It
  comes with a declarative description of a split (`IsSplitOf`) and the lemmas that relate
  the two.
- `validator.dfy` (module `Validator`): `validate` as the function `Validate`, and the
  lemmas about it.
- `examples.dfy` (module `DocExamples`): the documentation examples of
  `split` and `validate`. They are stated for any index whose digit separators are `','`
  and `'.'`, plus possibly whitespace.

The index is an immutable value (`CurrencyIndex.Index`) built once and passed to `Split`
and `Validate`. The currency data and the number parser come from another library, so they
are parameters:

- `fromLocale: L -> LocalFormat` stands for `LocalFormat::from_locale`.
- `parsesAsF64: string -> bool` stands for `str::parse::<f64>().is_ok()`.

Three behaviours of the code are worth knowing:

- The code drops whatever follows the trailing run: `"50$50"` splits as `("50", "$")`
  (`DocExamples.SplitDropsTail`, `Splitter.SplitDiscardsRest`).
- The first character fixes the class of the leading run. A leading separator that is
  not a digit makes the leading run the non-digit run, so the digits after it become the
  trailing run. So a string of separators and digits can split when it starts with a
  separator that is neither whitespace nor a digit and the string holds a digit: `",5"` gives `(",", "5")`
  (`DocExamples.SplitLeadingSeparator`). A whitespace separator never leads, because
  whitespace is deleted before the scan. Strings of digits and
  whitespace are always rejected (`Splitter.SplitNeedsNonDigit`). So are strings of digits
  and separators that start with a digit (`Splitter.SplitDigitLedFails`).
- When `'.'` is a digit separator, `validate` deletes it before parsing. So the amount of
  `"50.0 ¥"` is read as `"500"` (`DocExamples.ValidateDecimalYen`).

## Model

| member | source | states |
|---|---|---|
| `CurrencyIndex.BuildDigitSeparators` | src/lib.rs:21-27 | a character is in the result iff some currency's locale format has it as digit separator |
| `CurrencyIndex.BuildExponentSeparators` | src/lib.rs:28-34 | a character is in the result iff some currency's locale format has it as exponent separator |
| `CurrencyIndex.BuildSymbolsCodes` | src/lib.rs:35-42 | a string is in the result iff it is the symbol or the ISO alpha code of some currency in the table |
| `CurrencyIndex.BuildIndex` | src/lib.rs:20-43 | the three sets built from one table are exactly the collected separators, symbols and codes (`IsIndexOf`) |
| `CurrencyIndex.SeparatorFromLocale` | src/lib.rs:45-47 | on a built index, `is_seperator(c)` holds iff some currency's locale groups digits with `c` |
| `CurrencyIndex.SupportedCodesAreTokens` | src/lib.rs:7-18 | every ISO code listed in `CURRENCIES` is a token of an index built from that table |
| `CurrencyIndex.ExampleCodesAreTokens` | src/lib.rs:7-18 | "USD", "EUR" and "PAB" are tokens of an index built from `CURRENCIES` |
| `Text.IsDigit` | src/lib.rs:69 | `is_digit(10)` holds exactly for the ten characters of `"0123456789"`, each at the position of its value |
| `CurrencyIndex.IsSeparator` | src/lib.rs:45-47 | `is_seperator(c)` holds exactly when `c` is one of the characters that the digit-separator filter of `validate` deletes |
| `Splitter.RunTests` | src/lib.rs:72-80 | every character passes at least one of the two `take_while` tests, and passes both exactly when it is a digit separator |
| `Text.Delete` | src/lib.rs:66 | deleting a set of characters never lengthens a string and leaves none of them |
| `Text.DeleteCounts` | src/lib.rs:110 | deletion removes every occurrence of a dropped character and keeps every occurrence of every other character |
| `Text.DeletedFrom` | src/lib.rs:66 | every character that survives deletion occurs in the original string |
| `Text.DeleteConcat` | src/lib.rs:66 | deletion distributes over concatenation |
| `Text.DeleteIdentity` | src/lib.rs:66 | deletion leaves a string unchanged iff it holds no character to delete |
| `Text.DeleteIdempotent` | src/lib.rs:66 | deleting twice is deleting once |
| `Text.DeleteAll` | src/lib.rs:66 | a string made only of deleted characters becomes empty |
| `Splitter.RemoveWhitespace` | src/lib.rs:66 | no whitespace character survives the normalisation |
| `Splitter.TakeRun` | src/lib.rs:72-80 | the run is a prefix whose characters are all of the wanted class or separators, and the character after it, if any, is neither |
| `Splitter.RunUnique` | src/lib.rs:72-80 | any prefix with those two properties is the run, so the run is the longest such prefix |
| `Splitter.Split` | src/lib.rs:64-85 | on success both parts are non-empty and their concatenation is a prefix of the whitespace-free input |
| `Splitter.SplitSound` | src/lib.rs:64-85 | what `split` returns meets `IsSplitOf`: the leading run has the first character's class, the trailing run the other, both may hold separators, and each ends at a non-separator of the class it does not take |
| `Splitter.SplitComplete` | src/lib.rs:64-85 | every pair meeting `IsSplitOf` is what `split` returns |
| `Splitter.SplitMeaning` | src/lib.rs:64-85 | `split(x) == Some((a, b))` iff `(a, b)` meets `IsSplitOf` for the whitespace-free `x` |
| `Splitter.LeadingRunNonEmpty` | src/lib.rs:72-81 | on a non-empty string the leading run is never empty, so `first.is_empty()` cannot hold |
| `Splitter.SplitNoneIff` | src/lib.rs:66-83 | `split` fails iff the whitespace-free string is empty or every character of it has the first character's class or is a separator |
| `Splitter.SplitNeedsDigit` | src/lib.rs:68-83 | a string without an ASCII digit never splits |
| `Splitter.SplitNeedsNonDigit` | src/lib.rs:68-83 | a string of ASCII digits and whitespace never splits |
| `Splitter.SplitDigitLedFails` | src/lib.rs:68-83 | a whitespace-free string of digits and separators that starts with a digit never splits |
| `Splitter.AmountThenToken` | src/lib.rs:64-85 | an amount (a digit, then digits and separators) followed by a digit-free token that starts with a non-separator splits into exactly those two parts |
| `Splitter.TokenThenAmount` | src/lib.rs:64-85 | a digit-free token followed by an amount that starts with a non-separator digit splits into exactly those two parts |
| `Splitter.SplitIgnoresWhitespace` | src/lib.rs:66 | `split(x) == split(x with its whitespace deleted)` |
| `Splitter.SplitIgnoresInsertedWhitespace` | src/lib.rs:66 | whitespace inserted anywhere in the input leaves the result of `split` unchanged |
| `Splitter.SplitDiscardsRest` | src/lib.rs:76-84 | when the trailing run stops before the end of the string, appending more text leaves the result unchanged |
| `Validator.StripSeparators` | src/lib.rs:107-120 | no digit separator survives the filter |
| `Validator.Validate` | src/lib.rs:99-125 | `validate` holds only if `split` succeeds |
| `Validator.ValidateMeaning` | src/lib.rs:99-125 | `validate(x)` iff the whitespace-free `x` has an `IsSplitOf` split `(a, b)` where `a` or `b` is a token and `a` or `b` parses as a number once its separators are deleted |
| `Validator.AcceptsPartsSymmetric` | src/lib.rs:104-123 | the token and number tests give the same answer with the two parts swapped |
| `Validator.ValidateSymmetric` | src/lib.rs:104-123 | two inputs whose splits are each other's swap get the same verdict |
| `Validator.ValidateNeedsDigit` | src/lib.rs:99-103 | a string without an ASCII digit is never valid, whatever the number parser accepts |
| `Validator.ValidateNeedsToken` | src/lib.rs:104-106 | a split with neither part a symbol or code is never valid |
| `Validator.ValidateNeedsNumber` | src/lib.rs:107-123 | a split with neither stripped part a number is never valid |
| `Validator.ValidateAmountThenToken` | src/lib.rs:99-125 | an amount that parses once its separators are deleted, followed by a known symbol or code, is valid |
| `Validator.ValidateTokenThenAmount` | src/lib.rs:99-125 | a known symbol or code followed by an amount that parses once its separators are deleted is valid |
| `Validator.ValidateIgnoresInsertedWhitespace` | src/lib.rs:66 | whitespace inserted anywhere leaves the verdict unchanged |
| `DocExamples.SplitDollarFifty` | src/lib.rs:52-53 | `split("$50")` and `split("$ 50")` give `("$", "50")` |
| `DocExamples.SplitFiftyDollar` | src/lib.rs:54-55 | `split("50$")` and `split("50 $")` give `("50", "$")` |
| `DocExamples.SplitUsdFifty` | src/lib.rs:56-57 | `split("USD50")` and `split("USD 50")` give `("USD", "50")` |
| `DocExamples.SplitFiftyUsd` | src/lib.rs:58-60 | `split("50USD")` and `split("50 USD")` give `("50", "USD")` |
| `DocExamples.SplitDecimalDollar` | src/lib.rs:59 | `split("50.0 $")` gives `("50.0", "$")` |
| `DocExamples.SplitFiftyFails` | src/lib.rs:61 | `split("50")` fails |
| `DocExamples.SplitGroupedPab` | src/lib.rs:62 | `split("50,000 PAB")` gives `("50,000", "PAB")` |
| `DocExamples.SplitDropsTail` | src/lib.rs:76-80 | `split("50$50")` gives `("50", "$")`: the text after the trailing run is dropped |
| `DocExamples.SplitLeadingSeparator` | src/lib.rs:72-80 | `split(",5")` gives `(",", "5")`: a leading separator is taken into the leading run |
| `DocExamples.SplitFiftyEur` | src/lib.rs:92 | `split("50 EUR")` gives `("50", "EUR")` |
| `DocExamples.SplitEuroFifty` | src/lib.rs:91 | `split("€ 50")` gives `("€", "50")` |
| `DocExamples.SplitDecimalYen` | src/lib.rs:93 | `split("50.0 ¥")` gives `("50.0", "¥")` |
| `DocExamples.StripGrouped` | src/lib.rs:107-113 | the amount `"50,000"` becomes `"50000"` before parsing |
| `DocExamples.StripDecimal` | src/lib.rs:107-113 | the amount `"50.0"` becomes `"500"` before parsing when `'.'` is a digit separator |
| `DocExamples.ValidateSymbolFirst` | src/lib.rs:90-91 | `validate("$50")` and `validate("€ 50")` hold when "$" and "€" are symbols and "50" parses |
| `DocExamples.ValidateFiftyEur` | src/lib.rs:92 | `validate("50 EUR")` holds when "EUR" is a token and "50" parses |
| `DocExamples.ValidateGroupedPab` | src/lib.rs:94 | `validate("50,000 PAB")` holds when "PAB" is a token and "50000" parses |
| `DocExamples.ValidateCodeLast` | src/lib.rs:92-94 | `validate("50 EUR")` and `validate("50,000 PAB")` hold for an index built from `CURRENCIES` when "50" and "50000" parse |
| `DocExamples.ValidateDecimalYen` | src/lib.rs:93 | `validate("50.0 ¥")` holds when "¥" is a symbol and "500" parses |
| `DocExamples.SplitFiftyEr` | src/lib.rs:96 | `split("50 ER")` gives `("50", "ER")` |
| `DocExamples.SplitFiftyUnderscore` | src/lib.rs:97 | `split("50_$")` gives `("50", "_$")` |
| `DocExamples.ValidateRejects` | src/lib.rs:95-97 | `validate("50")`, `validate("50 ER")` and `validate("50_$")` are false when "50", "ER" and "_$" are not tokens |

## Left out

- The one-time, thread-safe initialisation that `lazy_static!` gives is concurrency. The
  index is instead a value built once by `BuildIndex` and passed to every call.
- The `Currency` constants of `rusty_money` are foreign data: their symbols, their locales
  and `LocalFormat::from_locale`. The table is a parameter `seq<Currency<L>>` and the
  locale lookup is a parameter `fromLocale`. Only the ISO codes of `CURRENCIES` are
  written out (`SupportedCodes`, with `IsCurrencyTable`). So facts about particular symbols
  (such as "$", "€" and "¥") and particular separators are hypotheses of the example
  lemmas.
- `str::parse::<f64>` is floating-point parsing in the standard library. It is the
  parameter `parsesAsF64`. Every lemma holds for every `parsesAsF64`. Whatever a lemma
  needs the parser to answer for a string is one of its `requires`: in
  `ValidateNeedsNumber`, `ValidateAmountThenToken`, `ValidateTokenThenAmount` and the
  examples.
- The exponent-separator set is built (`BuildExponentSeparators`). Neither `split` nor
  `validate` reads it, and the model does not either.
- Rust's `HashSet` is modelled by Dafny's mathematical `set`; hashing and iteration order
  play no part in what the library computes.
- Each `char` is a Unicode scalar value, as in Rust. Whitespace is the set of characters
  with the Unicode White_Space property (`Text.WhiteSpace`), which `char::is_whitespace`
  tests.
