/** `validate` of src/lib.rs: a money string splits, one part is a known
    currency symbol or code, and one part reads as a number once the digit
    separators are deleted. */
module Validator {
  import opened Text
  import opened CurrencyIndex
  import opened Splitter

  /** `part.chars().filter(|c| !SEPARATORS_DIGIT.contains(c)).collect()`. */
  function StripSeparators(part: string, idx: Index): (r: string)
    ensures forall i :: 0 <= i < |r| ==> !IsSeparator(idx, r[i])
  {
    Delete(part, idx.digitSeparators)
  }

  /** `validate`; `parsesAsF64(t)` stands for `t.parse::<f64>().is_ok()`. */
  function Validate(input: string, idx: Index, parsesAsF64: string -> bool): (ok: bool)
    ensures ok ==> Split(input, idx).Some?
  {
    match Split(input, idx)
    case None => false
    case Some((a, b)) =>
      if a !in idx.symbolsCodes && b !in idx.symbolsCodes then false
      else if !parsesAsF64(StripSeparators(a, idx)) && !parsesAsF64(StripSeparators(b, idx)) then false
      else true
  }

  /** The rule `validate` applies to the two parts: one is a symbol or code,
      and one reads as a number once its separators are deleted. */
  predicate AcceptsParts(idx: Index, parsesAsF64: string -> bool, a: string, b: string) {
    (a in idx.symbolsCodes || b in idx.symbolsCodes) &&
    (parsesAsF64(StripSeparators(a, idx)) || parsesAsF64(StripSeparators(b, idx)))
  }

  /** `validate` holds exactly when the whitespace-free input has a split
      (in the sense of `IsSplitOf`) with a currency token on one side and a
      number on one side. */
  lemma ValidateMeaning(input: string, idx: Index, parsesAsF64: string -> bool)
    ensures Validate(input, idx, parsesAsF64) <==>
      exists a, b :: IsSplitOf(RemoveWhitespace(input), idx, a, b) && AcceptsParts(idx, parsesAsF64, a, b)
  {
    if Validate(input, idx, parsesAsF64) {
      var a, b := Split(input, idx).value.0, Split(input, idx).value.1;
      SplitMeaning(input, idx, a, b);
      assert IsSplitOf(RemoveWhitespace(input), idx, a, b) && AcceptsParts(idx, parsesAsF64, a, b);
    }
    if exists a, b :: IsSplitOf(RemoveWhitespace(input), idx, a, b) && AcceptsParts(idx, parsesAsF64, a, b) {
      var a, b :| IsSplitOf(RemoveWhitespace(input), idx, a, b) && AcceptsParts(idx, parsesAsF64, a, b);
      SplitMeaning(input, idx, a, b);
    }
  }

  /** The two parts play symmetric roles: swapping them keeps the verdict. */
  lemma AcceptsPartsSymmetric(idx: Index, parsesAsF64: string -> bool, a: string, b: string)
    ensures AcceptsParts(idx, parsesAsF64, a, b) == AcceptsParts(idx, parsesAsF64, b, a)
  {
  }

  /** Two inputs whose splits are each other's swap get the same verdict,
      as "$50" and "50$" do. */
  lemma ValidateSymmetric(x: string, y: string, idx: Index, parsesAsF64: string -> bool, a: string, b: string)
    requires Split(x, idx) == Some((a, b)) && Split(y, idx) == Some((b, a))
    ensures Validate(x, idx, parsesAsF64) == Validate(y, idx, parsesAsF64)
  {
    AcceptsPartsSymmetric(idx, parsesAsF64, a, b);
  }

  /** A string without an ASCII digit is never valid, whatever the number
      syntax accepts. */
  lemma ValidateNeedsDigit(input: string, idx: Index, parsesAsF64: string -> bool)
    requires forall i :: 0 <= i < |input| ==> !IsDigit(input[i])
    ensures !Validate(input, idx, parsesAsF64)
  {
    SplitNeedsDigit(input, idx);
  }

  /** A split with no known symbol or code on either side is never valid. */
  lemma ValidateNeedsToken(input: string, idx: Index, parsesAsF64: string -> bool, a: string, b: string)
    requires IsSplitOf(RemoveWhitespace(input), idx, a, b)
    requires a !in idx.symbolsCodes && b !in idx.symbolsCodes
    ensures !Validate(input, idx, parsesAsF64)
  {
    SplitMeaning(input, idx, a, b);
  }

  /** A split with no number on either side is never valid. */
  lemma ValidateNeedsNumber(input: string, idx: Index, parsesAsF64: string -> bool, a: string, b: string)
    requires IsSplitOf(RemoveWhitespace(input), idx, a, b)
    requires !parsesAsF64(StripSeparators(a, idx)) && !parsesAsF64(StripSeparators(b, idx))
    ensures !Validate(input, idx, parsesAsF64)
  {
    SplitMeaning(input, idx, a, b);
  }

  /** An amount that parses, followed by a known symbol or code, is valid. */
  lemma ValidateAmountThenToken(n: string, t: string, idx: Index, parsesAsF64: string -> bool)
    requires n != [] && IsDigit(n[0])
    requires forall i :: 0 <= i < |n| ==> IsDigit(n[i]) || IsSeparator(idx, n[i])
    requires t != [] && !IsSeparator(idx, t[0])
    requires forall i :: 0 <= i < |t| ==> !IsDigit(t[i])
    requires forall i :: 0 <= i < |n + t| ==> (n + t)[i] !in WhiteSpace
    requires t in idx.symbolsCodes && parsesAsF64(StripSeparators(n, idx))
    ensures Validate(n + t, idx, parsesAsF64)
  {
    AmountThenToken(n, t, idx);
  }

  /** A known symbol or code, followed by an amount that parses, is valid. */
  lemma ValidateTokenThenAmount(t: string, n: string, idx: Index, parsesAsF64: string -> bool)
    requires t != []
    requires forall i :: 0 <= i < |t| ==> !IsDigit(t[i])
    requires n != [] && IsDigit(n[0]) && !IsSeparator(idx, n[0])
    requires forall i :: 0 <= i < |n| ==> IsDigit(n[i]) || IsSeparator(idx, n[i])
    requires forall i :: 0 <= i < |t + n| ==> (t + n)[i] !in WhiteSpace
    requires t in idx.symbolsCodes && parsesAsF64(StripSeparators(n, idx))
    ensures Validate(t + n, idx, parsesAsF64)
  {
    TokenThenAmount(t, n, idx);
  }

  /** Whitespace inserted anywhere does not change the verdict. */
  lemma ValidateIgnoresInsertedWhitespace(x: string, w: string, y: string, idx: Index, parsesAsF64: string -> bool)
    requires forall i :: 0 <= i < |w| ==> w[i] in WhiteSpace
    ensures Validate(x + w + y, idx, parsesAsF64) == Validate(x + y, idx, parsesAsF64)
  {
    SplitIgnoresInsertedWhitespace(x, w, y, idx);
  }
}
