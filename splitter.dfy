/** `split` of src/lib.rs: delete whitespace, then cut the string into a
    leading run and a trailing run by digit class, letting digit separators
    join either run. */
module Splitter {
  import opened Text
  import opened CurrencyIndex

  datatype Option<T> = None | Some(value: T)

  /** `input.split_whitespace().collect::<String>()`: the non-whitespace
      pieces glued together, that is, every whitespace character deleted. */
  function RemoveWhitespace(input: string): (s: string)
    ensures forall i :: 0 <= i < |s| ==> s[i] !in WhiteSpace
  {
    Delete(input, WhiteSpace)
  }

  /** The `take_while` test of both runs: `c` has the digit class the run
      wants, or `c` is a digit separator. */
  predicate InRun(idx: Index, digitClass: bool, c: char) {
    IsDigit(c) == digitClass || IsSeparator(idx, c)
  }

  /** Taken together, the two `take_while` tests accept every character, and
      they both accept it exactly when it is a separator. */
  lemma RunTests(idx: Index, c: char)
    ensures InRun(idx, true, c) || InRun(idx, false, c)
    ensures InRun(idx, true, c) && InRun(idx, false, c) <==> IsSeparator(idx, c)
  {
  }

  /** `s.chars().take_while(..)`: the longest prefix of `s` whose characters
      are all in the run. */
  function TakeRun(s: string, digitClass: bool, idx: Index): (r: string)
    ensures r <= s
    ensures forall i :: 0 <= i < |r| ==> InRun(idx, digitClass, r[i])
    ensures |r| < |s| ==> !InRun(idx, digitClass, s[|r|])
  {
    if s == [] || !InRun(idx, digitClass, s[0]) then []
    else [s[0]] + TakeRun(s[1..], digitClass, idx)
  }

  /** `split`. */
  function Split(input: string, idx: Index): (r: Option<(string, string)>)
    ensures r.Some? ==> r.value.0 != [] && r.value.1 != []
    ensures r.Some? ==> r.value.0 + r.value.1 <= RemoveWhitespace(input)
  {
    var s := RemoveWhitespace(input);
    if s == [] then None
    else
      var valueFirst := IsDigit(s[0]);
      var first := TakeRun(s, valueFirst, idx);
      var second := TakeRun(s[|first|..], !valueFirst, idx);
      if first == [] || second == [] then None
      else
        PrefixThenPrefix(first, second, s);
        Some((first, second))
  }

  /** A prefix of `s` followed by a prefix of the rest of `s` is a prefix of `s`. */
  lemma PrefixThenPrefix(p: string, q: string, s: string)
    requires p <= s && q <= s[|p|..]
    ensures p + q <= s
  {
    assert forall i :: 0 <= i < |q| ==> (p + q)[|p| + i] == s[|p|..][i];
  }

  /** What a successful split of the whitespace-free string `s` is, stated
      without the scanning: two non-empty runs at the start of `s`, the first
      of the first character's digit class, the second of the other class
      (separators allowed in both), each stopped by a non-separator of the
      class the run does not take. */
  ghost predicate IsSplitOf(s: string, idx: Index, a: string, b: string) {
    a != [] && b != [] && a + b <= s &&
    (forall i :: 0 <= i < |a| ==> IsDigit(a[i]) == IsDigit(s[0]) || IsSeparator(idx, a[i])) &&
    (forall i :: 0 <= i < |b| ==> IsDigit(b[i]) != IsDigit(s[0]) || IsSeparator(idx, b[i])) &&
    !IsSeparator(idx, s[|a|]) && IsDigit(s[|a|]) != IsDigit(s[0]) &&
    (|a| + |b| < |s| ==>
       !IsSeparator(idx, s[|a| + |b|]) && IsDigit(s[|a| + |b|]) == IsDigit(s[0]))
  }

  /** A prefix of in-run characters that stops at the end of `s` or at an
      out-of-run character is the run. */
  lemma {:induction false} RunUnique(s: string, digitClass: bool, idx: Index, p: string)
    requires p <= s
    requires forall i :: 0 <= i < |p| ==> InRun(idx, digitClass, p[i])
    requires |p| < |s| ==> !InRun(idx, digitClass, s[|p|])
    ensures TakeRun(s, digitClass, idx) == p
  {
    if p != [] {
      assert p[0] == s[0] && InRun(idx, digitClass, p[0]);
      assert p[1..] <= s[1..];
      assert forall i :: 0 <= i < |p| - 1 ==> p[1..][i] == p[i + 1];
      RunUnique(s[1..], digitClass, idx, p[1..]);
      assert p == [p[0]] + p[1..];
    }
  }

  /** What `split` returns is a split in the sense of `IsSplitOf`. */
  lemma SplitSound(input: string, idx: Index)
    requires Split(input, idx).Some?
    ensures IsSplitOf(RemoveWhitespace(input), idx, Split(input, idx).value.0, Split(input, idx).value.1)
  {
    var s := RemoveWhitespace(input);
    var vf := IsDigit(s[0]);
    var first := TakeRun(s, vf, idx);
    var rest := s[|first|..];
    var second := TakeRun(rest, !vf, idx);
    assert Split(input, idx) == Some((first, second));
    assert s[|first|] == rest[0];
    if |first| + |second| < |s| {
      assert s[|first| + |second|] == rest[|second|];
    }
  }

  /** Every split in the sense of `IsSplitOf` is what `split` returns. */
  lemma SplitComplete(input: string, idx: Index, a: string, b: string)
    requires IsSplitOf(RemoveWhitespace(input), idx, a, b)
    ensures Split(input, idx) == Some((a, b))
  {
    var s := RemoveWhitespace(input);
    var vf := IsDigit(s[0]);
    assert a <= s;
    RunUnique(s, vf, idx, a);
    var rest := s[|a|..];
    assert b <= rest;
    if |b| < |rest| {
      assert rest[|b|] == s[|a| + |b|];
    }
    RunUnique(rest, !vf, idx, b);
  }

  /** The leading run always holds the first character, so the
      `first.is_empty()` test of `split` never fires. */
  lemma LeadingRunNonEmpty(s: string, idx: Index)
    requires s != []
    ensures TakeRun(s, IsDigit(s[0]), idx) != []
  {
  }

  /** `split` returns `(a, b)` exactly when `(a, b)` is the split that
      `IsSplitOf` describes, for the whitespace-free input. */
  lemma SplitMeaning(input: string, idx: Index, a: string, b: string)
    ensures Split(input, idx) == Some((a, b)) <==> IsSplitOf(RemoveWhitespace(input), idx, a, b)
  {
    if Split(input, idx) == Some((a, b)) {
      SplitSound(input, idx);
    }
    if IsSplitOf(RemoveWhitespace(input), idx, a, b) {
      SplitComplete(input, idx, a, b);
    }
  }

  /** `split` fails exactly when the whitespace-free string is empty or its
      leading run takes all of it. */
  lemma SplitNoneIff(input: string, idx: Index)
    ensures Split(input, idx) == None <==>
      var s := RemoveWhitespace(input);
      s == [] || forall i :: 0 <= i < |s| ==> InRun(idx, IsDigit(s[0]), s[i])
  {
    var s := RemoveWhitespace(input);
    if s != [] {
      var vf := IsDigit(s[0]);
      var first := TakeRun(s, vf, idx);
      assert first != [];
      if forall i :: 0 <= i < |s| ==> InRun(idx, vf, s[i]) {
        RunUnique(s, vf, idx, s);
        assert s[|first|..] == [];
      } else {
        assert |first| < |s|;
        var rest := s[|first|..];
        assert rest[0] == s[|first|];
        assert InRun(idx, !vf, rest[0]);
      }
    }
  }

  /** A string without an ASCII digit never splits. */
  lemma SplitNeedsDigit(input: string, idx: Index)
    requires forall i :: 0 <= i < |input| ==> !IsDigit(input[i])
    ensures Split(input, idx) == None
  {
    var s := RemoveWhitespace(input);
    forall i | 0 <= i < |s|
      ensures !IsDigit(s[i])
    {
      DeletedFrom(input, WhiteSpace, i);
    }
    SplitNoneIff(input, idx);
  }

  /** A string of ASCII digits and whitespace never splits. */
  lemma SplitNeedsNonDigit(input: string, idx: Index)
    requires forall i :: 0 <= i < |input| ==> IsDigit(input[i]) || input[i] in WhiteSpace
    ensures Split(input, idx) == None
  {
    var s := RemoveWhitespace(input);
    forall i | 0 <= i < |s|
      ensures IsDigit(s[i])
    {
      DeletedFrom(input, WhiteSpace, i);
    }
    SplitNoneIff(input, idx);
  }

  /** A whitespace-free string of ASCII digits and separators that starts
      with a digit never splits. (Starting with a separator that is not a
      digit, it can: see `DocExamples.SplitLeadingSeparator`.) */
  lemma SplitDigitLedFails(input: string, idx: Index)
    requires var s := RemoveWhitespace(input);
      s != [] && IsDigit(s[0]) &&
      forall i :: 0 <= i < |s| ==> IsDigit(s[i]) || IsSeparator(idx, s[i])
    ensures Split(input, idx) == None
  {
    SplitNoneIff(input, idx);
  }

  /** An amount followed by a currency token splits into the two: the amount
      starts with a digit and holds only digits and separators, the token is
      digit-free and starts with a non-separator. */
  lemma AmountThenToken(n: string, t: string, idx: Index)
    requires n != [] && IsDigit(n[0])
    requires forall i :: 0 <= i < |n| ==> IsDigit(n[i]) || IsSeparator(idx, n[i])
    requires t != [] && !IsSeparator(idx, t[0])
    requires forall i :: 0 <= i < |t| ==> !IsDigit(t[i])
    requires forall i :: 0 <= i < |n + t| ==> (n + t)[i] !in WhiteSpace
    ensures Split(n + t, idx) == Some((n, t))
  {
    DeleteIdentity(n + t, WhiteSpace);
    assert (n + t)[0] == n[0] && (n + t)[|n|] == t[0];
    assert IsSplitOf(n + t, idx, n, t);
    SplitComplete(n + t, idx, n, t);
  }

  /** A currency token followed by an amount splits into the two: the token
      is digit-free, the amount starts with a digit that is not a separator
      and holds only digits and separators. */
  lemma TokenThenAmount(t: string, n: string, idx: Index)
    requires t != []
    requires forall i :: 0 <= i < |t| ==> !IsDigit(t[i])
    requires n != [] && IsDigit(n[0]) && !IsSeparator(idx, n[0])
    requires forall i :: 0 <= i < |n| ==> IsDigit(n[i]) || IsSeparator(idx, n[i])
    requires forall i :: 0 <= i < |t + n| ==> (t + n)[i] !in WhiteSpace
    ensures Split(t + n, idx) == Some((t, n))
  {
    DeleteIdentity(t + n, WhiteSpace);
    assert (t + n)[0] == t[0] && (t + n)[|t|] == n[0];
    assert IsSplitOf(t + n, idx, t, n);
    SplitComplete(t + n, idx, t, n);
  }

  /** Deleting the whitespace first changes nothing. */
  lemma SplitIgnoresWhitespace(input: string, idx: Index)
    ensures Split(input, idx) == Split(RemoveWhitespace(input), idx)
  {
    DeleteIdempotent(input, WhiteSpace);
  }

  /** Whitespace inserted anywhere changes nothing. */
  lemma SplitIgnoresInsertedWhitespace(x: string, w: string, y: string, idx: Index)
    requires forall i :: 0 <= i < |w| ==> w[i] in WhiteSpace
    ensures Split(x + w + y, idx) == Split(x + y, idx)
  {
    DeleteConcat(x + w, y, WhiteSpace);
    DeleteConcat(x, w, WhiteSpace);
    DeleteConcat(x, y, WhiteSpace);
    DeleteAll(w, WhiteSpace);
    assert RemoveWhitespace(x + w + y) == RemoveWhitespace(x + y);
  }

  /** Once the trailing run has stopped short of the end, whatever follows is
      dropped: appending more text changes nothing. */
  lemma SplitDiscardsRest(input: string, rest: string, idx: Index, a: string, b: string)
    requires Split(input, idx) == Some((a, b))
    requires |a| + |b| < |RemoveWhitespace(input)|
    ensures Split(input + rest, idx) == Some((a, b))
  {
    var s := RemoveWhitespace(input);
    var s' := RemoveWhitespace(input + rest);
    DeleteConcat(input, rest, WhiteSpace);
    assert s' == s + RemoveWhitespace(rest);
    SplitMeaning(input, idx, a, b);
    assert s'[0] == s[0] && s'[|a|] == s[|a|] && s'[|a| + |b|] == s[|a| + |b|];
    assert a + b <= s';
    SplitMeaning(input + rest, idx, a, b);
  }
}
