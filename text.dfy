/** Character classes and character deletion, the string primitives used by
    `split` and `validate` in src/lib.rs. */
module Text {

  /** `char::is_digit(10)`: only the ASCII digits '0'..'9' are decimal
      digits, and each is the character at its own value in "0123456789". */
  predicate IsDigit(c: char): (r: bool)
    ensures r <==> c in "0123456789"
    ensures r ==> "0123456789"[c as int - '0' as int] == c
  {
    '0' <= c <= '9'
  }

  /** The characters with the Unicode White_Space property, which is what
      `char::is_whitespace` (and so `str::split_whitespace`) tests. */
  const WhiteSpace: set<char> := {
    '\t', '\n', '\U{000B}', '\U{000C}', '\r', ' ', '\U{0085}', '\U{00A0}', '\U{1680}',
    '\U{2000}', '\U{2001}', '\U{2002}', '\U{2003}', '\U{2004}', '\U{2005}',
    '\U{2006}', '\U{2007}', '\U{2008}', '\U{2009}', '\U{200A}',
    '\U{2028}', '\U{2029}', '\U{202F}', '\U{205F}', '\U{3000}'
  }

  /** `s` with every character in `drop` deleted, the order of the others kept. */
  function Delete(s: string, drop: set<char>): (r: string)
    ensures |r| <= |s|
    ensures forall i :: 0 <= i < |r| ==> r[i] !in drop
  {
    if s == [] then [] else (if s[0] in drop then [] else [s[0]]) + Delete(s[1..], drop)
  }

  /** Deletion removes every occurrence of a dropped character and keeps
      every occurrence of the others. */
  lemma {:induction false} DeleteCounts(s: string, drop: set<char>)
    ensures forall c :: multiset(Delete(s, drop))[c] == if c in drop then 0 else multiset(s)[c]
  {
    if s != [] {
      assert s == [s[0]] + s[1..];
      DeleteCounts(s[1..], drop);
    }
  }

  /** Every character of `Delete(s, drop)` occurs in `s`. */
  lemma DeletedFrom(s: string, drop: set<char>, i: nat)
    requires i < |Delete(s, drop)|
    ensures Delete(s, drop)[i] in s
  {
    var c := Delete(s, drop)[i];
    assert c in multiset(Delete(s, drop));
    DeleteCounts(s, drop);
  }

  /** Deletion works piecewise: it distributes over concatenation. */
  lemma {:induction false} DeleteConcat(a: string, b: string, drop: set<char>)
    ensures Delete(a + b, drop) == Delete(a, drop) + Delete(b, drop)
  {
    if a != [] {
      var head := if a[0] in drop then [] else [a[0]];
      assert (a + b)[0] == a[0] && (a + b)[1..] == a[1..] + b;
      calc {
        Delete(a + b, drop);
        head + Delete(a[1..] + b, drop);
        { DeleteConcat(a[1..], b, drop); }
        head + (Delete(a[1..], drop) + Delete(b, drop));
        (head + Delete(a[1..], drop)) + Delete(b, drop);
      }
    } else {
      assert a + b == b;
    }
  }

  /** Deletion changes `s` exactly when `s` holds a character to delete. */
  lemma {:induction false} DeleteIdentity(s: string, drop: set<char>)
    ensures Delete(s, drop) == s <==> forall i :: 0 <= i < |s| ==> s[i] !in drop
  {
    if s != [] {
      DeleteIdentity(s[1..], drop);
      if s[0] !in drop {
        assert forall i :: 1 <= i < |s| ==> s[i] == s[1..][i - 1];
      }
    }
  }

  /** Deleting twice is deleting once. */
  lemma DeleteIdempotent(s: string, drop: set<char>)
    ensures Delete(Delete(s, drop), drop) == Delete(s, drop)
  {
    DeleteIdentity(Delete(s, drop), drop);
  }

  /** Deleting a string made only of deleted characters leaves nothing. */
  lemma {:induction false} DeleteAll(w: string, drop: set<char>)
    requires forall i :: 0 <= i < |w| ==> w[i] in drop
    ensures Delete(w, drop) == []
  {
    if w != [] {
      DeleteAll(w[1..], drop);
    }
  }
}
