/*
 * The C and C++ library behaviour the editor relies on, stated over the
 * contents of a character array (a seq<char> snapshot of it):
 *  - strlen (section 7.24.6.3 of ISO C11): the index of the first NUL;
 *  - std::istream::get(char*, streamsize n, char '\n') (ISO C++
 *    [istream.unformatted]): which characters of the pending input it stores;
 *  - what such a get leaves in the array (the characters, then a NUL);
 *  - memmove (section 7.24.2.2 of ISO C11) towards the front of the array.
 */
module CStrings {

  const NUL: char := '\0'
  const NEWLINE: char := '\n'

  /** strlen: the index of the first NUL in s, or |s| when s holds none. */
  function Strlen(s: seq<char>): (n: nat)
    ensures n <= |s|
    ensures forall i :: 0 <= i < n ==> s[i] != NUL
    ensures n < |s| ==> s[n] == NUL
  {
    NulFrom(s, 0)
  }

  /** The scan strlen performs: the first NUL at or after index i. */
  function NulFrom(s: seq<char>, i: nat): (n: nat)
    requires i <= |s|
    ensures i <= n <= |s|
    ensures forall j :: i <= j < n ==> s[j] != NUL
    ensures n < |s| ==> s[n] == NUL
    decreases |s| - i
  {
    if i == |s| || s[i] == NUL then i else NulFrom(s, i + 1)
  }

  /** The C string held by s: everything before its first NUL. */
  function Str(s: seq<char>): (r: seq<char>)
    ensures |r| == Strlen(s) && r == s[..|r|]
  {
    s[..Strlen(s)]
  }

  /** Any index that looks like the first NUL is Strlen. */
  lemma StrlenIs(s: seq<char>, n: nat)
    requires n <= |s|
    requires forall i :: 0 <= i < n ==> s[i] != NUL
    requires n < |s| ==> s[n] == NUL
    ensures Strlen(s) == n
  {
  }

  /**
   * The characters that get(p, n, '\n') stores from the pending input
   * before its terminating NUL: it stops after n - 1 characters, at the end
   * of the input, or in front of a newline (which it does not extract).
   * With n < 1 it stores nothing at all.
   */
  function Extract(input: seq<char>, n: int): (t: seq<char>)
    ensures |t| <= |input| && t == input[..|t|]
    ensures NEWLINE !in t
    ensures t == [] || |t| < n
    ensures |t| < |input| && |t| < n - 1 ==> input[|t|] == NEWLINE
    decreases |input|
  {
    if n <= 1 || input == [] || input[0] == NEWLINE then []
    else [input[0]] + Extract(input[1..], n - 1)
  }

  /**
   * A prefix of the input that holds no newline and ends at the limit, at
   * the end of the input or in front of a newline is what get extracts.
   */
  lemma ExtractIs(input: seq<char>, n: int, i: nat)
    requires i <= |input| && (i == 0 || i < n)
    requires forall j :: 0 <= j < i ==> input[j] != NEWLINE
    requires i == |input| || n - 1 <= i || input[i] == NEWLINE
    ensures Extract(input, n) == input[..i]
  {
  }

  /** A newline-free input that fits is extracted whole. */
  lemma ExtractFits(input: seq<char>, n: int)
    requires NEWLINE !in input && |input| < n
    ensures Extract(input, n) == input
  {
  }

  /**
   * The array after get has stored t at index pos: t, then a NUL, and
   * everything else as it was.
   */
  function Store(s: seq<char>, pos: nat, t: seq<char>): (r: seq<char>)
    requires pos + |t| < |s|
    ensures |r| == |s|
    ensures r[..pos] == s[..pos] && r[pos..pos + |t|] == t && r[pos + |t|] == NUL
    ensures r[pos + |t| + 1..] == s[pos + |t| + 1..]
  {
    s[..pos] + t + [NUL] + s[pos + |t| + 1..]
  }

  /**
   * After a store at pos, the C string ends where it ended before when that
   * was in front of pos (the stored text is then invisible); otherwise it
   * ends at the first NUL of the stored text, or at the stored NUL.
   */
  lemma StrlenAfterStore(s: seq<char>, pos: nat, t: seq<char>)
    requires pos + |t| < |s|
    ensures Strlen(Store(s, pos, t)) ==
            if Strlen(s) < pos then Strlen(s) else pos + Strlen(t)
  {
    var r := Store(s, pos, t);
    if Strlen(s) < pos {
      StrlenIs(r, Strlen(s));
    } else {
      StrlenIs(r, pos + Strlen(t));
    }
  }

  /** A store right at the end of the C string appends the stored text's C string. */
  lemma StrAfterStore(s: seq<char>, t: seq<char>)
    requires Strlen(s) + |t| < |s|
    ensures Str(Store(s, Strlen(s), t)) == Str(s) + Str(t)
  {
    var pos, m := Strlen(s), Strlen(t);
    var d := Store(s, pos, t);
    StrlenAfterStore(s, pos, t);
    assert Str(d) == d[..pos + m];
    assert d[..pos + m] == d[..pos] + d[pos..pos + |t|][..m];
  }

  /**
   * The array after memmove(p, p + n, count): its first count characters
   * are the count characters that started at index n; the rest is as it was.
   */
  function Shift(s: seq<char>, n: nat, count: nat): (r: seq<char>)
    requires n + count <= |s|
    ensures |r| == |s|
    ensures forall i :: 0 <= i < |s| ==> r[i] == if i < count then s[i + n] else s[i]
  {
    s[n..n + count] + s[count..]
  }

  /**
   * When the first NUL lies inside the moved range and at or after n, the
   * move drops exactly the first n characters of the C string.
   */
  lemma StrAfterShift(s: seq<char>, n: nat, count: nat)
    requires n + count <= |s| && Strlen(s) < |s|
    requires n <= Strlen(s) && (n == 0 || Strlen(s) < n + count)
    ensures Strlen(Shift(s, n, count)) == Strlen(s) - n < |s|
    ensures Str(Shift(s, n, count)) == Str(s)[n..]
  {
    var r := Shift(s, n, count);
    var k := Strlen(s) - n;
    forall i | 0 <= i <= k
      ensures r[i] == s[i + n]
    {
      if n == 0 || i < count {
      } else {
        assert false;
      }
    }
    StrlenIs(r, k);
    assert Str(r) == Str(s)[n..];
  }

  /** Writing a NUL at i cuts the C string at i, unless it already ended before i. */
  lemma StrAfterNulAt(s: seq<char>, i: nat)
    requires i < |s|
    ensures Strlen(s[i := NUL]) == if i < Strlen(s) then i else Strlen(s)
    ensures Str(s[i := NUL]) == if i < Strlen(s) then Str(s)[..i] else Str(s)
  {
    if i < Strlen(s) {
      StrlenIs(s[i := NUL], i);
    } else {
      StrlenIs(s[i := NUL], Strlen(s));
    }
  }
}
