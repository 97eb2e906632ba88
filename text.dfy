/** The string operations the core relies on: `toLowerCase`, `includes`, `join`,
    capitalising a first letter, and rendering a number as text. */
module Text {

  predicate IsUpperChar(c: char) {
    'A' <= c <= 'Z'
  }

  /** `toLowerCase` on one character (ASCII letters only). */
  function LowerChar(c: char): (r: char)
    ensures !IsUpperChar(r)
    ensures !IsUpperChar(c) ==> r == c
  {
    if IsUpperChar(c) then (c as int + 32) as char else c
  }

  /** `toUpperCase` on one character (ASCII letters only). */
  function UpperChar(c: char): (r: char)
    ensures !('a' <= r <= 'z')
    ensures !('a' <= c <= 'z') ==> r == c
  {
    if 'a' <= c <= 'z' then (c as int - 32) as char else c
  }

  /** `String.prototype.toLowerCase`, character by character. */
  function Lower(s: string): (r: string)
    ensures |r| == |s|
    ensures forall i :: 0 <= i < |s| ==> r[i] == LowerChar(s[i])
  {
    if s == [] then [] else [LowerChar(s[0])] + Lower(s[1..])
  }

  /** A string with no upper-case letter. */
  predicate IsLowerText(s: string) {
    forall i :: 0 <= i < |s| ==> !IsUpperChar(s[i])
  }

  /** `String.prototype.includes`: `needle` occurs somewhere in `hay` (the empty
      needle occurs everywhere). */
  predicate Contains(hay: string, needle: string)
    decreases |hay|
  {
    needle <= hay || (hay != [] && Contains(hay[1..], needle))
  }

  /** `Array.prototype.join`. */
  function Join(parts: seq<string>, sep: string): string
    decreases |parts|
  {
    if parts == [] then ""
    else if |parts| == 1 then parts[0]
    else parts[0] + sep + Join(parts[1..], sep)
  }

  /** `s.charAt(0).toUpperCase() + s.slice(1)`. */
  function Capitalize(s: string): (r: string)
    ensures |r| == |s|
    ensures s != [] ==> r[0] == UpperChar(s[0]) && r[1..] == s[1..]
  {
    if s == [] then "" else [UpperChar(s[0])] + s[1..]
  }

  function DigitChar(d: nat): char
    requires d < 10
  {
    ('0' as int + d) as char
  }

  /** The decimal rendering JavaScript gives a non-negative integer. */
  function NatToString(n: nat): (r: string)
    ensures r != []
    decreases n
  {
    if n < 10 then [DigitChar(n)] else NatToString(n / 10) + [DigitChar(n % 10)]
  }

  // ---------------------------------------------------------------------------
  // Properties

  lemma LowerOfLowerText(s: string)
    requires IsLowerText(s)
    ensures Lower(s) == s
  {
  }

  lemma LowerIsLowerText(s: string)
    ensures IsLowerText(Lower(s))
  {
  }

  /** A needle `n` found at position `i` of `hay`. */
  lemma ContainsAt(hay: string, n: string, i: nat)
    requires i + |n| <= |hay| && hay[i..i + |n|] == n
    ensures Contains(hay, n)
    decreases i
  {
    if i > 0 {
      assert hay[1..][i - 1..i - 1 + |n|] == n;
      ContainsAt(hay[1..], n, i - 1);
    }
  }

  /** Everything `Contains` says is a position where the needle occurs. */
  lemma {:induction false} ContainsWitness(hay: string, n: string) returns (i: nat)
    requires Contains(hay, n)
    ensures i + |n| <= |hay| && hay[i..i + |n|] == n
    decreases |hay|
  {
    if n <= hay {
      i := 0;
    } else {
      var j := ContainsWitness(hay[1..], n);
      i := j + 1;
      assert hay[i..i + |n|] == hay[1..][j..j + |n|];
    }
  }

  /** Lower-casing both sides keeps a match: a query typed with capitals still
      finds the lower-case keyword it spells. */
  lemma {:induction false} ContainsLower(hay: string, n: string)
    requires Contains(hay, n)
    ensures Contains(Lower(hay), Lower(n))
  {
    var i := ContainsWitness(hay, n);
    var lh, ln := Lower(hay), Lower(n);
    assert lh[i..i + |n|] == ln by {
      forall k | 0 <= k < |n| ensures lh[i..i + |n|][k] == ln[k] {
        assert lh[i + k] == LowerChar(hay[i + k]);
        assert hay[i + k] == hay[i..i + |n|][k];
      }
    }
    ContainsAt(lh, ln, i);
  }

  lemma LowerIdempotent(s: string)
    ensures Lower(Lower(s)) == Lower(s)
  {
    LowerIsLowerText(s);
    LowerOfLowerText(Lower(s));
  }
}
