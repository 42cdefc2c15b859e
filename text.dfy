/**
 The two string operations the compatibility table's search relies on:
 lower-casing (`String.prototype.toLowerCase`) and substring search
 (`String.prototype.includes`). Lower-casing is modelled on ASCII letters;
 every other character is left as it is.
 */
module Text {

  /** True for 'A'..'Z'. */
  predicate IsUpperChar(c: char) {
    'A' <= c <= 'Z'
  }

  /** Lower-cases one character: 'A'..'Z' map to 'a'..'z', all others are unchanged. */
  function LowerChar(c: char): (r: char)
    ensures IsUpperChar(c) ==> 'a' <= r <= 'z' && r as int - c as int == 32
    ensures !IsUpperChar(c) ==> r == c
    ensures !IsUpperChar(r)
  {
    if IsUpperChar(c) then (c as int + 32) as char else c
  }

  /** True when `s` holds no upper-case ASCII letter. */
  predicate IsLower(s: string) {
    forall i :: 0 <= i < |s| ==> !IsUpperChar(s[i])
  }

  /**
   `s.toLowerCase()`: every character lower-cased, position by position. The
   result has the same length and holds no upper-case letter.
   */
  function ToLower(s: string): (r: string)
    ensures |r| == |s| && IsLower(r)
  {
    seq(|s|, i requires 0 <= i < |s| => LowerChar(s[i]))
  }

  /** A string without upper-case letters is its own lower-case form. */
  lemma ToLowerOfLower(s: string)
    requires IsLower(s)
    ensures ToLower(s) == s
  {
    assert forall i :: 0 <= i < |s| ==> ToLower(s)[i] == s[i];
  }

  /** Lower-casing a string twice is the same as lower-casing it once. */
  lemma ToLowerIdempotent(s: string)
    ensures ToLower(ToLower(s)) == ToLower(s)
  {
    ToLowerOfLower(ToLower(s));
  }

  /** `needle` occurs in `hay` starting at offset `k`. */
  predicate OccursAt(hay: string, needle: string, k: nat) {
    k + |needle| <= |hay| && hay[k..k + |needle|] == needle
  }

  /**
   `hay.includes(needle)`: the needle occurs at some offset of the hay. Only a
   needle no longer than the hay can be included, and a prefix always is.
   */
  predicate Contains(hay: string, needle: string)
    ensures Contains(hay, needle) ==> |needle| <= |hay|
    ensures OccursAt(hay, needle, 0) ==> Contains(hay, needle)
  {
    exists k :: 0 <= k <= |hay| && OccursAt(hay, needle, k)
  }

  /** Every string includes the empty string. */
  lemma ContainsEmpty(hay: string)
    ensures Contains(hay, [])
  {
    assert OccursAt(hay, [], 0);
  }

  /** Lower-casing both sides keeps an occurrence where it was. */
  lemma OccursLowered(hay: string, word: string, k: nat)
    requires OccursAt(hay, word, k)
    ensures OccursAt(ToLower(hay), ToLower(word), k)
    ensures Contains(ToLower(hay), ToLower(word))
  {
    var l, w := ToLower(hay), ToLower(word);
    forall j | 0 <= j < |word| ensures l[k + j] == w[j] {
      assert hay[k..k + |word|][j] == hay[k + j];
    }
    assert l[k..k + |word|] == w;
    assert k <= |l| && OccursAt(l, w, k);
  }

  /** The upper-case partner of a lower-case letter; other characters are unchanged. */
  function UpperChar(c: char): char {
    if 'a' <= c <= 'z' then (c as int - 32) as char else c
  }

  /** Only the character itself and its upper-case partner lower-case to a non-upper-case character. */
  lemma LowerCharInverse(x: char, c: char)
    requires !IsUpperChar(c) && LowerChar(x) == c
    ensures x == c || x == UpperChar(c)
  {
  }

  /** A hay that holds neither the needle character `c` nor its upper-case partner `up` does not include the needle once lower-cased. */
  lemma MissingChar(hay: string, needle: string, c: char, up: char)
    requires c in needle && !IsUpperChar(c) && up == UpperChar(c)
    requires c !in hay && up !in hay
    ensures !Contains(ToLower(hay), needle)
  {
    var l := ToLower(hay);
    var j :| 0 <= j < |needle| && needle[j] == c;
    forall k | 0 <= k <= |l| ensures !OccursAt(l, needle, k) {
      if k + |needle| <= |l| {
        assert l[k..k + |needle|][j] == l[k + j] == LowerChar(hay[k + j]);
      }
    }
  }
}
