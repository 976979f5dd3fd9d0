/** String operations the time-column detection relies on, over ASCII. */
module Strings {

  /** Python's `str.lower()` restricted to ASCII: `A`..`Z` become `a`..`z`. */
  function LowerChar(ch: char): char {
    if 'A' <= ch <= 'Z' then (ch as int - 'A' as int + 'a' as int) as char else ch
  }

  predicate IsUpper(ch: char) {
    'A' <= ch <= 'Z'
  }

  function ToLower(s: string): string {
    seq(|s|, i requires 0 <= i < |s| => LowerChar(s[i]))
  }

  /** A string without upper-case letters is its own lower-case form. */
  lemma LowerOfLower(s: string)
    requires forall i :: 0 <= i < |s| ==> !IsUpper(s[i])
    ensures ToLower(s) == s
  {
    assert forall i :: 0 <= i < |s| ==> ToLower(s)[i] == s[i];
  }

  /** Lower-casing a second time changes nothing. */
  lemma LowerIdempotent(s: string)
    ensures ToLower(ToLower(s)) == ToLower(s)
  {
    LowerOfLower(ToLower(s));
  }

  /** Python's substring test `tok in s`. */
  function Contains(s: string, tok: string): bool
    decreases |s|
  {
    if tok <= s then true
    else if s == [] then false
    else Contains(s[1..], tok)
  }

  /** A token longer than the string cannot occur in it. */
  lemma {:induction false} TooLongNotContained(s: string, tok: string)
    requires |s| < |tok|
    ensures !Contains(s, tok)
    decreases |s|
  {
    if s != [] {
      TooLongNotContained(s[1..], tok);
    }
  }

  /** `tok` occurs in `s` starting at position `i`. */
  ghost predicate OccursAt(s: string, tok: string, i: int) {
    0 <= i && i + |tok| <= |s| && s[i..i + |tok|] == tok
  }

  /** An occurrence that is not at the front is an occurrence in the tail. */
  lemma OccursLater(s: string, tok: string, i: int)
    requires OccursAt(s, tok, i) && !(tok <= s)
    ensures 0 < i && OccursAt(s[1..], tok, i - 1)
  {
    assert s[1..][i - 1..i - 1 + |tok|] == s[i..i + |tok|];
  }

  /** `Contains` holds exactly when the token occurs somewhere in the string. */
  lemma {:induction false} ContainsOccurs(s: string, tok: string)
    ensures Contains(s, tok) <==> exists i :: OccursAt(s, tok, i)
    decreases |s|
  {
    if tok <= s {
      assert OccursAt(s, tok, 0);
    } else if s == [] {
      assert forall i :: !OccursAt(s, tok, i);
    } else {
      ContainsOccurs(s[1..], tok);
      if Contains(s[1..], tok) {
        var i :| OccursAt(s[1..], tok, i);
        assert s[i + 1..i + 1 + |tok|] == s[1..][i..i + |tok|];
        assert OccursAt(s, tok, i + 1);
      } else {
        forall i | OccursAt(s, tok, i) ensures OccursAt(s[1..], tok, i - 1) {
          OccursLater(s, tok, i);
        }
      }
    }
  }

}
