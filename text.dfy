/** ASCII stand-in for Python's `str.lower`, used to turn tag names into slugs. */
module Text {

  function LowerChar(c: char): char
  {
    if 'A' <= c <= 'Z' then (c as int - 'A' as int + 'a' as int) as char else c
  }

  predicate IsLowerChar(c: char)
  {
    !('A' <= c <= 'Z')
  }

  /** `s.lower()`: every upper-case ASCII letter replaced by its lower-case form. */
  function Lower(s: string): (r: string)
    ensures |r| == |s|
    ensures forall i :: 0 <= i < |s| ==> r[i] == LowerChar(s[i])
  {
    if s == [] then [] else [LowerChar(s[0])] + Lower(s[1..])
  }

  /** The result of `Lower` holds no upper-case letter. */
  lemma {:induction false} LowerIsLower(s: string)
    ensures forall i :: 0 <= i < |Lower(s)| ==> IsLowerChar(Lower(s)[i])
  {
    if s != [] {
      LowerIsLower(s[1..]);
      assert Lower(s) == [LowerChar(s[0])] + Lower(s[1..]);
    }
  }

  /** Lowering twice is lowering once: a slug looked up again finds itself. */
  lemma {:induction false} LowerIdempotent(s: string)
    ensures Lower(Lower(s)) == Lower(s)
  {
    if s != [] {
      LowerIdempotent(s[1..]);
      calc {
        Lower(Lower(s));
        Lower([LowerChar(s[0])] + Lower(s[1..]));
        { assert ([LowerChar(s[0])] + Lower(s[1..]))[1..] == Lower(s[1..]); }
        [LowerChar(LowerChar(s[0]))] + Lower(Lower(s[1..]));
        [LowerChar(s[0])] + Lower(s[1..]);
      }
    }
  }
}
