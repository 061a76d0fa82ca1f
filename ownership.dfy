/** `first_word` (`ownership/src/main.rs`): the bytes of a string up to, not
    including, its first space. A string is modelled by its UTF-8 bytes; a
    space is a one-byte character, so the cut is always on a character boundary. */
module Ownership {

  newtype byte = x: int | 0 <= x < 256

  /** `b' '`. */
  const SPACE: byte := 32

  /** The index of the first space, or the length when there is none. */
  function FirstSpace(s: seq<byte>): (k: nat)
    ensures k <= |s|
    ensures forall j :: 0 <= j < k ==> s[j] != SPACE
    ensures k < |s| ==> s[k] == SPACE
    ensures k == |s| <==> SPACE !in s
  {
    if s == [] then 0
    else if s[0] == SPACE then 0
    else (assert s == [s[0]] + s[1..]; 1 + FirstSpace(s[1..]))
  }

  /** The specification of `first_word`. */
  function Word(s: seq<byte>): (w: seq<byte>)
    ensures w <= s
    ensures SPACE !in w
    ensures |w| < |s| ==> s[|w|] == SPACE
    ensures SPACE !in s ==> w == s
  {
    s[..FirstSpace(s)]
  }

  /** `first_word`: scan the bytes and return at the first space. */
  method FirstWord(s: seq<byte>) returns (w: seq<byte>)
    ensures w == Word(s)
    ensures w <= s && SPACE !in w
    ensures |w| < |s| ==> s[|w|] == SPACE
  {
    for i := 0 to |s|
      invariant forall j :: 0 <= j < i ==> s[j] != SPACE
    {
      if s[i] == SPACE {
        FirstSpaceIs(s, i);
        return s[0..i];
      }
    }
    assert SPACE !in s;
    return s[..];
  }

  /** A space with no space before it is the first space. */
  lemma FirstSpaceIs(s: seq<byte>, i: nat)
    requires i < |s| && s[i] == SPACE
    requires forall j :: 0 <= j < i ==> s[j] != SPACE
    ensures FirstSpace(s) == i
  {
  }

  /** The first word of a first word is itself. */
  lemma WordIdempotent(s: seq<byte>)
    ensures Word(Word(s)) == Word(s)
  {
  }

  /** An empty string has an empty first word. */
  lemma EmptyWord()
    ensures Word([]) == []
  {
  }

  /** "hello world", as in `main`, has the first word "hello". */
  lemma HelloWorld()
    ensures Word([104, 101, 108, 108, 111, 32, 119, 111, 114, 108, 100]) == [104, 101, 108, 108, 111]
  {
    FirstSpaceIs([104, 101, 108, 108, 111, 32, 119, 111, 114, 108, 100], 5);
  }
}
