/**
 * Raw bytes of the response body and the two byte-slice helpers the
 * stream handler relies on: the prefix test and the single-prefix trim of
 * Go's `bytes` package.
 */
module Bytes {

  newtype byte = b: int | 0 <= b < 256

  /** The line delimiter passed to ReadBytes: '\n'. */
  const NL: byte := 10

  /** The ASCII bytes of "data:", the marker of a protocol data line. */
  const DataPrefix: seq<byte> := [100, 97, 116, 97, 58]

  /** bytes.HasPrefix(s, p) */
  predicate HasPrefix(s: seq<byte>, p: seq<byte>)
  {
    |p| <= |s| && s[..|p|] == p
  }

  /** bytes.TrimPrefix(s, p): drop one leading copy of p, if there is one. */
  function TrimPrefix(s: seq<byte>, p: seq<byte>): seq<byte>
  {
    if HasPrefix(s, p) then s[|p|..] else s
  }

  /** Prepending p and then trimming p gives back the original bytes, even
      when those bytes themselves start with p: exactly one copy goes. */
  lemma TrimPrefixRemovesOneCopy(p: seq<byte>, s: seq<byte>)
    ensures HasPrefix(p + s, p)
    ensures TrimPrefix(p + s, p) == s
  {
    assert (p + s)[..|p|] == p;
    assert (p + s)[|p|..] == s;
  }

  /** Trimming is undone by putting the prefix back; bytes that lack the
      prefix pass through unchanged. */
  lemma TrimPrefixInverse(s: seq<byte>, p: seq<byte>)
    ensures HasPrefix(s, p) ==> p + TrimPrefix(s, p) == s
    ensures !HasPrefix(s, p) ==> TrimPrefix(s, p) == s
  {
    if HasPrefix(s, p) {
      assert s == s[..|p|] + s[|p|..];
    }
  }

  /** "data:data:x" loses only its first marker. */
  lemma TrimDataPrefixOnlyOnce(s: seq<byte>)
    ensures TrimPrefix(DataPrefix + DataPrefix + s, DataPrefix) == DataPrefix + s
  {
    assert DataPrefix + DataPrefix + s == DataPrefix + (DataPrefix + s);
    TrimPrefixRemovesOneCopy(DataPrefix, DataPrefix + s);
  }
}
