/** Byte strings, as Python's `bytes`: literals written in ASCII and `bytes.lower()`. */
module Bytes {
  import opened Search

  newtype byte = b: int | 0 <= b < 256

  type Bytes = seq<byte>

  predicate IsAscii(s: string)
  {
    forall i | 0 <= i < |s| :: s[i] as int < 128
  }

  /** The bytes of an ASCII literal, as in `b'HUFFMAN'`. */
  function Ascii(s: string): (r: Bytes)
    requires IsAscii(s)
    ensures |r| == |s|
  {
    seq(|s|, i requires 0 <= i < |s| => s[i] as int as byte)
  }

  predicate IsUpper(b: byte)
  {
    'A' as int <= b as int <= 'Z' as int
  }

  /** `bytes.lower()` on one byte: only the ASCII letters A-Z change. */
  function LowerByte(b: byte): (r: byte)
    ensures IsUpper(b) ==> r as int == b as int + 32 && !IsUpper(r)
    ensures !IsUpper(b) ==> r == b
  {
    if IsUpper(b) then b + 32 else b
  }

  /** Python's `bytes.lower()`. */
  function Lower(s: Bytes): (r: Bytes)
    ensures |r| == |s|
    ensures forall i :: 0 <= i < |s| ==> r[i] == LowerByte(s[i])
  {
    seq(|s|, i requires 0 <= i < |s| => LowerByte(s[i]))
  }

  /** A byte string without upper-case letters is its own lower-case form. */
  lemma LowerOfLowercase(s: Bytes)
    requires forall i | 0 <= i < |s| :: !IsUpper(s[i])
    ensures Lower(s) == s
  {
  }

  /** Lower-casing commutes with slicing. */
  lemma LowerSlice(s: Bytes, i: nat, j: nat)
    requires i <= j <= |s|
    ensures Lower(s)[i..j] == Lower(s[i..j])
  {
  }

  /** If `u` occurs in `s`, its lower-case form occurs in the lower-case form of `s`:
      a search in `s.lower()` finds a marker in any mix of cases. */
  lemma ContainsLower(s: Bytes, u: Bytes)
    requires Contains(s, u)
    ensures Contains(Lower(s), Lower(u))
  {
    var i :| 0 <= i <= |s| - |u| && OccursAt(s, u, i);
    LowerSlice(s, i, i + |u|);
    assert OccursAt(Lower(s), Lower(u), i);
  }
}
