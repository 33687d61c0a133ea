/** Fixed-width values of the .NET runtime that the client passes around. */
module Primitives {

  /** A C# `int`. */
  newtype int32 = x: int | -0x8000_0000 <= x < 0x8000_0000

  /** A C# `byte`. */
  newtype byte = x: int | 0 <= x < 0x100

  /** The largest length of a .NET byte array (`int.MaxValue`). */
  const MaxArrayLength: int := 0x7FFF_FFFF

  /** The contents of a .NET byte array. */
  type Bytes = s: seq<byte> | |s| <= MaxArrayLength

  /** A C# `float`, carried as its IEEE 754 bit pattern; the client never computes with it. */
  datatype Float32 = Float32(bits: bv32)

  /** `x - 1` on a C# `int` in the default unchecked context: `int.MinValue - 1` wraps to `int.MaxValue`. */
  function Dec32(x: int32): (r: int32)
    ensures x > -0x8000_0000 ==> r as int == x as int - 1
    ensures x == -0x8000_0000 ==> r == 0x7FFF_FFFF
  {
    if x == -0x8000_0000 then 0x7FFF_FFFF else x - 1
  }

  /**
   * `String.Length` in .NET: the number of UTF-16 code units. A character
   * outside the Basic Multilingual Plane (U+10000 and up) is a surrogate
   * pair and counts twice.
   */
  function Utf16Length(s: string): (n: nat)
    ensures |s| <= n <= 2 * |s|
    decreases |s|
  {
    if s == [] then 0
    else Utf16Length(s[..|s| - 1]) + (if (s[|s| - 1] as int) >= 0x10000 then 2 else 1)
  }

  /** Text in the Basic Multilingual Plane has one code unit per character. */
  lemma {:induction false} Utf16LengthOfBmp(s: string)
    requires forall i :: 0 <= i < |s| ==> (s[i] as int) < 0x10000
    ensures Utf16Length(s) == |s|
    decreases |s|
  {
    if s != [] {
      Utf16LengthOfBmp(s[..|s| - 1]);
    }
  }

  /** Text entirely outside the Basic Multilingual Plane has two code units per character. */
  lemma {:induction false} Utf16LengthOfAstral(s: string)
    requires forall i :: 0 <= i < |s| ==> (s[i] as int) >= 0x10000
    ensures Utf16Length(s) == 2 * |s|
    decreases |s|
  {
    if s != [] {
      Utf16LengthOfAstral(s[..|s| - 1]);
    }
  }
}
