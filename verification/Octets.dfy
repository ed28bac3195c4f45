/** Octets, NUL-terminated text and other vocabulary the C programs share. */
module Octets {

  type Octet = n: int | 0 <= n < 256

  type Text = seq<Octet>

  /** An octet of the programs that work on its bits. */
  datatype Byte = Byte(bits: bv8)

  type Bytes = seq<Byte>

  const ZERO: Byte := Byte(0)

  datatype Option<+T> = None | Some(value: T)

  /** What the string functions see of a buffer: everything before its first NUL. */
  function CString(s: seq<Octet>): (t: Text)
    ensures 0 !in t && t <= s
    ensures |t| < |s| ==> s[|t|] == 0
  {
    if s == [] || s[0] == 0 then [] else [s[0]] + CString(s[1..])
  }

  lemma {:induction false} CStringStopsAt(t: Text, rest: seq<Octet>)
    requires 0 !in t && (rest == [] || rest[0] == 0)
    ensures CString(t + rest) == t
  {
    if t == [] {
      assert t + rest == rest;
    } else {
      assert (t + rest)[1..] == t[1..] + rest;
      CStringStopsAt(t[1..], rest);
    }
  }

  function Zeros(n: nat): (z: seq<Octet>)
    ensures |z| == n
    ensures forall i :: 0 <= i < n ==> z[i] == 0
  {
    seq(n, _ => 0)
  }
}
