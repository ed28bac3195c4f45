/** Facts about sequences that the verifier has to be told. */
module Sequences {

  lemma Assoc<T>(a: seq<T>, b: seq<T>, c: seq<T>)
    ensures (a + b) + c == a + (b + c)
  {
  }

  lemma NotAmong<T>(s: seq<T>, n: nat, x: T)
    requires n <= |s| && x !in s[..n]
    ensures forall i :: 0 <= i < n ==> s[i] != x
  {
    forall i | 0 <= i < n
      ensures s[i] != x
    {
      assert s[i] == s[..n][i] && s[..n][i] in s[..n];
    }
  }
}
