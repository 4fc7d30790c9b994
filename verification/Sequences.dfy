/** Regrouping and cutting sequences, which the verifier wants to be told. */
module Sequences {
  lemma Join3<T>(a: seq<T>, b: seq<T>, c: seq<T>)
    ensures a + (b + c) == a + b + c
  {
  }

  lemma Join4<T>(a: seq<T>, b: seq<T>, c: seq<T>, d: seq<T>)
    ensures a + (b + (c + d)) == a + b + c + d
  {
  }

  lemma Regroup<T>(a: seq<T>, b: seq<T>, c: seq<T>, d: seq<T>)
    ensures a + (b + c + d) == a + b + c + d
  {
  }

  lemma DropTwice<T>(s: seq<T>, i: nat, k: nat)
    requires i + k <= |s|
    ensures s[i..][k..] == s[i + k..] && s[i..][..k] == s[i..i + k]
  {
  }

  lemma CutAt<T>(s: seq<T>, i: nat)
    requires i <= |s|
    ensures s[..i] + s[i..] == s
  {
  }

  lemma TakeMore<T>(s: seq<T>, i: nat, k: nat)
    requires i + k <= |s|
    ensures s[..i] + s[i..i + k] == s[..i + k]
  {
  }
}
