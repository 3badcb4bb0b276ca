/**
 Keyed list updates: the `map` and `filter` over task lists that the
 handlers run with a task-id comparison. `key` projects an element to its id.
 */
module Seqs {

  /** Does some element of `s` have key `k`? */
  predicate HasKey<T>(s: seq<T>, key: T -> string, k: string) {
    exists i :: 0 <= i < |s| && key(s[i]) == k
  }

  /** How many elements of `s` have key `k`. */
  function CountKey<T>(s: seq<T>, key: T -> string, k: string): (n: nat)
    ensures n <= |s|
    ensures n == 0 <==> !HasKey(s, key, k)
  {
    if |s| == 0 then 0
    else
      assert forall i :: 1 <= i < |s| ==> s[i] == s[1..][i - 1];
      (if key(s[0]) == k then 1 else 0) + CountKey(s[1..], key, k)
  }

  /** `a` is `b` with some elements left out, the rest in their original order. */
  ghost predicate Subsequence<T>(a: seq<T>, b: seq<T>)
    decreases |b|
  {
    if |a| == 0 then true
    else if |b| == 0 then false
    else (a[0] == b[0] && Subsequence(a[1..], b[1..])) || Subsequence(a, b[1..])
  }

  /** `s.map(x => key(x) === k ? f(x) : x)`: the elements with key `k` are
      rewritten by `f`, every other element stays as it was, in place. */
  function MapKey<T>(s: seq<T>, key: T -> string, k: string, f: T -> T): (r: seq<T>)
    ensures |r| == |s|
    ensures forall i :: 0 <= i < |s| ==> r[i] == (if key(s[i]) == k then f(s[i]) else s[i])
  {
    if |s| == 0 then []
    else [if key(s[0]) == k then f(s[0]) else s[0]] + MapKey(s[1..], key, k, f)
  }

  /** `s.filter(x => key(x) !== k)`: exactly the elements with key `k` are
      dropped; the survivors keep their order. */
  function RemoveKey<T>(s: seq<T>, key: T -> string, k: string): (r: seq<T>)
    ensures forall i :: 0 <= i < |r| ==> key(r[i]) != k
    ensures forall x :: x in r ==> x in s
    ensures Subsequence(r, s)
    ensures |r| + CountKey(s, key, k) == |s|
    ensures !HasKey(s, key, k) ==> r == s
  {
    if |s| == 0 then []
    else
      var rest := RemoveKey(s[1..], key, k);
      if key(s[0]) == k then rest else [s[0]] + rest
  }
}
