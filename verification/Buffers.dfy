/** memmove, memcpy and realloc on arrays. */
module Buffers {
  /** memmove of n elements from offset k down to the front. */
  method MoveDown<T>(a: array<T>, k: nat, n: nat)
    requires k + n <= a.Length
    modifies a
    ensures a[..n] == old(a[k..k + n])
    ensures forall i :: k + n <= i < a.Length ==> a[i] == old(a[i])
  {
    for i := 0 to n
      invariant forall j :: 0 <= j < i ==> a[j] == old(a[j + k])
      invariant forall j :: i <= j < a.Length ==> a[j] == old(a[j])
    {
      a[i] := a[i + k];
    }
  }

  /** The part of a realloc that keeps the old contents. */
  method CopyPrefix<T>(a: array<T>, b: array<T>, n: nat)
    requires a != b && n <= a.Length && n <= b.Length
    modifies b
    ensures b[..n] == a[..n]
  {
    for i := 0 to n
      invariant forall j :: 0 <= j < i ==> b[j] == a[j]
    {
      b[i] := a[i];
    }
  }

  /** The realloc that makes room for more, with something to spare, when there is not enough. */
  method Grown<T(0)>(a: array<T>, fill: nat, needed: nat, spare: nat) returns (b: array<T>)
    requires fill <= a.Length && spare > 0
    ensures fill + needed < b.Length
    ensures b == a || fresh(b)
    ensures b.Length == if a.Length <= fill + needed then a.Length + needed + spare else a.Length
    ensures b[..fill] == a[..fill]
  {
    b := a;
    if a.Length <= fill + needed {
      b := new T[a.Length + needed + spare];
      CopyPrefix(a, b, fill);
    }
  }

  method WriteAt<T>(a: array<T>, at: nat, s: seq<T>)
    requires at + |s| <= a.Length
    modifies a
    ensures a[at..at + |s|] == s
    ensures forall i :: 0 <= i < at || at + |s| <= i < a.Length ==> a[i] == old(a[i])
  {
    for i := 0 to |s|
      invariant forall j :: 0 <= j < i ==> a[at + j] == s[j]
      invariant forall j :: 0 <= j < at || at + |s| <= j < a.Length ==> a[j] == old(a[j])
    {
      a[at + i] := s[i];
    }
  }
}
