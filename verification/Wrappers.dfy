/** What several modules share: a value that may be missing, and the part of a sequence before a mark. */
module Wrappers {

  datatype Option<T> = None | Some(value: T)

  function Min(a: nat, b: nat): nat
  {
    if a < b then a else b
  }

  /** What stands before the first `mark`: a C string before its NUL. */
  function UpTo<T(==)>(s: seq<T>, mark: T): seq<T>
  {
    if s == [] || s[0] == mark then [] else [s[0]] + UpTo(s[1..], mark)
  }

  lemma {:induction false} UpToAll<T>(s: seq<T>, mark: T)
    requires mark !in s
    ensures UpTo(s, mark) == s
  {
    if s != [] { UpToAll(s[1..], mark); }
  }

  lemma {:induction false} UpToIsClean<T>(s: seq<T>, mark: T)
    ensures mark !in UpTo(s, mark)
  {
    if s != [] && s[0] != mark { UpToIsClean(s[1..], mark); }
  }

  /** Nothing from a mark on matters. */
  lemma {:induction false} UpToStops<T>(s: seq<T>, n: nat, mark: T)
    requires n < |s| && s[n] == mark
    ensures UpTo(s, mark) == UpTo(s[..n], mark)
  {
    if n > 0 && s[0] != mark {
      UpToStops(s[1..], n - 1, mark);
      assert s[1..][..n - 1] == s[..n][1..];
    }
  }
}
