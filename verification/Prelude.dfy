/** Small types, predicates and lemmas shared by the other modules. */
module Prelude {

  datatype Option<+T> = None | Some(value: T)

  datatype Result<+T> = Ok(value: T) | Failed

  type byte = b: int | 0 <= b < 256

  function Min(a: nat, b: nat): nat {
    if a <= b then a else b
  }

  function Max(a: nat, b: nat): nat {
    if a <= b then b else a
  }

  /** unicode.IsSpace. */
  predicate IsSpace(r: char) {
    || '\t' <= r <= '\r' || r == ' ' || r == '\U{85}' || r == '\U{A0}' || r == '\U{1680}'
    || '\U{2000}' <= r <= '\U{200A}' || r == '\U{2028}' || r == '\U{2029}' || r == '\U{202F}'
    || r == '\U{205F}' || r == '\U{3000}'
  }

  predicate Distinct<T(==)>(s: seq<T>) {
    forall i, j :: 0 <= i < j < |s| ==> s[i] != s[j]
  }

  lemma Distribute(f: nat, a: nat, b: nat)
    ensures f * (a + b) == f * a + f * b
  {
  }

  lemma TakeOneMore<T>(s: seq<T>, k: nat)
    requires k < |s|
    ensures s[..k + 1] == s[..k] + [s[k]]
  {
  }

  lemma Assoc<T>(a: seq<T>, b: seq<T>, c: seq<T>)
    ensures a + b + c == a + (b + c)
  {
  }
}
