/** What several parts of the kernel and its programs share. */
module Basics {

  /** A value that may be missing: a null pointer, a zero, or a -1 in the source. */
  datatype Option<T> = None | Some(value: T)

  /** The blocks one file-system operation may log (kernel/param.h). */
  const MAXOPBLOCKS := 10

  ghost predicate Distinct(q: seq<nat>) {
    forall i, j :: 0 <= i < j < |q| ==> q[i] != q[j]
  }

  /** A C string is the sequence of characters before its NUL. */
  ghost predicate NulFree(s: string) {
    forall k :: 0 <= k < |s| ==> s[k] != '\0'
  }

  /** The C string at i. */
  function CString(b: seq<char>, i: nat): string
    decreases |b| - i
  {
    if i >= |b| || b[i] == '\0' then "" else [b[i]] + CString(b, i + 1)
  }

  /** It reaches to the first NUL. */
  lemma {:induction false} CStringIs(b: seq<char>, i: nat, j: nat)
    requires i <= j < |b| && b[j] == '\0' && forall k :: i <= k < j ==> b[k] != '\0'
    ensures CString(b, i) == b[i..j]
    decreases j - i
  {
    if i < j {
      CStringIs(b, i + 1, j);
      assert b[i..j] == [b[i]] + b[i + 1..j];
    }
  }
}
