/** Source text as bytes, with the few sequence facts every Markdown module needs. */
module Bytes {
  newtype byte = x: int | 0 <= x < 256
  type Source = seq<byte>

  const TAB: byte := 9
  const LF: byte := 10
  const VT: byte := 11
  const FF: byte := 12
  const CR: byte := 13
  const SPACE: byte := 32
  const BRACKET: byte := 91
  const BACKTICK: byte := 96

  datatype Option<+T> = None | Some(value: T)

  /** A half-open range of byte offsets. */
  datatype Range = Range(start: nat, end: nat)

  function Min(a: nat, b: nat): (r: nat)
    ensures r <= a && r <= b && (r == a || r == b)
  {
    if a < b then a else b
  }

  function Max(a: nat, b: nat): nat { if a < b then b else a }

  /** Subtraction that stops at zero. */
  function Monus(a: nat, b: nat): nat { if a < b then 0 else a - b }

  function Repeat(b: byte, n: nat): (r: Source)
    ensures |r| == n && forall i :: 0 <= i < n ==> r[i] == b
  {
    seq(n, _ => b)
  }

  /** The line feeds in `s`. */
  function CountLF(s: Source): nat {
    if s == [] then 0 else CountLF(s[..|s| - 1]) + if s[|s| - 1] == LF then 1 else 0
  }

  /** Removes one trailing carriage return, if there is one. */
  function StripCR(s: Source): Source {
    if s != [] && s[|s| - 1] == CR then s[..|s| - 1] else s
  }

  lemma {:induction false} CountLFConcat(a: Source, b: Source)
    ensures CountLF(a + b) == CountLF(a) + CountLF(b)
    decreases |b|
  {
    if b == [] {
      assert a + b == a;
    } else {
      assert (a + b)[..|a + b| - 1] == a + b[..|b| - 1];
      CountLFConcat(a, b[..|b| - 1]);
    }
  }

  lemma SubSlice(s: Source, from: nat, to: nat, i: nat, n: nat)
    requires from <= to <= |s| && from + i + n <= to
    ensures s[from..to][i..i + n] == s[from + i..from + i + n]
  {
    var left, right := s[from..to][i..i + n], s[from + i..from + i + n];
    assert forall j :: 0 <= j < n ==> left[j] == s[from + i + j] == right[j];
  }

  lemma PrefixWithout(s: Source, k: nat, b: byte)
    requires k <= |s| && b !in s[..k]
    ensures forall i :: 0 <= i < k ==> s[i] != b
  {
    forall i | 0 <= i < k
      ensures s[i] != b
    {
      assert s[i] == s[..k][i];
    }
  }

  lemma SliceWithout(s: Source, i: nat, j: nat, b: byte)
    requires i <= j <= |s| && b !in s[i..j]
    ensures forall k :: i <= k < j ==> s[k] != b
  {
    forall k | i <= k < j
      ensures s[k] != b
    {
      assert s[k] == s[i..j][k - i];
    }
  }

  lemma SlicePush(s: Source, i: nat, j: nat)
    requires i <= j < |s|
    ensures s[i..j + 1] == s[i..j] + [s[j]]
  {
  }
}
