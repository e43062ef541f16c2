/** Bytes, machine words and small tools that several models share. */
module Words {

  type byte = x: int | 0 <= x < 256

  /** What a value becomes in an `int` of 32 bits. */
  function ToInt32(n: int): int {
    var low := n % 0x1_0000_0000;
    if low < 0x8000_0000 then low else low - 0x1_0000_0000
  }

  lemma SmallStaysInInt32(n: int)
    requires 0 <= n < 0x8000_0000
    ensures ToInt32(n) == n && n % 0x1_0000_0000 == n
  {
  }

  /** The numbers from `lo` on, below `hi`. */
  function Range(lo: nat, hi: nat): (r: set<nat>)
    ensures forall k :: k in r <==> lo <= k < hi
  {
    if lo >= hi then {} else Range(lo, hi - 1) + {hi - 1}
  }

  /** `data` written over `s` from `at` on. */
  function Overwrite<T>(s: seq<T>, at: nat, data: seq<T>): (r: seq<T>)
    requires at + |data| <= |s|
    ensures |r| == |s|
    ensures r[at..at + |data|] == data
    ensures forall i :: at <= i < at + |data| ==> r[i] == data[i - at]
    ensures forall i :: 0 <= i < |s| && !(at <= i < at + |data|) ==> r[i] == s[i]
  {
    s[..at] + data + s[at + |data|..]
  }

  lemma OverwriteIs<T>(s: seq<T>, at: nat, data: seq<T>, r: seq<T>)
    requires at + |data| <= |s| == |r|
    requires forall i :: 0 <= i < |r| ==> r[i] == if at <= i < at + |data| then data[i - at] else s[i]
    ensures r == Overwrite(s, at, data)
  {
  }
}
