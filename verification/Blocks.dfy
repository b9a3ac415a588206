/** Byte-by-byte forward copies, as `rep movsb` does them. */
module Blocks {
  import opened Utf8

  /** read(2) of `n` bytes: any bytes. */
  method Bytes(n: nat) returns (data: seq<byte>)
    ensures |data| == n
  {
    assert |seq<byte>(n, _ => 0)| == n;
    data :| |data| == n;
  }

  /** A block written into a buffer, leaving what is before it. */
  method CopyIn(a: array<byte>, at: nat, data: seq<byte>)
    requires at + |data| <= a.Length
    modifies a
    ensures a[..at] == old(a[..at]) && a[at..at + |data|] == data
  {
    var k := 0;
    while k < |data|
      invariant k <= |data| && a[..at] == old(a[..at]) && a[at..at + k] == data[..k]
    {
      a[at + k] := data[k];
      k := k + 1;
    }
    assert data[..k] == data;
  }

  /** A block moved down to the front of its own buffer: the source may overlap the destination. */
  method MoveToFront(a: array<byte>, from: nat, n: nat)
    requires from + n <= a.Length
    modifies a
    ensures a[..n] == old(a[from..from + n])
  {
    ghost var held := a[from..from + n];
    var k := 0;
    while k < n
      invariant k <= n
      invariant forall i | 0 <= i < k :: a[i] == held[i]
      invariant forall i | k <= i < n :: a[from + i] == held[i]
    {
      a[k] := a[from + k];
      k := k + 1;
    }
  }
}
