/** The header block of the log as bytes (kernel/log.c): a count and that many block numbers, four bytes each. */
module LogHeader {

  const BSIZE: int := 1024
  const MAXWORD: int := 0x1_0000_0000

  /** The k-th little-endian word of a block. */
  function WordAt(d: seq<int>, k: int): int
    requires 0 <= k && 4 * k + 4 <= |d|
  {
    d[4 * k] + 256 * d[4 * k + 1] + 65536 * d[4 * k + 2] + 16777216 * d[4 * k + 3]
  }

  function PutWord(d: seq<int>, k: int, x: int): (e: seq<int>)
    requires 0 <= k && 4 * k + 4 <= |d| && 0 <= x < MAXWORD
    ensures |e| == |d| && WordAt(e, k) == x && forall i :: 0 <= i < |d| && !(4 * k <= i < 4 * k + 4) ==> e[i] == d[i]
  {
    Bytes(x);
    d[4 * k := x % 256][4 * k + 1 := x / 256 % 256][4 * k + 2 := x / 65536 % 256][4 * k + 3 := x / 16777216]
  }

  lemma Bytes(x: int)
    requires 0 <= x
    ensures x == x % 256 + 256 * (x / 256 % 256) + 65536 * (x / 65536 % 256) + 16777216 * (x / 16777216)
  {
    assert x / 256 / 256 == x / 65536 && x / 65536 / 256 == x / 16777216;
  }

  /** The block says that these blocks are in the log. */
  ghost predicate HoldsHead(d: seq<int>, header: seq<int>) {
    && |d| == BSIZE && 4 * (|header| + 1) <= BSIZE && WordAt(d, 0) == |header|
    && forall k :: 0 <= k < |header| ==> WordAt(d, k + 1) == header[k]
  }

  /** write_head's stores into the header block. */
  method FillHead(d: seq<int>, header: seq<int>) returns (e: seq<int>)
    requires |d| == BSIZE && 4 * (|header| + 1) <= BSIZE && forall k :: 0 <= k < |header| ==> 0 <= header[k] < MAXWORD
    ensures HoldsHead(e, header) && forall i :: 4 * (|header| + 1) <= i < BSIZE ==> e[i] == d[i]
  {
    e := PutWord(d, 0, |header|);
    var i := 0;
    while i < |header|
      invariant 0 <= i <= |header| && |e| == BSIZE && WordAt(e, 0) == |header|
      invariant forall k :: 0 <= k < i ==> WordAt(e, k + 1) == header[k]
      invariant forall j :: 4 * (|header| + 1) <= j < BSIZE ==> e[j] == d[j]
    {
      e := PutWord(e, i + 1, header[i]);
      i := i + 1;
    }
  }

  /** read_head's loads: they give back what write_head has stored. */
  method LoadHead(d: seq<int>, ghost header: seq<int>) returns (h: seq<int>)
    requires HoldsHead(d, header)
    ensures h == header
  {
    var n := WordAt(d, 0);
    h := [];
    while |h| < n
      invariant |h| <= n == |header| && h == header[..|h|]
    {
      h := h + [WordAt(d, |h| + 1)];
    }
  }
}
