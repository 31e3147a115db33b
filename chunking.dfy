/**
 * The two list loops every pipeline in the package repeats around its
 * per-chunk step: collecting data[i:i + size] for i in range(0, len(data), size),
 * and b''.join of the processed chunks.
 */
module Chunking {
  import opened Bits
  import opened Pipeline

  function MinNat(a: nat, b: nat): nat { if a < b then a else b }

  /** The split of data[pos:] starts with the piece data[pos:pos + size], clipped at the end. */
  lemma SplitStep(data: seq<Byte>, pos: nat, size: nat)
    requires size > 0 && pos < |data|
    ensures Split(data[pos..], size) == [data[pos..MinNat(pos + size, |data|)]] + Split(data[MinNat(pos + size, |data|)..], size)
  {
    var end := MinNat(pos + size, |data|);
    var rest := data[pos..];
    if |rest| > size {
      assert rest[..size] == data[pos..end];
      assert rest[size..] == data[end..];
    } else {
      assert rest == data[pos..end];
      assert data[end..] == [];
    }
  }

  /** Collects the round's chunks front to back; numpy and bytes slicing clip the last one. */
  method SplitChunks(data: seq<Byte>, size: nat) returns (chunks: seq<seq<Byte>>)
    requires size > 0
    ensures chunks == Split(data, size)
  {
    chunks := [];
    var i := 0;
    while i < |data|
      invariant Split(data, size) == chunks + Split(data[MinNat(i, |data|)..], size)
      decreases |data| - i
    {
      var end := MinNat(i + size, |data|);
      SplitStep(data, i, size);
      chunks := chunks + [data[i..end]];
      i := i + size;
      assert MinNat(i, |data|) == end;
    }
  }

  /** Joins the processed chunks in order. */
  method JoinChunks(chunks: seq<seq<Byte>>) returns (data: seq<Byte>)
    ensures data == Concat(chunks)
  {
    data := [];
    for k := 0 to |chunks|
      invariant data == Concat(chunks[..k])
    {
      assert chunks[..k + 1][..k] == chunks[..k];
      data := data + chunks[k];
    }
    assert chunks[..|chunks|] == chunks;
  }
}
