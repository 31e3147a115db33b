/**
 * The encrypted file layout of faro_cipher/core.py (encrypt_file and
 * decrypt_file) and faro_cipher/ultra_cipher.py: one record per block, a
 * 4-byte big-endian length followed by that many bytes of ciphertext. The
 * record sizes of the plaintext blocks travel in the metadata, not in the file.
 */
module Framing {
  import opened Bits
  import Pipeline
  import Arith
  import Seqs

  const Two32: nat := 0x1_0000_0000

  /** n.to_bytes(4, 'big'). */
  function Be4(n: nat): (bs: seq<Byte>)
    requires n < Two32
    ensures |bs| == 4
  {
    var q1 := n / 256;
    var q2 := q1 / 256;
    [Arith.ByteOf(q2 / 256), Arith.ByteOf(q2 % 256), Arith.ByteOf(q1 % 256), Arith.ByteOf(n % 256)]
  }

  /** int.from_bytes(bs, 'big'). */
  function FromBe(bs: seq<Byte>): nat
  {
    if bs == [] then 0 else FromBe(bs[..|bs| - 1]) * 256 + bs[|bs| - 1] as nat
  }

  /** Reading the four bytes back gives the length that was written. */
  lemma FromBeBe4(n: nat)
    requires n < Two32
    ensures FromBe(Be4(n)) == n
  {
    var bs := Be4(n);
    var q1 := n / 256;
    var q2 := q1 / 256;
    var q3 := q2 / 256;
    assert q3 < 256;
    assert FromBe(bs[..1]) == q3 by {
      assert bs[..1][..0] == [];
    }
    assert FromBe(bs[..2]) == q3 * 256 + q2 % 256 by {
      assert bs[..2][..1] == bs[..1];
    }
    assert FromBe(bs[..3]) == q2 * 256 + q1 % 256 by {
      assert bs[..3][..2] == bs[..2];
    }
    assert bs[..4] == bs;
    assert FromBe(bs) == q1 * 256 + n % 256;
  }

  /** One record: the 4-byte length, then the bytes. */
  function Record(body: seq<Byte>): seq<Byte>
    requires |body| < Two32
  {
    Be4(|body|) + body
  }

  predicate Framable(bodies: seq<seq<Byte>>)
  {
    forall k :: 0 <= k < |bodies| ==> |bodies[k]| < Two32
  }

  /** The file: the records one after another. */
  function Frame(bodies: seq<seq<Byte>>): seq<Byte>
    requires Framable(bodies)
  {
    Pipeline.Concat(seq(|bodies|, k requires 0 <= k < |bodies| => Record(bodies[k])))
  }

  /**
   * decrypt_file's reading loop: for at most `count` records, read a 4-byte
   * header and a body of the length it gives; stop at the first header or
   * body that comes back short.
   */
  function Unframe(file: seq<Byte>, count: nat): (bodies: seq<seq<Byte>>)
    ensures |bodies| <= count
    decreases count
  {
    if count == 0 || |file| < 4 then []
    else
      var len := FromBe(file[..4]);
      if |file| - 4 < len then []
      else [file[4..4 + len]] + Unframe(file[4 + len..], count - 1)
  }

  /**
   * decrypt_file_ultra's reading loop: it stops only when a header or body
   * read returns no bytes at all (a header of 0 asks for no bytes, so it
   * stops too); a short header is still decoded and a short body is still used.
   */
  function UnframeLenient(file: seq<Byte>, count: nat): (bodies: seq<seq<Byte>>)
    ensures |bodies| <= count
    ensures forall k :: 0 <= k < |bodies| ==> |bodies[k]| > 0
    decreases count
  {
    if count == 0 || |file| == 0 then []
    else
      var hlen := if |file| < 4 then |file| else 4;
      var len := FromBe(file[..hlen]);
      var rest := file[hlen..];
      var blen := if len < |rest| then len else |rest|;
      if blen == 0 then []
      else [rest[..blen]] + UnframeLenient(rest[blen..], count - 1)
  }

  /** The strict reading depends only on the bytes and the count (stated apart to keep callers' contexts small). */
  lemma UnframeSame(file: seq<Byte>, file': seq<Byte>, count: nat, count': nat)
    requires file == file' && count == count'
    ensures Unframe(file, count) == Unframe(file', count')
  {
  }

  /** The lenient reading depends only on the bytes and the count (stated apart to keep callers' contexts small). */
  lemma UnframeLenientSame(file: seq<Byte>, file': seq<Byte>, count: nat, count': nat)
    requires file == file' && count == count'
    ensures UnframeLenient(file, count) == UnframeLenient(file', count')
  {
  }

  /** Reading at pos: a whole record is read and the loop goes on after it. */
  lemma UnframeRecord(file: seq<Byte>, pos: nat, count: nat)
    requires count > 0 && pos + 4 <= |file| && |file| - pos - 4 >= FromBe(file[pos..pos + 4])
    ensures var len := FromBe(file[pos..pos + 4]);
      Unframe(file[pos..], count) == [file[pos + 4..pos + 4 + len]] + Unframe(file[pos + 4 + len..], count - 1)
  {
    var len := FromBe(file[pos..pos + 4]);
    var rest := file[pos..];
    assert rest[..4] == file[pos..pos + 4];
    assert rest[4..4 + len] == file[pos + 4..pos + 4 + len];
    assert rest[4 + len..] == file[pos + 4 + len..];
  }

  /** Reading at pos stops on a short header or a short body. */
  lemma UnframeShort(file: seq<Byte>, pos: nat, count: nat)
    requires pos <= |file|
    requires |file| - pos < 4 || |file| - pos - 4 < FromBe(file[pos..pos + 4])
    ensures Unframe(file[pos..], count) == []
  {
    if |file| - pos >= 4 {
      assert file[pos..][..4] == file[pos..pos + 4];
    }
  }

  lemma FrameCons(body: seq<Byte>, rest: seq<seq<Byte>>)
    requires |body| < Two32 && Framable(rest)
    ensures Framable([body] + rest)
    ensures Frame([body] + rest) == Record(body) + Frame(rest)
  {
    var all := [body] + rest;
    assert Framable(all) by {
      forall k | 0 <= k < |all| ensures |all[k]| < Two32 {
        if k > 0 { assert all[k] == rest[k - 1]; }
      }
    }
    var recs := seq(|all|, k requires 0 <= k < |all| => Record(all[k]));
    var restRecs := seq(|rest|, k requires 0 <= k < |rest| => Record(rest[k]));
    assert recs == [Record(body)] + restRecs;
    Pipeline.ConcatCons(Record(body), restRecs);
  }

  lemma FrameSnoc(bodies: seq<seq<Byte>>, body: seq<Byte>)
    requires Framable(bodies) && |body| < Two32
    ensures Framable(bodies + [body])
    ensures Frame(bodies + [body]) == Frame(bodies) + Record(body)
  {
    var all := bodies + [body];
    var recs := seq(|all|, k requires 0 <= k < |all| => Record(all[k]));
    assert recs[..|bodies|] == seq(|bodies|, k requires 0 <= k < |bodies| => Record(bodies[k]));
  }

  /** The file starts with the first record. */
  lemma FrameFirst(bodies: seq<seq<Byte>>)
    requires Framable(bodies) && |bodies| > 0
    ensures Framable(bodies[1..])
    ensures Frame(bodies) == Record(bodies[0]) + Frame(bodies[1..])
  {
    Seqs.HeadTail(bodies);
    FrameCons(bodies[0], bodies[1..]);
  }

  /** Reading a framed file with the number of records written gives the bodies back. */
  lemma {:induction false} UnframeFrame(bodies: seq<seq<Byte>>)
    requires Framable(bodies)
    ensures Unframe(Frame(bodies), |bodies|) == bodies
    decreases |bodies|
  {
    if bodies != [] {
      var body, rest := bodies[0], bodies[1..];
      var n := |bodies|;
      FrameFirst(bodies);
      UnframeFrame(rest);
      var after := Frame(rest);
      assert Unframe(after, n - 1) == rest by {
        UnframeSame(after, after, |rest|, n - 1);
      }
      UnframeRecordFirst(body, after, n);
      assert Unframe(Frame(bodies), n) == [body] + rest by {
        UnframeSame(Frame(bodies), Record(body) + after, n, n);
      }
      Seqs.HeadTail(bodies);
    }
  }

  /** The strict reader reads a record at the start of a file whole, then goes on after it. */
  lemma UnframeRecordFirst(body: seq<Byte>, after: seq<Byte>, count: nat)
    requires |body| < Two32 && count > 0
    ensures Unframe(Record(body) + after, count) == [body] + Unframe(after, count - 1)
  {
    var file := Record(body) + after;
    FromBeBe4(|body|);
    assert file[..4] == Be4(|body|);
    var tail := file[4..];
    assert tail == body + after;
    assert file[4..4 + |body|] == body;
    assert file[4 + |body|..] == after;
  }

  /** The lenient reader also reads a well-formed file correctly, as long as no body is empty. */
  lemma {:induction false} UnframeLenientFrame(bodies: seq<seq<Byte>>)
    requires Framable(bodies)
    requires forall k :: 0 <= k < |bodies| ==> |bodies[k]| > 0
    ensures UnframeLenient(Frame(bodies), |bodies|) == bodies
    decreases |bodies|
  {
    if bodies != [] {
      var body, rest := bodies[0], bodies[1..];
      var n := |bodies|;
      FrameFirst(bodies);
      assert forall k :: 0 <= k < |rest| ==> |rest[k]| > 0 by {
        forall k | 0 <= k < |rest| ensures |rest[k]| > 0 { assert rest[k] == bodies[k + 1]; }
      }
      UnframeLenientFrame(rest);
      var after := Frame(rest);
      assert UnframeLenient(after, n - 1) == rest by {
        UnframeLenientSame(after, after, |rest|, n - 1);
      }
      UnframeLenientRecord(body, after, n);
      assert UnframeLenient(Frame(bodies), n) == [body] + rest by {
        UnframeLenientSame(Frame(bodies), Record(body) + after, n, n);
      }
      Seqs.HeadTail(bodies);
    }
  }

  /** The lenient reader reads a record with a non-empty body whole, then goes on after it. */
  lemma UnframeLenientRecord(body: seq<Byte>, after: seq<Byte>, count: nat)
    requires 0 < |body| < Two32 && count > 0
    ensures UnframeLenient(Record(body) + after, count) == [body] + UnframeLenient(after, count - 1)
  {
    var file := Record(body) + after;
    FromBeBe4(|body|);
    assert file[..4] == Be4(|body|);
    var tail := file[4..];
    assert tail == body + after;
    assert tail[..|body|] == body;
    assert tail[|body|..] == after;
  }
}
