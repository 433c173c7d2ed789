/** Bytes, and the little-endian reading and writing of words
    (encoding/binary's LittleEndian.Uint64 and PutUint64). */
module Bytes {
  import opened Word64

  type Byte = x: nat | x < 256

  /** The `n` low bytes of `w`, lowest first. */
  function PutLow(w: nat, n: nat): (bs: seq<Byte>)
    ensures |bs| == n
    decreases n
  {
    if n == 0 then [] else [w % 256] + PutLow(w / 256, n - 1)
  }

  function ReadAll(bs: seq<Byte>): nat
  {
    if bs == [] then 0 else bs[0] + 256 * ReadAll(bs[1..])
  }

  function PutUint64(w: Word): (bs: seq<Byte>)
    ensures |bs| == 8
  {
    PutLow(w, 8)
  }

  function ReadUint64(bs: seq<Byte>): Word
    requires |bs| == 8
  {
    ReadBelow(bs);
    assert Pow256(8) == MODULUS;
    ReadAll(bs)
  }

  function Pow256(n: nat): (p: nat)
    ensures p > 0
  {
    if n == 0 then 1 else 256 * Pow256(n - 1)
  }

  lemma {:induction false} ReadBelow(bs: seq<Byte>)
    ensures ReadAll(bs) < Pow256(|bs|)
  {
    if bs != [] {
      ReadBelow(bs[1..]);
    }
  }

  lemma {:induction false} ReadPut(w: nat, n: nat)
    requires w < Pow256(n)
    ensures ReadAll(PutLow(w, n)) == w
    decreases n
  {
    if n > 0 {
      ReadPut(w / 256, n - 1);
      assert PutLow(w, n)[1..] == PutLow(w / 256, n - 1);
    }
  }

  lemma {:induction false} PutRead(bs: seq<Byte>)
    ensures PutLow(ReadAll(bs), |bs|) == bs
  {
    if bs != [] {
      var w, rest := ReadAll(bs), ReadAll(bs[1..]);
      assert w % 256 == bs[0] && w / 256 == rest;
      hide ReadAll;
      PutRead(bs[1..]);
      assert bs == [bs[0]] + bs[1..];
    }
  }

  /** The lowest byte comes first: byte `i` counts 256 to the power of `i`. */
  lemma {:induction false} PutLowAt(w: nat, n: nat, i: nat)
    requires i < n
    ensures PutLow(w, n)[i] == w / Pow256(i) % 256
    decreases n
  {
    if i > 0 {
      PutLowAt(w / 256, n - 1, i - 1);
      DivInTwo(w, Pow256(i - 1));
    }
  }

  lemma DivInTwo(w: nat, p: nat)
    requires p > 0
    ensures w / (256 * p) == w / 256 / p
  {
    var q, r := w / 256 / p, w / 256 % p;
    DivMod(w / 256, p);
    assert q * (256 * p) == 256 * (q * p);
    DivModUnique(w, 256 * p, q, 256 * r + w % 256);
  }

  lemma LittleEndianMeans(w: Word, i: nat)
    requires i < 8
    ensures PutUint64(w)[i] == w / Pow256(i) % 256
    ensures Pow256(0) == 1 && (i > 0 ==> Pow256(i) == 256 * Pow256(i - 1))
  {
    PutLowAt(w, 8, i);
  }

  /** Eight bytes and one word determine each other. */
  lemma LittleEndianRoundTrips(w: Word, bs: seq<Byte>)
    requires |bs| == 8
    ensures ReadUint64(PutUint64(w)) == w
    ensures PutUint64(ReadUint64(bs)) == bs
  {
    assert Pow256(8) == MODULUS;
    hide PutLow, ReadAll, Pow256;
    ReadPut(w, 8);
    PutRead(bs);
  }
}
