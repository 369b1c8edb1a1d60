/** Bytes, and numbers stored in them with the least significant byte first. */
module Bytes {

  type byte = b: nat | b < 256

  function Pow256(k: nat): (p: nat)
    ensures p >= 1
  {
    if k == 0 then 1 else 256 * Pow256(k - 1)
  }

  const WORD: nat := 0x1_0000_0000

  function Le(v: nat, k: nat): (s: seq<byte>)
    ensures |s| == k
  {
    if k == 0 then [] else [v % 256] + Le(v / 256, k - 1)
  }

  function FromLe(s: seq<byte>): nat {
    if s == [] then 0 else s[0] + 256 * FromLe(s[1..])
  }

  lemma Pow256Of4()
    ensures Pow256(4) == WORD
  {}

  lemma ModSplit(v: nat, p: nat)
    requires p >= 1
    ensures v % (256 * p) == v % 256 + 256 * (v / 256 % p)
  {
    var q := v / 256;
    var d := q / p;
    assert v == v % 256 + 256 * (q % p) + (256 * p) * d by {
      assert q == q % p + p * d;
    }
    var r := v % 256 + 256 * (q % p);
    assert q % p <= p - 1;
    assert 0 <= r < 256 * p;
    ModUnique(v, 256 * p, d, r);
  }

  lemma ModUnique(v: int, p: int, d: int, r: int)
    requires 0 <= r < p && v == r + p * d
    ensures v % p == r
  {
    var e := v / p - d;
    assert p * e == r - v % p by {
      assert v == v % p + p * (v / p);
      assert p * (v / p) - p * d == p * e;
    }
    assert e >= 1 ==> p * e >= p;
    assert e <= -1 ==> p * e <= -p;
  }

  /** What is stored in `k` bytes comes back modulo 256 to the `k`. */
  lemma {:induction false} LeRead(v: nat, k: nat)
    ensures FromLe(Le(v, k)) == v % Pow256(k)
  {
    if k > 0 {
      assert Le(v, k)[1..] == Le(v / 256, k - 1);
      LeRead(v / 256, k - 1);
      ModSplit(v, Pow256(k - 1));
    }
  }

  lemma {:induction false} FromLeBound(s: seq<byte>)
    ensures FromLe(s) < Pow256(|s|)
  {
    if s != [] { FromLeBound(s[1..]); }
  }

  // ---------------------------------------------------------------- words in a memory block

  function U32(m: seq<byte>, o: nat): (v: nat)
    requires o + 4 <= |m|
    ensures v < WORD
  {
    FromLeBound(m[o..o + 4]);
    Pow256Of4();
    FromLe(m[o..o + 4])
  }

  function Put(m: seq<byte>, o: nat, s: seq<byte>): (r: seq<byte>)
    requires o + |s| <= |m|
    ensures |r| == |m|
  {
    m[..o] + s + m[o + |s|..]
  }

  function PutU32(m: seq<byte>, o: nat, v: nat): (r: seq<byte>)
    requires o + 4 <= |m|
    ensures |r| == |m|
  {
    Put(m, o, Le(v, 4))
  }

  lemma PutHere(m: seq<byte>, o: nat, v: nat)
    requires o + 4 <= |m| && v < WORD
    ensures U32(PutU32(m, o, v), o) == v
  {
    assert PutU32(m, o, v)[o..o + 4] == Le(v, 4);
    LeRead(v, 4);
    Pow256Of4();
  }

  lemma PutElsewhere(m: seq<byte>, o: nat, v: nat, p: nat)
    requires o + 4 <= |m| && p + 4 <= |m| && (p + 4 <= o || o + 4 <= p)
    ensures U32(PutU32(m, o, v), p) == U32(m, p)
  {
    assert PutU32(m, o, v)[p..p + 4] == m[p..p + 4];
  }

  lemma PutByte(m: seq<byte>, o: nat, v: nat, b: nat)
    requires o + 4 <= |m| && b < |m| && (b < o || o + 4 <= b)
    ensures PutU32(m, o, v)[b] == m[b]
  {}

  lemma SameWord(m: seq<byte>, w: seq<byte>, o: nat)
    requires |m| == |w| && o + 4 <= |m| && forall b :: o <= b < o + 4 ==> m[b] == w[b]
    ensures U32(m, o) == U32(w, o)
  {
    assert m[o..o + 4] == w[o..o + 4];
  }

  method ReadU32(mem: array<byte>, o: nat) returns (v: nat)
    requires o + 4 <= mem.Length
    ensures v == U32(mem[..], o)
  {
    var b0: nat, b1: nat, b2: nat, b3: nat := mem[o], mem[o + 1], mem[o + 2], mem[o + 3];
    v := b0 + 256 * (b1 + 256 * (b2 + 256 * b3));
    FourBytes(mem[..][o..o + 4]);
  }

  lemma FourBytes(s: seq<byte>)
    requires |s| == 4
    ensures FromLe(s) == s[0] as nat + 256 * (s[1] as nat + 256 * (s[2] as nat + 256 * s[3] as nat))
  {
    var t1, t2, t3 := s[1..], s[2..], s[3..];
    assert t1[1..] == t2 && t2[1..] == t3 && t3[1..] == [];
    assert FromLe(t3) == s[3];
    assert FromLe(t2) == s[2] as nat + 256 * FromLe(t3);
    assert FromLe(t1) == s[1] as nat + 256 * FromLe(t2);
  }

  method WriteU32(mem: array<byte>, o: nat, v: nat)
    requires o + 4 <= mem.Length
    modifies mem
    ensures mem[..] == PutU32(old(mem[..]), o, v)
  {
    var d := v / 256;
    var e := d / 256;
    mem[o], mem[o + 1], mem[o + 2], mem[o + 3] := v % 256, d % 256, e % 256, e / 256 % 256;
    var f := e / 256;
    assert Le(f, 1) == [f % 256] + Le(f / 256, 0);
    assert Le(e, 2) == [e % 256] + Le(f, 1);
    assert Le(d, 3) == [d % 256] + Le(e, 2);
    assert Le(v, 4) == [v % 256] + Le(d, 3);
  }
}
