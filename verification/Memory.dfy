/** Byte memory with little-endian words, shared by the context switch, the trap path and the
    ELF loader. */
module Memory {
  import opened Util

  type Byte = b: int | 0 <= b < 256

  /** Bytes by address; an address that is not mentioned holds zero. */
  type Mem = map<int, Byte>

  function Peek(m: Mem, a: int): Byte {
    if a in m then m[a] else 0
  }

  function Read(m: Mem, a: int, n: nat): (r: seq<Byte>)
    ensures |r| == n && forall i | 0 <= i < n :: r[i] == Peek(m, a + i)
  {
    seq<Byte>(n, i => Peek(m, a + i))
  }

  function Write(m: Mem, a: int, bs: seq<Byte>): (r: Mem)
    ensures forall b :: Peek(r, b) == if a <= b < a + |bs| then bs[b - a] else Peek(m, b)
    decreases |bs|
  {
    if bs == [] then m else Write(m[a := bs[0]], a + 1, bs[1..])
  }

  // ------------------------------------------------------------------ little-endian numbers

  function Pow256(n: nat): nat {
    if n == 0 then 1 else 256 * Pow256(n - 1)
  }

  function Le(bs: seq<Byte>): nat {
    if bs == [] then 0 else bs[0] + 256 * Le(bs[1..])
  }

  function Bytes(v: nat, n: nat): (r: seq<Byte>)
    ensures |r| == n
  {
    if n == 0 then [] else [v % 256] + Bytes(v / 256, n - 1)
  }

  lemma {:induction false} LeBounded(bs: seq<Byte>)
    ensures Le(bs) < Pow256(|bs|)
  {
    if bs != [] {
      LeBounded(bs[1..]);
    }
  }

  lemma {:induction false} LeOfBytes(v: nat, n: nat)
    requires v < Pow256(n)
    ensures Le(Bytes(v, n)) == v
  {
    if n > 0 {
      LeOfBytes(v / 256, n - 1);
      assert Bytes(v, n)[1..] == Bytes(v / 256, n - 1);
    }
  }

  lemma WordBytes()
    ensures Pow256(8) == U64
  {
    assert Pow256(4) == 0x1_0000_0000;
  }

  lemma LeFrom(bs: seq<Byte>, k: nat)
    requires k < |bs|
    ensures Le(bs[k..]) == bs[k] + 256 * Le(bs[k + 1..])
  {
    assert bs[k..][1..] == bs[k + 1..];
  }

  /** Byte k of a number counts 256^k: the numbers of 2, 4 and 8 bytes written out. */
  lemma LittleEndian(bs: seq<Byte>)
    ensures |bs| == 2 ==> Le(bs) == Digits(bs, 0)
    ensures |bs| == 4 ==> Le(bs) == Digits(bs, 0) + 0x1_0000 * Digits(bs, 2)
    ensures |bs| == 8 ==>
              Le(bs) == Digits(bs, 0) + 0x1_0000 * Digits(bs, 2) + 0x1_0000_0000 * Digits(bs, 4)
                        + 0x1_0000_0000_0000 * Digits(bs, 6)
  {
    hide Le;
    var n := |bs|;
    LeOfNothing();
    assert bs[0..] == bs && bs[n..] == [];
    forall k | 0 <= k < n - 1 ensures Le(bs[k..]) == Digits(bs, k) + 0x1_0000 * Le(bs[k + 2..]) {
      LeFrom(bs, k);
      LeFrom(bs, k + 1);
    }
  }

  /** Two bytes, the second of which counts 256. */
  function Digits(bs: seq<Byte>, k: nat): nat
    requires k + 1 < |bs|
  {
    bs[k] as int + 0x100 * bs[k + 1] as int
  }

  lemma LeOfNothing()
    ensures Le([]) == 0
  {
  }

  // ------------------------------------------------------------------ 64-bit words

  function Load64(m: Mem, a: int): (r: Word) {
    var bs := Read(m, a, 8);
    LeBounded(bs);
    WordBytes();
    Le(bs)
  }

  function Store64(m: Mem, a: int, v: Word): Mem {
    Write(m, a, Bytes(v, 8))
  }

  lemma LoadStored(m: Mem, a: int, v: Word)
    ensures Load64(Store64(m, a, v), a) == v
  {
    WordBytes();
    LeOfBytes(v, 8);
    assert Read(Store64(m, a, v), a, 8) == Bytes(v, 8);
  }

  /** Two memories that agree on eight bytes load the same word there. */
  lemma LoadAgrees(m: Mem, n: Mem, a: int)
    requires forall b | a <= b < a + 8 :: Peek(m, b) == Peek(n, b)
    ensures Load64(m, a) == Load64(n, a)
  {
    assert Read(m, a, 8) == Read(n, a, 8);
  }

  // ------------------------------------------------------------------ blocks of words

  /** vals stored one after the other from address a up. */
  function SaveWords(m: Mem, a: int, vals: seq<Word>): Mem
    decreases |vals|
  {
    if vals == [] then m else SaveWords(Store64(m, a, vals[0]), a + 8, vals[1..])
  }

  lemma {:induction false} SaveFrame(m: Mem, a: int, vals: seq<Word>, b: int)
    requires b < a || b >= a + 8 * |vals|
    ensures Peek(SaveWords(m, a, vals), b) == Peek(m, b)
    decreases |vals|
  {
    if vals != [] {
      SaveFrame(Store64(m, a, vals[0]), a + 8, vals[1..], b);
    }
  }

  /** Every word of a saved block reads back, whatever was there before. */
  lemma {:induction false} LoadSaved(m: Mem, a: int, vals: seq<Word>, k: nat)
    requires k < |vals|
    ensures Load64(SaveWords(m, a, vals), a + 8 * k) == vals[k]
    decreases |vals|
  {
    var first := Store64(m, a, vals[0]);
    if k == 0 {
      forall b | a <= b < a + 8 ensures Peek(SaveWords(first, a + 8, vals[1..]), b) == Peek(first, b) {
        SaveFrame(first, a + 8, vals[1..], b);
      }
      LoadAgrees(SaveWords(first, a + 8, vals[1..]), first, a);
      LoadStored(m, a, vals[0]);
    } else {
      LoadSaved(first, a + 8, vals[1..], k - 1);
    }
  }

  function LoadWords(m: Mem, a: int, n: nat): (r: seq<Word>)
    ensures |r| == n && forall k | 0 <= k < n :: r[k] == Load64(m, a + 8 * k)
  {
    seq<Word>(n, k => Load64(m, a + 8 * k))
  }

  lemma LoadAllSaved(m: Mem, a: int, vals: seq<Word>)
    ensures LoadWords(SaveWords(m, a, vals), a, |vals|) == vals
  {
    forall k | 0 <= k < |vals| ensures Load64(SaveWords(m, a, vals), a + 8 * k) == vals[k] {
      LoadSaved(m, a, vals, k);
    }
  }

  /** A block is unaffected by changes elsewhere. */
  lemma LoadWordsAgree(m: Mem, n: Mem, a: int, count: nat)
    requires forall b | a <= b < a + 8 * count :: Peek(m, b) == Peek(n, b)
    ensures LoadWords(m, a, count) == LoadWords(n, a, count)
  {
    forall k | 0 <= k < count ensures Load64(m, a + 8 * k) == Load64(n, a + 8 * k) {
      LoadAgrees(m, n, a + 8 * k);
    }
  }
}
