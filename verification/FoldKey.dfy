/** The key folding of the `aes_encrypt_mysql` and `aes_decrypt_mysql` requirements: a key longer
    than the cipher needs is XORed, block by block, into one block. */
module FoldKey {

  import opened Text

  type Byte = bv8

  function Xor(a: Byte, b: Byte): Byte {
    a ^ b
  }

  lemma XorRegroup(a: Byte, b: Byte, c: Byte)
    ensures Xor(a, Xor(b, c)) == Xor(Xor(a, b), c) && Xor(a, b) == Xor(b, a) && Xor(a, 0) == a
  {
  }

  /** XOR of all bytes whose index is `j` modulo `n`. */
  function XorAt(key: seq<Byte>, j: nat, n: nat): Byte
    requires 0 < n
  {
    if key == [] then 0
    else
      var last := |key| - 1;
      Xor(XorAt(key[..last], j, n), if last % n == j then key[last] else 0)
  }

  function Folded(key: seq<Byte>, n: nat): (r: seq<Byte>)
    requires 0 < n
    ensures |r| == n
  {
    seq(n, j requires 0 <= j < n => XorAt(key, j, n))
  }

  lemma SmallMod(i: nat, n: nat)
    requires i < n
    ensures i % n == i
  {
  }

  /** A key of at most one block is its own fold. */
  lemma {:induction false} ShortKey(key: seq<Byte>, j: nat, n: nat)
    requires 0 < n && |key| <= n
    ensures XorAt(key, j, n) == if j < |key| then key[j] else 0
  {
    if key != [] {
      var last := |key| - 1;
      SmallMod(last, n);
      ShortKey(key[..last], j, n);
    }
  }

  lemma XorExtend(key: seq<Byte>, i: nat, j: nat, n: nat)
    requires 0 < n && i < |key|
    ensures XorAt(key[..i + 1], j, n) == Xor(XorAt(key[..i], j, n), if i % n == j then key[i] else 0)
  {
    assert key[..i + 1][..i] == key[..i];
  }

  datatype FoldError = ZeroDivision | TupleAssignment

  /** The loop of the requirement text. A zero size divides by zero as soon as there is a byte to fold; a
      key given as a tuple stays one, so folding into it raises. Otherwise each byte of the result is the
      XOR of its residue class, for short and long keys alike. The key itself is only read. */
  method FoldKey(key: array<Byte>, isTuple: bool, n: nat) returns (folded: array<Byte>, error: Option<FoldError>)
    ensures error == if n == 0 && key.Length > 0 then Some(ZeroDivision)
                     else if isTuple && n < key.Length then Some(TupleAssignment)
                     else None
    ensures error.None? ==> fresh(folded) && folded.Length == if n < key.Length then n else key.Length
    ensures error.None? && 0 < n ==> forall j | 0 <= j < folded.Length :: folded[j] == XorAt(key[..], j, n)
    ensures key[..] == old(key[..])
  {
    hide XorAt, Xor;
    var size := if n < key.Length then n else key.Length;
    folded := new Byte[size](i requires 0 <= i < key.Length reads key => key[i]);
    error := None;
    if n == 0 {
      if key.Length > 0 {
        error := Some(ZeroDivision);
      }
      return;
    }
    forall j | 0 <= j < size ensures folded[j] == XorAt(key[..size], j, n) {
      ShortKey(key[..size], j, n);
    }
    for i := size to key.Length
      invariant fresh(folded) && key[..] == old(key[..])
      invariant forall j | 0 <= j < size :: folded[j] == XorAt(key[..i], j, n)
      invariant isTuple ==> i == size
    {
      if isTuple {
        return folded, Some(TupleAssignment);
      }
      FoldOne(key, i, n, folded);
    }
    assert key[..key.Length] == key[..];
  }

  /** One byte: XORed into the entry its index falls on. */
  method FoldOne(key: array<Byte>, i: nat, n: nat, folded: array<Byte>)
    requires 0 < n == folded.Length && i < key.Length && key != folded
    requires forall j | 0 <= j < n :: folded[j] == XorAt(key[..i], j, n)
    modifies folded
    ensures forall j | 0 <= j < n :: folded[j] == XorAt(key[..i + 1], j, n)
  {
    hide XorAt, Xor;
    forall j | 0 <= j < n
      ensures XorAt(key[..i + 1], j, n) == Xor(XorAt(key[..i], j, n), if i % n == j then key[i] else 0)
    {
      XorExtend(key[..], i, j, n);
      assert key[..][..i + 1] == key[..i + 1] && key[..][..i] == key[..i];
      XorRegroup(XorAt(key[..i], j, n), 0, 0);
    }
    var entry := i % n;
    folded[entry] := Xor(folded[entry], key[i]);
    forall j | 0 <= j < n && j != entry ensures folded[j] == XorAt(key[..i + 1], j, n) {
      XorRegroup(folded[j], 0, 0);
    }
  }

  // ----- laws of folding

  lemma MulAtLeast(n: nat, d: int)
    requires 0 < n
    ensures d >= 1 ==> n * d >= n
    ensures d <= -1 ==> n * d + n <= 0
  {
  }

  /** Quotient and remainder are unique. */
  lemma ModUnique(q: int, r: nat, n: nat)
    requires r < n
    ensures (n * q + r) % n == r
  {
    var x := n * q + r;
    var d := q - x / n;
    assert x == n * (x / n) + x % n;
    assert n * d == x % n - r;
    MulAtLeast(n, d);
  }

  lemma ModAfterBlocks(whole: nat, m: nat, n: nat)
    requires 0 < n && whole % n == 0
    ensures (whole + m) % n == m % n
  {
    var q := whole / n + m / n;
    assert whole == n * (whole / n) && m == n * (m / n) + m % n;
    assert n * q == n * (whole / n) + n * (m / n);
    ModUnique(q, m % n, n);
  }

  /** A key of this length is made of whole blocks. */
  predicate WholeBlocks(length: nat, n: nat)
    requires 0 < n
  {
    length % n == 0
  }

  /** Folding whole blocks followed by anything is the XOR of the two folds. */
  lemma {:induction false} XorAtConcat(a: seq<Byte>, b: seq<Byte>, j: nat, n: nat)
    requires 0 < n && WholeBlocks(|a|, n)
    ensures XorAt(a + b, j, n) == Xor(XorAt(a, j, n), XorAt(b, j, n))
    decreases |b|
  {
    hide Xor;
    if b == [] {
      assert a + b == a;
      XorRegroup(XorAt(a, j, n), 0, 0);
    } else {
      var last := |b| - 1;
      assert (a + b)[..|a| + last] == a + b[..last];
      XorAtConcat(a, b[..last], j, n);
      ModAfterBlocks(|a|, last, n);
      XorRegroup(XorAt(a, j, n), XorAt(b[..last], j, n), if last % n == j then b[last] else 0);
    }
  }

  function XorSeq(a: seq<Byte>, b: seq<Byte>): seq<Byte>
    requires |a| == |b|
  {
    seq(|a|, i requires 0 <= i < |a| => Xor(a[i], b[i]))
  }

  /** The fold of whole blocks followed by any key is the XOR of the two folds. */
  lemma FoldConcat(a: seq<Byte>, b: seq<Byte>, n: nat)
    requires 0 < n && WholeBlocks(|a|, n)
    ensures Folded(a + b, n) == XorSeq(Folded(a, n), Folded(b, n))
  {
    hide XorAt, Xor;
    forall j | 0 <= j < n ensures XorAt(a + b, j, n) == Xor(XorAt(a, j, n), XorAt(b, j, n)) {
      XorAtConcat(a, b, j, n);
    }
  }

  lemma XorSelf(x: Byte)
    ensures Xor(x, x) == 0
  {
  }

  /** Whole blocks followed by themselves fold to zeros: every byte is its own inverse. */
  lemma SelfFoldIsZero(key: seq<Byte>, n: nat)
    requires 0 < n && WholeBlocks(|key|, n)
    ensures Folded(key + key, n) == Repeat(0 as Byte, n)
  {
    hide XorAt, Xor;
    FoldConcat(key, key, n);
    forall j | 0 <= j < n ensures Folded(key + key, n)[j] == 0 {
      XorSelf(Folded(key, n)[j]);
    }
  }

  // ----- permuting blocks

  predicate Blocks(blocks: seq<seq<Byte>>, n: nat) {
    forall block | block in blocks :: |block| == n
  }

  function Concat(blocks: seq<seq<Byte>>): seq<Byte> {
    if blocks == [] then [] else Concat(blocks[..|blocks| - 1]) + blocks[|blocks| - 1]
  }

  /** XOR of column `j` over all blocks. */
  function XorColumn(blocks: seq<seq<Byte>>, j: nat, n: nat): Byte
    requires Blocks(blocks, n) && j < n
  {
    if blocks == [] then 0
    else
      var last := |blocks| - 1;
      assert blocks[last] in blocks && forall block | block in blocks[..last] :: block in blocks;
      Xor(XorColumn(blocks[..last], j, n), blocks[last][j])
  }

  lemma OneMoreBlock(length: nat, n: nat)
    requires 0 < n && WholeBlocks(length, n)
    ensures WholeBlocks(length + n, n)
  {
    ModAfterBlocks(length, n, n);
    ModUnique(1, 0, n);
  }

  lemma {:induction false} ConcatIsWhole(blocks: seq<seq<Byte>>, n: nat)
    requires 0 < n && Blocks(blocks, n)
    ensures WholeBlocks(|Concat(blocks)|, n)
  {
    ModUnique(0, 0, n);
    assert WholeBlocks(0, n);
    hide WholeBlocks;
    if blocks != [] {
      var last := |blocks| - 1;
      assert blocks[last] in blocks && forall block | block in blocks[..last] :: block in blocks;
      ConcatIsWhole(blocks[..last], n);
      OneMoreBlock(|Concat(blocks[..last])|, n);
    }
  }

  lemma {:induction false} FoldIsColumnXor(blocks: seq<seq<Byte>>, j: nat, n: nat)
    requires 0 < n && Blocks(blocks, n) && j < n
    ensures XorAt(Concat(blocks), j, n) == XorColumn(blocks, j, n)
  {
    hide Xor, XorAt;
    if blocks == [] {
      assert XorAt([], j, n) == 0 by { ShortKey([], j, n); }
    } else {
      var last := |blocks| - 1;
      assert blocks[last] in blocks && forall block | block in blocks[..last] :: block in blocks;
      FoldIsColumnXor(blocks[..last], j, n);
      ConcatIsWhole(blocks[..last], n);
      XorAtConcat(Concat(blocks[..last]), blocks[last], j, n);
      ShortKey(blocks[last], j, n);
    }
  }

  function Without(blocks: seq<seq<Byte>>, i: nat): (r: seq<seq<Byte>>)
    requires i < |blocks|
    ensures |r| == |blocks| - 1
    ensures multiset(r) == multiset(blocks) - multiset{blocks[i]}
  {
    assert blocks == blocks[..i] + [blocks[i]] + blocks[i + 1..];
    blocks[..i] + blocks[i + 1..]
  }

  /** The last block stays last unless it is the one taken out. */
  lemma WithoutShape(blocks: seq<seq<Byte>>, i: nat)
    requires i < |blocks|
    ensures forall block | block in Without(blocks, i) :: block in blocks
    ensures i == |blocks| - 1 ==> Without(blocks, i) == blocks[..|blocks| - 1]
    ensures i < |blocks| - 1 ==>
              var last := |blocks| - 1;
              Without(blocks, i)[..last - 1] == Without(blocks[..last], i) && Without(blocks, i)[last - 1] == blocks[last]
              && blocks[..last][i] == blocks[i]
  {
  }

  lemma SwapLast(x: Byte, a: Byte, b: Byte)
    ensures Xor(Xor(x, a), b) == Xor(Xor(x, b), a)
  {
  }

  lemma ColumnLast(blocks: seq<seq<Byte>>, j: nat, n: nat)
    requires Blocks(blocks, n) && j < n && blocks != []
    ensures var last := |blocks| - 1;
            Blocks(blocks[..last], n) && |blocks[last]| == n
            && XorColumn(blocks, j, n) == Xor(XorColumn(blocks[..last], j, n), blocks[last][j])
  {
    hide Xor;
    assert blocks[|blocks| - 1] in blocks;
  }

  /** A block contributes the same wherever it stands. */
  lemma {:induction false} TakeOut(blocks: seq<seq<Byte>>, i: nat, j: nat, n: nat)
    requires Blocks(blocks, n) && j < n && i < |blocks|
    ensures Blocks(Without(blocks, i), n)
    ensures |blocks[i]| == n
    ensures XorColumn(blocks, j, n) == Xor(XorColumn(Without(blocks, i), j, n), blocks[i][j])
    decreases |blocks|
  {
    hide Xor, XorColumn, Without;
    var last := |blocks| - 1;
    var fewer := Without(blocks, i);
    ColumnLast(blocks, j, n);
    WithoutShape(blocks, i);
    assert blocks[i] in blocks;
    assert forall block | block in fewer :: block in blocks;
    if i == last {
      assert fewer == blocks[..last];
    } else {
      TakeOut(blocks[..last], i, j, n);
      ColumnLast(fewer, j, n);
      SwapLast(XorColumn(Without(blocks[..last], i), j, n), blocks[i][j], blocks[last][j]);
    }
  }

  lemma {:induction false} ColumnOfPermutation(a: seq<seq<Byte>>, b: seq<seq<Byte>>, j: nat, n: nat)
    requires Blocks(a, n) && Blocks(b, n) && j < n
    requires multiset(a) == multiset(b)
    ensures XorColumn(a, j, n) == XorColumn(b, j, n)
    decreases |a|
  {
    assert |a| == |multiset(a)| && |b| == |multiset(b)|;
    if a != [] {
      var last := |a| - 1;
      assert a[last] in multiset(b);
      var i :| 0 <= i < |b| && b[i] == a[last];
      TakeOut(a, last, j, n);
      TakeOut(b, i, j, n);
      ColumnOfPermutation(Without(a, last), Without(b, i), j, n);
    }
  }

  /** Reordering whole blocks of a key does not change its fold. */
  lemma FoldOfPermutedBlocks(a: seq<seq<Byte>>, b: seq<seq<Byte>>, n: nat)
    requires 0 < n && Blocks(a, n) && Blocks(b, n)
    requires multiset(a) == multiset(b)
    ensures Folded(Concat(a), n) == Folded(Concat(b), n)
  {
    hide XorAt;
    forall j | 0 <= j < n ensures XorAt(Concat(a), j, n) == XorAt(Concat(b), j, n) {
      FoldIsColumnXor(a, j, n);
      FoldIsColumnXor(b, j, n);
      ColumnOfPermutation(a, b, j, n);
    }
  }
}
