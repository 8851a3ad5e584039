/**
 Excluding a row group by its Bloom filter. The filter is a sequence of blocks of eight 32-bit
 words; a hash selects a block with its upper half and one bit of each word with its lower half
 (split block Bloom filter of the Parquet format).
 */
module BloomFilter {

  const TWO_32: nat := 0x1_0000_0000
  const TWO_64: nat := 0x1_0000_0000_0000_0000
  const SALT: seq<nat> := [
    0x47b6137b, 0x44974d91, 0x8824ad5b, 0xa2b7289d, 0x705495c7, 0x2df1424b, 0x9efc4947, 0x5c6bfb31
  ]

  /** A 64-bit hash. */
  type Hash = x: nat | x < TWO_64

  /** A word is its bits. */
  type Word = w: seq<bool> | |w| == 32 witness seq(32, i => false)

  type Block = b: seq<Word> | |b| == 8 witness seq(8, i => seq(32, j => false))

  /** The bit of the i-th word: the upper five bits of a 32-bit product. */
  function Mask(x: nat, i: nat): (bit: nat)
    requires i < 8
    ensures bit < 32
  {
    var product := (x % TWO_32) * SALT[i] % TWO_32;
    product / 0x800_0000
  }

  function BlockInsert(b: Block, x: nat): Block {
    seq(8, i requires 0 <= i < 8 => SetBit(b[i], Mask(x, i)))
  }

  function SetBit(w: Word, bit: nat): Word
    requires bit < 32
  {
    w[bit := true]
  }

  predicate BlockCheck(b: Block, x: nat) {
    forall i :: 0 <= i < 8 ==> b[i][Mask(x, i)]
  }

  /** The block of a hash: neither the product nor the index overflows. */
  function BlockIndex(x: Hash, blocks: nat): (i: nat)
    requires 0 < blocks <= TWO_32
    ensures x / TWO_32 * blocks < TWO_64 && i < blocks
  {
    IndexBound(x / TWO_32, blocks);
    x / TWO_32 * blocks / TWO_32
  }

  lemma IndexBound(upper: nat, blocks: nat)
    requires upper < TWO_32 && 0 < blocks <= TWO_32
    ensures upper * blocks < TWO_64 && upper * blocks / TWO_32 < blocks
  {
    ScaledBound(upper, blocks, TWO_32);
  }

  lemma ScaledBound(upper: nat, blocks: nat, n: nat)
    requires upper < n && 0 < blocks <= n
    ensures upper * blocks < n * n && upper * blocks / n < blocks
  {
    var p := upper * blocks;
    assert p < n * blocks by {
      assert (n - upper) * blocks > 0;
    }
    Ordered(blocks, n, n);
    QuotientBound(p, blocks, n);
  }

  lemma QuotientBound(p: nat, blocks: nat, n: nat)
    requires n > 0 && p < n * blocks
    ensures p / n < blocks
  {
    var q, r := p / n, p % n;
    assert p == n * q + r;
    Ordered(blocks, q, n);
  }

  lemma Ordered(i: nat, j: nat, n: nat)
    ensures i <= j ==> n * i <= n * j
  {
  }

  /** Adding a hash to a block keeps what was in it. */
  lemma InsertKeeps(b: Block, x: nat, y: nat)
    ensures BlockCheck(BlockInsert(b, x), x)
    ensures BlockCheck(b, y) ==> BlockCheck(BlockInsert(b, x), y)
  {
    hide Mask;
    if BlockCheck(b, y) {
      forall i | 0 <= i < 8 ensures BlockInsert(b, x)[i][Mask(y, i)] {
      }
    }
  }

  /** The hash sets this bit of this word of this block. */
  predicate Sets(x: Hash, blocks: nat, b: nat, i: nat, bit: nat)
    requires 0 < blocks <= TWO_32 && i < 8
  {
    BlockIndex(x, blocks) == b && Mask(x, i) == bit
  }

  /** The bits of a filter are those of the hashes, and no others. */
  ghost predicate BitsAre(data: seq<Block>, hashes: set<Hash>)
    requires 0 < |data| <= TWO_32
  {
    forall b: nat, i: nat, bit: nat :: b < |data| && i < 8 && bit < 32 ==>
      (data[b][i][bit] <==> exists x :: x in hashes && Sets(x, |data|, b, i, bit))
  }

  lemma InsertBits(data: seq<Block>, hashes: set<Hash>, x: Hash)
    requires 0 < |data| <= TWO_32 && BitsAre(data, hashes)
    ensures
      var b := BlockIndex(x, |data|);
      BitsAre(data[b := BlockInsert(data[b], x)], hashes + {x})
  {
    hide Mask, BlockIndex;
    var b0 := BlockIndex(x, |data|);
    var after := data[b0 := BlockInsert(data[b0], x)];
    forall b: nat, i: nat, bit: nat | b < |data| && i < 8 && bit < 32
      ensures after[b][i][bit] <==> exists y :: y in hashes + {x} && Sets(y, |data|, b, i, bit)
    {
      assert after[b][i][bit] <==> data[b][i][bit] || Sets(x, |data|, b, i, bit);
      if Sets(x, |data|, b, i, bit) {
        assert x in hashes + {x};
      }
    }
  }

  class ParquetBloomFilter {
    var data: seq<Block>
    /** The hashes inserted so far. */
    ghost var inserted: set<Hash>

    ghost predicate Valid()
      reads this
    {
      && 0 < |data| <= TWO_32
      && forall x :: x in inserted ==> BlockCheck(data[BlockIndex(x, |data|)], x)
    }

    /** The filter was made from its hashes alone; one that was read from a file may hold other bits too. */
    ghost predicate Exact()
      reads this
    {
      Valid() && BitsAre(data, inserted)
    }

    constructor (blocks: nat)
      requires 0 < blocks <= TWO_32
      ensures Valid() && Exact() && inserted == {} && |data| == blocks
    {
      data := seq(blocks, i => seq(8, j => seq(32, k => false)));
      inserted := {};
    }

    method FilterInsert(x: Hash)
      requires Valid()
      modifies this
      ensures Valid() && inserted == old(inserted) + {x} && |data| == |old(data)|
      ensures old(Exact()) ==> Exact()
    {
      hide Mask, BlockIndex, BlockInsert, BlockCheck, BitsAre;
      if BitsAre(data, inserted) {
        InsertBits(data, inserted, x);
      }
      var i := BlockIndex(x, |data|);
      forall y | y in inserted
        ensures BlockCheck(data[i], y) ==> BlockCheck(BlockInsert(data[i], x), y)
      {
        InsertKeeps(data[i], x, y);
      }
      InsertKeeps(data[i], x, x);
      data := data[i := BlockInsert(data[i], x)];
      inserted := inserted + {x};
    }

    predicate FilterCheck(x: Hash)
      reads this
      requires Valid()
    {
      BlockCheck(data[BlockIndex(x, |data|)], x)
    }
  }

  // ---------------------------------------------------------------- filters

  /** A comparison with a constant, a conjunction, or any other filter; others are known by what they accept. */
  datatype TableFilter<!V> =
    | Comparison(isEqual: bool, accepts: V -> bool, constant: V)
    | And(children: seq<TableFilter<V>>)
    | Or(children: seq<TableFilter<V>>)
    | Other(accepts: V -> bool)

  /** Whether a value satisfies a filter, for the equality of the type of the values. */
  predicate Satisfies<V>(f: TableFilter<V>, equal: (V, V) -> bool, v: V) {
    match f
    case Comparison(isEqual, accepts, constant) => if isEqual then equal(v, constant) else accepts(v)
    case And(children) => forall c :: 0 <= c < |children| ==> Satisfies(children[c], equal, v)
    case Or(children) => exists c :: 0 <= c < |children| && Satisfies(children[c], equal, v)
    case Other(accepts) => accepts(v)
  }

  /** Two hashes that a filter of so many blocks cannot tell apart: they select the same block and the same bits. */
  predicate Alike(x: Hash, y: Hash, blocks: nat)
    requires 0 < blocks <= TWO_32
  {
    BlockIndex(x, blocks) == BlockIndex(y, blocks) && forall i :: 0 <= i < 8 ==> Mask(x, i) == Mask(y, i)
  }

  /** The constants of a filter that are equal to a value have no hash, or one that is like that of the value. */
  predicate HashesFit<V>(f: TableFilter<V>, equal: (V, V) -> bool, hash: V -> Hash, v: V, blocks: nat)
    requires 0 < blocks <= TWO_32
  {
    match f
    case Comparison(isEqual, _, constant) =>
      isEqual && equal(v, constant) && hash(constant) > 0 ==> Alike(hash(v), hash(constant), blocks)
    case And(children) => forall c :: 0 <= c < |children| ==> HashesFit(children[c], equal, hash, v, blocks)
    case Or(children) => forall c :: 0 <= c < |children| ==> HashesFit(children[c], equal, hash, v, blocks)
    case Other(_) => true
  }

  predicate HasFilterConstants<V>(f: TableFilter<V>) {
    match f
    case Comparison(isEqual, _, _) => isEqual
    case And(children) => exists c :: 0 <= c < |children| && HasFilterConstants(children[c])
    case Or(children) => exists c :: 0 <= c < |children| && HasFilterConstants(children[c])
    case Other(_) => false
  }

  /** Whether the filter says that no value in the Bloom filter can satisfy it. A hash of 0 means no hash. */
  predicate ApplyBloomFilter<V>(f: TableFilter<V>, bloom: ParquetBloomFilter, hash: V -> Hash)
    reads bloom
    requires bloom.Valid()
  {
    match f
    case Comparison(isEqual, _, constant) => hash(constant) > 0 && !bloom.FilterCheck(hash(constant)) && isEqual
    case And(children) => exists c :: 0 <= c < |children| && ApplyBloomFilter(children[c], bloom, hash)
    case Or(children) => forall c :: 0 <= c < |children| ==> ApplyBloomFilter(children[c], bloom, hash)
    case Other(_) => false
  }

  /** Excluding is sound: no value whose hash was inserted satisfies an excluded filter. */
  lemma {:induction false} ExclusionIsSound<V>(f: TableFilter<V>, bloom: ParquetBloomFilter,
                                               equal: (V, V) -> bool, hash: V -> Hash, v: V)
    requires bloom.Valid() && hash(v) in bloom.inserted && HashesFit(f, equal, hash, v, |bloom.data|)
    requires ApplyBloomFilter(f, bloom, hash)
    ensures !Satisfies(f, equal, v)
    decreases f
  {
    hide BlockCheck, BlockIndex, Alike;
    match f
    case Comparison(isEqual, accepts, constant) =>
      if equal(v, constant) {
        LikeIsFound(bloom, hash(v), hash(constant));
      }
    case And(children) =>
      var c :| 0 <= c < |children| && ApplyBloomFilter(children[c], bloom, hash);
      ExclusionIsSound(children[c], bloom, equal, hash, v);
    case Or(children) =>
      forall c | 0 <= c < |children| ensures !Satisfies(children[c], equal, v) {
        ExclusionIsSound(children[c], bloom, equal, hash, v);
      }
    case _ =>
  }

  lemma LikeIsFound(bloom: ParquetBloomFilter, x: Hash, y: Hash)
    requires bloom.Valid() && x in bloom.inserted
    ensures Alike(x, y, |bloom.data|) ==> bloom.FilterCheck(y)
  {
    hide Mask, BlockIndex;
  }

  // ---------------------------------------------------------------- what a filter holds

  /** A filter made by insertions finds a hash exactly if for each of its eight bits some inserted hash sets it. */
  lemma FoundExactly(bloom: ParquetBloomFilter, y: Hash)
    requires bloom.Exact()
    ensures
      var b := BlockIndex(y, |bloom.data|);
      bloom.FilterCheck(y) <==>
      forall i :: 0 <= i < 8 ==> exists x :: x in bloom.inserted && Sets(x, |bloom.data|, b, i, Mask(y, i))
  {
    hide Mask, BlockIndex, Sets;
    var b := BlockIndex(y, |bloom.data|);
    assert forall i :: 0 <= i < 8 ==>
      (bloom.data[b][i][Mask(y, i)] <==> exists x :: x in bloom.inserted && Sets(x, |bloom.data|, b, i, Mask(y, i)));
  }

  /**
   A value that satisfies an equality is the only one in a filter: the filter excludes the equality
   exactly if the constant has a hash, and one that selects another block or another bit.
   */
  lemma OnlyValueExcluded<V>(bloom: ParquetBloomFilter, accepts: V -> bool, constant: V,
                             equal: (V, V) -> bool, hash: V -> Hash, v: V)
    requires bloom.Exact() && bloom.inserted == {hash(v)} && equal(v, constant)
    ensures
      var f := Comparison(true, accepts, constant);
      && Satisfies(f, equal, v)
      && (ApplyBloomFilter(f, bloom, hash) <==> hash(constant) > 0 && !Alike(hash(v), hash(constant), |bloom.data|))
  {
    hide BlockCheck, Mask, BlockIndex;
    var x, y, n := hash(v), hash(constant), |bloom.data|;
    FoundExactly(bloom, y);
    forall i | 0 <= i < 8
      ensures (exists z :: z in bloom.inserted && Sets(z, n, BlockIndex(y, n), i, Mask(y, i))) <==>
              Sets(x, n, BlockIndex(y, n), i, Mask(y, i))
    {
      assert x in bloom.inserted;
    }
    assert Sets(x, n, BlockIndex(y, n), 0, Mask(y, 0)) ==> BlockIndex(x, n) == BlockIndex(y, n);
  }

  // The hash of a 64-bit value (XXH64 with seed 0), as far as a single word needs it.

  const PRIME_1: bv64 := 0x9E37_79B1_85EB_CA87
  const PRIME_2: bv64 := 0xC2B2_AE3D_27D4_EB4F
  const PRIME_3: bv64 := 0x1656_67B1_9E37_79F9
  const PRIME_4: bv64 := 0x85EB_CA77_C2B2_AE63
  const PRIME_5: bv64 := 0x27D4_EB2F_1656_67C5

  function Avalanche(h: bv64): bv64 {
    var a := (h ^ (h >> 33)) * PRIME_2;
    var b := (a ^ (a >> 29)) * PRIME_3;
    b ^ (b >> 32)
  }

  function HashBits(lane: bv64): bv64 {
    var round := (lane * PRIME_2).RotateLeft(31) * PRIME_1;
    Avalanche(((PRIME_5 + 8) ^ round).RotateLeft(27) * PRIME_1 + PRIME_4)
  }

  function Number(bits: bv64): Hash {
    bits as Hash
  }

  function HashWord(lane: bv64): Hash {
    Number(HashBits(lane))
  }

  /** The bits of the two zeros of type DOUBLE, which are equal. */
  const POSITIVE_ZERO: bv64 := 0
  const NEGATIVE_ZERO: bv64 := 0x8000_0000_0000_0000

  lemma HashesOfZeros()
    ensures HashWord(POSITIVE_ZERO) == 0x34c9_6acd_cadb_1bbb
    ensures HashWord(NEGATIVE_ZERO) == 0x3f42_5eac_f015_44e0
  {
    BitsOfZeros();
    hide HashBits;
  }

  lemma BitsOfZeros()
    ensures HashBits(POSITIVE_ZERO) == 0x34c9_6acd_cadb_1bbb
    ensures HashBits(NEGATIVE_ZERO) == 0x3f42_5eac_f015_44e0
  {
  }

  lemma FirstBit(x: Hash, bit: nat)
    requires bit == x % TWO_32 * 0x47b6137b % TWO_32 / 0x800_0000
    ensures Mask(x, 0) == bit
  {
  }

  /** A filter for a column that holds 0.0 alone excludes the equality with -0.0, whatever its size. */
  lemma ZeroIsExcluded(bloom: ParquetBloomFilter, accepts: bv64 -> bool, equal: (bv64, bv64) -> bool)
    requires bloom.Exact() && bloom.inserted == {HashWord(POSITIVE_ZERO)} && equal(POSITIVE_ZERO, NEGATIVE_ZERO)
    ensures
      var f := Comparison(true, accepts, NEGATIVE_ZERO);
      Satisfies(f, equal, POSITIVE_ZERO) && ApplyBloomFilter(f, bloom, HashWord)
  {
    hide BlockCheck, BlockIndex, HashWord, Mask;
    HashesOfZeros();
    FirstBit(0x34c9_6acd_cadb_1bbb, 9);
    FirstBit(0x3f42_5eac_f015_44e0, 0);
    OnlyValueExcluded(bloom, accepts, NEGATIVE_ZERO, equal, HashWord, POSITIVE_ZERO);
  }

  // ---------------------------------------------------------------- nothing more can be excluded

  /** Whether a filter holds, for given truths of its leaves. */
  predicate Holds<V>(f: TableFilter<V>, truth: TableFilter<V> -> bool) {
    match f
    case And(children) => forall c :: 0 <= c < |children| ==> Holds(children[c], truth)
    case Or(children) => exists c :: 0 <= c < |children| && Holds(children[c], truth)
    case _ => truth(f)
  }

  /** A leaf is refuted if it is an equality with a constant whose hash is not in the filter. */
  predicate Refuted<V>(leaf: TableFilter<V>, data: seq<Block>, hash: V -> Hash) {
    && leaf.Comparison? && leaf.isEqual && hash(leaf.constant) > 0
    && 0 < |data| <= TWO_32 && !BlockCheck(data[BlockIndex(hash(leaf.constant), |data|)], hash(leaf.constant))
  }

  /**
   A filter is excluded exactly if it cannot hold while its refuted leaves do not, whatever the others
   are: a conjunction as soon as one member is excluded, a disjunction only if all are.
   */
  lemma ExclusionExactly<V>(f: TableFilter<V>, bloom: ParquetBloomFilter, hash: V -> Hash)
    requires bloom.Valid()
    ensures ApplyBloomFilter(f, bloom, hash) <==>
      forall truth: TableFilter<V> -> bool ::
        (forall leaf :: Refuted(leaf, bloom.data, hash) ==> !truth(leaf)) ==> !Holds(f, truth)
  {
    hide BlockCheck, BlockIndex;
    var data := bloom.data;
    var most := (leaf: TableFilter<V>) => !Refuted(leaf, data, hash);
    MostHolds(f, bloom, hash, most);
    forall truth: TableFilter<V> -> bool | forall leaf :: Refuted(leaf, data, hash) ==> !truth(leaf)
      ensures Holds(f, truth) ==> Holds(f, most)
    {
      MoreHolds(f, truth, most);
    }
  }

  lemma {:induction false} MostHolds<V>(f: TableFilter<V>, bloom: ParquetBloomFilter, hash: V -> Hash,
                                        most: TableFilter<V> -> bool)
    requires bloom.Valid() && forall leaf :: most(leaf) <==> !Refuted(leaf, bloom.data, hash)
    ensures ApplyBloomFilter(f, bloom, hash) <==> !Holds(f, most)
    decreases f
  {
    hide BlockCheck, BlockIndex;
    match f
    case And(children) =>
      forall c | 0 <= c < |children| ensures ApplyBloomFilter(children[c], bloom, hash) <==> !Holds(children[c], most) {
        MostHolds(children[c], bloom, hash, most);
      }
    case Or(children) =>
      forall c | 0 <= c < |children| ensures ApplyBloomFilter(children[c], bloom, hash) <==> !Holds(children[c], most) {
        MostHolds(children[c], bloom, hash, most);
      }
    case _ =>
  }

  lemma {:induction false} MoreHolds<V>(f: TableFilter<V>, less: TableFilter<V> -> bool, more: TableFilter<V> -> bool)
    requires forall leaf :: less(leaf) ==> more(leaf)
    ensures Holds(f, less) ==> Holds(f, more)
    decreases f
  {
    match f
    case And(children) =>
      forall c | 0 <= c < |children| ensures Holds(children[c], less) ==> Holds(children[c], more) {
        MoreHolds(children[c], less, more);
      }
    case Or(children) =>
      forall c | 0 <= c < |children| ensures Holds(children[c], less) ==> Holds(children[c], more) {
        MoreHolds(children[c], less, more);
      }
    case _ =>
  }

  /** A conjunction with a member that is excluded is excluded, and a disjunction only with all of its members. */
  lemma JunctionsExcluded<V>(children: seq<TableFilter<V>>, i: nat, bloom: ParquetBloomFilter, hash: V -> Hash)
    requires bloom.Valid() && i < |children|
    ensures ApplyBloomFilter(children[i], bloom, hash) ==> ApplyBloomFilter(And(children), bloom, hash)
    ensures ApplyBloomFilter(Or(children), bloom, hash) ==> ApplyBloomFilter(children[i], bloom, hash)
  {
  }

  /** Without an equality nothing is excluded, but for disjunctions of nothing, which no value satisfies. */
  predicate HasEmptyOr<V>(f: TableFilter<V>) {
    match f
    case And(children) => exists c :: 0 <= c < |children| && HasEmptyOr(children[c])
    case Or(children) => children == [] || exists c :: 0 <= c < |children| && HasEmptyOr(children[c])
    case _ => false
  }

  lemma {:induction false} ExclusionNeedsConstants<V>(f: TableFilter<V>, bloom: ParquetBloomFilter, hash: V -> Hash)
    requires bloom.Valid() && ApplyBloomFilter(f, bloom, hash)
    ensures HasFilterConstants(f) || HasEmptyOr(f)
    decreases f
  {
    hide BlockCheck, BlockIndex;
    match f
    case And(children) =>
      var c :| 0 <= c < |children| && ApplyBloomFilter(children[c], bloom, hash);
      ExclusionNeedsConstants(children[c], bloom, hash);
    case Or(children) =>
      if children != [] {
        ExclusionNeedsConstants(children[0], bloom, hash);
      }
    case _ =>
  }

  /** The leaves of a filter, from the first to the last. */
  function Leaves<V>(f: TableFilter<V>): seq<TableFilter<V>>
    decreases f, 0
  {
    match f
    case And(children) => LeavesOf(children)
    case Or(children) => LeavesOf(children)
    case _ => [f]
  }

  function LeavesOf<V>(fs: seq<TableFilter<V>>): seq<TableFilter<V>>
    decreases fs
  {
    if fs == [] then [] else Leaves(fs[0]) + LeavesOf(fs[1..])
  }

  predicate AnyEquality<V>(leaves: seq<TableFilter<V>>) {
    exists i :: 0 <= i < |leaves| && leaves[i].Comparison? && leaves[i].isEqual
  }

  lemma AnyOfTwo<V>(a: seq<TableFilter<V>>, b: seq<TableFilter<V>>)
    ensures AnyEquality(a + b) <==> AnyEquality(a) || AnyEquality(b)
  {
    if AnyEquality(a) {
      var i :| 0 <= i < |a| && a[i].Comparison? && a[i].isEqual;
      assert (a + b)[i] == a[i];
    }
    if AnyEquality(b) {
      var i :| 0 <= i < |b| && b[i].Comparison? && b[i].isEqual;
      assert (a + b)[|a| + i] == b[i];
    }
  }

  /** A filter has constants to look for exactly if some leaf of it is an equality. */
  lemma {:induction false} ConstantsExactly<V>(f: TableFilter<V>)
    ensures HasFilterConstants(f) <==> AnyEquality(Leaves(f))
    decreases f, 0
  {
    hide AnyEquality;
    match f
    case And(children) => ConstantsOf(children);
    case Or(children) => ConstantsOf(children);
    case _ => OneLeaf(f);
  }

  lemma OneLeaf<V>(f: TableFilter<V>)
    ensures AnyEquality([f]) <==> f.Comparison? && f.isEqual
  {
    assert [f][0] == f;
  }

  lemma {:induction false} ConstantsOf<V>(fs: seq<TableFilter<V>>)
    ensures AnyEquality(LeavesOf(fs)) <==> exists c :: 0 <= c < |fs| && HasFilterConstants(fs[c])
    decreases fs
  {
    hide AnyEquality, HasFilterConstants, Leaves;
    if fs == [] {
      NoLeaves<V>();
    } else {
      ConstantsExactly(fs[0]);
      ConstantsOf(fs[1..]);
      AnyOfTwo(Leaves(fs[0]), LeavesOf(fs[1..]));
      forall c | 0 < c < |fs| ensures fs[c] == fs[1..][c - 1] {
      }
      if c :| 0 <= c < |fs[1..]| && HasFilterConstants(fs[1..][c]) {
        assert HasFilterConstants(fs[c + 1]);
      }
    }
  }

  lemma NoLeaves<V>()
    ensures !AnyEquality<V>([])
  {
  }

  // The numbers of the format.

  /** The block: the upper half of the hash, as a fraction of 2^32, of all blocks. */
  lemma BlockIndexIs(x: Hash, blocks: nat)
    requires 0 < blocks <= TWO_32
    ensures
      var product := x / 0x1_0000_0000 * blocks;
      BlockIndex(x, blocks) * 0x1_0000_0000 <= product < (BlockIndex(x, blocks) + 1) * 0x1_0000_0000
  {
  }

  /** The bit: the upper five bits of the lower half of a product. */
  lemma MaskIs(x: Hash, i: nat)
    requires i < 8
    ensures
      var low := x % 0x1_0000_0000 * SALT[i] % 0x1_0000_0000;
      Mask(x, i) * 0x800_0000 <= low < (Mask(x, i) + 1) * 0x800_0000
    ensures SALT == [
      0x47b6137b, 0x44974d91, 0x8824ad5b, 0xa2b7289d, 0x705495c7, 0x2df1424b, 0x9efc4947, 0x5c6bfb31]
  {
  }
}
