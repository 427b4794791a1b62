/**
 * Constants and decoded on-page structures of a B-tree index page, as the
 * page validator of src/index.c reads them.
 *
 * The validator reads a raw page buffer through storage-engine macros whose
 * definitions are not part of this model (VARSIZE_ANY, IndexTupleSize,
 * att_isnull, P_ISLEAF, ...). Their results are modelled here as already
 * decoded fields, or as views of the buffer indexed by byte offset.
 */
module Layout {

  /** Size of a disk block in bytes (BLCKSZ). */
  const BlockSize: int := 8192

  /** Block number of the B-tree meta page (BTREE_METAPAGE). */
  const MetaPageBlock: nat := 0

  /** Expected meta page magic number (BTREE_MAGIC). */
  const BTreeMagic: int := 0x053162

  /** Expected meta page version (BTREE_VERSION). */
  const BTreeVersion: int := 2

  /**
   * `sizeof(BTPageOpaque)` as the special-space check computes it.
   * BTPageOpaque is declared as a pointer type, so this is the size of a pointer on a
   * 64-bit build, not the size of the B-tree trailer it points to.
   */
  const OpaquePointerSize: int := 8

  /** Alignment of MAXALIGN (MAXIMUM_ALIGNOF on a 64-bit build). */
  const MaxAlignOf: int := 8

  /** Upper bound the validator applies to the raw size of a compressed value: 1024*1024. */
  const MaxRawSize: int := 1024 * 1024

  /** The two-bit state of a line pointer (lp_flags). */
  datatype LpFlag = LpUnused | LpNormal | LpRedirect | LpDead

  /** A line pointer: where a tuple lives in the page (lp_off, lp_len, lp_flags). */
  datatype ItemId = ItemId(off: nat, len: nat, flags: LpFlag)

  /** One past the last byte of the line pointer's range: lp_off + lp_len. */
  function End(lp: ItemId): int
  {
    lp.off + lp.len
  }

  /** The meta page fields the validator compares (btm_magic, btm_version). */
  datatype MetaPageData = MetaPageData(magic: int, version: int)

  /**
   * The B-tree trailer at pd_special, already decoded: btpo.level, the
   * results of P_ISLEAF and P_ISDELETED, and P_FIRSTDATAKEY.
   */
  datatype PageOpaque = PageOpaque(level: nat, isLeaf: bool, isDeleted: bool, firstDataKey: nat)

  /**
   * A page as the validator sees it: pd_special, the line pointer array
   * pd_linp[0 .. PageGetMaxOffsetNumber), and the meta page data and the
   * trailer read out of the same buffer.
   */
  datatype Page = Page(special: nat, linp: seq<ItemId>, meta: MetaPageData, trailer: PageOpaque)

  /** The alignment class of an attribute (attalign: 'c', 's', 'i', 'd'). */
  datatype AlignClass = AlignChar | AlignShort | AlignInt | AlignDouble

  /** One attribute descriptor of the index relation (attlen, attbyval, attalign). */
  datatype Attribute = Attribute(attlen: int, attbyval: bool, attalign: AlignClass)

  /** A variable-length attribute stored with a length header (varlena): attlen == -1. */
  predicate IsVarlena(att: Attribute)
  {
    !att.attbyval && att.attlen == -1
  }

  /** Any variable-width attribute: a varlena, or a null-terminated C string (attlen == -2). */
  predicate IsVarwidth(att: Attribute)
  {
    !att.attbyval && att.attlen < 0
  }

  /**
   * The descriptors the validator can walk: a by-value attribute has a
   * non-negative length, so a fixed length is never negative (the debug
   * assertion at src/index.c:325).
   */
  predicate SchemaOk(atts: seq<Attribute>)
  {
    forall j :: 0 <= j < |atts| ==> (atts[j].attbyval ==> atts[j].attlen >= 0)
  }

  /**
   * The page buffer, read through the decoding macros. Each view takes the
   * byte offset in the page at which the macro is applied.
   *   tupleSize(p)     IndexTupleSize of the index tuple at p
   *   dataOffset(p)    IndexInfoFindDataOffset of its t_info
   *   hasNulls(p)      IndexTupleHasNulls of the tuple at p
   *   attIsNull(p, j)  att_isnull(j, bitmap) for the tuple at p
   *   varSize(p)       VARSIZE_ANY of the varlena at p
   *   isCompressed(p)  VARATT_IS_COMPRESSED of the varlena at p
   *   rawSize(p)       VARRAWSIZE_4B_C of the varlena at p
   *   nulDistance(p)   number of bytes before the first zero byte at p
   */
  datatype PageBytes = PageBytes(
    tupleSize: int -> nat,
    dataOffset: int -> nat,
    hasNulls: int -> bool,
    attIsNull: (int, nat) -> bool,
    varSize: int -> int,
    isCompressed: int -> bool,
    rawSize: int -> int,
    nulDistance: int -> nat)

  /** Number of bytes per alignment class. */
  function AlignOf(c: AlignClass): int
  {
    match c
    case AlignChar => 1
    case AlignShort => 2
    case AlignInt => 4
    case AlignDouble => 8
  }

  /**
   * Rounds x up to a multiple of a (TYPEALIGN): the smallest multiple of a
   * that is not below x.
   */
  function AlignUp(x: nat, a: int): (r: nat)
    requires a > 0
    ensures x <= r < x + a
    ensures r % a == 0
  {
    var q := (x + a - 1) / a;
    assert q * a == x + a - 1 - (x + a - 1) % a;
    assert (q * a) % a == 0 by { MultipleModZero(q, a); }
    q * a
  }

  lemma MultipleModZero(q: int, a: int)
    requires a > 0
    ensures (q * a) % a == 0
  {
    var m := q * a;
    var k := q - m / a;
    assert m == a * (m / a) + m % a;
    assert a * k == m % a;
  }

  /** MAXALIGN: rounds up to the largest alignment the platform uses. */
  function MaxAlign(x: nat): (r: nat)
    ensures x <= r < x + MaxAlignOf && r % MaxAlignOf == 0
  {
    AlignUp(x, MaxAlignOf)
  }

  /**
   * The BlockNum macro: the block number of a heap pointer from its high
   * and low 16-bit halves (bi_hi << 16 | bi_lo).
   */
  function BlockNum(hi: bv16, lo: bv16): (b: bv32)
    ensures (b >> 16) as bv16 == hi
    ensures (b & 0xFFFF) as bv16 == lo
  {
    ((hi as bv32) << 16) | (lo as bv32)
  }
}
