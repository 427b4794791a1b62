/**
 * The tuple-level checks of a B-tree index page: check_index_tuple for one
 * slot (the overlap loop, then the attribute walk of an LP_NORMAL slot) and
 * check_index_tuples over all the slots of the page.
 */
module Tuples {
  import opened Layout
  import opened Overlap
  import opened Attributes

  /**
   * dlen of the tuple that line pointer lp locates: IndexTupleSize minus
   * the offset of its attribute data. It may be zero or negative.
   */
  function DataLength(bytes: PageBytes, lp: ItemId): (dlen: int)
    ensures DataStart(bytes, lp) + dlen == lp.off + bytes.tupleSize(lp.off)
  {
    bytes.tupleSize(lp.off) - bytes.dataOffset(lp.off)
  }

  /**
   * The errors check_index_tuple reports for slot i: its overlap errors,
   * plus the errors of its attributes when the slot is LP_NORMAL.
   */
  function TupleErrors(page: Page, bytes: PageBytes, atts: seq<Attribute>, i: nat): (n: nat)
    requires i < |page.linp| && SchemaOk(atts)
    ensures n >= OverlapErrors(page.linp, i)
    ensures page.linp[i].flags != LpNormal ==> n == OverlapErrors(page.linp, i)
  {
    OverlapErrors(page.linp, i) +
      (if page.linp[i].flags == LpNormal
       then AttributeErrors(page, bytes, atts, i + 1, DataLength(bytes, page.linp[i]))
       else 0)
  }

  /**
   * The errors check_index_tuples has added up after slots 0 .. n-1: their
   * overlap errors plus the attribute errors of the LP_NORMAL ones.
   */
  function TuplesErrors(page: Page, bytes: PageBytes, atts: seq<Attribute>, n: nat): (r: nat)
    requires n <= |page.linp| && SchemaOk(atts)
    ensures r == OverlapTotal(page.linp, n) + AttributeTotal(page, bytes, atts, n)
  {
    if n == 0 then 0 else TuplesErrors(page, bytes, atts, n - 1) + TupleErrors(page, bytes, atts, n - 1)
  }

  /** The attribute errors of the LP_NORMAL slots among 0 .. n-1. */
  function AttributeTotal(page: Page, bytes: PageBytes, atts: seq<Attribute>, n: nat): nat
    requires n <= |page.linp| && SchemaOk(atts)
  {
    if n == 0 then 0
    else
      var lp := page.linp[n - 1];
      AttributeTotal(page, bytes, atts, n - 1) +
        (if lp.flags == LpNormal then AttributeErrors(page, bytes, atts, n, DataLength(bytes, lp)) else 0)
  }

  /** check_index_tuple for slot i (0-based; the attribute walk gets offnum i + 1). */
  method CheckIndexTuple(page: Page, bytes: PageBytes, atts: seq<Attribute>, i: nat) returns (nerrs: nat)
    requires i < |page.linp| && SchemaOk(atts)
    ensures nerrs == TupleErrors(page, bytes, atts, i)
  {
    nerrs := 0;
    var lp := page.linp[i];
    var dlen := DataLength(bytes, lp);

    var a := lp.off;
    var b := lp.off + lp.len;

    for j := 0 to i
      invariant nerrs == CountConflicts(page.linp, i, j)
    {
      var lp2 := page.linp[j];
      if !(lp2.flags == LpNormal) {
        continue;
      }
      var c := lp2.off;
      var d := lp2.off + lp2.len;
      if (a < c && c < b) || (a < d && d < b) || (c < a && a < d) || (c < b && b < d) {
        nerrs := nerrs + 1;
      }
    }

    if lp.flags == LpNormal {
      var attributeErrors := CheckIndexTupleAttributes(page, bytes, atts, i + 1, dlen);
      nerrs := nerrs + attributeErrors;
    }
  }

  /** check_index_tuples: the errors of every slot of the page, added up. */
  method CheckIndexTuples(page: Page, bytes: PageBytes, atts: seq<Attribute>) returns (nerrs: nat)
    requires SchemaOk(atts)
    ensures nerrs == TuplesErrors(page, bytes, atts, |page.linp|)
  {
    var ntuples := |page.linp|;
    nerrs := 0;
    for i := 0 to ntuples
      invariant nerrs == TuplesErrors(page, bytes, atts, i)
    {
      var tupleErrors := CheckIndexTuple(page, bytes, atts, i);
      nerrs := nerrs + tupleErrors;
    }
  }

  /**
   * What check_index_tuples returns: one error per reported pair of slots
   * (each counted once, at its higher index) plus the attribute errors of
   * the LP_NORMAL slots.
   */
  lemma PageTupleErrors(page: Page, bytes: PageBytes, atts: seq<Attribute>)
    requires SchemaOk(atts)
    ensures TuplesErrors(page, bytes, atts, |page.linp|) ==
      |ReportedPairs(page.linp, |page.linp|)| + AttributeTotal(page, bytes, atts, |page.linp|)
  {
    OverlapTotalCountsPairsOnce(page.linp, |page.linp|);
  }
}
