/**
 * The attribute walk of check_index_tuple_attributes: the attributes of one
 * index tuple, in schema order, with a running byte offset.
 */
module Attributes {
  import opened Layout

  /**
   * strnlen on a string with `dist` bytes before its terminator, scanning at
   * most `maxlen` bytes. The bound is a size_t in C: a negative bound wraps
   * round to a huge one and no longer limits the scan.
   */
  function StrnLen(dist: nat, maxlen: int): (n: nat)
    ensures n <= dist
    ensures 0 <= maxlen ==> n <= maxlen
    ensures n < dist ==> n == maxlen
  {
    if maxlen < 0 || dist <= maxlen then dist else maxlen
  }

  /**
   * Length of a C-string attribute at `off`, terminator included, scanning
   * no further than the tuple end. An attribute not terminated inside the
   * tuple gets the length `remaining space + 1`, so it overflows the tuple.
   */
  function CStringLength(bytes: PageBytes, off: nat, tupleEnd: int): (len: nat)
    ensures off <= tupleEnd ==> 1 <= len <= tupleEnd - off + 1
    ensures off <= tupleEnd ==> (len == tupleEnd - off + 1 <==> bytes.nulDistance(off) >= tupleEnd - off)
  {
    StrnLen(bytes.nulDistance(off), tupleEnd - off) + 1
  }

  /**
   * The C-string length as src/index.c:319 writes it: the scan bound
   * `lp_off + len + lp_len - off` reads `len` before it is assigned, so it
   * holds whatever the stack slot holds (`stale`).
   */
  function CStringLengthAsWritten(bytes: PageBytes, off: nat, lp: ItemId, stale: int): (len: nat)
    ensures len >= 1
    ensures stale == 0 ==> len == CStringLength(bytes, off, End(lp))
  {
    StrnLen(bytes.nulDistance(off), lp.off + stale + lp.len - off) + 1
  }

  /**
   * With a stale value of minus the remaining space the as-written bound is
   * zero: an unterminated 20-byte string in a 10-byte remainder gets length
   * 1 and passes the overflow check, where the bounded scan gives 11 and the
   * overflow is reported.
   */
  lemma StaleBoundHidesOverflow()
    ensures var bytes := PageBytes(p => 0, p => 0, p => false, (p, j) => false,
                                   p => 0, p => false, p => 0, p => 20);
            var lp := ItemId(100, 10, LpNormal);
            && CStringLengthAsWritten(bytes, 100, lp, -10) == 1
            && !(100 + CStringLengthAsWritten(bytes, 100, lp, -10) > End(lp))
            && CStringLength(bytes, 100, End(lp)) == 11
            && 100 + CStringLength(bytes, 100, End(lp)) > End(lp)
  {
  }

  /** Is attribute j of the tuple at `lp` marked null in the tuple's null bitmap? */
  predicate IsNullAttribute(bytes: PageBytes, lp: ItemId, j: nat)
  {
    bytes.hasNulls(lp.off) && bytes.attIsNull(lp.off, j)
  }

  /**
   * The length the walk determines for a non-null attribute stored at `off`:
   * VARSIZE_ANY for a varlena, the bounded C-string length for any other
   * variable-width attribute, attlen otherwise. Only a varlena can come out
   * negative, and a C string takes at most the rest of the tuple plus one.
   */
  function DecodedLength(bytes: PageBytes, att: Attribute, off: nat, tupleEnd: int): (len: int)
    ensures !IsVarlena(att) && (att.attbyval ==> att.attlen >= 0) ==> len >= 0
    ensures IsVarwidth(att) && !IsVarlena(att) && off <= tupleEnd ==> 1 <= len <= tupleEnd - off + 1
  {
    if IsVarlena(att) then bytes.varSize(off)
    else if IsVarwidth(att) then CStringLength(bytes, off, tupleEnd)
    else att.attlen
  }

  /** One error for a compressed varlena whose raw size lies outside [0, MaxRawSize]. */
  function RawSizeErrors(bytes: PageBytes, att: Attribute, off: nat): (n: nat)
    ensures n <= 1
    ensures n == 1 <==>
      IsVarlena(att) && bytes.isCompressed(off) && !(0 <= bytes.rawSize(off) <= MaxRawSize)
  {
    if IsVarlena(att) && bytes.isCompressed(off) && (bytes.rawSize(off) < 0 || bytes.rawSize(off) > MaxRawSize)
    then 1 else 0
  }

  /** The outcome of one round of the attribute loop: go on at `off`, or break at `off`. */
  datatype Step = Next(off: nat, errors: nat) | Stop(off: nat, errors: nat)

  /** One round of the attribute loop for attribute j, entered with running offset `off`. */
  function AttrStep(bytes: PageBytes, lp: ItemId, att: Attribute, j: nat, off: nat, dlen: int): (s: Step)
    requires att.attbyval ==> att.attlen >= 0
    ensures s.off >= off && s.errors <= 2
    ensures s.Stop? ==> s.errors >= 1
    ensures dlen > 0 && off <= End(lp) && s.Next? ==> s.off <= End(lp)
    ensures dlen <= 0 && !IsVarlena(att) ==> s.Next? && s.errors == 0
    ensures dlen <= 0 && s.Stop? ==> IsVarlena(att) && s.errors == 1
  {
    if IsNullAttribute(bytes, lp, j) then Next(off, 0)
    else
      var o := AlignUp(off, AlignOf(att.attalign));
      var len := DecodedLength(bytes, att, o, End(lp));
      if IsVarlena(att) && len < 0 then Stop(o, 1)
      else
        assert len >= 0;
        var e := RawSizeErrors(bytes, att, o);
        if dlen > 0 && o + len > End(lp) then Stop(o, e + 1)
        else Next(if dlen > 0 then o + len else o, e)
  }

  /** Where the attribute walk ends: errors reported, final offset, and whether it broke off. */
  datatype Walked = Walked(errors: nat, off: nat, halted: bool)

  /** The attribute loop from attribute j on, entered with running offset `off`. */
  function Walk(bytes: PageBytes, lp: ItemId, atts: seq<Attribute>, j: nat, off: nat, dlen: int): (w: Walked)
    requires j <= |atts| && SchemaOk(atts)
    decreases |atts| - j
  {
    if j == |atts| then Walked(0, off, false)
    else
      match AttrStep(bytes, lp, atts[j], j, off, dlen)
      case Stop(o, e) => Walked(e, o, true)
      case Next(o, e) =>
        var rest := Walk(bytes, lp, atts, j + 1, o, dlen);
        Walked(e + rest.errors, rest.off, rest.halted)
  }

  /**
   * The walk never moves the offset backwards; it reports at most one error
   * per attribute plus one; it breaks off only after reporting an error; and
   * on a tuple with attribute bytes, a walk that starts inside the tuple and
   * runs to the last attribute ends inside the tuple.
   */
  lemma {:induction false} WalkBounds(bytes: PageBytes, lp: ItemId, atts: seq<Attribute>, j: nat, off: nat, dlen: int)
    requires j <= |atts| && SchemaOk(atts)
    decreases |atts| - j
    ensures var w := Walk(bytes, lp, atts, j, off, dlen);
      && w.off >= off
      && w.errors <= |atts| - j + 1
      && (w.halted ==> w.errors >= 1)
      && (dlen > 0 && off <= End(lp) && !w.halted ==> w.off <= End(lp))
  {
    if j < |atts| {
      var s := AttrStep(bytes, lp, atts[j], j, off, dlen);
      if s.Next? {
        WalkBounds(bytes, lp, atts, j + 1, s.off, dlen);
      }
    }
  }

  /** A null attribute consumes no bytes and reports nothing: the walk goes on at the same offset. */
  lemma NullAttributeSkipped(bytes: PageBytes, lp: ItemId, atts: seq<Attribute>, j: nat, off: nat, dlen: int)
    requires j < |atts| && SchemaOk(atts)
    requires IsNullAttribute(bytes, lp, j)
    ensures Walk(bytes, lp, atts, j, off, dlen) == Walk(bytes, lp, atts, j + 1, off, dlen)
  {
  }

  /**
   * A varlena with a negative length reports exactly one error and ends the
   * walk at its aligned offset, whatever attributes follow it.
   */
  lemma NegativeVarlenaHalts(bytes: PageBytes, lp: ItemId, atts: seq<Attribute>, j: nat, off: nat, dlen: int)
    requires j < |atts| && SchemaOk(atts)
    requires !IsNullAttribute(bytes, lp, j) && IsVarlena(atts[j])
    requires bytes.varSize(AlignUp(off, AlignOf(atts[j].attalign))) < 0
    ensures Walk(bytes, lp, atts, j, off, dlen) == Walked(1, AlignUp(off, AlignOf(atts[j].attalign)), true)
    ensures Walk(bytes, lp, atts[..j + 1], j, off, dlen) == Walk(bytes, lp, atts, j, off, dlen)
  {
    assert atts[..j + 1][j] == atts[j];
  }

  /**
   * When the tuple has attribute bytes (dlen > 0) and an attribute would end
   * past lp_off + lp_len, the walk reports one overflow error (after a
   * possible raw-size error of the same attribute) and ends at its aligned
   * offset, whatever attributes follow it.
   */
  lemma OverflowHalts(bytes: PageBytes, lp: ItemId, atts: seq<Attribute>, j: nat, off: nat, dlen: int)
    requires j < |atts| && SchemaOk(atts)
    requires !IsNullAttribute(bytes, lp, j)
    requires var o := AlignUp(off, AlignOf(atts[j].attalign));
      var len := DecodedLength(bytes, atts[j], o, End(lp));
      !(IsVarlena(atts[j]) && len < 0) && dlen > 0 && o + len > End(lp)
    ensures var o := AlignUp(off, AlignOf(atts[j].attalign));
      Walk(bytes, lp, atts, j, off, dlen) == Walked(RawSizeErrors(bytes, atts[j], o) + 1, o, true)
    ensures Walk(bytes, lp, atts[..j + 1], j, off, dlen) == Walk(bytes, lp, atts, j, off, dlen)
  {
    assert atts[..j + 1][j] == atts[j];
  }

  /**
   * An attribute that is neither null, nor a negative varlena, nor an
   * overflow: its raw-size error (if any) is counted and the walk goes on
   * at `next`, the aligned offset `o` advanced by the length `len` when
   * dlen > 0, and `o` itself otherwise.
   */
  lemma AttributeAdvances(bytes: PageBytes, lp: ItemId, atts: seq<Attribute>, j: nat, off: nat, dlen: int,
                          o: nat, len: int, next: nat)
    requires j < |atts| && SchemaOk(atts)
    requires !IsNullAttribute(bytes, lp, j)
    requires o == AlignUp(off, AlignOf(atts[j].attalign))
    requires len == DecodedLength(bytes, atts[j], o, End(lp))
    requires !(IsVarlena(atts[j]) && len < 0) && !(dlen > 0 && o + len > End(lp))
    requires next == if dlen > 0 then o + len else o
    ensures Walk(bytes, lp, atts, j, off, dlen) == Resume(RawSizeErrors(bytes, atts[j], o), Walk(bytes, lp, atts, j + 1, next, dlen))
  {
  }

  /** A walk's result after `errors` more errors have been reported before it. */
  function Resume(errors: nat, w: Walked): Walked
  {
    Walked(errors + w.errors, w.off, w.halted)
  }

  /** Where the walk of a tuple starts: lp_off plus the offset of its attribute data. */
  function DataStart(bytes: PageBytes, lp: ItemId): nat
  {
    lp.off + bytes.dataOffset(lp.off)
  }

  /** The first data key of a non-leaf page with no attribute bytes is not walked. */
  predicate SkipsFirstDataKey(page: Page, offnum: nat, dlen: int)
  {
    !page.trailer.isLeaf && offnum == page.trailer.firstDataKey && dlen == 0
  }

  /**
   * The errors of check_index_tuple_attributes for the tuple of line pointer
   * offnum (counted from 1): those of the walk, plus one when the walk ends,
   * after MAXALIGN, beyond the tuple end.
   */
  function AttributeErrors(page: Page, bytes: PageBytes, atts: seq<Attribute>, offnum: nat, dlen: int): (n: nat)
    requires 1 <= offnum <= |page.linp| && SchemaOk(atts)
    ensures SkipsFirstDataKey(page, offnum, dlen) ==> n == 0
    ensures n <= |atts| + 2
  {
    if SkipsFirstDataKey(page, offnum, dlen) then 0
    else
      var lp := page.linp[offnum - 1];
      var w := Walk(bytes, lp, atts, 0, DataStart(bytes, lp), dlen);
      WalkBounds(bytes, lp, atts, 0, DataStart(bytes, lp), dlen);
      w.errors + (if MaxAlign(w.off) > End(lp) then 1 else 0)
  }

  /**
   * The final MAXALIGN check runs after a break too: when the first
   * attribute is a non-null varlena with a negative length, the tuple gets
   * that one error, plus one more exactly when the aligned offset where the
   * walk stopped lies, after MAXALIGN, beyond the tuple end.
   */
  lemma NegativeFirstVarlena(page: Page, bytes: PageBytes, atts: seq<Attribute>, offnum: nat, dlen: int)
    requires 1 <= offnum <= |page.linp| && SchemaOk(atts) && |atts| > 0
    requires !SkipsFirstDataKey(page, offnum, dlen)
    requires var lp := page.linp[offnum - 1];
      !IsNullAttribute(bytes, lp, 0) && IsVarlena(atts[0]) &&
      bytes.varSize(AlignUp(DataStart(bytes, lp), AlignOf(atts[0].attalign))) < 0
    ensures var lp := page.linp[offnum - 1];
      var o := AlignUp(DataStart(bytes, lp), AlignOf(atts[0].attalign));
      AttributeErrors(page, bytes, atts, offnum, dlen) == 1 + (if MaxAlign(o) > End(lp) then 1 else 0)
  {
    var lp := page.linp[offnum - 1];
    NegativeVarlenaHalts(bytes, lp, atts, 0, DataStart(bytes, lp), dlen);
  }

  /**
   * A tuple with no attribute errors was walked to its last attribute and
   * its final offset, after MAXALIGN, lies within the tuple.
   */
  lemma CleanTupleEndsInside(page: Page, bytes: PageBytes, atts: seq<Attribute>, offnum: nat, dlen: int)
    requires 1 <= offnum <= |page.linp| && SchemaOk(atts)
    requires !SkipsFirstDataKey(page, offnum, dlen)
    requires AttributeErrors(page, bytes, atts, offnum, dlen) == 0
    ensures var lp := page.linp[offnum - 1];
      var w := Walk(bytes, lp, atts, 0, DataStart(bytes, lp), dlen);
      !w.halted && MaxAlign(w.off) <= End(lp)
  {
    var lp := page.linp[offnum - 1];
    WalkBounds(bytes, lp, atts, 0, DataStart(bytes, lp), dlen);
  }

  /**
   * The walk from attribute j on, entered at `off`, meets nothing to report:
   * every non-null attribute, aligned, is not a varlena of negative length,
   * not a compressed varlena whose raw size lies outside [0, MaxRawSize], and
   * (when the tuple has attribute bytes) does not end past the tuple end.
   */
  predicate Clean(bytes: PageBytes, lp: ItemId, atts: seq<Attribute>, j: nat, off: nat, dlen: int)
    requires j <= |atts| && SchemaOk(atts)
    decreases |atts| - j
  {
    if j == |atts| then true
    else if IsNullAttribute(bytes, lp, j) then Clean(bytes, lp, atts, j + 1, off, dlen)
    else
      var att := atts[j];
      var o := AlignUp(off, AlignOf(att.attalign));
      var len := DecodedLength(bytes, att, o, End(lp));
      && !(IsVarlena(att) && len < 0)
      && !(IsVarlena(att) && bytes.isCompressed(o) && !(0 <= bytes.rawSize(o) <= MaxRawSize))
      && !(dlen > 0 && o + len > End(lp))
      && Clean(bytes, lp, atts, j + 1, if dlen > 0 then o + len else o, dlen)
  }

  /**
   * The walk reports no error exactly when it meets nothing to report, and
   * then it runs to the last attribute.
   */
  lemma {:induction false} WalkErrorFreeIffClean(bytes: PageBytes, lp: ItemId, atts: seq<Attribute>, j: nat, off: nat, dlen: int)
    requires j <= |atts| && SchemaOk(atts)
    decreases |atts| - j
    ensures Walk(bytes, lp, atts, j, off, dlen).errors == 0 <==> Clean(bytes, lp, atts, j, off, dlen)
    ensures Clean(bytes, lp, atts, j, off, dlen) ==> !Walk(bytes, lp, atts, j, off, dlen).halted
  {
    if j < |atts| {
      var att := atts[j];
      if IsNullAttribute(bytes, lp, j) {
        WalkErrorFreeIffClean(bytes, lp, atts, j + 1, off, dlen);
      } else {
        var o := AlignUp(off, AlignOf(att.attalign));
        var len := DecodedLength(bytes, att, o, End(lp));
        if !(IsVarlena(att) && len < 0) {
          WalkErrorFreeIffClean(bytes, lp, atts, j + 1, if dlen > 0 then o + len else o, dlen);
        }
      }
    }
  }

  /**
   * A tuple gets no attribute error exactly when it is the skipped first data
   * key, or its walk meets nothing to report and ends, after MAXALIGN,
   * within the tuple.
   */
  lemma TupleErrorFreeIff(page: Page, bytes: PageBytes, atts: seq<Attribute>, offnum: nat, dlen: int)
    requires 1 <= offnum <= |page.linp| && SchemaOk(atts)
    ensures var lp := page.linp[offnum - 1];
      AttributeErrors(page, bytes, atts, offnum, dlen) == 0 <==>
        || SkipsFirstDataKey(page, offnum, dlen)
        || (&& Clean(bytes, lp, atts, 0, DataStart(bytes, lp), dlen)
            && MaxAlign(Walk(bytes, lp, atts, 0, DataStart(bytes, lp), dlen).off) <= End(lp))
  {
    var lp := page.linp[offnum - 1];
    WalkErrorFreeIffClean(bytes, lp, atts, 0, DataStart(bytes, lp), dlen);
  }

  /** The number of varlena attributes among atts[j..]. */
  function VarlenaCount(atts: seq<Attribute>, j: nat): (n: nat)
    requires j <= |atts|
    decreases |atts| - j
    ensures n <= |atts| - j
  {
    if j == |atts| then 0 else (if IsVarlena(atts[j]) then 1 else 0) + VarlenaCount(atts, j + 1)
  }

  /**
   * Without attribute bytes (dlen <= 0) the walk never reports an overflow:
   * it breaks off only at a varlena (one of negative length), and it
   * reports at most one error per varlena. So with no varlena attribute,
   * only the final MAXALIGN check can fail.
   */
  lemma {:induction false} NoDataOnlyVarlenaErrors(bytes: PageBytes, lp: ItemId, atts: seq<Attribute>, j: nat, off: nat, dlen: int)
    requires j <= |atts| && SchemaOk(atts) && dlen <= 0
    decreases |atts| - j
    ensures Walk(bytes, lp, atts, j, off, dlen).errors <= VarlenaCount(atts, j)
    ensures Walk(bytes, lp, atts, j, off, dlen).halted ==> exists k :: j <= k < |atts| && IsVarlena(atts[k])
  {
    if j < |atts| {
      var s := AttrStep(bytes, lp, atts[j], j, off, dlen);
      if s.Next? {
        NoDataOnlyVarlenaErrors(bytes, lp, atts, j + 1, s.off, dlen);
      }
    }
  }

  /** check_index_tuple_attributes. */
  method CheckIndexTupleAttributes(page: Page, bytes: PageBytes, atts: seq<Attribute>, offnum: nat, dlen: int)
    returns (nerrs: nat)
    requires 1 <= offnum <= |page.linp| && SchemaOk(atts)
    ensures nerrs == AttributeErrors(page, bytes, atts, offnum, dlen)
  {
    nerrs := 0;
    var linp := page.linp[offnum - 1];
    var trailer := page.trailer;
    var off: int := linp.off + bytes.dataOffset(linp.off);

    if !trailer.isLeaf && offnum == trailer.firstDataKey && dlen == 0 {
      return;
    }

    ghost var whole := Walk(bytes, linp, atts, 0, off, dlen);
    assert AttributeErrors(page, bytes, atts, offnum, dlen) ==
      whole.errors + (if MaxAlign(whole.off) > End(linp) then 1 else 0);
    for j := 0 to |atts|
      invariant off >= 0
      invariant Resume(nerrs, Walk(bytes, linp, atts, j, off, dlen)) == whole
    {
      var attr := atts[j];
      var len: int;
      var isVarlena := !attr.attbyval && attr.attlen == -1;
      var isVarwidth := !attr.attbyval && attr.attlen < 0;
      ghost var start, errorsBefore := off, nerrs;

      if bytes.hasNulls(linp.off) && bytes.attIsNull(linp.off, j) {
        NullAttributeSkipped(bytes, linp, atts, j, start, dlen);
        continue;
      }

      off := AlignUp(off, AlignOf(attr.attalign));

      if isVarlena {
        len := bytes.varSize(off);
        if len < 0 {
          nerrs := nerrs + 1;
          NegativeVarlenaHalts(bytes, linp, atts, j, start, dlen);
          assert whole == Walked(nerrs, off, true);
          break;
        }
        if bytes.isCompressed(off) {
          if bytes.rawSize(off) < 0 || bytes.rawSize(off) > MaxRawSize {
            nerrs := nerrs + 1;
          }
        }
      } else if isVarwidth {
        len := CStringLength(bytes, off, End(linp));
      } else {
        len := attr.attlen;
      }
      assert len == DecodedLength(bytes, attr, off, End(linp));
      assert nerrs == errorsBefore + RawSizeErrors(bytes, attr, off);

      if dlen > 0 && off + len > End(linp) {
        nerrs := nerrs + 1;
        OverflowHalts(bytes, linp, atts, j, start, dlen);
        assert whole == Walked(nerrs, off, true);
        break;
      }

      ghost var aligned := off;
      off := off + (if dlen > 0 then len else 0);
      AttributeAdvances(bytes, linp, atts, j, start, dlen, aligned, len, off);
    }
    assert nerrs == whole.errors && off == whole.off;

    if MaxAlign(off) > End(linp) {
      nerrs := nerrs + 1;
    }
  }
}
