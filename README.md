# B-tree index page validator, modelled in Dafny

This project models the index-page checks of pg_check (`src/index.c`). The
validator reads one page of a B-tree index and counts structural errors.
It changes nothing on the page. There are four checks:

- `check_index_page` checks the page as a whole. On the meta page (block 0)
  it checks the magic number and the version, each on its own. On any other
  page it checks that `pd_special` leaves room for `sizeof(BTPageOpaque)`
  bytes, and, unless the page is deleted, that the page is a leaf exactly
  when its level is 0.
- `check_index_tuples` adds up the errors of every slot of the page.
- `check_index_tuple` compares slot i's range `[lp_off, lp_off + lp_len]`
  with each earlier `LP_NORMAL` slot, using a four-way strict test. When
  slot i itself is `LP_NORMAL`, it then walks the slot's attributes.
- `check_index_tuple_attributes` walks one tuple's attributes in schema
  order and keeps a running offset. It skips null attributes and aligns the
  offset. It gets each length in one of three ways: varlena size, C-string
  length, or fixed `attlen`. It reports:
  - a negative varlena length, which stops the walk;
  - a compressed raw size outside `[0, 1024*1024]`, after which the walk
    goes on;
  - an attribute that runs past the tuple end when `dlen > 0`, which stops
    the walk;
  - after the loop, a `MAXALIGN`ed end offset beyond the tuple end.

  The first data key of a non-leaf page with `dlen == 0` is not walked at all.

Each C function is a Dafny method that mirrors its statements and its
`nerrs` increments: `PageCheck.CheckIndexPage`, `Tuples.CheckIndexTuples`,
`Tuples.CheckIndexTuple` and `Attributes.CheckIndexTupleAttributes`. Each
method is proved equal to a specification function, and lemmas prove what
those functions promise:

- `MetaErrors`, `SpecialSpaceErrors` and `LevelErrors` for the page check;
- `OverlapErrors` and `OverlapTotal` for the overlap test;
- `Walk` and `AttributeErrors` for the attribute walk;
- `TupleErrors` and `TuplesErrors` for the per-slot and page totals.

The page buffer is modelled as decoded views indexed by byte offset
(`Layout.PageBytes`): `VARSIZE_ANY`, `VARATT_IS_COMPRESSED`,
`VARRAWSIZE_4B_C`, the distance to the next zero byte, `IndexTupleSize`,
`IndexInfoFindDataOffset`, `IndexTupleHasNulls` and `att_isnull`. The trailer
is decoded the same way: level, `P_ISLEAF`, `P_ISDELETED` and
`P_FIRSTDATAKEY`. The schema is an immutable sequence of attribute
descriptors (`attlen`, `attbyval`, `attalign`).

Behaviour of the code that is easy to misread:

- The special-space check subtracts `sizeof(BTPageOpaque)`. That is the size
  of a pointer (8 bytes on a 64-bit build), not of the trailer. So
  `pd_special` = 8180 in an 8192-byte block passes, and the first value
  that fails is 8185 (`PageCheck.SpecialSpaceBoundary`).
- The compressed raw size is bounded by `1024*1024` and may be 0. The
  warning message says 1G.
- The overlap test is strict. It does not report identical or adjacent
  ranges, but it does report an empty range that lies strictly inside
  another. Slot i is compared whatever its own flag is; only the earlier
  slot is filtered by flag.
- A negative `dlen` is not an error of its own. Like `dlen == 0`, it turns
  off the overflow check and stops the offset from advancing.
- An unterminated C string is reported only through the overflow check,
  which needs `dlen > 0`.
- The scan bound of the C-string length at src/index.c:319 is
  `lp_off + len + lp_len - off`, where `len` is the variable being assigned
  and still holds a stale value. The model bounds the scan by
  `lp_off + lp_len - off` instead, which is what the comment at lines
  317-318 describes (see Findings).

## Model

| member | source | states |
|---|---|---|
| `Layout.BlockNum` | src/index.c:11-12 | the block number's high 16 bits are `bi_hi` and its low 16 bits are `bi_lo`, so both halves can be read back |
| `Layout.AlignUp` | src/index.c:274 | the aligned offset is the smallest multiple of the alignment that is not below the offset |
| `Layout.MaxAlign` | src/index.c:355 | `MAXALIGN` rounds up to the next multiple of 8, moving by less than 8 |
| `PageCheck.MetaErrors` | src/index.c:40-54 | meta errors are at most 2; 0 exactly when magic and version both match; 2 exactly when both differ; each field is checked on its own |
| `PageCheck.SpecialSpaceErrors` | src/index.c:64-72 | at most one error, and none exactly when `pd_special + sizeof(BTPageOpaque) <= BLCKSZ` |
| `PageCheck.LevelErrors` | src/index.c:79-101 | at most one error; a deleted page never gets one; otherwise none exactly when (leaf iff level == 0) |
| `PageCheck.CheckIndexPage` | src/index.c:22-105 | the result is the header errors plus the meta errors on block 0, and plus the special-space and level errors on any other block |
| `PageCheck.SpecialSpaceBoundary` | src/index.c:64 | with the pointer-sized constant, `pd_special` 8100, 8180 and 8184 pass and 8185 fails |
| `Overlap.Intersects` | src/index.c:187-189 | the four-way strict test holds iff the closed ranges meet, are not the same range, and neither ends where the other begins |
| `Overlap.CountConflicts` | src/index.c:172-196 | after k rounds of the overlap loop there is at most one error per round |
| `Overlap.OverlapErrors` | src/index.c:172-196 | slot i's overlap errors equal the number of slots j < i that are `LP_NORMAL` and intersect slot i |
| `Overlap.OverlapIgnoresOwnFlag` | src/index.c:165-182 | changing slot i's own flag does not change its overlap errors |
| `Overlap.OverlapIgnoresLaterSlots` | src/index.c:172 | slots at index i or later never count toward slot i's overlap errors |
| `Overlap.OverlapTotalCountsPairsOnce` | src/index.c:172-196 | over slots 0..n-1 the overlap errors add up to the number of reported pairs (j < i, j `LP_NORMAL`, ranges intersect), so each pair counts once, at its higher index |
| `Overlap.NoIntersectionNoOverlapErrors` | src/index.c:187-195 | when no `LP_NORMAL` slot intersects a later slot, the page gets no overlap error |
| `Attributes.StrnLen` | src/index.c:319 | `strnlen` never reads past the terminator, never past a non-negative bound, and stops short of the terminator only at the bound; a negative bound (a wrapped size_t) never stops it |
| `Attributes.CStringLength` | src/index.c:317-320 | inside the tuple, a C-string length is between 1 and the remaining space + 1; it is remaining space + 1 exactly when no terminator lies inside the tuple |
| `Attributes.CStringLengthAsWritten` | src/index.c:319 | the length as written is at least 1, and equals the corrected length when the stale `len` is 0 |
| `Attributes.StaleBoundHidesOverflow` | src/index.c:319 | a stale `len` of minus the remaining space gives length 1 and hides an overflow that the corrected bound reports |
| `Attributes.DecodedLength` | src/index.c:276-325 | only a varlena length can be negative; a C-string length inside the tuple is between 1 and the rest of the tuple plus one |
| `Attributes.RawSizeErrors` | src/index.c:298-310 | exactly one error when a varlena is compressed and its raw size lies outside [0, 1024*1024]; none otherwise |
| `Attributes.AttrStep` | src/index.c:264-343 | one round never moves the offset back and reports at most 2 errors; a break always comes with an error; with `dlen > 0`, a round that goes on stays within the tuple; with `dlen <= 0`, a non-varlena attribute never breaks and reports nothing, and a break is a negative varlena with exactly one error |
| `Attributes.WalkBounds` | src/index.c:253-348 | `Walk`, the attribute loop: the walk never moves the offset back; it reports at most one error per attribute plus one; it breaks only after an error; with `dlen > 0`, a walk that starts inside the tuple and is not broken ends inside it |
| `Attributes.NullAttributeSkipped` | src/index.c:265-271 | a null attribute leaves the offset unchanged and reports nothing |
| `Attributes.NegativeVarlenaHalts` | src/index.c:287-296 | a negative varlena length gives exactly one error and stops the walk at the aligned offset; the attributes after it play no part |
| `Attributes.OverflowHalts` | src/index.c:332-340 | with `dlen > 0`, an attribute past the tuple end adds one error (after its raw-size error, if any) and stops the walk; later attributes play no part |
| `Attributes.AttributeAdvances` | src/index.c:298-343 | any other non-null attribute adds its raw-size error and the walk goes on; the offset is aligned and then advanced by the length only when `dlen > 0` |
| `Attributes.AttributeErrors` | src/index.c:244-361 | the non-leaf first data key with `dlen == 0` gets no error, whatever the schema; every tuple gets at most natts + 2 errors |
| `Attributes.NegativeFirstVarlena` | src/index.c:289-361 | the final `MAXALIGN` check still runs after a break: a negative first varlena gives 1 error, plus 1 when the stopped offset is past the tuple end after `MAXALIGN` |
| `Attributes.CleanTupleEndsInside` | src/index.c:332-361 | a tuple with no attribute errors was walked to its last attribute and ends, after `MAXALIGN`, inside the tuple |
| `Attributes.WalkErrorFreeIffClean` | src/index.c:264-343 | the walk reports no error exactly when no non-null attribute is a negative varlena, a compressed varlena with raw size outside [0, 1024*1024], or (with `dlen > 0`) past the tuple end; such a walk never breaks |
| `Attributes.TupleErrorFreeIff` | src/index.c:244-361 | a tuple gets no attribute error exactly when it is the skipped first data key, or its walk meets nothing to report and its `MAXALIGN`ed end lies within the tuple |
| `Attributes.NoDataOnlyVarlenaErrors` | src/index.c:332-343 | with `dlen <= 0` the walk reports at most one error per varlena attribute, and it breaks only if some varlena lies among the attributes walked, so a schema without varlenas gets no walk error |
| `Attributes.CheckIndexTupleAttributes` | src/index.c:206-364 | the method's error count equals `AttributeErrors`: the skip case, the walk with `continue`/`break`, then the final check |
| `Tuples.DataLength` | src/index.c:154 | `dlen` is the number of bytes from where the attribute walk starts to the end given by `IndexTupleSize` |
| `Tuples.TupleErrors` | src/index.c:198-200 | a slot's errors are at least its overlap errors, and equal them when the slot is not `LP_NORMAL` |
| `Tuples.CheckIndexTuple` | src/index.c:138-203 | the method's count equals the overlap errors plus, for an `LP_NORMAL` slot only, its attribute errors with offnum i + 1 |
| `Tuples.CheckIndexTuples` | src/index.c:108-134 | the method's count is the sum of the per-slot totals over every line pointer |
| `Tuples.TuplesErrors` | src/index.c:125-126 | the page's tuple total after slots 0..n-1 is their overlap total plus the attribute errors of the `LP_NORMAL` ones |
| `Tuples.PageTupleErrors` | src/index.c:125-126 | the page's tuple total is the number of reported slot pairs plus the attribute errors of the `LP_NORMAL` slots |

## Left out

- `check_page_header` is not part of this model. Its count is the `headerErrors` input of `CheckIndexPage`.
- The `ereport` messages and severities are left out. So are the "probably corrupted" summary warning, the tid logging, and the `DEBUG` tracing. Only the counts are modelled.
- The checks marked FIXME in the source are not implemented there, so they are not modelled either: heap consistency, tree topology, meta-page root bounds, and `btpo_flags` handling.
- The storage-engine macros are not modelled at byte level: `VARSIZE_ANY`, `VARATT_IS_COMPRESSED`, `VARRAWSIZE_4B_C`, `IndexTupleSize`, `IndexInfoFindDataOffset`, `IndexTupleHasNulls`, `att_isnull`, `P_ISLEAF`, `P_ISDELETED`, `P_FIRSTDATAKEY`, `BTPageGetMeta` and `PageGetMaxOffsetNumber`. Their results are inputs. The line-pointer count is the length of the line-pointer sequence.
- `Attributes.DecodedLength` uses the corrected C-string scan bound `lp_off + lp_len - off`, and so do `Walk`, `AttributeErrors`, `TupleErrors` and the methods that compute them. Their counts therefore do not reflect a stale `len` at src/index.c:319: one that hides an overflow (`StaleBoundHidesOverflow`), or a positive one that scans past the tuple end. `CStringLengthAsWritten` models that bound on its own.
- `Layout.AlignUp` stands for `att_align_pointer`, but does not model its exception: a varlena whose first byte is a short header is not aligned.
- Reads through raw pointers (`buffer + lp_off`, `buffer + pd_special`) are not modelled as memory accesses. The decoded views are total, so reads outside the page are not distinguished.
- `CheckIndexTupleAttributes` and the functions and methods that reach it require `SchemaOk`: a by-value attribute has `attlen >= 0`. This stands in for the debug `Assert(len >= 0)` at src/index.c:325, so the model does not cover a negative fixed length in a build without assertions.
- The `uint32` error counters and the `int` offsets are unbounded here. Their 32-bit wrap-around is not modelled, because a page cannot produce counts or offsets that large.
- `Layout.BlockNum` returns an unsigned 32-bit word. The C macro shifts `bi_hi` as an `int`, so for `bi_hi >= 0x8000` it yields a negative value (undefined behaviour in C99); that case is not modelled. The macro is not used elsewhere in src/index.c.
- `BTREE_MAGIC`, `BTREE_VERSION`, `BLCKSZ` and `MAXIMUM_ALIGNOF` come from headers that are not part of this model. They are set to 0x053162, 2, 8192 and 8. `sizeof(BTPageOpaque)` is set to 8, a 64-bit pointer.

## Findings

| source | as written | input that shows it | evidently intended | confidence | as-written member | corrected member |
|---|---|---|---|---|---|---|
| src/index.c:319 | the `strnlen` bound `lp_off + len + lp_len - off` reads `len` before the assignment it is part of, so the stale value of the stack slot shifts the bound | 10 bytes left in the tuple, no zero byte in the next 20, stale `len` = -10: the bound is 0, the length is 1, and no overflow is reported | bound `lp_off + lp_len - off`: the length is 11 = remaining + 1, and the overflow is reported | not executed | `Attributes.CStringLengthAsWritten` (counterexample: `Attributes.StaleBoundHidesOverflow`) | `Attributes.CStringLength` |
