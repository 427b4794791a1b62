/**
 * The page-level check of a B-tree index page (check_index_page): the meta
 * page identification on block 0, and on every other block the room left for
 * the trailer and the agreement of the leaf flag with the level.
 */
module PageCheck {
  import opened Layout

  /**
   * Errors for the meta page fields: one for a wrong magic number and one
   * for a wrong version, each checked whatever the other holds.
   */
  function MetaErrors(meta: MetaPageData): (n: nat)
    ensures n <= 2
    ensures n == 0 <==> meta.magic == BTreeMagic && meta.version == BTreeVersion
    ensures n == 2 <==> meta.magic != BTreeMagic && meta.version != BTreeVersion
  {
    (if meta.magic != BTreeMagic then 1 else 0) + (if meta.version != BTreeVersion then 1 else 0)
  }

  /**
   * Errors for the special space: one when fewer than `sizeof(BTPageOpaque)`
   * bytes are left between pd_special and the end of the block.
   */
  function SpecialSpaceErrors(special: nat): (n: nat)
    ensures n <= 1
    ensures n == 0 <==> special + OpaquePointerSize <= BlockSize
  {
    if special > BlockSize - OpaquePointerSize then 1 else 0
  }

  /**
   * Errors for the level of a regular page: a page that is not deleted is a
   * leaf exactly when its level is zero; a deleted page's level field holds
   * something else and is not checked.
   */
  function LevelErrors(trailer: PageOpaque): (n: nat)
    ensures n <= 1
    ensures trailer.isDeleted ==> n == 0
    ensures !trailer.isDeleted ==> (n == 0 <==> (trailer.isLeaf <==> trailer.level == 0))
  {
    if trailer.isDeleted then 0
    else if trailer.isLeaf then (if trailer.level != 0 then 1 else 0)
    else (if trailer.level == 0 then 1 else 0)
  }

  /**
   * check_index_page. `headerErrors` is what the generic page header check
   * (check_page_header) reported for this page; that check is not part of
   * this model.
   */
  method CheckIndexPage(headerErrors: nat, page: Page, block: nat) returns (nerrs: nat)
    ensures block == MetaPageBlock ==> nerrs == headerErrors + MetaErrors(page.meta)
    ensures block != MetaPageBlock ==>
      nerrs == headerErrors + SpecialSpaceErrors(page.special) + LevelErrors(page.trailer)
  {
    nerrs := 0;
    nerrs := nerrs + headerErrors;

    if block == MetaPageBlock {
      var mpdata := page.meta;
      if mpdata.magic != BTreeMagic {
        nerrs := nerrs + 1;
      }
      if mpdata.version != BTreeVersion {
        nerrs := nerrs + 1;
      }
    } else {
      var trailer := page.trailer;
      if page.special > BlockSize - OpaquePointerSize {
        nerrs := nerrs + 1;
      }
      if !trailer.isDeleted {
        if trailer.isLeaf {
          if trailer.level != 0 {
            nerrs := nerrs + 1;
          }
        } else {
          if trailer.level == 0 {
            nerrs := nerrs + 1;
          }
        }
      }
    }
  }

  /**
   * The special-space check counts the size of a pointer, not of the
   * trailer: a special space of 8100 or even 8180 bytes into an 8192-byte
   * block passes, and the first failing value is 8185.
   */
  lemma SpecialSpaceBoundary()
    ensures SpecialSpaceErrors(8100) == 0
    ensures SpecialSpaceErrors(8180) == 0
    ensures SpecialSpaceErrors(8184) == 0
    ensures SpecialSpaceErrors(8185) == 1
  {
  }
}
