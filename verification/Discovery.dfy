/** Bounded pages of a live listing. */
module Discovery {
  import opened Prelude

  /** A page and the offset of what follows it. */
  datatype Page<+T> = Page(items: seq<T>, nextOffset: Option<nat>)

  /** Queries fetch one row more than `limit` to learn whether a page follows. */
  function FromExtraRow<T>(items: seq<T>, limit: nat, offset: nat): Page<T> {
    Page(if |items| > limit then items[..limit] else items,
         if |items| > limit then Some(offset + limit) else None)
  }

  /**
   The page keeps the first `limit` rows and drops nothing but an extra one; a next offset is there
   exactly when a row was left over, and continues right after the last item. Given what the query
   read from a listing, it is the listing's page at `offset`.
   */
  method PageFromExtraRow<T>(items: seq<T>, limit: nat, offset: nat) returns (page: Page<T>)
    ensures page.items <= items && |page.items| <= limit
    ensures page.nextOffset.Some? <==> |items| > limit
    ensures page.nextOffset.Some? ==> page.nextOffset.value == offset + |page.items|
    ensures page.nextOffset.None? ==> page.items == items
    ensures forall listing: seq<T> :: items == Rows(listing, limit, offset) ==> page == PageAt(listing, limit, offset)
  {
    var rows := items;
    var hasMore := |rows| > limit;
    if |rows| > limit {
      rows := rows[..limit];
    }
    page := Page(rows, if hasMore then Some(offset + limit) else None);
  }

  /** What a LIMIT `limit + 1` OFFSET `offset` query returns from an ordered listing. */
  function Rows<T>(listing: seq<T>, limit: nat, offset: nat): seq<T> {
    if offset >= |listing| then []
    else if offset + limit + 1 <= |listing| then listing[offset..offset + limit + 1]
    else listing[offset..]
  }

  function PageAt<T>(listing: seq<T>, limit: nat, offset: nat): Page<T> {
    FromExtraRow(Rows(listing, limit, offset), limit, offset)
  }

  /** The cut of a listing that one page holds. */
  lemma PageOf<T>(listing: seq<T>, limit: nat, offset: nat)
    ensures PageAt(listing, limit, offset)
            == if offset + limit < |listing|
               then Page(listing[offset..offset + limit], Some(offset + limit))
               else Page(if offset < |listing| then listing[offset..] else [], None)
  {
    var rows := Rows(listing, limit, offset);
    if offset + limit < |listing| {
      forall i | 0 <= i < limit
        ensures rows[..limit][i] == listing[offset..offset + limit][i]
      {
        assert rows[i] == listing[offset + i];
      }
      assert rows[..limit] == listing[offset..offset + limit];
    }
  }

  /** A page read at the end of a prefix extends it to the next offset, or to the whole listing. */
  lemma PageExtends<T>(listing: seq<T>, limit: nat, k: nat)
    requires k <= |listing|
    ensures var page := PageAt(listing, limit, k);
            match page.nextOffset
            case Some(n) => n == k + limit < |listing| && listing[..k] + page.items == listing[..n]
            case None => listing[..k] + page.items == listing
  {
    PageOf(listing, limit, k);
  }
}
