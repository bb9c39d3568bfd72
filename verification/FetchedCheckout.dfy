/** A checkout of what a paged read has collected while others were writing. */
module FetchedCheckout {
  import opened Prelude
  import opened Memory
  import opened Checkout
  import opened Fetch

  /**
   Whatever the writers did, if everything a fetch returned was still listed at its last call, then
   checking it out succeeds exactly when checking out that very listing does, and writes the same
   files.
   */
  lemma CheckoutOfFetch(
    project: Uuid, calls: Calls, h: History, order: Ordering, at: Times, last: nat, history: bool)
    requires ServedBy(calls, h, order, at, project) && Countable(h, order) && ListsOnce(h, order)
    requires FetchFrom(project, calls, 0, 0, None, []).Ok?
    requires var r := FetchFrom(project, calls, 0, 0, None, []).value;
             LastCall(h, order, at, last, r) && StillListed(h, order, at, last, r)
    ensures var fetched := PlanOf(Read(FetchFrom(project, calls, 0, 0, None, []).value.entries), history);
            var listed := PlanOf(Read(Fetch.Listing(order, h(at(last).page))), history);
            (fetched.Ok? <==> listed.Ok?) && (fetched.Ok? ==> fetched == listed)
  {
    hide FetchFrom, ServedBy, Countable, Fetch.Listing, LastCall, StillListed, PlanOf, Read, AsSet;
    FetchShowsListingIff(project, calls, h, order, at);
    var entries := FetchFrom(project, calls, 0, 0, None, []).value.entries;
    var listing := Fetch.Listing(order, h(at(last).page));
    assert UniqueIds(listing);
    SameSets(entries, listing);
    PlanIgnoresOrder(entries, listing, history);
  }

  lemma SameSets(a: seq<Entry>, b: seq<Entry>)
    requires UniqueIds(a) && UniqueIds(b) && AsSet(a) == AsSet(b)
    ensures SameEntries(a, b)
  {
    assert forall e :: e in a <==> e in AsSet(a);
    assert forall e :: e in b <==> e in AsSet(b);
  }
}
