/** What the market asks of its book without changing it: who leads an auction, when its clock last started, how many
    auctions a franchise is in, and whether a waiver order is complete. */
module BookQueries {
  import opened Assets
  import opened Lists
  import opened Market

  // ----- auctions

  /** Ahead in points or, level on points, placed earlier. */
  predicate Beats(a: BidRecord, b: BidRecord) {
    a.points > b.points || (a.points == b.points && a.placedAt < b.placedAt)
  }

  ghost predicate Leads(bids: seq<BidRecord>, i: nat)
    requires i < |bids|
  {
    && (forall k :: 0 <= k < |bids| ==> !Beats(bids[k], bids[i]))
    && (forall k :: 0 <= k < i ==> Beats(bids[i], bids[k]))
  }

  /** The bid no other beats; of several, the one listed first. */
  method LeaderOf(bids: seq<BidRecord>) returns (lead: Option<BidRecord>)
    ensures lead.None? <==> bids == []
    ensures lead.Some? ==> exists i :: 0 <= i < |bids| && bids[i] == lead.value && Leads(bids, i)
  {
    lead := None;
    ghost var at := 0;
    for n := 0 to |bids|
      invariant lead.None? <==> n == 0
      invariant lead.Some? ==> 0 <= at < n && bids[at] == lead.value
      invariant lead.Some? ==> forall k :: 0 <= k < n ==> !Beats(bids[k], bids[at])
      invariant lead.Some? ==> forall k :: 0 <= k < at ==> Beats(bids[at], bids[k])
    {
      if lead.None? || Beats(bids[n], lead.value) {
        lead := Some(bids[n]);
        at := n;
      }
    }
    assert lead.Some? ==> Leads(bids, at);
  }

  /** When the auction's clock last started: the latest bid, standing or not; 0 before any. */
  method StandingAt(a: BidAuction) returns (latest: int)
    ensures forall k :: 0 <= k < |a.bids| ==> a.bids[k].placedAt <= latest
    ensures latest == 0 || exists k :: 0 <= k < |a.bids| && a.bids[k].placedAt == latest
    ensures latest >= 0
  {
    latest := 0;
    for n := 0 to |a.bids|
      invariant latest >= 0 && forall k :: 0 <= k < n ==> a.bids[k].placedAt <= latest
      invariant latest == 0 || exists k :: 0 <= k < n && a.bids[k].placedAt == latest
    {
      if a.bids[n].placedAt > latest {
        latest := a.bids[n].placedAt;
      }
    }
  }

  predicate Active(a: BidAuction, franchise: string, except: string) {
    !a.decided && a.player != except && a.ActiveFor(franchise) >= 0
  }

  ghost function InFor(auctions: seq<BidAuction>, franchise: string, except: string): set<int> {
    set i | 0 <= i < |auctions| && Active(auctions[i], franchise, except)
  }

  /** Counts the auctions the franchise is still bidding in, leaving one player's out. */
  method ActiveCount(auctions: seq<BidAuction>, franchise: string, except: string) returns (n: nat)
    ensures n == |InFor(auctions, franchise, except)|
  {
    n := 0;
    ghost var counted: set<int> := {};
    for i := 0 to |auctions|
      invariant n == |counted| && forall k :: k in counted ==> 0 <= k < i
      invariant forall k :: 0 <= k < i ==> (k in counted <==> Active(auctions[k], franchise, except))
    {
      if auctions[i].decided || auctions[i].player == except {
        continue;
      }
      if auctions[i].ActiveFor(franchise) >= 0 {
        n := n + 1;
        counted := counted + {i};
      }
    }
    assert counted == InFor(auctions, franchise, except);
  }

  // ----- the waiver order

  function Ids(fs: seq<NativeFranchise>): seq<string> {
    seq(|fs|, k requires 0 <= k < |fs| => fs[k].id)
  }

  /** The order names every franchise exactly once. */
  method CompleteWaiverOrder(order: seq<string>, fs: seq<NativeFranchise>) returns (complete: bool)
    requires NoneTwice(Ids(fs))
    ensures complete <==> multiset(order) == multiset(Ids(fs))
  {
    NamesAll(order, Ids(fs));
    if |order| != |fs| {
      return false;
    }
    var seen: set<string> := {};
    for k := 0 to |order|
      invariant seen == set i | 0 <= i < k :: order[i]
      invariant forall i, j :: 0 <= i < j < k ==> order[i] != order[j]
      invariant forall i :: 0 <= i < k ==> order[i] in Ids(fs)
    {
      var found := false;
      for f := 0 to |fs|
        invariant found <==> exists i :: 0 <= i < f && Ids(fs)[i] == order[k]
      {
        if fs[f].id == order[k] {
          assert Ids(fs)[f] == order[k];
          found := true;
        }
      }
      if !found || order[k] in seen {
        return false;
      }
      seen := seen + {order[k]};
    }
    return true;
  }
}
