/** The projection run on live state: from the starting snapshot, or taken up from a closed season. */
module ProjectionRun {
  import opened Assets
  import opened Records
  import opened Replay
  import opened ClosedBooks
  import opened Market
  import opened Teams
  import opened Projector
  import opened ResumedAssets
  import opened LeagueState
  import opened MarketState

  class LiveLeague {
    var seeded: bool
    const assets: Holdings
    const book: Board

    ghost function Now(): Native
      reads this, assets, book
    {
      Native(seeded, League(assets.View(), book.View()))
    }

    constructor (n: Native)
      ensures Now() == n && fresh(assets) && fresh(book)
    {
      seeded := n.seeded;
      var h := new Holdings(n.league.assets);
      var b := new Board();
      b.oline, b.windows, b.baseOrder, b.order := n.league.book.oline, n.league.book.windows, n.league.book.baseOrder,
        n.league.book.order;
      b.orderSeason, b.source, b.auctions, b.trades := n.league.book.orderSeason, n.league.book.source,
        n.league.book.auctions, n.league.book.trades;
      assets, book := h, b;
    }

    method CorrectRosterInPlace(rules: Rules, records: seq<Record>, i: nat, side: string) returns (answer: Answer)
      requires i < |records| && records[i].command.CorrectRoster?
      modifies assets
      ensures answer.Accepted? <==> CorrectRosterOf(rules, records, i, old(assets.View()), side).Ok?
      ensures answer.Accepted? ==> CorrectRosterOf(rules, records, i, old(assets.View()), side) == Ok(assets.View())
      decreases i, 2, 1
    {
      var c := records[i].args.correction.value;
      var listed := assets.ListsFranchise(c.franchise);
      if !listed {
        return Because("choose a franchise in this app league");
      }
      var at := assets.View().PlayerOn(side, c.player);
      if c.action == "remove" {
        answer := assets.RemoveInPlace(at, c.franchise);
      } else if at >= 0 {
        return Because("remove the player from his current roster before adding him elsewhere");
      } else {
        var held := RecordedCorrectionPlayer(rules, records[..i], side, c.player);
        answer := assets.AddBackInPlace(records[i], held);
      }
    }

    method CorrectAssets(rules: Rules, records: seq<Record>, i: nat) returns (answer: Answer)
      requires i < |records| && AssetCorrection(records[i].command)
      modifies assets
      ensures answer.Accepted? <==> ApplyCorrection(rules, records, i, old(assets.View())).Ok?
      ensures answer.Accepted? ==> ApplyCorrection(rules, records, i, old(assets.View())) == Ok(assets.View())
      decreases i, 3, 0
    {
      var r := records[i];
      if r.command.CorrectPick? {
        answer := assets.CorrectPickOwnerInPlace(r);
        return;
      }
      var c := r.args.correction.value;
      var side := assets.View().TargetSide(c.franchise);
      if side.Refused? {
        return Because(side.words);
      }
      if r.command.CorrectProvenance? {
        answer := assets.CorrectProvenanceInPlace(assets.View().PlayerOn(side.value, c.player), r);
      } else {
        answer := CorrectRosterInPlace(rules, records, i, side.value);
      }
    }

    method CloseOLine(outcome: Option<OLineOutcome>) returns (answer: Answer)
      requires seeded
      modifies assets, book
      ensures answer.Accepted? <==> ProjectOLine(old(Now()), outcome).Ok?
      ensures answer.Accepted? ==> ProjectOLine(old(Now()), outcome) == Ok(Now())
    {
      if outcome.None? {
        return Because("the O-Line close has no recorded assignments");
      }
      answer := assets.SignReservedUnits(outcome.value.placed);
      if answer.Accepted? {
        book.oline := outcome;
      }
    }

    method ApplyMarket(r: Record) returns (answer: Answer)
      requires MarketCommand(r.command)
      modifies assets, book
      ensures answer.Accepted? <==> ProjectMarket(old(Now()), r).Ok?
      ensures answer.Accepted? ==> ProjectMarket(old(Now()), r) == Ok(Now())
    {
      if !seeded {
        return Because("record starting assets before changing the market");
      }
      if r.command.OLineAuctionClose? {
        answer := CloseOLine(r.args.oline);
      } else if WaiverCommand(r.command) {
        answer := book.ProjectWaiverInPlace(assets, r);
      } else if BidCommand(r.command) {
        answer := book.ProjectBidInPlace(assets, r);
      } else {
        answer := book.ProjectTradeInPlace(assets, r);
      }
    }

    method TeamsInPlace(r: Record) returns (answer: Answer)
      modifies assets
      ensures answer.Accepted? <==> ApplyTeams(old(Now()), r).Ok?
      ensures answer.Accepted? ==> ApplyTeams(old(Now()), r) == Ok(Now())
    {
      var count := TeamCount(r);
      if count.None? || !seeded || count.value < 0 {
        return Accepted;
      }
      answer := assets.ResizeFranchises(count.value);
    }

    method RollOver(r: Record) returns (answer: Answer)
      modifies assets
      ensures answer.Accepted? <==> ApplyRollover(old(Now()), r).Ok?
      ensures answer.Accepted? ==> ApplyRollover(old(Now()), r) == Ok(Now())
    {
      if r.plan.None? || !r.before {
        return Because("the rollover entry has no recorded plan");
      }
      if !seeded {
        return Accepted;
      }
      if assets.season != r.plan.value.closes {
        return Because("the rollover does not follow the league's recorded assets");
      }
      assets.Replace(r.plan.value.after);
      return Accepted;
    }

    /** An entry of neither market nor correction. */
    method ApplyPlain(r: Record, season: Option<int>) returns (answer: Answer)
      modifies assets
      ensures answer.Accepted? <==> ProjectPlain(old(Now()), r, season).Ok?
      ensures answer.Accepted? ==> ProjectPlain(old(Now()), r, season) == Ok(Now())
    {
      if r.command.RulesSet? {
        answer := TeamsInPlace(r);
      } else if r.command.CorrectTransaction? || r.command.RuleException? {
        return if seeded then Accepted else Because("record the starting assets before correcting them");
      } else if r.command.SeasonRollover? {
        answer := RollOver(r);
      } else if DraftAsset(r.command) {
        if !seeded {
          return Because("record starting assets before drafting");
        }
        assets.ApplyDraftEntry(r);
        return Accepted;
      } else if OverrideCommand(r.command) {
        if !seeded {
          return Because("a native correction has no starting assets");
        }
        if season.None? {
          return Because("the season's rules cannot be read");
        }
        answer := assets.OverrideInPlace(r, r.args.change.value, season.value);
      } else {
        return Accepted;
      }
    }

    /** Applies one entry in force. */
    method Apply(rules: Rules, records: seq<Record>, i: nat) returns (answer: Answer)
      requires i < |records|
      modifies assets, book
      ensures answer.Accepted? <==> ProjectEntry(rules, records, i, old(Now())).Ok?
      ensures answer.Accepted? ==> ProjectEntry(rules, records, i, old(Now())) == Ok(Now())
      decreases i, 4, 0
    {
      if MarketCommand(records[i].command) {
        answer := ApplyMarket(records[i]);
      } else if AssetCorrection(records[i].command) {
        if !seeded {
          return Because("record the starting assets before correcting them");
        }
        answer := CorrectAssets(rules, records, i);
      } else {
        answer := ApplyPlain(records[i], rules.season(records[..i + 1]));
      }
    }

    /** Takes the fold one entry further. */
    method Advance(rules: Rules, records: seq<Record>, active: Active, i: nat, ghost lo: nat, ghost start: Native)
      returns (answer: Answer)
      requires lo <= i < |records| && Fold(rules, records, active, lo, i, start) == Ok(Now())
      modifies assets, book
      ensures answer.Accepted? ==> Fold(rules, records, active, lo, i + 1, start) == Ok(Now())
      ensures answer.Because? ==> Fold(rules, records, active, lo, i + 1, start).Refused?
      decreases i, 4, 1
    {
      FoldTakes(rules, records, active, lo, i, start, Now());
      if !On(active, records[i].entry) {
        return Accepted;
      }
      answer := Apply(rules, records, i);
    }

    /** Applies the entries in force from lo on. */
    method Project(rules: Rules, records: seq<Record>, active: Active, lo: nat) returns (answer: Answer)
      requires lo <= |records|
      modifies assets, book
      ensures answer.Accepted? <==> Fold(rules, records, active, lo, |records|, old(Now())).Ok?
      ensures answer.Accepted? ==> Fold(rules, records, active, lo, |records|, old(Now())) == Ok(Now())
      decreases |records|, 4, 2
    {
      ghost var start := Now();
      for i := lo to |records|
        invariant Fold(rules, records, active, lo, i, start) == Ok(Now())
      {
        answer := Advance(rules, records, active, i, lo, start);
        if answer.Because? {
          RefusalStays(rules, records, active, lo, i + 1, |records|, start);
          return;
        }
      }
      return Accepted;
    }

    /** The copy's contract in the present state, or the one passed in where nobody holds it. */
    method Look(side: string, id: string, last: Option<NativePlayer>) returns (seen: Option<NativePlayer>)
      ensures seen == HeldNow(Now(), side, id, last)
    {
      if seeded {
        var at := assets.View().PlayerOn(side, id);
        if at >= 0 {
          return Some(assets.players[at]);
        }
      }
      return last;
    }
  }

  lemma FoldTakes(rules: Rules, records: seq<Record>, active: Active, lo: nat, i: nat, start: Native, now: Native)
    requires lo <= i < |records| && Fold(rules, records, active, lo, i, start) == Ok(now)
    ensures Fold(rules, records, active, lo, i + 1, start) ==
      if On(active, records[i].entry) then ProjectEntry(rules, records, i, now) else Ok(now)
  {
  }

  lemma {:induction false} RefusalStays(rules: Rules, records: seq<Record>, active: Active, lo: nat, mid: nat, hi: nat,
                                        start: Native)
    requires lo <= mid <= hi <= |records| && Fold(rules, records, active, lo, mid, start).Refused?
    ensures Fold(rules, records, active, lo, hi, start).Refused?
    decreases hi
  {
    if mid < hi { RefusalStays(rules, records, active, lo, mid, hi - 1, start); }
  }

  lemma {:induction false} WatchRefusalStays(rules: Rules, records: seq<Record>, active: Active, mid: nat, hi: nat,
                                             seed: Native, side: string, id: string)
    requires mid <= hi <= |records| && Watch(rules, records, active, mid, seed, side, id).Refused?
    ensures Watch(rules, records, active, hi, seed, side, id).Refused?
    decreases hi
  {
    if mid < hi { WatchRefusalStays(rules, records, active, mid, hi - 1, seed, side, id); }
  }

  /** Runs the projection again from the start and remembers the copy's contract after every entry. A refusal on
      the way is a refusal here. */
  method RecordedCorrectionPlayer(rules: Rules, records: seq<Record>, side: string, id: string)
    returns (held: Result<Option<NativePlayer>>)
    ensures held.Ok? <==> LastHeld(rules, records, side, id).Ok?
    ensures held.Ok? ==> held == LastHeld(rules, records, side, id)
    decreases |records|, 2, 0
  {
    var seed := Seed(rules, records);
    if seed.Refused? {
      return Refused(seed.words);
    }
    var live := new LiveLeague(seed.value);
    var p := ReplayFull(records);
    var last := HeldNow(seed.value, side, id, None);
    for i := 0 to |records|
      invariant fresh(live) && fresh(live.assets) && fresh(live.book)
      invariant Watch(rules, records, p.active, i, seed.value, side, id) == Ok((live.Now(), last))
    {
      if !On(p.active, records[i].entry) {
        continue;
      }
      var answer := live.Apply(rules, records, i);
      if answer.Because? {
        WatchRefusalStays(rules, records, p.active, i + 1, |records|, seed.value, side, id);
        return Refused(answer.words);
      }
      last := live.Look(side, id, last);
    }
    return Ok(last);
  }

  /** The native league a holder of the ledger reads, taken up from its checkpoint where there is one to use. */
  method ReadNative(rules: Rules, held: Held<Native>) returns (live: LiveLeague?)
    ensures live == null <==> ProjectHeld(rules, held).Refused?
    ensures live != null ==> fresh(live) && ProjectHeld(rules, held) == Ok(live.Now())
  {
    var seed := Seed(rules, held.records);
    if seed.Refused? {
      return null;
    }
    var p := ReplayHeld(held);
    var books := UsableClosedBooks(held);
    var since, start := 0, seed.value;
    if books.Some? && books.value.raw.source <= held.records {
      since, start := |books.value.raw.source|, books.value.raw.folded;
    }
    var league := new LiveLeague(start);
    var answer := league.Project(rules, held.records, p.active, since);
    return if answer.Accepted? then league else null;
  }
}
