/** How a trade's status can change, and a run the program records in which a veto comes under later trades of the same
    player. */
module TradeVetoes {
  import opened Assets
  import opened Records
  import opened Market
  import opened Trades
  import opened StandingTrades

  const OFFERED := "offered"
  const REVIEW := "review"
  const VETOED := "vetoed"
  const APPEALED := "appealed"

  predicate Ruled(status: string) {
    status == APPROVED || status == VETOED
  }

  /** The changes of status each act can record. */
  predicate StatusMoves(act: string, before: string, after: string) {
    if act == "trade.accept" then
      before == OFFERED && (after == OFFERED || after == REVIEW || after == APPROVED || after == "failed")
    else if act == "trade.decline" then before == OFFERED && after == "declined"
    else if act == "trade.withdraw" then before == OFFERED && after == "withdrawn"
    else if act == "trade.review" then before == REVIEW && (after == REVIEW || Ruled(after))
    else if act == "trade.appeal" then before == VETOED && after == APPEALED
    else if act == "trade.appeal.rule" then before == APPEALED && Ruled(after)
    else if act == "trade.override" then
      if before == APPROVED then after == VETOED
      else (before == VETOED || before == APPEALED || before == REVIEW) && Ruled(after)
    else false
  }

  /** What the program can record of a trade: an offer waits for its answers, and an act carries the trade on. */
  predicate Recordable(r: Record) {
    r.args.tradeOutcome.Some? &&
    var t := r.args.tradeOutcome.value;
    if r.command.TradeOffer? then t.status == OFFERED && t.previous == None
    else
      && r.command.TradeAct? && t.previous.Some?
      && t == t.previous.value.(status := t.status, previous := t.previous)
      && StatusMoves(r.command.act, t.previous.value.status, t.status)
  }

  ghost predicate AllRecordable(records: seq<Record>) {
    forall k :: 0 <= k < |records| ==> Recordable(records[k])
  }

  lemma OnlyVetoesLeaveApproval(act: string, after: string)
    requires StatusMoves(act, APPROVED, after) && after != APPROVED
    ensures act == "trade.override" && after == VETOED
  {
  }

  /** An entry that takes a trade back finds it approved. */
  lemma TakenBackFromApproval(l: League, r: Record)
    requires ProjectTrade(l, r).Ok? && Moved(l.book.trades, r) < 0
    ensures !r.command.TradeOffer? && r.args.tradeOutcome.Some? && r.args.tradeOutcome.value.status != APPROVED
    ensures r.args.tradeOutcome.value.previous.Some? && r.args.tradeOutcome.value.previous.value.status == APPROVED
  {
  }

  /** Of all that can be recorded, only a commissioner's override with a veto takes a trade back. */
  lemma OnlyVetoesTakeBack(l: League, r: Record)
    requires Recordable(r) && ProjectTrade(l, r).Ok? && Moved(l.book.trades, r) < 0
    ensures r.command == TradeAct("trade.override") && r.args.tradeOutcome.value.status == VETOED
  {
    TakenBackFromApproval(l, r);
    OnlyVetoesLeaveApproval(r.command.act, r.args.tradeOutcome.value.status);
  }

  lemma RecordableAreEntries(records: seq<Record>)
    requires AllRecordable(records)
    ensures TradeEntries(records)
  {
    forall k | 0 <= k < |records| ensures TradeEntry(records[k]) {
      assert Recordable(records[k]);
    }
  }

  /** A snapshot with nothing in it but one contract of the franchise. */
  function Holding(franchise: string): Snapshot {
    var p := NativePlayer("p", "", franchise, Active, 0, 0, UFA, Recorded(""), 0, "", "");
    Snapshot(0, [], [p], [], [], [], map[])
  }

  function Handover(sender: string, receiver: string): TradeAsset {
    TradeAsset(sender, receiver, "p", 0, 0, "")
  }

  lemma HandsOver(from: string, sender: string, receiver: string, back: bool)
    ensures MoveOne(Holding(from), Handover(sender, receiver), back).Ok? <==>
      from == if back then receiver else sender
    ensures MoveOne(Holding(from), Handover(sender, receiver), back).Ok? ==>
      MoveOne(Holding(from), Handover(sender, receiver), back).value == Holding(if back then sender else receiver)
  {
    var s := Holding(from);
    assert s.players[0].id == "p" && s.players[0].franchise == from;
  }

  lemma HandsOverOne(from: string, sender: string, receiver: string, back: bool)
    requires from == if back then receiver else sender
    ensures MoveAssets(Holding(from), [Handover(sender, receiver)], back) == Ok(Holding(if back then sender else receiver))
  {
    HandsOver(from, sender, receiver, back);
    assert [Handover(sender, receiver)][1..] == [];
  }

  function Deal(id: string, sender: string, receiver: string): TradeState {
    TradeState(id, [sender, receiver], [Handover(sender, receiver)], OFFERED, None)
  }

  /** The deal once every party has accepted it in a league without review. */
  function Done(deal: TradeState): TradeState {
    deal.(status := APPROVED, previous := Some(deal))
  }

  function Vetoed(done: TradeState): TradeState {
    done.(status := VETOED, previous := Some(done))
  }

  function TradeRecord(entry: string, command: Command, t: TradeState): Record
    requires command.TradeOffer? || command.TradeAct?
  {
    RawRecord(entry, 0, "", 0, command, "", NO_ARGS.(tradeOutcome := Some(t)), None, false)
  }

  function OfferRecord(entry: string, sender: string, receiver: string): Record {
    TradeRecord(entry, TradeOffer, Deal("", sender, receiver))
  }

  function AcceptRecord(entry: string, offer: string, sender: string, receiver: string): Record {
    TradeRecord(entry, TradeAct("trade.accept"), Done(Deal(offer, sender, receiver)))
  }

  function VetoRecord(entry: string, done: TradeState): Record {
    TradeRecord(entry, TradeAct("trade.override"), Vetoed(done))
  }

  function HeldBy(franchise: string, trades: seq<TradeState>): League {
    League(Holding(franchise), EMPTY_BOOK.(trades := trades))
  }

  lemma RunMore(l: League, records: seq<Record>, r: Record, before: League)
    requires RunTrades(l, records) == Ok(before)
    ensures RunTrades(l, records + [r]) == ProjectTrade(before, r)
  {
    assert (records + [r])[..|records|] == records;
  }

  ghost predicate NotListed(trades: seq<TradeState>, id: string) {
    forall k :: 0 <= k < |trades| ==> trades[k].id != id
  }

  lemma Offers(holder: string, trades: seq<TradeState>, entry: string, sender: string, receiver: string)
    requires NotListed(trades, "")
    ensures ProjectTrade(HeldBy(holder, trades), OfferRecord(entry, sender, receiver)) ==
      Ok(HeldBy(holder, trades + [Deal(entry, sender, receiver)]))
  {
    assert TradeAt(trades, "") < 0;
    assert Deal("", sender, receiver).(id := entry) == Deal(entry, sender, receiver);
  }

  lemma Accepts(trades: seq<TradeState>, entry: string, offer: string, sender: string, receiver: string)
    requires NotListed(trades, offer)
    ensures ProjectTrade(HeldBy(sender, trades + [Deal(offer, sender, receiver)]), AcceptRecord(entry, offer, sender, receiver))
      == Ok(HeldBy(receiver, trades + [Done(Deal(offer, sender, receiver))]))
  {
    var deal := Deal(offer, sender, receiver);
    HandsOverOne(sender, sender, receiver, false);
    TradeAtIs(trades + [deal], offer, |trades|);
    assert (trades + [deal])[|trades| := Done(deal)] == trades + [Done(deal)];
  }

  /** An offer and the acceptance that approves it hand the player over. */
  lemma Exchange(start: League, records: seq<Record>, trades: seq<TradeState>, offer: string, entry: string,
                 sender: string, receiver: string)
    requires RunTrades(start, records) == Ok(HeldBy(sender, trades))
    requires NotListed(trades, "") && NotListed(trades, offer)
    ensures RunTrades(start, records + [OfferRecord(offer, sender, receiver)] + [AcceptRecord(entry, offer, sender, receiver)])
      == Ok(HeldBy(receiver, trades + [Done(Deal(offer, sender, receiver))]))
  {
    var offered := OfferRecord(offer, sender, receiver);
    Offers(sender, trades, offer, sender, receiver);
    RunMore(start, records, offered, HeldBy(sender, trades));
    Accepts(trades, entry, offer, sender, receiver);
    RunMore(start, records + [offered], AcceptRecord(entry, offer, sender, receiver),
            HeldBy(sender, trades + [Deal(offer, sender, receiver)]));
  }

  const A_TO_B := Done(Deal("1", "a", "b"))
  const B_TO_C := Done(Deal("3", "b", "c"))
  const C_TO_B := Done(Deal("5", "c", "b"))

  function First(): seq<Record> {
    [OfferRecord("1", "a", "b")] + [AcceptRecord("2", "1", "a", "b")]
  }

  function Second(): seq<Record> {
    First() + [OfferRecord("3", "b", "c")] + [AcceptRecord("4", "3", "b", "c")]
  }

  function Third(): seq<Record> {
    Second() + [OfferRecord("5", "c", "b")] + [AcceptRecord("6", "5", "c", "b")]
  }

  /** The player is traded from a to b, on to c and back to b; then the commissioner vetoes the first trade. */
  function RoundTrip(): seq<Record> {
    Third() + [VetoRecord("7", A_TO_B)]
  }

  lemma Vetoes(done: TradeState, later: seq<TradeState>, entry: string, holder: string)
    requires done == Done(Deal(done.id, "a", "b")) && holder == "b"
    ensures ProjectTrade(HeldBy(holder, [done] + later), VetoRecord(entry, done)) == Ok(HeldBy("a", [Vetoed(done)] + later))
  {
    HandsOverOne("b", "a", "b", true);
    TradeAtIs([done] + later, done.id, 0);
    assert ([done] + later)[0 := Vetoed(done)] == [Vetoed(done)] + later;
  }

  lemma OfferIsRecordable(entry: string, sender: string, receiver: string)
    ensures Recordable(OfferRecord(entry, sender, receiver))
  {
  }

  lemma AcceptIsRecordable(entry: string, offer: string, sender: string, receiver: string)
    ensures Recordable(AcceptRecord(entry, offer, sender, receiver))
  {
  }

  lemma VetoIsRecordable(entry: string, done: TradeState)
    requires done.status == APPROVED
    ensures Recordable(VetoRecord(entry, done))
  {
  }

  lemma RoundTripIs()
    ensures |RoundTrip()| == 7
    ensures RoundTrip()[0] == OfferRecord("1", "a", "b") && RoundTrip()[1] == AcceptRecord("2", "1", "a", "b")
    ensures RoundTrip()[2] == OfferRecord("3", "b", "c") && RoundTrip()[3] == AcceptRecord("4", "3", "b", "c")
    ensures RoundTrip()[4] == OfferRecord("5", "c", "b") && RoundTrip()[5] == AcceptRecord("6", "5", "c", "b")
    ensures RoundTrip()[6] == VetoRecord("7", A_TO_B)
  {
  }

  lemma RoundTripRecordable()
    ensures AllRecordable(RoundTrip())
  {
    RoundTripIs();
    OfferIsRecordable("1", "a", "b");
    OfferIsRecordable("3", "b", "c");
    OfferIsRecordable("5", "c", "b");
    AcceptIsRecordable("2", "1", "a", "b");
    AcceptIsRecordable("4", "3", "b", "c");
    AcceptIsRecordable("6", "5", "c", "b");
    VetoIsRecordable("7", A_TO_B);
  }

  lemma RoundTripDistinct()
    ensures Distinct(RoundTrip())
  {
    RoundTripIs();
    var entries := ["1", "2", "3", "4", "5", "6", "7"];
    assert forall k :: 0 <= k < 7 ==> RoundTrip()[k].entry == entries[k];
  }

  lemma StandingMore(l: League, records: seq<Record>, r: Record)
    requires RunTrades(l, records).Ok? && RunTrades(l, records + [r]).Ok?
    ensures Standing(l, records + [r]) ==
      StandingNext(Standing(l, records), RunTrades(l, records).value.book.trades, r)
  {
    assert (records + [r])[..|records|] == records;
  }

  /** The exchanged trade joins the trades that stand. */
  lemma ExchangeStands(start: League, records: seq<Record>, trades: seq<TradeState>, offer: string, entry: string,
                       sender: string, receiver: string)
    requires RunTrades(start, records) == Ok(HeldBy(sender, trades))
    requires NotListed(trades, "") && NotListed(trades, offer)
    ensures var more := records + [OfferRecord(offer, sender, receiver)] + [AcceptRecord(entry, offer, sender, receiver)];
            && RunTrades(start, more).Ok?
            && Standing(start, more) == Standing(start, records) + [Done(Deal(offer, sender, receiver))]
  {
    var offered, deal := OfferRecord(offer, sender, receiver), Deal(offer, sender, receiver);
    Exchange(start, records, trades, offer, entry, sender, receiver);
    Offers(sender, trades, offer, sender, receiver);
    RunMore(start, records, offered, HeldBy(sender, trades));
    StandingMore(start, records, offered);
    StandingMore(start, records + [offered], AcceptRecord(entry, offer, sender, receiver));
    AcceptApproves(trades, entry, offer, sender, receiver);
  }

  lemma AcceptApproves(trades: seq<TradeState>, entry: string, offer: string, sender: string, receiver: string)
    requires NotListed(trades, offer)
    ensures Moved(trades, OfferRecord(offer, sender, receiver)) == 0
    ensures Moved(trades + [Deal(offer, sender, receiver)], AcceptRecord(entry, offer, sender, receiver)) == 1
    ensures SettledBy(AcceptRecord(entry, offer, sender, receiver)) == Done(Deal(offer, sender, receiver))
  {
    TradeAtIs(trades + [Deal(offer, sender, receiver)], offer, |trades|);
  }

  /** After the entries the franchise has the player, and the listed trades are the book and all stand. */
  ghost predicate Stage(records: seq<Record>, holder: string, trades: seq<TradeState>) {
    && RunTrades(HeldBy("a", []), records) == Ok(HeldBy(holder, trades))
    && Standing(HeldBy("a", []), records) == trades
  }

  lemma NextStage(records: seq<Record>, trades: seq<TradeState>, offer: string, entry: string, sender: string,
                  receiver: string)
    requires Stage(records, sender, trades) && NotListed(trades, "") && NotListed(trades, offer)
    ensures Stage(records + [OfferRecord(offer, sender, receiver)] + [AcceptRecord(entry, offer, sender, receiver)],
                  receiver, trades + [Done(Deal(offer, sender, receiver))])
  {
    Exchange(HeldBy("a", []), records, trades, offer, entry, sender, receiver);
    ExchangeStands(HeldBy("a", []), records, trades, offer, entry, sender, receiver);
  }

  lemma OneStands()
    ensures Stage(First(), "b", [A_TO_B])
  {
    NextStage([], [], "1", "2", "a", "b");
    assert [] + [OfferRecord("1", "a", "b")] == [OfferRecord("1", "a", "b")];
    assert [] + [A_TO_B] == [A_TO_B];
  }

  lemma TwoStand()
    ensures Stage(Second(), "c", [A_TO_B] + [B_TO_C])
  {
    OneStands();
    NextStage(First(), [A_TO_B], "3", "4", "b", "c");
  }

  lemma NotListedPair(one: TradeState, two: TradeState, id: string)
    requires one.id != id && two.id != id
    ensures NotListed([one] + [two], id)
  {
  }

  lemma ThreeStand()
    ensures Stage(Third(), "b", [A_TO_B] + [B_TO_C] + [C_TO_B])
  {
    TwoStand();
    NotListedPair(A_TO_B, B_TO_C, "");
    NotListedPair(A_TO_B, B_TO_C, "5");
    NextStage(Second(), [A_TO_B] + [B_TO_C], "5", "6", "c", "b");
  }

  lemma VetoLeaves(done: TradeState, later: seq<TradeState>, entry: string)
    requires done.status == APPROVED
    ensures StandingNext([done] + later, [done] + later, VetoRecord(entry, done)) == later
  {
    TradeAtIs([done] + later, done.id, 0);
    assert Without([done] + later, 0) == later;
  }

  /** The veto of the first trade gives the player back and leaves the later trades standing. */
  lemma VetoStage(records: seq<Record>, done: TradeState, later: seq<TradeState>, entry: string)
    requires Stage(records, "b", [done] + later) && done == Done(Deal(done.id, "a", "b"))
    ensures var more := records + [VetoRecord(entry, done)];
            && RunTrades(HeldBy("a", []), more) == Ok(HeldBy("a", [Vetoed(done)] + later))
            && Standing(HeldBy("a", []), more) == later
  {
    Vetoes(done, later, entry, "b");
    RunMore(HeldBy("a", []), records, VetoRecord(entry, done), HeldBy("b", [done] + later));
    VetoLeaves(done, later, entry);
    StandingMore(HeldBy("a", []), records, VetoRecord(entry, done));
  }

  /** A run the program records where the assets stop following the trades that stand. The vetoed trade is the first of
      three of one player: he is back where he started, from where neither of the two trades that stand can be made. */
  lemma VetoUnderLaterTrades()
    ensures Distinct(RoundTrip()) && AllRecordable(RoundTrip()) && TradeEntries(RoundTrip())
    ensures var run := RunTrades(HeldBy("a", []), RoundTrip());
            && run.Ok? && run.value.assets == Holding("a")
            && MoveAssets(Holding("a"), AssetsOf(Standing(HeldBy("a", []), RoundTrip())), false).Refused?
  {
    RoundTripDistinct();
    RoundTripRecordable();
    RecordableAreEntries(RoundTrip());
    VetoLeavesTwo();
    TwoCannotBeMade();
  }

  /** The same with the later trades listed apart. */
  lemma ThreeStandApart(one: TradeState, two: TradeState, three: TradeState, records: seq<Record>, holder: string)
    requires Stage(records, holder, [one] + [two] + [three])
    ensures Stage(records, holder, [one] + ([two] + [three]))
  {
    assert [one] + [two] + [three] == [one] + ([two] + [three]);
  }

  lemma VetoLeavesTwo()
    ensures RunTrades(HeldBy("a", []), RoundTrip()) == Ok(HeldBy("a", [Vetoed(A_TO_B)] + ([B_TO_C] + [C_TO_B])))
    ensures Standing(HeldBy("a", []), RoundTrip()) == [B_TO_C] + [C_TO_B]
  {
    ThreeStand();
    ThreeStandApart(A_TO_B, B_TO_C, C_TO_B, Third(), "b");
    VetoStage(Third(), A_TO_B, [B_TO_C] + [C_TO_B], "7");
  }

  lemma TwoCannotBeMade()
    ensures MoveAssets(Holding("a"), AssetsOf([B_TO_C] + [C_TO_B]), false).Refused?
  {
    AssetsJoin([B_TO_C], [C_TO_B]);
    AssetsOfOne(B_TO_C);
    AssetsOfOne(C_TO_B);
    HandsOver("a", "b", "c", false);
    MovesJoin(Holding("a"), [Handover("b", "c")], [Handover("c", "b")], false);
  }
}
