/** The league ledger: what one recorded entry holds, and the few readings every fold shares. */
module Records {
  import opened Assets

  datatype Command =
    | Create | Revert | NativeSeed | RulesSet | SeasonRollover
    | CorrectRoster | CorrectTransaction | CorrectProvenance | CorrectPick | RuleException
    | ContractEdit | CapAdjust | CapRelief | ReserveException
    | DraftOrderAuto | DraftOrderSet | DraftOrderPattern | DraftOrderTiebreak | DraftStart | DraftStartupOpen
    | DraftPick | DraftSkip | DraftAssign | DraftInsert | DraftChange | DraftTimer | DraftRevert | DraftArchive
    | BidPlace | BidRaise | BidWithdraw | BidsProcess | BidsOverride
    | RosterCut | RosterReserve | WaiverClaim | WaiverOrderSet | WaiverOrderAuto | WaiverProcess | WaiverOverride
    | TradeOffer | TradeAct(act: string)
    | OLineAuctionClose
    | Other(name: string)

  datatype DraftKey = DraftKey(season: int, startup: bool, side: string)

  datatype Terms = Terms(salary: int, years: int, rfaAfter: bool)

  datatype DraftSelection = DraftSelection(franchise: string, player: string, round: int, slot: int,
                                           original: string, terms: Terms)

  datatype DraftAct = DraftAct(round: int, original: string, extra: int, player: string, replaced: string,
                               franchise: string, restoreTo: string)

  datatype DraftArgs = DraftArgs(season: int, startup: bool, side: string, pick: Option<DraftSelection>,
                                 act: Option<DraftAct>)
  {
    function Key(): DraftKey {
      DraftKey(season, startup, side)
    }
  }

  datatype DraftOutcome = DraftOutcome(terms: Option<Terms>, franchise: string, slot: int, pool: seq<PoolEntry>,
                                       issued: seq<NativePick>)

  datatype Correction = Correction(franchise: string, player: string, action: string, entry: string, via: string,
                                   pickSeason: int, pickRound: int, pickOriginal: string, owner: string)

  datatype BidArgs = BidArgs(player: string, franchise: string, side: string, bid: string, salary: int, years: int)

  /** How one bid or claim fared when its auction or window was decided; no refusal if it could have won. */
  datatype Fared = Fared(id: string, refusal: string)

  datatype BidOutcome = BidOutcome(season: int, points: int, winner: string, winningBid: string, tied: seq<string>,
                                   results: seq<Fared>)

  datatype WaiverArgs = WaiverArgs(bucket: string, player: string, franchise: string, window: string,
                                   claim: string)

  datatype WaiverOutcome = WaiverOutcome(player: Option<NativePlayer>, dead: int, season: int, closeAt: int,
                                         winner: string, clearsDead: bool, order: seq<string>,
                                         priorOrder: seq<string>, source: string, results: seq<Fared>)

  datatype TradeAsset = TradeAsset(sender: string, receiver: string, player: string, season: int, round: int,
                                   original: string)

  /** A trade as recorded. The recorded digest of the state before is held as that state itself. */
  datatype TradeState = TradeState(id: string, parties: seq<string>, assets: seq<TradeAsset>, status: string,
                                   previous: Option<TradeState>)

  datatype OLineOutcome = OLineOutcome(placed: seq<NativePlayer>, pending: seq<NativePlayer>)

  /** A recorded contract or cap override; the fields its command does not use are ignored. */
  datatype Override = Override(franchise: string, player: string, amount: int, salary: int, years: int, season: int)

  datatype RolloverPlan = RolloverPlan(closes: int, opens: int, after: Snapshot)

  datatype Args = Args(
    name: string,
    entry: string,
    franchises: seq<string>,
    field: string,
    value: Option<int>,
    effective: string,
    people: Option<string>,
    correction: Option<Correction>,
    change: Option<Override>,
    draft: Option<DraftArgs>,
    draftOutcome: Option<DraftOutcome>,
    bid: Option<BidArgs>,
    bidOutcome: Option<BidOutcome>,
    waiver: Option<WaiverArgs>,
    waiverOutcome: Option<WaiverOutcome>,
    tradeOutcome: Option<TradeState>,
    oline: Option<OLineOutcome>,
    native: Option<Snapshot>)

  datatype RawRecord = RawRecord(
    entry: string,
    revision: int,
    principal: string,
    at: int,
    command: Command,
    reason: string,
    args: Args,
    plan: Option<RolloverPlan>,
    before: bool)
  {
    /** The bodies a recorded command always carries; a record without them is refused before it is stored. */
    predicate Readable() {
      var c := command;
      && (c.CorrectTransaction? || c.CorrectRoster? || c.CorrectProvenance? || c.CorrectPick? ==> args.correction.Some?)
      && (c.ContractEdit? || c.CapAdjust? || c.CapRelief? || c.ReserveException? ==> args.change.Some?)
      && (Live(c) ==> args.draft.Some?)
      && (c.DraftPick? ==> args.draft.value.pick.Some?)
      && (Live(c) && !c.DraftPick? && !c.DraftArchive? ==> args.draft.value.act.Some?)
    }

    /** The entry this record compensates, whatever its command. */
    function Target(): string
      requires Readable()
    {
      if command.CorrectTransaction? then args.correction.value.entry else args.entry
    }

    predicate OfDraft(key: DraftKey) {
      args.draft.Some? && args.draft.value.Key() == key
    }

    predicate RecordedRollover() {
      command.SeasonRollover? && plan.Some? && before
    }
  }

  const NO_ARGS := Args("", "", [], "", None, "", None, None, None, None, None, None, None, None, None, None, None,
                        None)

  type Record = r: RawRecord | r.Readable() witness RawRecord("", 0, "", 0, Create, "", NO_ARGS, None, false)

  /** Commands recorded against a running draft; these are what a restore can set aside. */
  predicate Live(command: Command) {
    || command.DraftPick? || command.DraftSkip? || command.DraftAssign? || command.DraftInsert?
    || command.DraftChange? || command.DraftTimer? || command.DraftRevert? || command.DraftArchive?
  }

  predicate DraftCommand(command: Command) {
    || command.DraftOrderAuto? || command.DraftOrderSet? || command.DraftOrderPattern? || command.DraftOrderTiebreak?
    || command.DraftStart? || command.DraftStartupOpen? || Live(command)
  }

  predicate StandingRule(command: Command) {
    command.DraftOrderPattern? || command.DraftOrderTiebreak?
  }

  ghost function Entries(records: seq<Record>): set<string> {
    set i | 0 <= i < |records| :: records[i].entry
  }

  /** Entry ids are issued once. */
  ghost predicate Distinct(records: seq<Record>) {
    forall i, j :: 0 <= i < j < |records| ==> records[i].entry != records[j].entry
  }

  predicate Compensates(r: Record) {
    r.command.Revert? || r.command.CorrectTransaction?
  }

  /** Every compensation names an entry recorded before it. */
  ghost predicate Linked(records: seq<Record>) {
    forall i :: 0 <= i < |records| && Compensates(records[i]) ==> records[i].Target() in Entries(records[..i])
  }

  /** Where the entry stands in the ledger. */
  function PlaceOf(records: seq<Record>, entry: string): (place: Option<nat>)
    ensures place.Some? ==> place.value < |records| && records[place.value].entry == entry
    ensures place.None? ==> forall i :: 0 <= i < |records| ==> records[i].entry != entry
  {
    if records == [] then None
    else if records[|records| - 1].entry == entry then Some(|records| - 1)
    else PlaceOf(records[..|records| - 1], entry)
  }
}
