# TheWarRoom's native league, modelled and proved

TheWarRoom keeps a native fantasy league as an append-only ledger. Nothing is ever edited: an undo, a correction or a
draft rewind is one more entry, and what the league looks like is computed by folding the ledger. This project models
those folds in Dafny and proves what they keep over every ledger.

How the parts fit:

- `Records`, `Replay`: the ledger's entries, and the backward walk and forward pass that decide which entries count.
  `Replay.Full` is the specification of full replay; the methods beside it are the loops that compute it.
- `Compensation`, `DraftRestores`: what the backward walk means (the one consistent reading, parity, chains), and that a
  draft's entries in force are a stack which a restore cuts back.
- `ClosedBooks`, `ResumedAssets`: a season's stored prefix with a replay of the tail agrees with full replay, for the
  ledger and for the assets and market, over every chain of season closes.
- `Identity`: whom replay and every resumed reading name as the league's creator.
- `EditedCopies`: exactly when the keys kept by the checkpoint and by the replay memo notice every edit that matters.
- `ReversalRoots`: the four walks from a reversal to the entry it is really about.
- `Assets`, `Market`, `Projector`: rosters, picks, charges, bids, waivers, trades, drafts and corrections as one step of
  the projection. `MarketLaws` and `ProjectorLaws` prove what every step and every run keeps. `Awards`, `Chains`,
  `CorrectedBids` and `CorrectedWaivers` prove that a corrected award leaves the league of its last decision.
  `BidContracts` proves that a winner signs for what the entry behind his bid recorded, `LastContracts` that a player added
  back takes the latest contract the projection had for him, and `MarketEffects` and `RosterEffects` tell what every
  command leaves by the fields of its record.
  `LeagueState`, `MarketState` and `ProjectionRun` are the same operations on live objects changed in place, each proved
  to give the specification's new state.
- `Trades`, `StandingTrades`, `TradeBalance`, `TradeVetoes`: moves of different assets commute and invert; exactly when the
  assets follow the trades that stand; what balances whatever happens; and a recorded run where they stop following.
- `LedgerLists`, `ListedHoldings`: the projected franchises are the league's own list, and every holding is one of theirs.
- `LedgerPicks`, `PicksSetAside`, `RestoredPicks`, `PulledPicks`: which picks a ledger's closes and rollovers leave, exactly
  what setting a close aside takes away, and a ledger that loses a pick.
- `BookQueries`: the market's read-only questions.
- `Teams`, `Text`: seat numbers, and Teams changes that keep every list of franchises the same.
- `OLine`, `OLineCloses`: the greedy reservation of leftover O-Line units, and its retries.
- `DraftHolds`, `IssuedPicks`, `FirstRound`: what a draft may still take, the picks issued when drafts close, and the
  in-place tie ordering of round one.
- `Recorder`: chunked detection of an echoed secret, the bounded head and the single record of a download.
- `PasswordWork`: admission to password work as a state machine over two bounded channels.
- `Lists`, `Ordering`: shared facts about lists and sorting.

A recorded hash is modelled as the value it was taken of: a prefix's hash is the prefix, a trade's recorded digest of its
previous state is that state. What the league's rules resolve to (the season, the sides) is a function of a ledger
prefix, given as a parameter (`Projector.Rules`); whether a contract fits under the cap and within the roster maximum is a parameter
of the O-Line close. Refusals carry shortened words; which inputs are refused is the code's.

Where the source and its comments differ, the code is followed. A comment says that the replay memo's key has in it
everything replay reads (`internal/commissioner/replay_cache.go:8-9`), but the key lacks the side of a draft, and the
checkpoint's fold key lacks the draft's whole key. `EditedCopies.KeysMissTheSide` is a ledger of two picks and a restore
whose copy with the restore moved to another side has the same keys of both kinds and replays differently.
`EditedCopies.MemoKeysSufficeIff` and `EditedCopies.CheckpointKeysSufficeIff` say for exactly which ledgers the keys notice
every edit that changes the replay. Records the program itself holds are never edited, and for those the checkpoint
theorems hold without this condition.

Two things one would expect of the code are false of it, and are stated with their exact conditions. The assets do not
always follow the trades that stand: a commissioner may veto an approved trade from under later trades of the same player
(`TradeVetoes.VetoUnderLaterTrades`), and they follow if and only if no trade is ever taken back so
(`StandingTrades.AssetsFollowApprovalIff`); in number every holding balances all the same (`TradeBalance.HoldingsBalance`).
And a close does not see to it for good that every franchise holds its next picks: in a league that changes seasons by
date, restoring an earlier season's closed draft takes picks away which a later close had found there and so did not issue
(`PulledPicks.RestoreTakesPicks`), until the restored draft closes again. `PicksSetAside.WantedHeldIff` says for which
ledgers every such pick is held, and `RestoredPicks.RestoreKeepsWantedIff` which restores leave it so. A recorded rollover
takes the picks over, so what is set aside after it costs none (`PicksSetAside.RolloverCarries`).

## Model

| member | source | states |
|---|---|---|
| Replay.SetAsideByDraftRestores | internal/commissioner/draft_restore.go:11-30 | the nested loops set aside, in ledger order, for each restore still in force when reached, the live entries of its own draft between its checkpoint and itself |
| Replay.CompensateBackwards | internal/commissioner/ledger.go:120-129 | newest first, a correction in force clears its target and a reversal in force turns its target over |
| Replay.ReplayFull | internal/commissioner/ledger.go:113-132 | full replay: creator, name and active map, with restores applied after the backward walk |
| Identity.ReplayNamesTheCreator | internal/commissioner/ledger.go:113-120 | the creator and the league's name are the principal and the name of the latest creation, and empty before there is one |
| Identity.ResumedNamesTheCreator | internal/commissioner/closed_books.go:197-209 | a resumed reading takes both from the tail's latest creation, or from the checkpoint where the tail has none |
| Compensation.WalkIsTheOneReading | internal/commissioner/ledger.go:113-132 | the backward walk gives every entry the status that the compensations in force say, and no other assignment of statuses is consistent with itself in that way |
| Compensation.InForceByParity | internal/commissioner/ledger.go:113-132 | an entry no correction in force clears counts exactly when an even number of reversals in force name it |
| Compensation.ReversalFlipsItsChain | internal/commissioner/ledger.go:113-132 | with no corrections or restores, appending a reversal flips its target, that target's target and so on, and no other entry |
| DraftRestores.SetAsideMeans | internal/commissioner/draft_restore.go:11-30 | an entry ends set aside exactly when some later restore in force on the backward walk reaches behind it; a restore acts even if a later restore sets it aside |
| DraftRestores.RestoreTurnsOff | internal/commissioner/draft_restore.go:11-30 | where entries are distinct and linked, an appended restore turns off every later pick, skip, assignment, insertion, change, timer change, restore and close of its own season, kind and side, and leaves every other entry as it was |
| DraftRestores.UndoOfUndo | internal/commissioner/ledger.go:113-132 | where entry ids are distinct and compensations name earlier entries, with corrections and restores allowed, reversing a reversal just recorded gives every earlier entry back its status |
| DraftRestores.RestoreCutsItsStack | internal/commissioner/draft_restore.go:11-30 | where entry ids are distinct and compensations name earlier entries, appending a restore cuts its draft's entries in force back to the checkpoint and adds itself; every other draft reads as before |
| DraftRestores.CutBackPops | internal/commissioner/draft_restore.go:11-30 | cutting an ascending stack back to a checkpoint pops from its top only |
| DraftRestores.EveryRunIsAStack | internal/commissioner/draft_restore.go:11-30 | over every run of picks, tray moves, closes and nested restores that no compensation aims at, a draft's entries in force are the stack obtained by pushing changes and popping to each restore's checkpoint |
| DraftRestores.NamedCheckpoint | internal/commissioner/draft_restore.go:44-55 | the checkpoint accepted when a restore is recorded is the one replay finds for it |
| DraftRestores.CheckpointAccepted | internal/commissioner/draft_restore.go:44-55 | a restore may name exactly an entry in force that ran or set up its own draft, or, unless it is a startup, set up the drafts of all sides |
| DraftRestores.RestoreRewinds | internal/commissioner/draft_restore.go:44-55 | a restore to a live change still in force leaves the draft exactly as it stood just after that change, followed by the restore itself |
| ClosedBooks.UsableClosedBooks | internal/commissioner/closed_books.go:163-195 | a checkpoint is taken up exactly when the creation's franchises and the prefix's fold keys still match and the tail holds no restore and no compensation that names an entry of the stored active map |
| ClosedBooks.WithClosedBooks | internal/commissioner/closed_books.go:117-151 | a summary is attached exactly when it validates, its source is the ledger's prefix and that prefix ends in the season rollover it names, and then with that prefix's keys and franchises; otherwise full replay stays in place |
| ClosedBooks.CloseSummarises | internal/commissioner/closed_books.go:52-90 | books close exactly on a recorded rollover of a ledger with a creator, for the season that rollover ends, with its entry and the reading of the whole ledger |
| ClosedBooks.FoldKeysTell | internal/commissioner/closed_books.go:92-116 | equal fold keys mean the same entry, command, principal, time, name, people and targets |
| ClosedBooks.ReplayClosedBooks | internal/commissioner/closed_books.go:197-209 | stored prefix plus replay of the tail, with the later creation taking over creator and name |
| ClosedBooks.ReplayHeld | internal/commissioner/ledger.go:107-110 | without a memo, replay resumes from a usable checkpoint and is full replay otherwise |
| ClosedBooks.SameInputsReplayAlike | internal/commissioner/closed_books.go:92-115 | equal fold keys together with equal draft keys give equal replay |
| ClosedBooks.NoDanglingTarget | internal/commissioner/closed_books.go:31-40 | as many active keys as entries means no compensation in force names anything but an entry of the prefix |
| ClosedBooks.FullSplits | internal/commissioner/closed_books.go:197-209 | replay of a prefix and a tail that aims at none of it is the two replays laid together |
| ClosedBooks.CheckpointAgrees | internal/commissioner/closed_books.go:163-209 | whenever a faithful checkpoint is usable and the prefix's fold keys and draft keys are those of the entries it was made from, the resumed projection is the full one: active map, creator and name, for every tail |
| ClosedBooks.EveryChainOfClosesAgrees | internal/commissioner/closed_books.go:52-84 | over every chain of appends, season closes made on a resumed ledger, and summaries attached again later, with distinct entry ids, the ledger reads as full replay reads it and each stored summary is the full replay of what it closed |
| EditedCopies.CachedReplay | internal/commissioner/replay_cache.go:53-69 | the memo answers exactly for a non-empty ledger whose keys are all the ones it was made from |
| EditedCopies.MemoKeysTell | internal/commissioner/replay_cache.go:10-31 | equal memo keys mean the same entry, revision, command, principal, name, targets and draft season and kind |
| EditedCopies.ReplayCopy | internal/commissioner/ledger.go:103-111 | a reader gets the memo's projection where it answers and otherwise the resumed or full one |
| EditedCopies.ClashTells | internal/commissioner/replay_cache.go:8-30 | where a restore in force reaches behind a live entry whose draft the key cannot tell from its own, two copies with the same keys replay differently |
| EditedCopies.KeysMissTheSide | internal/commissioner/replay_cache.go:8-30 | a ledger where moving a restore to another draft side changes which picks count while every fold key and every memo key stays the same |
| EditedCopies.CheckpointKeysSufficeIff | internal/commissioner/closed_books.go:92-115 | the fold keys notice every edit that changes replay if and only if no restore in force reaches behind a live entry in force |
| EditedCopies.MemoKeysSufficeIff | internal/commissioner/replay_cache.go:8-30 | the memo's keys notice every edit that changes replay if and only if no restore in force reaches behind a live entry in force of its own season and kind of draft, on any side |
| ReversalRoots.Roots | internal/commissioner/ledger.go:202-214 | the forward map holds the original entry behind each entry |
| ReversalRoots.ScanBack | internal/commissioner/governance.go:227-258 | the permission check's backward scan finds the same original, or nothing where a reversal names no recorded entry |
| ReversalRoots.LinkedLinksBack | internal/commissioner/governance.go:227-258 | where reversals name earlier entries and ids are distinct, no reversal reaches forward, which is what the two privacy walks need |
| ReversalRoots.PrivateBid | internal/commissioner/market_project.go:159-171 | the bounded privacy walk hides an entry exactly when its original is an owner's bid, raise or withdrawal; the bound is never what stops it |
| ReversalRoots.PrivateClaim | internal/commissioner/market_project.go:339-351 | the unbounded privacy walk ends and hides an entry exactly when its original is a claim |
| ReversalRoots.RootEndsTheChain | internal/commissioner/ledger.go:202-214 | in a linked ledger the original is no reversal, lies on the chain the reversal flips, and is what every walk finds |
| Text.TwoDigitsReadBack | internal/commissioner/league_teams.go:82-88 | a seat's zero-padded number reads back as itself |
| Teams.SeatNumbersRoundTrip | internal/commissioner/league_teams.go:82-88 | an id reads as seat n exactly when it is the id written for seat n |
| Teams.SeatsAreDistinct | internal/commissioner/league_teams.go:64-73 | different seats have different ids |
| Teams.ResizedFranchises | internal/commissioner/league_teams.go:64-73 | a resize keeps the first ids and appends the next ones in the pattern |
| Teams.LeagueFranchises | internal/commissioner/league_teams.go:42-61 | the league's list is the creation's, whatever its ids, resized in ledger order by every Teams change that stands |
| Teams.ListIsNumbered | internal/commissioner/league_teams.go:42-61 | from a numbered creation list, the list is the numbered one of the last count in force |
| Teams.ResizeStaysInStep | internal/commissioner/league_teams.go:110-141 | an accepted Teams change keeps the assets' list numbered and every player, pick and charge on a listed franchise |
| Teams.NewFranchiseIs | internal/commissioner/league_teams.go:76-128 | a seat that a Teams change adds is named and abbreviated by its number and held under its own id |
| Teams.EveryReaderStaysInStep | internal/commissioner/league_teams.go:110-141 | over any sequence of accepted counts the league's list and the assets' list are the same numbered list and nothing held names a franchise outside it |
| ListedHoldings.EveryHoldingIsListed | internal/commissioner/native_projector.go:39-83 | when a ledger projects, every player, pick and charge names a franchise of the assets' list, whatever Teams changes, market entries, drafts, corrections and overrides are in force; each entry hands things to listed franchises only |
| Market.Latest | internal/commissioner/market_book.go:66-73 | the highest place at which the side auctions the player, or none |
| Market.Open | internal/commissioner/market_book.go:53-63 | the last opened auction for that copy on that side if it is undecided, and none exactly where there is no such auction or it is decided |
| Market.StandingBid | internal/commissioner/market_project.go:73-82 | the live bid of an undecided auction that a raise or withdrawal names, refused exactly where the first auction listing it is decided or the bid no longer stands, or none lists it |
| Market.AwardedAuction | internal/commissioner/market_project.go:86-108 | a decision is about the newest auction of its lot, undecided; a correction about the auction that lists its bid, decided and the newest of its lot; otherwise refused |
| BidContracts.EveryBidIsRecorded | internal/commissioner/market_project.go:38-82 | over every projection each bid of the book carries the franchise, principal, time, salary, years and points of an entry in force that placed or raised it |
| BidContracts.WinnerSignsHisBid | internal/commissioner/market_project.go:86-137 | the winner's roster entry has the salary of the placing or raising entry the outcome names and ends its years after the season, active, unrestricted, his own, under the lot's name |
| BidContracts.DecisionIsWritten | internal/commissioner/market_project.go:86-108 | a decision writes each part of its outcome to its auction and changes no bid and no other auction |
| MarketEffects.BidIsPlaced | internal/commissioner/market_project.go:38-55 | a placed bid stands last in the newest undecided auction of the copy or opens one; nobody on the side holds the player and the franchise has no standing bid there |
| MarketEffects.BidIsRaised | internal/commissioner/market_project.go:57-71 | a raise marks the franchise's standing bid replaced and adds its own, and changes no other |
| MarketEffects.BidIsWithdrawn | internal/commissioner/market_project.go:15-36 | a withdrawal marks the standing bid it names withdrawn and changes no other |
| MarketEffects.NobodyWins | internal/commissioner/market_project.go:110-137 | a decision for nobody only takes the earlier winner's contract off his roster |
| MarketEffects.PlayerIsCut | internal/commissioner/market_project.go:271-283 | a cut takes exactly the recorded contract, and leaves a charge of the recorded dead money under the entry's id and an open window |
| MarketEffects.PlayerIsClaimed | internal/commissioner/market_project.go:284-292 | a claim joins the unprocessed window it names |
| MarketEffects.PlayerIsMoved | internal/commissioner/market_project.go:420-443 | a reserve move changes the recorded player's status alone: injured reserve, taxi or active by the named squad |
| MarketEffects.OrderIsSet | internal/commissioner/market_project.go:293-295 | setting the order replaces order, base order, season and source |
| MarketEffects.ClaimantTakesOver | internal/commissioner/market_project.go:353-373 | the claimant takes the cut contract whole, as his own and active |
| MarketEffects.WindowIsDecided | internal/commissioner/market_project.go:302-336 | a decision writes its outcome to its window and the order, and to nothing else of the book |
| MarketEffects.ChargeIsDecided | internal/commissioner/market_project.go:302-336 | the cut's charge is its dead money, or nothing while a winner clears it, and no other charge changes |
| MarketEffects.TradeIsWritten | internal/commissioner/market_project.go:191-224 | an offer is listed under its entry's id, and an act replaces the state it was recorded from |
| MarketEffects.OnlyUnusedPicksMove | internal/commissioner/market_project.go:239-247 | a pick moves only without player, slot, skip or compensation |
| MarketEffects.PlacingAccepted | internal/commissioner/market_project.go:38-55 | exactly when a bid is taken |
| MarketEffects.AnswerAccepted | internal/commissioner/market_project.go:57-84 | exactly when a raise or a withdrawal is taken |
| MarketEffects.AwardAccepted | internal/commissioner/market_project.go:86-137 | exactly when a decision on bids is taken: the earlier winner still holds the player, and for a new winner the side is free of him otherwise and the winning bid is the winner's |
| MarketEffects.RosterMoveAccepted | internal/commissioner/market_project.go:271-283 | exactly when a cut or a reserve move is taken: of the recorded contract on the franchise |
| MarketEffects.WaiverEntryAccepted | internal/commissioner/market_project.go:284-295 | a claim is taken in an open window, and setting the order always is |
| MarketEffects.WindowsFit | internal/commissioner/market_project.go:302-314 | windows are found by id and by claim, the first that fits |
| MarketEffects.WindowsAreFound | internal/commissioner/market_project.go:302-314 | which window a decision or a correction is about, and when there is none |
| MarketEffects.ClaimAwardAccepted | internal/commissioner/market_project.go:302-373 | exactly when a waiver decision is taken |
| MarketEffects.TradeAccepted | internal/commissioner/market_project.go:191-224 | exactly when a trade entry is taken, and which way it moves the assets |
| MarketEffects.PlayerMoves | internal/commissioner/market_project.go:227-238 | a player moves from the one end to the other exactly where the first holds him |
| MarketEffects.PlayersAreFound | internal/commissioner/player_sides.go:24-40 | a franchise's player, a side's copy and a side's lot are each the first that fits, and missing where none does |
| MarketEffects.TradesAreFound | internal/commissioner/market_project.go:191-200 | a trade is found exactly where one has its id |
| MarketLaws.PlaceKeepsBook | internal/commissioner/market_project.go:38-55 | placing keeps the bid book's laws: one undecided auction a copy and that the newest, one live bid a franchise, every bidder on the auction's side |
| MarketLaws.BidKeeps | internal/commissioner/market_project.go:15-137 | every bid entry keeps one copy a side, the bid book's laws and the claims' sides |
| MarketLaws.ReplaceBidKeepsOneCopy | internal/commissioner/market_project.go:110-137 | replacing an auction's winner keeps one copy a side |
| MarketLaws.WaiverKeeps | internal/commissioner/market_project.go:260-373 | every waiver entry keeps one copy a side, the bid book's laws and the claims' sides |
| MarketLaws.MoveKeepsOneCopy | internal/commissioner/market_project.go:227-250 | moving assets within sides, forward or back, keeps one copy a side |
| MarketLaws.TradeKeeps | internal/commissioner/market_project.go:191-224 | every trade entry keeps one copy a side and the book's laws |
| Awards.ReplaceDecides | internal/commissioner/market_project.go:110-137 | a decision leaves every other roster entry in order and the named contract as the side's only copy |
| Awards.DecidesAlone | internal/commissioner/market_project.go:110-137 | a decision accepted after earlier ones is accepted without them too, and leaves the same rosters up to where the contract is listed |
| Chains.LastDecisionStands | internal/commissioner/market_project.go:84-137 | a chain of decisions with arbitrary changes in between ends as its last decision alone does, for any kind of award whose steps stay beside the undecided run |
| CorrectedBids.CorrectedBidStands | internal/commissioner/market_project.go:84-137 | bid entries that decide and correct one auction, projected with any change to the rest of the league (rosters, charges, pool, picks, other auctions, windows, trades) in between, leave the whole league, rosters as a multiset, as the last outcome recorded as the first decision does |
| CorrectedBids.EntryIsBetween | internal/commissioner/market_project.go:84-137 | any entry that leaves the auction and the copy alone is one of those changes in between, up to the copy's place in the list of players |
| CorrectedBids.BidsElsewhereAlike | internal/commissioner/market_project.go:38-82 | a bid placed on another lot, or raised or withdrawn in another auction, is accepted of the decided and the undecided run alike and leaves them as close |
| CorrectedWaivers.CorrectedWaiverStands | internal/commissioner/market_project.go:302-373 | the same of a waiver window: rosters as a multiset, every charge, the window and the order agree; so does the base order where the league knows one without these decisions, from before or set in between, and otherwise it is the first decision's |
| CorrectedWaivers.ChargeFollowsLast | internal/commissioner/market_project.go:302-336 | along such a chain the cut's charge is its recorded dead money, or nothing while the last decision awards the player and clears it |
| Trades.MovesCommute | internal/commissioner/market_project.go:227-250 | moves of different assets do not see each other, in either direction; two sides' copies of one player are different assets |
| Trades.ForwardThenBack | internal/commissioner/market_project.go:227-250 | moving assets and moving them back in the same list order never fails and restores the snapshot exactly |
| Trades.MovesChangeOwnersOnly | internal/commissioner/market_project.go:227-250 | moves change owners and nothing else |
| Trades.NetMovesFollowApproval | internal/commissioner/market_project.go:191-224 | over any accepted run of trade entries each trade's moves sum to one if it stands approved and to zero otherwise |
| Trades.MovedIsTheMove | internal/commissioner/market_project.go:191-224 | the counted moves are what happens to the snapshot: a move forward, a move back, or nothing |
| StandingTrades.StandingIsApproved | internal/commissioner/market_project.go:191-224 | over any accepted run of trade entries the trades listed in order of approval are those the book has approved, each once and with its own assets |
| StandingTrades.TakesBackIff | internal/commissioner/market_project.go:227-250 | the remaining trades can be made without the one taken back exactly when no trade approved after it moves an asset of it, and then taking it back leaves what they move |
| StandingTrades.AssetsFollowApprovalIff | internal/commissioner/market_project.go:191-224 | over any accepted run of any number of trades, of assets an offer may name, rosters and picks are at every point the starting ones moved by the standing trades in order of approval, if and only if no trade is ever taken back while a later one that stands moves one of its assets |
| TradeBalance.HoldingsBalance | internal/commissioner/market_project.go:191-250 | over every accepted run, shared assets and all, each franchise has of each player and pick what it started with plus what the standing trades bring less what they take |
| TradeVetoes.OnlyVetoesTakeBack | internal/commissioner/market/trade_execute.go:109-281 | of the changes of status that can be recorded, only an override with a veto moves a trade's assets back |
| TradeVetoes.VetoUnderLaterTrades | internal/commissioner/market/trade_execute.go:266-281 | offers, acceptances without review and a veto, all as the program records them: after three trades of one player the first is vetoed, and neither trade that stands can be made from where he then is |
| ProjectorLaws.DraftKeepsOneCopy | internal/commissioner/draft_apply.go:11-90 | picks, tray moves, changes and closes keep one copy a side, given the untaken draftee the append demands |
| ProjectorLaws.CorrectionKeepsOneCopy | internal/commissioner/correction_projector.go:10-111 | adding, removing, and correcting provenance or a pick's owner keep one copy a side |
| ProjectorLaws.UnitsKeepOneCopy | internal/commissioner/oline_close.go:185-200 | signing assigned units appends exactly them and keeps one copy a side |
| ProjectorLaws.OverrideKeepsOneCopy | internal/commissioner/native_projector.go:98-136 | a contract or cap override keeps one copy a side |
| ProjectorLaws.StepKeeps | internal/commissioner/native_projector.go:39-82 | every projected entry keeps one copy a side, the bid book's laws and the claims' sides, and moves no franchise to another side |
| RosterEffects.PlayerIsDrafted | internal/commissioner/draft_apply.go:11-49 | a pick signs its player for the slot's terms, restricted after them only in a rookie draft that says so, and uses the scheduled pick |
| RosterEffects.PlayerIsAssigned | internal/commissioner/draft_apply.go:52-66 | a tray entry signs by its outcome and uses a pick only for an assignment to a scheduled one |
| RosterEffects.PlayerIsChanged | internal/commissioner/draft_apply.go:69-80 | a change puts the new rookie in the old contract and on the side's picks used on the old one |
| RosterEffects.DraftIsClosed | internal/commissioner/draft_apply.go:83-90 | a close adds its pool and its issued picks |
| RosterEffects.CapIsAdjusted | internal/commissioner/native_projector.go:98-110 | an adjustment charges a listed franchise the recorded amount for the recorded season |
| RosterEffects.ContractIsEdited | internal/commissioner/native_projector.go:98-136 | an edit sets the salary and the last year, not beyond 9999, of the player found on the franchise |
| RosterEffects.CapIsRelieved | internal/commissioner/native_projector.go:98-136 | relief charges the player's franchise less by its amount in the season |
| RosterEffects.ReserveIsExcepted | internal/commissioner/native_projector.go:98-136 | a reserve exception checks its player and changes nothing |
| RosterEffects.PickIsCorrected | internal/commissioner/correction_projector.go:91-112 | exactly an unused pick of another owner goes to a listed franchise |
| RosterEffects.ProvenanceIsCorrected | internal/commissioner/correction_projector.go:56-64 | how the copy came is rewritten, for the franchise named if one is |
| RosterEffects.PlayerIsRemoved | internal/commissioner/correction_projector.go:31-36 | exactly the franchise's own copy is taken off |
| RosterEffects.PlayerIsAdded | internal/commissioner/correction_projector.go:37-53 | exactly a copy nobody on the side holds, with a last contract, is added under it, active and marked |
| RosterEffects.SeasonRollsOver | internal/commissioner/rollover_season.go:108-122 | a rollover with its plan replaces the assets of the season it closes |
| RosterEffects.AuctionIsClosed | internal/commissioner/oline_close.go:185-200 | the placed units join the rosters in order and the outcome becomes the book's |
| RosterEffects.SeedIsRecorded | internal/commissioner/native_reading.go:57-86 | at most one starting snapshot, on the sides the ledger gives, with an empty book |
| RosterEffects.SeedIsAccepted | internal/commissioner/native_reading.go:57-86 | exactly when a ledger's starting snapshot can be read |
| RosterEffects.SeedIsSound | internal/commissioner/native_seed.go:116-243 | of the checks on holdings: a starting snapshot is valid exactly with one copy of a player a side, no franchise or charge twice and every holding with a listed franchise |
| RosterEffects.BidIsTaken | internal/commissioner/native_projector.go:39-60 | the five bid commands are taken as bids, and refused before a starting snapshot |
| RosterEffects.WaiverIsTaken | internal/commissioner/native_projector.go:39-60 | the seven waiver commands are taken as waivers |
| RosterEffects.TradeIsTaken | internal/commissioner/native_projector.go:39-44 | trade entries are taken as trades |
| RosterEffects.AuctionCloseIsTaken | internal/commissioner/native_projector.go:57-58 | a close of the O-Line auction is taken as one |
| RosterEffects.CorrectionIsTaken | internal/commissioner/native_projector.go:61-62 | the three corrections of assets need a starting snapshot and are applied to it |
| RosterEffects.CorrectionsFindTheSide | internal/commissioner/correction_projector.go:18-26 | a correction looks on its franchise's side, or on the only one where it names none |
| RosterEffects.OtherIsTaken | internal/commissioner/native_projector.go:39-83 | every other entry sees the season's rules with itself recorded |
| RosterEffects.SetupIsTaken | internal/commissioner/native_projector.go:57-66 | Teams changes resize, rollovers roll over, and the other corrections only need a starting snapshot |
| RosterEffects.DraftIsTaken | internal/commissioner/native_projector.go:65-96 | the five draft commands that move assets are applied |
| RosterEffects.OverrideIsTaken | internal/commissioner/native_projector.go:67-79 | overrides are applied under the season's rules and refused where these cannot be read |
| RosterEffects.NothingElseIsTaken | internal/commissioner/native_projector.go:39-83 | a command no operation takes leaves the league as it is |
| ProjectorLaws.EveryProjectionIsKept | internal/commissioner/native_projector.go:13-36 | so does the projection of every ledger |
| LedgerLists.FranchisesInStepIff | internal/commissioner/league_teams.go:42-128 | when a ledger projects from a numbered snapshot, the assets' franchises are the league's list in order if and only if a Teams change is in force or the snapshot has as many franchises as the creation; a rollover's plan keeps the franchises |
| LedgerPicks.IssuedOnReplay | internal/commissioner/draft_close.go:125-175 | a close issued what its draft misses in the state the projection brings to it, wherever no earlier close or rollover has changed status since it was recorded |
| LedgerPicks.PicksInStep | internal/commissioner/draft_close.go:125-175 | each close recorded what was missing when it was recorded and each rollover took over what there was: where none of them has an earlier one changed since, the picks held are the snapshot's and those the closes in force wanted, none twice if the snapshot names none twice |
| PicksSetAside.WantedHeldIff | internal/commissioner/draft_restore.go:11-30 | with closes set aside or back since, every pick wanted by a close in force since the last rollover is held if and only if no such pick was issued by a close set aside since and by none in force |
| PicksSetAside.PicksOnceIff | internal/commissioner/draft_close.go:156-175 | no pick is held twice if and only if none was to begin with and no close that came back had issued what a close recorded meanwhile issued again |
| PicksSetAside.RolloverCarries | internal/commissioner/rollover_season.go:108-122 | what the last rollover in force found is held, whatever is set aside later |
| RestoredPicks.RestoreKeepsWantedIff | internal/commissioner/draft_restore.go:11-30 | one more restore leaves every wanted pick held exactly when it covers no close that issued a pick which a close it leaves in force wants and none of these issued |
| PulledPicks.RestoreTakesPicks | internal/commissioner/draft_restore.go:11-30 | a ledger recorded as the program would, two drafts closed a season apart and the first restored to its start, where a close in force wants a pick nobody holds |
| ResumedAssets.StepReadsBack | internal/commissioner/native_projector.go:39-82 | projecting an entry reads the ledger only up to that entry |
| ResumedAssets.ResumedIsProjected | internal/commissioner/closed_native.go:31-49 | resuming from a closed season's stored state and folding the tail gives the whole projection, with sides fixed and no starting snapshot in the tail |
| ResumedAssets.EveryChainProjectsAlike | internal/commissioner/closed_native.go:31-49 | over every chain of closes on resumed states, the assets and market read as the whole ledger projects them |
| LeagueState.Holdings.MoveTradeAssets | internal/commissioner/market_project.go:227-250 | in place: each asset changes hands in list order, or the call is refused |
| LeagueState.Holdings.ReplaceWinnerOfBids | internal/commissioner/market_project.go:110-137 | in place: the replaced winner's contract goes and the winning bid's is signed |
| LeagueState.Holdings.ReplaceWinnerOfWaiver | internal/commissioner/market_project.go:353-373 | in place: the replaced winner's contract goes and a claimant takes over the one that was cut |
| LeagueState.Holdings.Recharge | internal/commissioner/market_project.go:302-336 | in place: the charge of the cut, and no other, takes the amount |
| LeagueState.Holdings.MarkUsedPick | internal/commissioner/draft_apply.go:43-49 | in place: the drafted pick takes its slot and player |
| LeagueState.Holdings.ChangePick | internal/commissioner/draft_apply.go:69-79 | in place: the replaced rookie's roster entry and pick take the new player |
| LeagueState.Holdings.ApplyDraftEntry | internal/commissioner/native_projector.go:85-96 | in place: what each draft entry does to rosters, pool and picks |
| LeagueState.Holdings.SignReservedUnits | internal/commissioner/oline_close.go:185-200 | in place: each assigned unit signs unless its side already holds it |
| LeagueState.Holdings.CorrectPickOwnerInPlace | internal/commissioner/correction_projector.go:91-111 | in place: the named pick takes the new owner |
| LeagueState.Holdings.OverrideInPlace | internal/commissioner/native_projector.go:98-136 | in place: a contract edit rewrites one contract, a cap adjustment or relief appends one charge, a reserve exception only needs its player |
| LeagueState.Holdings.ResizeFranchises | internal/commissioner/league_teams.go:110-128 | in place: a Teams change drops only franchises that hold nothing and appends empty ones |
| MarketState.Board.FindOpen | internal/commissioner/market_book.go:53-63 | the backward loop finds the open auction |
| MarketState.Board.PlaceBidInPlace | internal/commissioner/market_project.go:38-55 | in place: a bid joins the open auction of its side's copy or starts one |
| MarketState.Board.RaiseBidInPlace | internal/commissioner/market_project.go:57-71 | in place: the standing bid is replaced by the raise |
| MarketState.Board.WithdrawBidInPlace | internal/commissioner/market_project.go:15-36 | in place: the standing bid is withdrawn |
| MarketState.Board.AwardBidInPlace | internal/commissioner/market_project.go:86-108 | in place: the auction, with how each bid fared, and the rosters take the decision together |
| MarketState.Board.CutInPlace | internal/commissioner/market_project.go:260-300 | in place: the player leaves, the dead money is charged and a waiver window of the cutting side opens |
| MarketState.Board.ClaimInPlace | internal/commissioner/market_project.go:260-300 | in place: a claim joins an unprocessed window |
| MarketState.Board.ReserveInPlace | internal/commissioner/market_project.go:430-443 | in place: the player recorded moves between the roster's buckets |
| MarketState.Board.AwardWaiverInPlace | internal/commissioner/market_project.go:302-336 | in place: rosters, charge, window with how each claim fared, and waiver order take the decision together |
| MarketState.Board.ProjectTradeInPlace | internal/commissioner/market_project.go:191-224 | in place: the trade's state is recorded, and its assets move when it becomes or stops being approved |
| ProjectionRun.LiveLeague.Apply | internal/commissioner/native_projector.go:39-82 | in place: one entry in force, dispatched by its command |
| ProjectionRun.LiveLeague.Project | internal/commissioner/native_projector.go:13-36 | in place: the loop over the ledger's entries in force |
| ProjectionRun.RecordedCorrectionPlayer | internal/commissioner/correction_projector.go:68-89 | the copy's last contract over a projection of the earlier entries |
| LastContracts.LastHeldIsTheLatest | internal/commissioner/correction_projector.go:66-89 | the contract found is the roster entry in the latest projected state that has the side's copy, and none exactly where no state had it |
| ProjectionRun.ReadNative | internal/commissioner/closed_native.go:31-49 | reading the native league starts from the stored state where the checkpoint is usable and binds the whole prefix |
| BookQueries.LeaderOf | internal/commissioner/market_book.go:107-116 | the leader is a bid no other beats on points and then on earliness, the first listed of such |
| BookQueries.StandingAt | internal/commissioner/market_book.go:13-21 | the auction's clock restarts at its latest bid, live or not |
| BookQueries.ActiveCount | internal/commissioner/market_book.go:119-131 | how many undecided auctions of other players hold a live bid of the franchise |
| BookQueries.CompleteWaiverOrder | internal/commissioner/market_book.go:195-213 | an order is complete exactly when it is a reordering of the franchises' ids |
| OLine.CountUnits | internal/commissioner/oline_close.go:255-263 | how many units a franchise's roster holds |
| OLine.Minimum | internal/commissioner/oline_close.go:114-132 | the minimum contract is known exactly when the table is ruled, not empty and every row positive, and is its least row |
| OLine.MarksAreDistinct | internal/commissioner/oline_close.go:84-112 | the text that marks a unit as reserved tells sides and units apart |
| OLine.AsManyUnitsAsTeams | internal/commissioner/oline_close.go:84-112 | reservations pair a side's units and franchises one to one |
| OLine.InitialAssignments | internal/commissioner/oline_close.go:71-112 | accepted exactly when O-Line bids are settled, the minimum is known, no franchise holds two units and no side has more unit-less franchises than distinct free units; then each unit-less franchise, in ascending id order, has one reservation, of the first free unreserved unit of its own side by name, at the minimum contract, and no unit of a side is reserved twice |
| OLine.ReservationsAreMinimum | internal/commissioner/oline_close.go:104-111 | every reservation is at a row of the table no other row is below, for the one season, active and unrestricted, on a unit of the side's pool under its name |
| OLine.CardsAreTheUnits | internal/nativecheck/linecard.go:13-39 | the units are the ids 990001 to 990032 |
| OLineCloses.PrepareClose | internal/commissioner/oline_close.go:28-69 | the first close splits new reservations and a retry splits the outstanding ones by who has room, in order; a retry with none outstanding is refused; each new reservation is of its side's first free unit left by name, at the minimum contract |
| OLineCloses.HandedOutIff | internal/commissioner/oline_close.go:134-174 | a unit is handed out exactly when nobody on the side holds it, the franchise holds none and the contract fits |
| OLineCloses.SplitConserves | internal/commissioner/oline_close.go:28-69 | a close loses and doubles no reservation, and hands out exactly those with room |
| OLineCloses.CloseServes | internal/commissioner/oline_close.go:185-200 | applying a prepared close is never refused and leaves each franchise it serves with exactly one unit |
| OLineCloses.EveryRunConserves | internal/commissioner/oline_close.go:28-69 | after the first close and any retries, with other changes in between, what was first reserved is exactly what has been handed out, no unit of a side and no franchise twice, together with what is pending |
| DraftHolds.HoldsOf | internal/commissioner/draft_close.go:41-70 | the players a draft can no longer take are those its picks name and, on its side, those on a roster or in the pool |
| DraftHolds.PrepareRookie | internal/commissioner/draft_close.go:72-121 | a tray change is accepted exactly when its rookie is in the draft's pool and untaken and its pick exists and is priced (or, for a change, the replaced rookie is still on the side's roster); what is then recorded meets what the projector demands of it, where the recipient plays on the draft's side |
| DraftHolds.PicksAreFound | internal/commissioner/draft_close.go:113-121 | a tray entry names the first pick of its round, original owner and extra number |
| IssuedPicks.IssuePicks | internal/commissioner/draft_close.go:156-175 | the three loops over seasons, rounds and franchises, and the cases in which nothing is issued |
| IssuedPicks.IssuesTheMissing | internal/commissioner/draft_close.go:156-175 | a close issues exactly the wanted picks nobody holds, each once and to the franchise it is named for |
| IssuedPicks.EveryRunIssuesOnce | internal/commissioner/draft_apply.go:83-90 | over any run of closes what is held is what was held before and what some close wanted, and pick identities stay unique, so the order of closes does not matter |
| IssuedPicks.ClosingAgainIssuesNothing | internal/commissioner/draft_close.go:125-175 | a draft closed again issues nothing |
| IssuedPicks.SidesCloseApart | internal/commissioner/draft_close.go:125-175 | two sides' closes add the same picks in either order |
| FirstRound.Tied | internal/commissioner/draft_standings.go:143-166 | a level group is reordered by the league's order or its reverse, or refused where the rule is missing or unknown |
| FirstRound.BlockStart | internal/commissioner/draft_standings.go:124-141 | the earliest place of a group's members is where its block begins |
| FirstRound.Order | internal/commissioner/draft_standings.go:124-141 | round one is a permutation of the worst-first standings, places outside level groups unchanged, each group's block in the rule's order; without level groups any rule, or none, will do |
| Recorder.Search | internal/archive/archive.go:110-139 | whether the bytes occur in the buffer |
| Recorder.TailSuffices | internal/archive/archive.go:110-139 | a word new to the body lies wholly in the kept tail and the new chunk |
| Recorder.Recorder.Read | internal/archive/archive.go:110-139 | after any read the recorder has seen a leak exactly when the body so far holds the secret or its escaped form, its head is the body's first 4,097 bytes at most, and a body's end makes the record |
| Recorder.Recorder.Close | internal/archive/archive.go:141-147 | a close records a body that was not read to its end, and only if no record was made |
| Recorder.Drain | internal/archive/archive.go:110-178 | however a body is cut into chunks, there is one record and it is the one a search of the whole body gives: withheld if the secret occurs, stored whole if read to its end and judged when at most 4,096 bytes, else stopped |
| PasswordWork.StepKeepsAccounts | internal/accounts/password_work.go:22-43 | each step of a request keeps each channel's length equal to the number of requests holding its token |
| PasswordWork.OnlyTheUncancelledWork | internal/accounts/password_work.go:22-43 | a request works only once it was seen uncancelled while it held an active slot |
| PasswordWork.WhoMayEnter | internal/accounts/password_work.go:22-43 | a request enters exactly if it is not cancelled and fewer than six are in |
| PasswordWork.EveryRunIsAccounted | internal/accounts/password_work.go:18-43 | under every interleaving at most two are active and six admitted, and the lengths count the holders |
| PasswordWork.ReleaseNeverBlocks | internal/accounts/password_work.go:35-41 | taking back a token never blocks |
| PasswordWork.WaiterIsNeverStuck | internal/accounts/password_work.go:31-43 | a waiting request can become active or two other requests hold the active slots |
| PasswordWork.StepsRunDown | internal/accounts/password_work.go:22-43 | every step but an arrival brings the emptying of both channels nearer |
| PasswordWork.EveryoneCanBeServed | internal/accounts/password_work.go:22-43 | from any reachable state the requests inside can all be served, none cancelled, and leave both channels empty |

## Left out

- `cmd/`, `scripts/`, `deploy/`, `frontend/`, the command catalogue, TOTP and the password hashing itself: wiring, screens and foreign cryptography.
- People and governance state folded beside the assets, job lists, labels, previews and ledger visibility: wording and case analysis.
- Argument validation and the append-time decisions of bids, waivers, trades, drafts and the season rollover: the projector takes their recorded outcomes. What those decisions guarantee of an entry is a precondition of `ProjectorLaws.StepKeeps` (`ProjectorLaws.Guarded`): a drafted player is untaken on his side (for tray changes `DraftHolds.PrepareRookie` proves it), claims and trades stay on one side, a rollover's plan keeps sides and one copy a side. Likewise `ListedHoldings.GivesToTeams`: whoever an entry hands something to is listed then (Teams changes are refused once play has begun), and `StandingTrades.FairEntries`: a trade's assets differ, change hands and stay on one side.
- The narrowing of the O-Line pool to the lots a frame offers, `olineJobs`, `OLineAssignmentsDue` and `PendingOLineCutRules`: the pool is a parameter here.
- The cap and roster-maximum parts of `olineRoom`: a parameter; the parts about the unit itself are modelled.
- A draft entry recorded before any starting snapshot: the program dereferences a missing snapshot there; the model refuses the entry.
- Negative Teams counts: rejected before recording; the model ignores them.
- Gzip, SHA-256, log lines, redaction of the judge's words and failures of the store that keeps the records: the recorder's own decisions are modelled.
- The standings cache of `LazyStandings`: a memo keyed by season, instant and ledger length.
- Matching of a tie rule's words after trimming and without regard to case: the rule arrives as one of the four kinds.
- Receipt fields no fold or key reads.
- PasswordWork.WaiterIsNeverStuck: says nothing of which waiter a freed slot goes to; the channel's queue order is not modelled.
- CorrectedWaivers.CorrectedWaiverStands: the place of a contract in the list of players, which a correction moves to the end, is open, here and in `CorrectedBids.CorrectedBidStands`.
- PicksSetAside.WantedHeldIff: is about the closes recorded since the last rollover in force, each with that rollover last in force when it was recorded (in a league without recorded rollovers, all of them).
- CorrectedBids.BidsElsewhereAlike: awards, waivers, trades and drafts between two decisions are covered by `CorrectedBids.EntryIsBetween` alone, which asks that they act alike on both runs.
- ClosedBooks.WithClosedBooks: leaves out the people and the decoding of the native part of a summary, which the code also validates; the state folded beside the replay is any value here.
- FirstRound.Order: where the league's list names neither of two level franchises, their order between themselves is whatever the sort gives.
- OLine.InitialAssignments: takes franchise ids as distinct, which a starting snapshot is required to have.
