/** The projector as the league runs it: rosters and book changed in place, entry by entry. Every method here
    leaves exactly the state the pure projector computes, and refuses exactly when it does; after a refusal the
    caller throws the state away, so nothing is said of it. */
module LeagueState {
  import opened Assets
  import opened Records
  import opened Market
  import opened Teams
  import opened Projector

  datatype Answer = Accepted | Because(words: string)

  class Holdings {
    var season: int
    var franchises: seq<NativeFranchise>
    var players: seq<NativePlayer>
    var picks: seq<NativePick>
    var adjustments: seq<NativeCharge>
    var pool: seq<PoolEntry>
    var sides: map<string, string>

    function View(): Snapshot
      reads this
    {
      Snapshot(season, franchises, players, picks, adjustments, pool, sides)
    }

    constructor (s: Snapshot)
      ensures View() == s
    {
      season, franchises, players, picks := s.season, s.franchises, s.players, s.picks;
      adjustments, pool, sides := s.adjustments, s.pool, s.sides;
    }

    method Replace(s: Snapshot)
      modifies this
      ensures View() == s
    {
      season, franchises, players, picks := s.season, s.franchises, s.players, s.picks;
      adjustments, pool, sides := s.adjustments, s.pool, s.sides;
    }

    method MoveAsset(a: TradeAsset, reverse: bool) returns (answer: Answer)
      modifies this`players, this`picks
      ensures answer.Accepted? <==> MoveOne(old(View()), a, reverse).Ok?
      ensures answer.Accepted? ==> MoveOne(old(View()), a, reverse) == Ok(View())
    {
      var from, target := a.sender, a.receiver;
      if reverse {
        from, target := target, from;
      }
      if a.player != "" {
        answer := MovePlayer(a, from, target, reverse);
      } else {
        answer := MovePick(a, from, target, reverse);
      }
    }

    method MovePlayer(a: TradeAsset, from: string, target: string, ghost reverse: bool) returns (answer: Answer)
      requires a.player != "" && from == (if reverse then a.receiver else a.sender)
      requires target == (if reverse then a.sender else a.receiver)
      modifies this`players
      ensures answer.Accepted? <==> MoveOne(old(View()), a, reverse).Ok?
      ensures answer.Accepted? ==> MoveOne(old(View()), a, reverse) == Ok(View())
    {
      var i := View().PlayerOf(from, a.player);
      if i < 0 {
        return Because("a traded player no longer belongs to the sending team; undo the later asset change first");
      }
      players := players[i := players[i].(franchise := target)];
      return Accepted;
    }

    method MovePick(a: TradeAsset, from: string, target: string, ghost reverse: bool) returns (answer: Answer)
      requires a.player == "" && from == (if reverse then a.receiver else a.sender)
      requires target == (if reverse then a.sender else a.receiver)
      modifies this`picks
      ensures answer.Accepted? <==> MoveOne(old(View()), a, reverse).Ok?
      ensures answer.Accepted? ==> MoveOne(old(View()), a, reverse) == Ok(View())
    {
      var i := PickAt(picks, a, from);
      if i < 0 || picks[i].player != "" || picks[i].skipped || picks[i].slot != 0 || picks[i].compensatory {
        return Because("a traded pick is no longer available; undo the later pick change first");
      }
      picks := picks[i := picks[i].(owner := target)];
      return Accepted;
    }

    /** Moves each asset in list order, or back; an asset its owner no longer holds stops the move. */
    method MoveTradeAssets(assets: seq<TradeAsset>, reverse: bool) returns (answer: Answer)
      modifies this`players, this`picks
      ensures answer.Accepted? <==> MoveAssets(old(View()), assets, reverse).Ok?
      ensures answer.Accepted? ==> MoveAssets(old(View()), assets, reverse) == Ok(View())
    {
      for k := 0 to |assets|
        invariant MoveAssets(View(), assets[k..], reverse) == MoveAssets(old(View()), assets, reverse)
      {
        ghost var before := View();
        assert assets[k..][0] == assets[k] && assets[k..][1..] == assets[k + 1..];
        answer := MoveAsset(assets[k], reverse);
        if answer.Because? {
          return;
        }
      }
      return Accepted;
    }

    method RemoveWinner(winner: string, player: string) returns (answer: Answer)
      modifies this`players
      ensures answer.Accepted? <==> Unaward(old(View()), winner, player).Ok?
      ensures answer.Accepted? ==> Unaward(old(View()), winner, player) == Ok(View())
    {
      if winner != "" {
        var i := View().PlayerOf(winner, player);
        if i < 0 {
          return Because(LATER_ROSTER);
        }
        players := players[..i] + players[i + 1..];
      }
      return Accepted;
    }

    method ReplaceWinnerOfBids(a: BidAuction, o: BidOutcome) returns (answer: Answer)
      modifies this`players
      ensures answer.Accepted? <==> ReplaceBidWinner(old(View()), a, o).Ok?
      ensures answer.Accepted? ==> ReplaceBidWinner(old(View()), a, o) == Ok(View())
    {
      answer := RemoveWinner(a.winner, a.player);
      if answer.Because? || o.winner == "" {
        return;
      }
      if View().OnSide(a.side, a.player) {
        return Because(NOT_FREE);
      }
      var won := a.BidAt(o.winningBid);
      if won < 0 || a.bids[won].franchise != o.winner {
        return Because("the winning bid is not a recorded bid of the winner");
      }
      players := players + [SignedBid(View(), a, a.bids[won], o.season)];
    }

    method ReplaceWinnerOfWaiver(w: WaiverWindow, winner: string) returns (answer: Answer)
      modifies this`players
      ensures answer.Accepted? <==> ReplaceWaiverWinner(old(View()), w, winner).Ok?
      ensures answer.Accepted? ==> ReplaceWaiverWinner(old(View()), w, winner) == Ok(View())
    {
      answer := RemoveWinner(w.winner, w.player.id);
      if answer.Because? {
        return;
      }
      if View().OnSide(w.side, w.player.id) {
        return Because(NOT_FREE);
      }
      if winner != "" {
        var claimed := HasClaim(w, winner);
        if !claimed {
          return Because("reverse the award before reversing its winning claim");
        }
        players := players + [Claimed(w, winner)];
      }
    }

    /** Every charge of the cut takes the amount. */
    method Recharge(id: string, amount: int)
      modifies this`adjustments
      ensures View() == old(View()).(adjustments := Recharged(old(adjustments), id, amount))
    {
      for k := 0 to |adjustments|
        invariant |adjustments| == |old(adjustments)|
        invariant forall m :: 0 <= m < k ==> adjustments[m] == Recharged(old(adjustments), id, amount)[m]
        invariant forall m :: k <= m < |adjustments| ==> adjustments[m] == old(adjustments)[m]
      {
        if adjustments[k].id == id {
          adjustments := adjustments[k := adjustments[k].(amount := amount)];
        }
      }
    }

    method MarkUsedPick(season: int, round: int, original: string, slot: int, player: string)
      modifies this`picks
      ensures View() == MarkPick(old(View()), season, round, original, slot, player)
    {
      ghost var marked := MarkPick(old(View()), season, round, original, slot, player).picks;
      for k := 0 to |picks|
        invariant |picks| == |old(picks)| == |marked|
        invariant forall m :: 0 <= m < k ==> picks[m] == marked[m]
        invariant forall m :: k <= m < |picks| ==> picks[m] == old(picks)[m]
      {
        var p := picks[k];
        if p.season == season && p.round == round && p.original == original {
          picks := picks[k := p.(slot := slot, player := player)];
        }
      }
      assert picks == marked;
    }

    /** The replaced player's id gives way to the new one's, in his roster entry and in each pick of the side
        marked with it. */
    method ChangePick(r: Record)
      requires r.command.DraftChange?
      modifies this`players, this`picks
      ensures View() == ApplyChange(old(View()), r)
    {
      var d := r.args.draft.value;
      var act := d.act.value;
      ghost var changed := ApplyChange(old(View()), r);
      var i := View().PlayerOn(d.side, act.replaced);
      if i >= 0 {
        players := players[i := players[i].(id := act.player)];
      }
      for k := 0 to |picks|
        invariant players == changed.players && |picks| == |old(picks)| == |changed.picks|
        invariant forall m :: 0 <= m < k ==> picks[m] == changed.picks[m]
        invariant forall m :: k <= m < |picks| ==> picks[m] == old(picks)[m]
      {
        if picks[k].player == act.replaced && View().SideOf(picks[k].owner) == d.side {
          picks := picks[k := picks[k].(player := act.player)];
        }
      }
      assert picks == changed.picks;
    }

    method ApplyDraftEntry(r: Record)
      modifies this
      ensures View() == ApplyDraft(old(View()), r)
    {
      match r.command {
        case DraftPick =>
          var d := r.args.draft.value;
          var p := d.pick.value;
          if d.startup {
            players := SignStartup(View(), d.season, p.player, p.franchise, p.round, p.slot, p.terms).players;
          } else {
            players := SignRookie(View(), d.season, p.player, p.franchise, p.round, p.slot, p.terms).players;
            MarkUsedPick(d.season, p.round, p.original, p.slot, p.player);
          }
        case DraftAssign => SignFromTray(r);
        case DraftInsert => SignFromTray(r);
        case DraftChange => ChangePick(r);
        case DraftArchive =>
          if r.args.draftOutcome.Some? {
            pool := pool + r.args.draftOutcome.value.pool;
            picks := picks + r.args.draftOutcome.value.issued;
          }
        case _ =>
      }
    }

    method SignFromTray(r: Record)
      requires r.command.DraftAssign? || r.command.DraftInsert?
      modifies this
      ensures View() == ApplyTray(old(View()), r)
    {
      if r.args.draftOutcome.None? || r.args.draftOutcome.value.terms.None? {
        return;
      }
      var d, o := r.args.draft.value, r.args.draftOutcome.value;
      var act, terms := d.act.value, o.terms.value;
      if d.startup {
        players := SignStartup(View(), d.season, act.player, o.franchise, act.round, o.slot, terms).players;
        return;
      }
      players := SignRookie(View(), d.season, act.player, o.franchise, act.round, o.slot, terms).players;
      if r.command.DraftAssign? && act.extra == 0 {
        MarkUsedPick(d.season, act.round, act.original, o.slot, act.player);
      }
    }

    method SignReservedUnits(placed: seq<NativePlayer>) returns (answer: Answer)
      modifies this`players
      ensures answer.Accepted? <==> SignUnits(old(View()), placed).Ok?
      ensures answer.Accepted? ==> SignUnits(old(View()), placed) == Ok(View())
    {
      for k := 0 to |placed|
        invariant SignUnits(View(), placed[k..]) == SignUnits(old(View()), placed)
      {
        var p := placed[k];
        assert placed[k..][0] == p && placed[k..][1..] == placed[k + 1..];
        if View().OnSide(View().SideOf(p.franchise), p.id) {
          return Because("an assigned O-Line unit already belongs to a roster");
        }
        players := players + [p];
      }
      return Accepted;
    }

    method CorrectPickOwnerInPlace(r: Record) returns (answer: Answer)
      requires r.args.correction.Some?
      modifies this`picks
      ensures answer.Accepted? <==> CorrectPickOwner(old(View()), r).Ok?
      ensures answer.Accepted? ==> CorrectPickOwner(old(View()), r) == Ok(View())
    {
      var c := r.args.correction.value;
      if !View().Lists(c.owner) {
        return Because("choose an owner in this app league");
      }
      for i := 0 to |picks|
        invariant View() == old(View())
        invariant forall m :: 0 <= m < i ==>
          !(picks[m].season == c.pickSeason && picks[m].round == c.pickRound && picks[m].original == c.pickOriginal)
      {
        var p := picks[i];
        if p.season != c.pickSeason || p.round != c.pickRound || p.original != c.pickOriginal {
          continue;
        }
        if p.player != "" || p.skipped {
          return Because("reverse the recorded selection before changing its owner");
        }
        if p.owner == c.owner {
          return Because("this franchise already owns the pick");
        }
        picks := picks[i := p.(owner := c.owner, correction := CorrectionWords(r))];
        return Accepted;
      }
      return Because("choose a recorded draft pick");
    }

    method ListsFranchise(id: string) returns (listed: bool)
      ensures listed == View().Lists(id)
    {
      for k := 0 to |franchises|
        invariant forall i :: 0 <= i < k ==> franchises[i].id != id
      {
        if franchises[k].id == id {
          return true;
        }
      }
      return false;
    }

    method RemoveInPlace(at: int, franchise: string) returns (answer: Answer)
      requires at < |players|
      modifies this`players
      ensures answer.Accepted? <==> RemovePlayer(old(View()), at, franchise).Ok?
      ensures answer.Accepted? ==> RemovePlayer(old(View()), at, franchise) == Ok(View())
    {
      if at < 0 || players[at].franchise != franchise {
        return Because("this player is not on that franchise's roster");
      }
      players := players[..at] + players[at + 1..];
      return Accepted;
    }

    method CorrectProvenanceInPlace(at: int, r: Record) returns (answer: Answer)
      requires at < |players| && r.args.correction.Some?
      modifies this`players
      ensures answer.Accepted? <==> CorrectProvenanceAt(old(View()), at, r).Ok?
      ensures answer.Accepted? ==> CorrectProvenanceAt(old(View()), at, r) == Ok(View())
    {
      var c := r.args.correction.value;
      if at < 0 || (c.franchise != "" && players[at].franchise != c.franchise) {
        return Because("choose a recorded roster player");
      }
      players := players[at := players[at].(acquiredVia := c.via, correction := CorrectionWords(r))];
      return Accepted;
    }

    method AddBackInPlace(r: Record, held: Result<Option<NativePlayer>>) returns (answer: Answer)
      requires r.args.correction.Some?
      modifies this`players
      ensures answer.Accepted? <==> AddPlayer(old(View()), r, held).Ok?
      ensures answer.Accepted? ==> AddPlayer(old(View()), r, held) == Ok(View())
    {
      if held.Refused? {
        return Because(held.words);
      }
      if held.value.None? {
        return Because("record this player's contract before adding him; a correction cannot invent one");
      }
      var p := held.value.value;
      p := p.(franchise := r.args.correction.value.franchise, status := Active);
      p := p.(correction := CorrectionWords(r));
      players := players + [p];
      return Accepted;
    }

    method AdjustCap(r: Record, v: Override) returns (answer: Answer)
      modifies this`adjustments
      ensures answer.Accepted? <==> old(View()).Lists(v.franchise)
      ensures answer.Accepted? ==>
        View() == old(View()).(adjustments := old(adjustments) +
                                 [NativeCharge(r.entry, v.franchise, v.amount, v.season,
                                               "Commissioner salary adjustment: " + r.reason)])
    {
      for k := 0 to |franchises|
        invariant View() == old(View())
        invariant forall i :: 0 <= i < k ==> franchises[i].id != v.franchise
      {
        if franchises[k].id == v.franchise {
          adjustments := adjustments + [NativeCharge(r.entry, v.franchise, v.amount, v.season,
                                                     "Commissioner salary adjustment: " + r.reason)];
          return Accepted;
        }
      }
      return Because("choose a franchise in this app league");
    }

    /** A contract or cap override of the season. */
    method OverrideInPlace(r: Record, v: Override, season: int) returns (answer: Answer)
      modifies this`players, this`adjustments
      ensures answer.Accepted? <==> ApplyOverride(old(View()), r, v, season).Ok?
      ensures answer.Accepted? ==> ApplyOverride(old(View()), r, v, season) == Ok(View())
    {
      if r.command.CapAdjust? {
        answer := AdjustCap(r, v);
        return;
      }
      var side := View().TargetSide(v.franchise);
      if side.Refused? {
        return Because(side.words);
      }
      var i := View().PlayerOn(side.value, v.player);
      if i < 0 {
        return Because("choose a player on this app league's recorded roster");
      }
      var p := players[i];
      if v.franchise != "" && p.franchise != v.franchise {
        return Because("choose a player on that franchise's recorded roster");
      }
      if r.command.ContractEdit? {
        var expiration := season + v.years - 1;
        if expiration > 9999 {
          return Because("the contract ends beyond the supported calendar");
        }
        players := players[i := p.(salary := v.salary, expirationYear := expiration)];
      } else if r.command.CapRelief? {
        adjustments := adjustments + [NativeCharge(r.entry, p.franchise, -v.amount, season,
                                                   "Salary relief for player " + p.id + ": " + r.reason)];
      }
      return Accepted;
    }

    /** The franchises from kept on hold nothing. */
    method CheckRemovable(kept: nat) returns (answer: Answer)
      requires kept <= |franchises|
      ensures answer.Accepted? <==>
        forall i :: kept <= i < |franchises| ==> EmptyFranchise(View(), franchises[i]).Ok?
    {
      for i := kept to |franchises|
        invariant forall m :: kept <= m < i ==> EmptyFranchise(View(), franchises[m]).Ok?
      {
        var empty := EmptyFranchise(View(), franchises[i]);
        if empty.Refused? {
          return Because(empty.words);
        }
      }
      return Accepted;
    }

    /** Cuts or lengthens the list of franchises; one that holds anything stops a cut. */
    method ResizeFranchises(n: nat) returns (answer: Answer)
      modifies this`franchises
      ensures answer.Accepted? <==> ResizeNative(old(View()), n).Ok?
      ensures answer.Accepted? ==> ResizeNative(old(View()), n) == Ok(View())
    {
      var ids: seq<string> := [];
      for i := 0 to |franchises|
        invariant ids == IdsOf(franchises)[..i]
      {
        ids := ids + [franchises[i].id];
      }
      assert ids == IdsOf(franchises);
      var want := ResizedFranchises(ids, n);
      var kept := if n <= |franchises| then n else |franchises|;
      answer := CheckRemovable(kept);
      if answer.Because? {
        return;
      }
      var added := StartFranchises(want[kept..]);
      franchises := franchises[..kept] + added;
    }
  }

  method HasClaim(w: WaiverWindow, franchise: string) returns (claimed: bool)
    ensures claimed == Claims(w, franchise)
  {
    claimed := false;
    for k := 0 to |w.claims|
      invariant claimed <==> exists m :: 0 <= m < k && w.claims[m].franchise == franchise
    {
      claimed := claimed || w.claims[k].franchise == franchise;
    }
  }

  method StartFranchises(ids: seq<string>) returns (out: seq<NativeFranchise>)
    ensures out == NewFranchises(ids)
  {
    out := [];
    for i := 0 to |ids|
      invariant out == NewFranchises(ids)[..i]
    {
      out := out + [NewFranchise(ids[i])];
    }
    assert NewFranchises(ids)[..|ids|] == NewFranchises(ids);
  }
}
