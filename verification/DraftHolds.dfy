/** Who is out of a draft's reach. A tray change is prepared only for a rookie of the draft's class who is neither
    drafted, nor rostered or pooled on its side; the projector's demand on drafted players follows. */
module DraftHolds {
  import opened Assets
  import opened Records
  import opened Projector
  import opened ProjectorLaws

  /** A pick of the draft as the draft engine reads it. */
  datatype DraftedPick = DraftedPick(round: int, original: string, extra: int, slot: int, owner: string, player: string)

  ghost predicate Taken(n: Native, picks: seq<DraftedPick>, side: string, id: string) {
    || (exists k :: 0 <= k < |picks| && picks[k].player == id)
    || (n.seeded && (n.league.assets.OnSide(side, id) || n.league.assets.PoolOn(side, id) >= 0))
  }

  /** Everyone the draft can no longer take. */
  method HoldsOf(n: Native, picks: seq<DraftedPick>, side: string) returns (taken: set<string>)
    ensures forall id :: id in taken <==> Taken(n, picks, side, id)
  {
    taken := {};
    for k := 0 to |picks|
      invariant forall id :: id in taken <==> exists i :: 0 <= i < k && picks[i].player == id
    {
      taken := taken + {picks[k].player};
    }
    if !n.seeded {
      return;
    }
    var s := n.league.assets;
    var rostered := Rostered(s, side);
    var pooled := Pooled(s, side);
    taken := taken + rostered + pooled;
  }

  method Rostered(s: Snapshot, side: string) returns (ids: set<string>)
    ensures forall id :: id in ids <==> s.OnSide(side, id)
  {
    ids := {};
    for k := 0 to |s.players|
      invariant forall id :: id in ids <==>
        exists i :: 0 <= i < k && s.players[i].id == id && s.SideOf(s.players[i].franchise) == side
    {
      if s.SideOf(s.players[k].franchise) == side {
        ids := ids + {s.players[k].id};
      }
    }
  }

  method Pooled(s: Snapshot, side: string) returns (ids: set<string>)
    ensures forall id :: id in ids <==> s.PoolOn(side, id) >= 0
  {
    ids := {};
    for k := 0 to |s.pool|
      invariant forall id :: id in ids <==> exists i :: 0 <= i < k && s.pool[i].player == id && s.pool[i].side == side
    {
      if s.pool[k].side == side {
        ids := ids + {s.pool[k].player};
      }
    }
  }

  function PickOf(picks: seq<DraftedPick>, act: DraftAct): (i: int)
    ensures -1 <= i < |picks|
  {
    IndexFunc(picks, (p: DraftedPick) => p.round == act.round && p.original == act.original && p.extra == act.extra)
  }

  /** The act names the first pick of its round, original owner and number among the extra ones. */
  lemma PicksAreFound(picks: seq<DraftedPick>, act: DraftAct)
    ensures var i := PickOf(picks, act);
            && (i >= 0 ==> picks[i].round == act.round && picks[i].original == act.original && picks[i].extra == act.extra)
            && forall k :: 0 <= k < (if i < 0 then |picks| else i) ==>
                 !(picks[k].round == act.round && picks[k].original == act.original && picks[k].extra == act.extra)
  {
  }

  predicate TrayChange(command: Command) {
    command.DraftAssign? || command.DraftInsert? || command.DraftChange?
  }

  /** The record as it is appended, with the outcome that was fixed for it. */
  function Recorded(r: Record, outcome: Option<DraftOutcome>): Record {
    r.(args := r.args.(draftOutcome := outcome))
  }

  /** Who gets the rookie: the pick's owner or, for an extra pick, the franchise named. */
  function Recipient(r: Record, p: DraftedPick): (franchise: string)
    requires TrayChange(r.command)
    ensures r.command.DraftAssign? ==> franchise == p.owner
    ensures r.command.DraftInsert? ==> franchise == r.args.draft.value.act.value.franchise
  {
    if r.command.DraftInsert? then r.args.draft.value.act.value.franchise else p.owner
  }

  lemma ChangeIsGuarded(n: Native, r: Record)
    requires r.command.DraftChange?
    requires var d := r.args.draft.value; !n.seeded || !n.league.assets.OnSide(d.side, d.act.value.player)
    ensures n.seeded ==> Guarded(n, r)
  {
  }

  lemma SigningIsGuarded(n: Native, r: Record, o: DraftOutcome)
    requires r.command.DraftAssign? || r.command.DraftInsert?
    requires var d := r.args.draft.value; !n.seeded || !n.league.assets.OnSide(d.side, d.act.value.player)
    ensures n.seeded && n.league.assets.SideOf(o.franchise) == r.args.draft.value.side ==> Guarded(n, Recorded(r, Some(o)))
  {
  }

  /** Accepts or refuses a tray change and works out its outcome. What it accepts meets the projector's demand, as
      long as the recipient plays on the draft's side. */
  method PrepareRookie(n: Native, r: Record, picks: seq<DraftedPick>, inPool: bool, price: DraftedPick -> Option<Terms>)
    returns (out: Result<Option<DraftOutcome>>)
    requires r.command.DraftAssign? || r.command.DraftInsert? || r.command.DraftChange?
    ensures var d := r.args.draft.value;
            var act := d.act.value;
            out.Ok? <==>
              && inPool && !Taken(n, picks, d.side, act.player)
              && if r.command.DraftChange? then n.seeded && n.league.assets.OnSide(d.side, act.replaced)
                 else PickOf(picks, act) >= 0 && price(picks[PickOf(picks, act)]).Some?
    ensures out.Ok? && r.command.DraftChange? ==> out.value == None && Guarded(n, r)
    ensures out.Ok? && !r.command.DraftChange? ==>
      var p := picks[PickOf(picks, r.args.draft.value.act.value)];
      && out.value == Some(DraftOutcome(price(p), Recipient(r, p), p.slot, [], []))
      && (n.seeded && n.league.assets.SideOf(Recipient(r, p)) == r.args.draft.value.side ==>
            Guarded(n, Recorded(r, out.value)))
  {
    var d := r.args.draft.value;
    var act := d.act.value;
    var taken := HoldsOf(n, picks, d.side);
    if !inPool {
      return Refused("choose a rookie from the player pool");
    }
    if act.player in taken {
      return Refused("this player already belongs to a team or has been drafted");
    }
    if r.command.DraftChange? {
      if !n.seeded || !n.league.assets.OnSide(d.side, act.replaced) {
        return Refused("this rookie is no longer on the roster that drafted him, so his pick cannot be changed");
      }
      ChangeIsGuarded(n, r);
      return Ok(None);
    }
    var at := PickOf(picks, act);
    if at < 0 {
      return Refused("choose a pick in this draft");
    }
    var p := picks[at];
    var terms := price(p);
    if terms.None? {
      return Refused("price the pick");
    }
    var franchise := p.owner;
    if r.command.DraftInsert? {
      franchise := act.franchise;
    }
    SigningIsGuarded(n, r, DraftOutcome(terms, franchise, p.slot, [], []));
    return Ok(Some(DraftOutcome(terms, franchise, p.slot, [], [])));
  }
}
