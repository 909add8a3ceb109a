/** Correcting a waiver award. After any chain of a window's decision and corrections, with anything at all happening to
    the rest of the league in between, the league is as if the last of them had been the decision; only the base order
    of a league which never set one may remember an earlier one. */
module CorrectedWaivers {
  import opened Assets
  import opened Records
  import opened Market
  import opened Awards
  import opened Chains

  predicate WaiverDecision(r: Record) {
    (r.command.WaiverProcess? || r.command.WaiverOverride?) && r.args.waiver.Some? && r.args.waiverOutcome.Some?
  }

  /** The charges as given, those of one cut at the amount they had. */
  function Carried(charges: seq<NativeCharge>, rest: seq<NativeCharge>, id: string): seq<NativeCharge> {
    var k := IndexFunc(charges, (c: NativeCharge) => c.id == id);
    if k < 0 then rest else Recharged(rest, id, charges[k].amount)
  }

  /** The rest of the league's assets with the cut's charge as it was. */
  function WithCharge(s: Snapshot, rest: Snapshot, id: string): Snapshot {
    rest.(adjustments := Carried(s.adjustments, rest.adjustments, id))
  }

  /** The base order a league goes on with: the one set meanwhile, if one was. */
  function NextBase(base: seq<string>, meanwhile: seq<string>): seq<string> {
    if meanwhile != [] then meanwhile else base
  }

  /** The rest of the league as given, with the window at i, its cut's charge and the copy it is about as they were. A
      base order, once there, is replaced but never removed. */
  function BesideWindow(l: League, rest: League, i: nat): League
    requires i < |l.book.windows| && i < |rest.book.windows|
  {
    var w := l.book.windows[i];
    League(Beside(l.assets, WithCharge(l.assets, rest.assets, w.id), w.side, w.player.id),
           rest.book.(windows := rest.book.windows[i := w], baseOrder := NextBase(l.book.baseOrder, rest.book.baseOrder)))
  }

  function Take(l: League, i: nat, turn: Turn): Result<League> {
    match turn
    case Decide(r) => ProjectWaiver(l, r)
    case Between(rest) =>
      if i < |l.book.windows| && i < |rest.book.windows| then Ok(BesideWindow(l, rest, i)) else Refused("no such window")
  }

  /** A decision is about the window at i; a change in between leaves the sides, the copy and the window's id alone. */
  ghost predicate About(l: League, i: nat, turn: Turn) {
    match turn
    case Decide(r) => WaiverDecision(r) && AwardedWindow(l.book.windows, r) == Ok(i)
    case Between(rest) =>
      && i < |l.book.windows| && i < |rest.book.windows|
      && var w := l.book.windows[i];
      && Elsewhere(l.assets, rest.assets, w.side, w.player.id)
      && WindowAt(rest.book.windows[i := w], w.id) == i
  }

  /** The same outcome recorded as the window's first decision. */
  function AsFirst(r: Record, window: string): Record {
    if !WaiverDecision(r) then r
    else r.(command := WaiverProcess, args := r.args.(waiver := Some(r.args.waiver.value.(window := window))))
  }

  // ----- a decision by the contract it hands over

  function WaiverContract(w: WaiverWindow, o: WaiverOutcome): Option<NativePlayer> {
    if o.winner == "" || !Claims(w, o.winner) then None else Some(Claimed(w, o.winner))
  }

  predicate NamesAClaim(w: WaiverWindow, o: WaiverOutcome) {
    o.winner != "" ==> Claims(w, o.winner)
  }

  lemma WaiverDecisionIs(s: Snapshot, w: WaiverWindow, o: WaiverOutcome)
    ensures ReplaceWaiverWinner(s, w, o.winner).Ok? ==>
      && NamesAClaim(w, o)
      && ReplaceWaiverWinner(s, w, o.winner) == Replace(s, w.winner, w.side, w.player.id, WaiverContract(w, o))
    ensures
      (&& Unaward(s, w.winner, w.player.id).Ok? && NamesAClaim(w, o)
       && !Unaward(s, w.winner, w.player.id).value.OnSide(w.side, w.player.id)) ==>
        ReplaceWaiverWinner(s, w, o.winner).Ok?
  {
  }

  ghost predicate ClaimantsOnSide(s: Snapshot, w: WaiverWindow) {
    forall k :: 0 <= k < |w.claims| ==> s.SideOf(w.claims[k].franchise) == w.side
  }

  lemma ContractFits(s: Snapshot, w: WaiverWindow, o: WaiverOutcome)
    requires ClaimantsOnSide(s, w)
    ensures Fits(s, w.side, w.player.id, WaiverContract(w, o))
    ensures NamesAClaim(w, o) ==> WinnerOf(WaiverContract(w, o)) == o.winner
  {
  }

  // ----- the run beside the undecided one

  /** The same charges but for the cut's amount. */
  ghost predicate SameButAmount(one: seq<NativeCharge>, two: seq<NativeCharge>, id: string) {
    |one| == |two| && forall k :: 0 <= k < |one| ==>
      if two[k].id == id then one[k] == two[k].(amount := one[k].amount) else one[k] == two[k]
  }

  lemma RechargedSame(one: seq<NativeCharge>, two: seq<NativeCharge>, id: string, amount: int)
    requires SameButAmount(one, two, id)
    ensures Recharged(one, id, amount) == Recharged(two, id, amount)
    ensures SameButAmount(Recharged(one, id, amount), two, id)
  {
  }

  lemma CarriedSame(one: seq<NativeCharge>, two: seq<NativeCharge>, rest: seq<NativeCharge>, id: string)
    ensures SameButAmount(Carried(one, rest, id), Carried(two, rest, id), id)
    ensures Carried(one, rest, id) == rest || exists amount :: Carried(one, rest, id) == Recharged(rest, id, amount)
  {
  }

  /** What a decision may have changed of a window. */
  predicate SameWindow(w: WaiverWindow, v: WaiverWindow) {
    w == v.(processed := w.processed, winner := w.winner, closedAt := w.closedAt, results := w.results,
            priorOrder := w.priorOrder)
  }

  lemma WindowById(one: seq<WaiverWindow>, two: seq<WaiverWindow>, id: string)
    requires |one| == |two| && forall k :: 0 <= k < |one| ==> one[k].id == two[k].id
    ensures WindowAt(one, id) == WindowAt(two, id)
  {
  }

  /** The books of the two runs until the last decision. */
  ghost predicate BookBehind(book: MarketBook, quiet: MarketBook, i: nat, w0: WaiverWindow) {
    && i < |book.windows| && i < |quiet.windows|
    && var w, v := book.windows[i], quiet.windows[i];
    && SameWindow(w, w0) && SameWindow(v, w0) && !v.processed && v.winner == ""
    && book == quiet.(windows := quiet.windows[i := w], baseOrder := book.baseOrder, order := book.order,
                      orderSeason := book.orderSeason, source := book.source)
    && WindowAt(quiet.windows, w0.id) == i
  }

  /** Their assets. */
  ghost predicate AssetsBehind(s: Snapshot, quiet: Snapshot, winner: string, w0: WaiverWindow) {
    && Behind(s, quiet, winner, w0.side, w0.player.id)
    && SameButAmount(s.adjustments, quiet.adjustments, w0.id)
    && ClaimantsOnSide(s, w0)
  }

  ghost predicate WaiverBehind(l: League, quiet: League, i: nat, w0: WaiverWindow) {
    BookBehind(l.book, quiet.book, i, w0) && AssetsBehind(l.assets, quiet.assets, l.book.windows[i].winner, w0)
  }

  /** The league after a decision that left those assets before the charge. */
  function Awarded(l: League, i: nat, o: WaiverOutcome, s: Snapshot): League
    requires i < |l.book.windows|
  {
    var w := l.book.windows[i];
    League(s.(adjustments := Recharged(s.adjustments, w.id, DeadAmount(w, o))),
           l.book.(windows := l.book.windows[i := Processed(w, o)],
                   baseOrder := if l.book.baseOrder == [] then o.priorOrder else l.book.baseOrder,
                   order := o.order, orderSeason := o.season, source := o.source))
  }

  lemma WindowAwardIs(l: League, i: nat, r: Record, o: WaiverOutcome)
    requires r.args.waiver.Some? && AwardedWindow(l.book.windows, r) == Ok(i)
    ensures i < |l.book.windows|
    ensures var assets := ReplaceWaiverWinner(l.assets, l.book.windows[i], o.winner);
            AwardWaiver(l, r, o) == if assets.Ok? then Ok(Awarded(l, i, o, assets.value)) else Refused(assets.words)
  {
  }

  lemma ProjectIsAward(l: League, r: Record)
    requires WaiverDecision(r)
    ensures ProjectWaiver(l, r) == AwardWaiver(l, r, r.args.waiverOutcome.value)
  {
  }

  lemma AwardIs(l: League, i: nat, r: Record)
    requires About(l, i, Decide(r))
    ensures i < |l.book.windows|
    ensures var w, o := l.book.windows[i], r.args.waiverOutcome.value;
            var assets := ReplaceWaiverWinner(l.assets, w, o.winner);
            && (ProjectWaiver(l, r).Ok? <==> assets.Ok?)
            && (assets.Ok? ==> ProjectWaiver(l, r) == Ok(Awarded(l, i, o, assets.value)))
  {
    ProjectIsAward(l, r);
    WindowAwardIs(l, i, r, r.args.waiverOutcome.value);
  }

  lemma BehindRecharged(s: Snapshot, quiet: Snapshot, winner: string, side: string, id: string,
                        charges: seq<NativeCharge>)
    requires Behind(s, quiet, winner, side, id)
    ensures Behind(s.(adjustments := charges), quiet, winner, side, id)
  {
    var t := s.(adjustments := charges);
    SameSides(s, t, s.players, side, id);
    SameSides(s, t, quiet.players, side, id);
  }

  lemma SidesStay(s: Snapshot, t: Snapshot, w: WaiverWindow)
    requires t.sides == s.sides && ClaimantsOnSide(s, w)
    ensures ClaimantsOnSide(t, w)
  {
    assert forall id :: t.SideOf(id) == s.SideOf(id);
  }

  /** What a decision does to the assets, beside the undecided run. */
  lemma DecidedAssets(s: Snapshot, quiet: Snapshot, w: WaiverWindow, w0: WaiverWindow, o: WaiverOutcome)
    requires AssetsBehind(s, quiet, w.winner, w0) && SameWindow(w, w0) && ReplaceWaiverWinner(s, w, o.winner).Ok?
    ensures var t := ReplaceWaiverWinner(s, w, o.winner).value;
            && t.adjustments == s.adjustments
            && AssetsBehind(t.(adjustments := Recharged(t.adjustments, w0.id, DeadAmount(w, o))), quiet, o.winner, w0)
  {
    WaiverDecisionIs(s, w, o);
    ContractFits(s, w, o);
    StillBehind(s, quiet, w.winner, w0.side, w0.player.id, WaiverContract(w, o));
    var t := ReplaceWaiverWinner(s, w, o.winner).value;
    var charges := Recharged(t.adjustments, w0.id, DeadAmount(w, o));
    RechargedSame(s.adjustments, quiet.adjustments, w0.id, DeadAmount(w, o));
    BehindRecharged(t, quiet, o.winner, w0.side, w0.player.id, charges);
    SidesStay(s, t.(adjustments := charges), w0);
  }

  lemma DecidedBook(l: League, quiet: League, i: nat, w0: WaiverWindow, o: WaiverOutcome, s: Snapshot)
    requires BookBehind(l.book, quiet.book, i, w0)
    ensures BookBehind(Awarded(l, i, o, s).book, quiet.book, i, w0)
  {
    var now := Processed(l.book.windows[i], o);
    assert l.book.windows[i := now] == quiet.book.windows[i := now];
  }

  lemma DecisionStaysBehind(l: League, quiet: League, i: nat, w0: WaiverWindow, r: Record)
    requires WaiverBehind(l, quiet, i, w0) && About(l, i, Decide(r)) && ProjectWaiver(l, r).Ok?
    ensures WaiverBehind(ProjectWaiver(l, r).value, quiet, i, w0)
  {
    var w, o := l.book.windows[i], r.args.waiverOutcome.value;
    AwardIs(l, i, r);
    DecidedAssets(l.assets, quiet.assets, w, w0, o);
    DecidedBook(l, quiet, i, w0, o, ReplaceWaiverWinner(l.assets, w, o.winner).value);
  }

  lemma BetweenAssets(s: Snapshot, quiet: Snapshot, winner: string, w0: WaiverWindow, rest: Snapshot)
    requires AssetsBehind(s, quiet, winner, w0) && Elsewhere(s, rest, w0.side, w0.player.id)
    ensures AssetsBehind(Beside(s, WithCharge(s, rest, w0.id), w0.side, w0.player.id),
                         Beside(quiet, WithCharge(quiet, rest, w0.id), w0.side, w0.player.id), winner, w0)
  {
    var one := WithCharge(s, rest, w0.id);
    SameSides(s, one, rest.players, w0.side, w0.player.id);
    BesideStaysBehind(s, quiet, winner, w0.side, w0.player.id, one, WithCharge(quiet, rest, w0.id));
    CarriedSame(s.adjustments, quiet.adjustments, rest.adjustments, w0.id);
    SidesStay(s, Beside(s, one, w0.side, w0.player.id), w0);
  }

  lemma BetweenBooks(l: League, quiet: League, i: nat, w0: WaiverWindow, rest: League)
    requires BookBehind(l.book, quiet.book, i, w0) && i < |rest.book.windows|
    requires WindowAt(rest.book.windows[i := l.book.windows[i]], w0.id) == i
    ensures BookBehind(BesideWindow(l, rest, i).book, BesideWindow(quiet, rest, i).book, i, w0)
  {
    var w, v := l.book.windows[i], quiet.book.windows[i];
    WindowById(rest.book.windows[i := w], rest.book.windows[i := v], w0.id);
    assert rest.book.windows[i := w] == rest.book.windows[i := v][i := w];
  }

  lemma BetweenStaysBehind(l: League, quiet: League, i: nat, w0: WaiverWindow, rest: League)
    requires WaiverBehind(l, quiet, i, w0) && About(l, i, Between(rest))
    ensures i < |rest.book.windows|
    ensures WaiverBehind(BesideWindow(l, rest, i), BesideWindow(quiet, rest, i), i, w0)
  {
    BetweenAssets(l.assets, quiet.assets, l.book.windows[i].winner, w0, rest.assets);
    BetweenBooks(l, quiet, i, w0, rest);
  }

  /** The two leagues are the same but for where the copy stands in the list of players and for the base order. */
  ghost predicate SameLeague(l: League, alone: League, side: string, player: string) {
    && Level(l.assets, alone.assets, side, player) && l.assets.adjustments == alone.assets.adjustments
    && l.book == alone.book.(baseOrder := l.book.baseOrder)
  }

  lemma ContractAlone(l: League, quiet: League, i: nat, w0: WaiverWindow, o: WaiverOutcome)
    requires WaiverBehind(l, quiet, i, w0) && ReplaceWaiverWinner(l.assets, l.book.windows[i], o.winner).Ok?
    ensures ReplaceWaiverWinner(quiet.assets, quiet.book.windows[i], o.winner).Ok?
    ensures var one, two := ReplaceWaiverWinner(l.assets, l.book.windows[i], o.winner).value,
                            ReplaceWaiverWinner(quiet.assets, quiet.book.windows[i], o.winner).value;
            && Level(one, two, w0.side, w0.player.id)
            && one.adjustments == l.assets.adjustments && two.adjustments == quiet.assets.adjustments
  {
    var w, v := l.book.windows[i], quiet.book.windows[i];
    WaiverDecisionIs(l.assets, w, o);
    ContractFits(l.assets, w, o);
    var next := WaiverContract(w, o);
    DecidesAlone(l.assets, quiet.assets, w.winner, w0.side, w0.player.id, next);
    assert WaiverContract(v, o) == next;
    QuietWindowIsFree(l, quiet, i, w0, o);
    WaiverDecisionIs(quiet.assets, v, o);
  }

  /** An accepted decision shows that the undecided run has the player on no roster of the side. */
  lemma QuietWindowIsFree(l: League, quiet: League, i: nat, w0: WaiverWindow, o: WaiverOutcome)
    requires WaiverBehind(l, quiet, i, w0) && ReplaceWaiverWinner(l.assets, l.book.windows[i], o.winner).Ok?
    ensures !quiet.assets.OnSide(w0.side, w0.player.id)
  {
    var w, s := l.book.windows[i], l.assets;
    var bare := Unaward(s, w.winner, w.player.id).value;
    if w.winner == "" {
      NoCopies(s, s.players, w0.side, w0.player.id);
    }
    NoneIsFree(s, quiet.assets, w0.side, w0.player.id);
  }

  /** One outcome, applied to both runs, leaves the same league. */
  lemma SameAward(l: League, quiet: League, i: nat, w0: WaiverWindow, o: WaiverOutcome)
    requires WaiverBehind(l, quiet, i, w0) && ReplaceWaiverWinner(l.assets, l.book.windows[i], o.winner).Ok?
    ensures ReplaceWaiverWinner(quiet.assets, quiet.book.windows[i], o.winner).Ok?
    ensures var one := Awarded(l, i, o, ReplaceWaiverWinner(l.assets, l.book.windows[i], o.winner).value);
            var two := Awarded(quiet, i, o, ReplaceWaiverWinner(quiet.assets, quiet.book.windows[i], o.winner).value);
            SameLeague(one, two, w0.side, w0.player.id)
  {
    var w, v := l.book.windows[i], quiet.book.windows[i];
    ContractAlone(l, quiet, i, w0, o);
    var one, two := ReplaceWaiverWinner(l.assets, w, o.winner).value, ReplaceWaiverWinner(quiet.assets, v, o.winner).value;
    RechargedSame(l.assets.adjustments, quiet.assets.adjustments, w0.id, DeadAmount(w, o));
    LevelRecharged(one, two, w0.side, w0.player.id, Recharged(one.adjustments, w0.id, DeadAmount(w, o)));
    assert Processed(w, o) == Processed(v, o) && DeadAmount(w, o) == DeadAmount(v, o);
    assert l.book.windows[i := Processed(w, o)] == quiet.book.windows[i := Processed(w, o)];
  }

  lemma DecisionAlone(l: League, quiet: League, i: nat, w0: WaiverWindow, r: Record)
    requires WaiverBehind(l, quiet, i, w0) && About(l, i, Decide(r)) && ProjectWaiver(l, r).Ok?
    ensures ProjectWaiver(quiet, AsFirst(r, w0.id)).Ok?
    ensures var one, two := ProjectWaiver(l, r).value, ProjectWaiver(quiet, AsFirst(r, w0.id)).value;
            SameLeague(one, two, w0.side, w0.player.id)
  {
    AwardIs(l, i, r);
    assert AwardedWindow(quiet.book.windows, AsFirst(r, w0.id)) == Ok(i);
    AwardIs(quiet, i, AsFirst(r, w0.id));
    SameAward(l, quiet, i, w0, r.args.waiverOutcome.value);
  }

  lemma LevelRecharged(s: Snapshot, alone: Snapshot, side: string, id: string, charges: seq<NativeCharge>)
    requires Level(s, alone, side, id)
    ensures Level(s.(adjustments := charges), alone.(adjustments := charges), side, id)
  {
    var t := s.(adjustments := charges);
    SameSides(s, t, s.players, side, id);
    SameSides(s, t, alone.players, side, id);
  }

  // ----- every chain

  ghost predicate Starts(l: League, i: nat) {
    && i < |l.book.windows|
    && var w := l.book.windows[i];
    && !w.processed && w.winner == "" && ClaimantsOnSide(l.assets, w)
    && WindowAt(l.book.windows, w.id) == i
  }

  lemma StartsBehind(l: League, i: nat)
    requires Starts(l, i)
    ensures WaiverBehind(l, l, i, l.book.windows[i])
  {
    assert l.book.windows[i := l.book.windows[i]] == l.book.windows;
  }

  function Takes(i: nat): Taking {
    (l: League, turn: Turn) => Take(l, i, turn)
  }

  ghost function Fitting(i: nat): (League, Turn) -> bool {
    (l: League, turn: Turn) => About(l, i, turn)
  }

  ghost function Related(i: nat, w0: WaiverWindow): (League, League) -> bool {
    (l: League, quiet: League) => WaiverBehind(l, quiet, i, w0)
  }

  /** The same league, about the window at i. */
  ghost predicate SameAbout(l: League, alone: League, i: nat, w0: WaiverWindow) {
    && SameLeague(l, alone, w0.side, w0.player.id)
    && i < |l.book.windows| && SameWindow(l.book.windows[i], w0)
  }

  ghost function Same(i: nat, w0: WaiverWindow): (League, League) -> bool {
    (l: League, alone: League) => SameAbout(l, alone, i, w0)
  }

  function First(window: string): Record -> Record {
    (r: Record) => AsFirst(r, window)
  }

  lemma BetweenStaysSame(l: League, alone: League, i: nat, w0: WaiverWindow, rest: League)
    requires SameAbout(l, alone, i, w0) && About(l, i, Between(rest))
    ensures SameAbout(BesideWindow(l, rest, i), BesideWindow(alone, rest, i), i, w0)
  {
    var charged := WithCharge(l.assets, rest.assets, w0.id);
    SameSides(l.assets, charged, rest.assets.players, w0.side, w0.player.id);
    BesideStaysLevel(l.assets, alone.assets, w0.side, w0.player.id, charged);
  }

  lemma TurnKeeps(i: nat, w0: WaiverWindow, l: League, quiet: League, turn: Turn)
    ensures Kept(Takes(i), Fitting(i), Related(i, w0), l, quiet, turn)
  {
    if WaiverBehind(l, quiet, i, w0) && About(l, i, turn) && Take(l, i, turn).Ok? {
      if turn.Decide? {
        DecisionStaysBehind(l, quiet, i, w0, turn.r);
      } else {
        BetweenStaysBehind(l, quiet, i, w0, turn.rest);
      }
    }
  }

  lemma KeepsRelated(i: nat, w0: WaiverWindow)
    ensures Keeps(Takes(i), Fitting(i), Related(i, w0))
  {
    forall l, quiet, turn ensures Kept(Takes(i), Fitting(i), Related(i, w0), l, quiet, turn) {
      TurnKeeps(i, w0, l, quiet, turn);
    }
  }

  lemma DecisionSettles(i: nat, w0: WaiverWindow, l: League, quiet: League, r: Record)
    ensures Settled(Takes(i), Fitting(i), Related(i, w0), Same(i, w0), First(w0.id), l, quiet, r)
  {
    if WaiverBehind(l, quiet, i, w0) && About(l, i, Decide(r)) && ProjectWaiver(l, r).Ok? {
      DecisionAlone(l, quiet, i, w0, r);
      AwardIs(l, i, r);
    }
  }

  lemma SettlesSame(i: nat, w0: WaiverWindow)
    ensures Settles(Takes(i), Fitting(i), Related(i, w0), Same(i, w0), First(w0.id))
  {
    forall l, quiet, r
      ensures Settled(Takes(i), Fitting(i), Related(i, w0), Same(i, w0), First(w0.id), l, quiet, r)
    {
      DecisionSettles(i, w0, l, quiet, r);
    }
  }

  lemma BetweenStays(i: nat, w0: WaiverWindow, l: League, alone: League, rest: League)
    ensures Stayed(Takes(i), Fitting(i), Same(i, w0), l, alone, rest)
  {
    if SameAbout(l, alone, i, w0) && About(l, i, Between(rest)) {
      BetweenStaysSame(l, alone, i, w0, rest);
    }
  }

  lemma StaysSame(i: nat, w0: WaiverWindow)
    ensures Stays(Takes(i), Fitting(i), Same(i, w0))
  {
    forall l, alone, rest ensures Stayed(Takes(i), Fitting(i), Same(i, w0), l, alone, rest) {
      BetweenStays(i, w0, l, alone, rest);
    }
  }

  // ----- the base order

  /** What a turn makes of the base order: the league's first decision ever fixes it, and setting the order replaces it. */
  function Based(base: seq<string>, turn: Turn): seq<string> {
    match turn
    case Decide(r) => if base == [] && r.args.waiverOutcome.Some? then r.args.waiverOutcome.value.priorOrder else base
    case Between(rest) => NextBase(base, rest.book.baseOrder)
  }

  function BaseAfter(base: seq<string>, turns: seq<Turn>): seq<string> {
    if turns == [] then base else Based(BaseAfter(base, turns[..|turns| - 1]), turns[|turns| - 1])
  }

  ghost predicate AllDecisions(turns: seq<Turn>) {
    forall k :: 0 <= k < |turns| && turns[k].Decide? ==> WaiverDecision(turns[k].r)
  }

  function Deciding(): Turn -> bool {
    (turn: Turn) => turn.Decide? ==> WaiverDecision(turn.r)
  }

  lemma FittingDecide(l: League, i: nat, turns: seq<Turn>)
    requires AllFit(Takes(i), Fitting(i), l, turns) && Run(Takes(i), l, turns).Ok?
    ensures AllDecisions(turns)
  {
    FittingTurns(Takes(i), Fitting(i), l, turns, Deciding());
    assert forall k :: 0 <= k < |turns| ==> Deciding()(turns[k]);
  }

  lemma TakenBase(l: League, i: nat, turn: Turn)
    requires (turn.Decide? ==> WaiverDecision(turn.r)) && Take(l, i, turn).Ok?
    ensures Take(l, i, turn).value.book.baseOrder == Based(l.book.baseOrder, turn)
  {
    if turn.Decide? {
      ProjectIsAward(l, turn.r);
    }
  }

  lemma {:induction false} RunBase(l: League, i: nat, turns: seq<Turn>)
    requires AllDecisions(turns) && Run(Takes(i), l, turns).Ok?
    ensures Run(Takes(i), l, turns).value.book.baseOrder == BaseAfter(l.book.baseOrder, turns)
  {
    if turns != [] {
      RunBase(l, i, turns[..|turns| - 1]);
      TakenBase(Run(Takes(i), l, turns[..|turns| - 1]).value, i, turns[|turns| - 1]);
    }
  }

  lemma {:induction false} UndecidedDecide(turns: seq<Turn>)
    ensures AllDecisions(Undecided(turns))
  {
    if turns != [] {
      UndecidedDecide(turns[..|turns| - 1]);
    }
  }

  lemma {:induction false} LastAloneDecides(turns: seq<Turn>, window: string)
    requires AllDecisions(turns)
    ensures AllDecisions(LastAlone(turns, First(window)))
  {
    if turns != [] {
      LastAloneDecides(turns[..|turns| - 1], window);
      UndecidedDecide(turns[..|turns| - 1]);
    }
  }

  lemma BaseMore(base: seq<string>, turns: seq<Turn>, turn: Turn)
    ensures BaseAfter(base, turns + [turn]) == Based(BaseAfter(base, turns), turn)
  {
    assert (turns + [turn])[..|turns|] == turns;
  }

  /** A base order that the league has without the decisions is the one it has with them, all or the last alone. */
  lemma {:induction false} BaseIsKept(base: seq<string>, turns: seq<Turn>, first: Record -> Record)
    requires BaseAfter(base, Undecided(turns)) != []
    ensures BaseAfter(base, turns) == BaseAfter(base, Undecided(turns))
    ensures BaseAfter(base, LastAlone(turns, first)) == BaseAfter(base, Undecided(turns))
  {
    if turns != [] {
      var init, turn := turns[..|turns| - 1], turns[|turns| - 1];
      if turn.Decide? {
        BaseIsKept(base, init, first);
        BaseMore(base, Undecided(init), Decide(first(turn.r)));
      } else {
        BaseMore(base, Undecided(init), turn);
        BaseMore(base, LastAlone(init, first), turn);
        if BaseAfter(base, Undecided(init)) != [] { BaseIsKept(base, init, first); }
      }
    }
  }

  lemma BaseAgrees(l: League, i: nat, turns: seq<Turn>, window: string)
    requires AllFit(Takes(i), Fitting(i), l, turns) && Run(Takes(i), l, turns).Ok?
    requires Run(Takes(i), l, LastAlone(turns, First(window))).Ok?
    requires Run(Takes(i), l, Undecided(turns)).Ok?
    ensures var chain, alone := Run(Takes(i), l, turns).value, Run(Takes(i), l, LastAlone(turns, First(window))).value;
            && chain.book.baseOrder == BaseAfter(l.book.baseOrder, turns)
            && alone.book.baseOrder == BaseAfter(l.book.baseOrder, LastAlone(turns, First(window)))
            && (Run(Takes(i), l, Undecided(turns)).value.book.baseOrder != [] ==>
                  chain.book.baseOrder == alone.book.baseOrder)
  {
    FittingDecide(l, i, turns);
    UndecidedDecide(turns);
    LastAloneDecides(turns, window);
    RunBase(l, i, turns);
    RunBase(l, i, Undecided(turns));
    RunBase(l, i, LastAlone(turns, First(window)));
    if BaseAfter(l.book.baseOrder, Undecided(turns)) != [] {
      BaseIsKept(l.book.baseOrder, turns, First(window));
    }
  }

  /** Any accepted chain of a window's decision and corrections leaves the league, rosters taken as a multiset, as the
      last outcome recorded as the first decision would have: every charge, the window and the order included. The base
      order agrees too where the league knows one without these decisions, from before or set in between. */
  lemma CorrectedWaiverStands(l: League, i: nat, turns: seq<Turn>)
    requires Starts(l, i) && AllFit(Takes(i), Fitting(i), l, turns) && Run(Takes(i), l, turns).Ok?
    ensures var alone, bare := Run(Takes(i), l, LastAlone(turns, First(l.book.windows[i].id))), Run(Takes(i), l, Undecided(turns));
            && alone.Ok? && bare.Ok?
            && var chain := Run(Takes(i), l, turns).value;
            && multiset(chain.assets.players) == multiset(alone.value.assets.players)
            && chain.assets == alone.value.assets.(players := chain.assets.players)
            && chain.book == alone.value.book.(baseOrder := chain.book.baseOrder)
            && (bare.value.book.baseOrder != [] ==> chain.book == alone.value.book)
            && chain.book.baseOrder == BaseAfter(l.book.baseOrder, turns)
            && alone.value.book.baseOrder == BaseAfter(l.book.baseOrder, LastAlone(turns, First(l.book.windows[i].id)))
  {
    var w := l.book.windows[i];
    StartsBehind(l, i);
    KeepsRelated(i, w);
    SettlesSame(i, w);
    StaysSame(i, w);
    UndecidedRuns(Takes(i), Fitting(i), Related(i, w), l, turns);
    LastDecisionStands(Takes(i), Fitting(i), Related(i, w), Same(i, w), First(w.id), l, turns);
    LevelHolds(Run(Takes(i), l, turns).value.assets, Run(Takes(i), l, LastAlone(turns, First(w.id))).value.assets, w.side,
               w.player.id);
    BaseAgrees(l, i, turns, w.id);
  }

  // ----- the cut's charge

  /** The last outcome decided, if any. */
  function LastOutcome(turns: seq<Turn>): Option<WaiverOutcome> {
    if turns == [] then None
    else if turns[|turns| - 1].Decide? then turns[|turns| - 1].r.args.waiverOutcome
    else LastOutcome(turns[..|turns| - 1])
  }

  ghost predicate ChargedAt(charges: seq<NativeCharge>, id: string, amount: int) {
    && (exists k :: 0 <= k < |charges| && charges[k].id == id)
    && forall k :: 0 <= k < |charges| && charges[k].id == id ==> charges[k].amount == amount
  }

  /** Every state along the way still lists the cut's charge. */
  ghost predicate ChargeListed(turns: seq<Turn>, id: string) {
    forall k :: 0 <= k < |turns| && turns[k].Between? ==>
      exists c :: 0 <= c < |turns[k].rest.assets.adjustments| && turns[k].rest.assets.adjustments[c].id == id
  }

  lemma ChargeCarried(charges: seq<NativeCharge>, rest: seq<NativeCharge>, id: string, amount: int)
    requires ChargedAt(charges, id, amount) && exists c :: 0 <= c < |rest| && rest[c].id == id
    ensures ChargedAt(Carried(charges, rest, id), id, amount)
  {
    var c :| 0 <= c < |rest| && rest[c].id == id;
    assert Carried(charges, rest, id)[c].id == id;
  }

  lemma ChargeListedBefore(turns: seq<Turn>, turn: Turn, id: string)
    requires ChargeListed(turns + [turn], id)
    ensures ChargeListed(turns, id)
  {
    forall k | 0 <= k < |turns| && turns[k].Between?
      ensures exists c :: 0 <= c < |turns[k].rest.assets.adjustments| && turns[k].rest.assets.adjustments[c].id == id
    {
      assert (turns + [turn])[k] == turns[k];
    }
  }

  /** Whatever happened, the window at i is the one the chain started with, but for its decision. */
  lemma RunStaysAbout(l: League, i: nat, turns: seq<Turn>)
    requires Starts(l, i) && AllFit(Takes(i), Fitting(i), l, turns) && Run(Takes(i), l, turns).Ok?
    ensures var windows := Run(Takes(i), l, turns).value.book.windows;
            i < |windows| && SameWindow(windows[i], l.book.windows[i])
  {
    StartsBehind(l, i);
    KeepsRelated(i, l.book.windows[i]);
    UndecidedRuns(Takes(i), Fitting(i), Related(i, l.book.windows[i]), l, turns);
  }

  /** The cut's charge is always its recorded dead money, or nothing while an award that clears it stands. */
  lemma {:induction false} ChargeFollowsLast(l: League, i: nat, turns: seq<Turn>)
    requires Starts(l, i) && AllFit(Takes(i), Fitting(i), l, turns) && Run(Takes(i), l, turns).Ok?
    requires ChargedAt(l.assets.adjustments, l.book.windows[i].id, l.book.windows[i].dead)
    requires ChargeListed(turns, l.book.windows[i].id)
    ensures var w, last := l.book.windows[i], LastOutcome(turns);
            ChargedAt(Run(Takes(i), l, turns).value.assets.adjustments, w.id,
                      if last.Some? && last.value.winner != "" && last.value.clearsDead then 0 else w.dead)
  {
    if turns != [] {
      var init, turn := turns[..|turns| - 1], turns[|turns| - 1];
      var w := l.book.windows[i];
      ChargeListedBefore(init, turn, w.id);
      ChargeFollowsLast(l, i, init);
      RunStaysAbout(l, i, init);
      var before := Run(Takes(i), l, init).value;
      if turn.Decide? {
        ChargeDecided(before, i, turn.r);
      } else {
        var last := LastOutcome(init);
        ChargeCarried(before.assets.adjustments, turn.rest.assets.adjustments, w.id,
                      if last.Some? && last.value.winner != "" && last.value.clearsDead then 0 else w.dead);
      }
    }
  }

  lemma ChargeDecided(l: League, i: nat, r: Record)
    requires About(l, i, Decide(r)) && ProjectWaiver(l, r).Ok?
    requires exists amount :: ChargedAt(l.assets.adjustments, l.book.windows[i].id, amount)
    ensures ChargedAt(ProjectWaiver(l, r).value.assets.adjustments, l.book.windows[i].id,
                      DeadAmount(l.book.windows[i], r.args.waiverOutcome.value))
  {
    AwardIs(l, i, r);
    var w := l.book.windows[i];
    var s := ReplaceWaiverWinner(l.assets, w, r.args.waiverOutcome.value.winner).value;
    var c :| 0 <= c < |s.adjustments| && s.adjustments[c].id == w.id;
    assert Recharged(s.adjustments, w.id, DeadAmount(w, r.args.waiverOutcome.value))[c].id == w.id;
  }
}
