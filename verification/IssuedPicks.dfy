/** Picks of later seasons. Each rookie draft, as it closes, hands every one of its franchises those of its own
    picks, over the two seasons that follow, which nobody holds yet. */
module IssuedPicks {
  import opened Assets
  import opened Lists

  const ISSUED_SEASONS_AHEAD := 2
  const LAST_SEASON := 9999

  /** What tells one pick of the ledger from another. */
  datatype PickKey = PickKey(season: int, round: int, original: string)

  function KeyOf(p: NativePick): PickKey {
    PickKey(p.season, p.round, p.original)
  }

  predicate Held(picks: seq<NativePick>, c: PickKey) {
    exists k :: 0 <= k < |picks| && KeyOf(picks[k]) == c
  }

  function Fresh(c: PickKey): NativePick {
    NativePick(c.season, c.round, 0, c.original, c.original, "", false, false, "")
  }

  /** An ordinary pick as it is before its draft. */
  predicate Unused(p: NativePick) {
    p.player == "" && p.slot == 0 && !p.skipped && !p.compensatory && p.correction == ""
  }

  /** The season is one the close issues picks for. */
  predicate Ahead(season: int, later: int) {
    season < later <= season + ISSUED_SEASONS_AHEAD && later <= LAST_SEASON
  }

  /** The close of the draft is to leave the pick in somebody's hands. */
  ghost predicate Wanted(season: int, rounds: int, franchises: seq<string>, c: PickKey) {
    Ahead(season, c.season) && 1 <= c.round <= rounds && c.original in franchises
  }

  ghost predicate KeysOnce(picks: seq<NativePick>) {
    forall i, j :: 0 <= i < j < |picks| ==> KeyOf(picks[i]) != KeyOf(picks[j])
  }

  // ----- what a close issues, in its order

  function Row(picks: seq<NativePick>, season: int, round: int, franchises: seq<string>): seq<NativePick> {
    if franchises == [] then []
    else
      var n := |franchises| - 1;
      var c := PickKey(season, round, franchises[n]);
      Row(picks, season, round, franchises[..n]) + if Held(picks, c) then [] else [Fresh(c)]
  }

  function Rounds(picks: seq<NativePick>, season: int, rounds: nat, franchises: seq<string>): seq<NativePick> {
    if rounds == 0 then []
    else Rounds(picks, season, rounds - 1, franchises) + Row(picks, season, rounds, franchises)
  }

  function Seasons(picks: seq<NativePick>, season: int, ahead: nat, rounds: nat, franchises: seq<string>): seq<NativePick> {
    if ahead == 0 then []
    else
      Seasons(picks, season, ahead - 1, rounds, franchises)
      + if season + ahead <= LAST_SEASON then Rounds(picks, season + ahead, rounds, franchises) else []
  }

  function Positive(n: int): nat {
    if n < 0 then 0 else n
  }

  function Issued(picks: seq<NativePick>, season: int, rounds: int, franchises: seq<string>): seq<NativePick> {
    Seasons(picks, season, ISSUED_SEASONS_AHEAD, Positive(rounds), franchises)
  }

  method HeldBy(picks: seq<NativePick>, c: PickKey) returns (held: bool)
    ensures held <==> Held(picks, c)
  {
    for k := 0 to |picks|
      invariant forall i :: 0 <= i < k ==> KeyOf(picks[i]) != c
    {
      if picks[k].season == c.season && picks[k].round == c.round && picks[k].original == c.original {
        return true;
      }
    }
    return false;
  }

  method IssueRow(picks: seq<NativePick>, season: int, round: int, franchises: seq<string>)
    returns (out: seq<NativePick>)
    ensures out == Row(picks, season, round, franchises)
  {
    out := [];
    for f := 0 to |franchises|
      invariant out == Row(picks, season, round, franchises[..f])
    {
      assert franchises[..f + 1][..f] == franchises[..f];
      var c := PickKey(season, round, franchises[f]);
      var held := HeldBy(picks, c);
      if !held {
        out := out + [Fresh(c)];
      }
    }
    assert franchises[..|franchises|] == franchises;
  }

  method IssueRounds(picks: seq<NativePick>, season: int, rounds: nat, franchises: seq<string>)
    returns (out: seq<NativePick>)
    ensures out == Rounds(picks, season, rounds, franchises)
  {
    out := [];
    for round := 1 to rounds + 1
      invariant out == Rounds(picks, season, round - 1, franchises)
    {
      var row := IssueRow(picks, season, round, franchises);
      out := out + row;
    }
  }

  /** The picks issued when a draft closes; none where the league holds no assets or the rounds are not ruled. */
  method IssuePicks(seeded: bool, picks: seq<NativePick>, season: int, rounds: Option<int>, franchises: seq<string>)
    returns (out: seq<NativePick>)
    ensures out == if !seeded || rounds.None? then [] else Issued(picks, season, rounds.value, franchises)
  {
    out := [];
    if !seeded || rounds.None? {
      return;
    }
    var limit := Positive(rounds.value);
    var ahead := 1;
    while ahead <= ISSUED_SEASONS_AHEAD && season + ahead <= LAST_SEASON
      invariant 1 <= ahead <= ISSUED_SEASONS_AHEAD + 1
      invariant out == Seasons(picks, season, ahead - 1, limit, franchises)
    {
      var issued := IssueRounds(picks, season + ahead, limit, franchises);
      out := out + issued;
      ahead := ahead + 1;
    }
    NoneBeyond(picks, season, ahead - 1, ISSUED_SEASONS_AHEAD, limit, franchises);
  }

  lemma {:induction false} NoneBeyond(picks: seq<NativePick>, season: int, from: nat, ahead: nat, rounds: nat,
                                      franchises: seq<string>)
    requires from <= ahead && (from == ahead || season + from + 1 > LAST_SEASON)
    ensures Seasons(picks, season, ahead, rounds, franchises) == Seasons(picks, season, from, rounds, franchises)
    decreases ahead
  {
    if from < ahead {
      NoneBeyond(picks, season, from, ahead - 1, rounds, franchises);
    }
  }

  // ----- exactly the missing picks

  /** The list holds a fresh pick for each key that passes the test, and no other. */
  ghost predicate Holds(list: seq<NativePick>, test: PickKey -> bool) {
    && (forall p <- list :: test(KeyOf(p)) && p == Fresh(KeyOf(p)))
    && (forall c :: test(c) ==> Held(list, c))
    && KeysOnce(list)
  }

  lemma HeldInSum(a: seq<NativePick>, b: seq<NativePick>, c: PickKey)
    ensures Held(a + b, c) <==> Held(a, c) || Held(b, c)
  {
    if k :| 0 <= k < |a| && KeyOf(a[k]) == c {
      assert (a + b)[k] == a[k];
    }
    if k :| 0 <= k < |b| && KeyOf(b[k]) == c {
      assert (a + b)[|a| + k] == b[k];
    }
  }

  lemma HoldsSum(a: seq<NativePick>, b: seq<NativePick>, left: PickKey -> bool, right: PickKey -> bool, both: PickKey -> bool)
    requires Holds(a, left) && Holds(b, right)
    requires Splits(both, left, right)
    ensures Holds(a + b, both)
  {
    forall c | both(c) ensures Held(a + b, c) {
      HeldInSum(a, b, c);
    }
    forall i, j | 0 <= i < j < |a + b| ensures KeyOf((a + b)[i]) != KeyOf((a + b)[j]) {
      if i < |a| <= j {
        assert a[i] in a && b[j - |a|] in b;
      }
    }
  }

  function InRow(picks: seq<NativePick>, season: int, round: int, franchises: seq<string>): PickKey -> bool {
    (c: PickKey) => c.season == season && c.round == round && c.original in franchises && !Held(picks, c)
  }

  function InRounds(picks: seq<NativePick>, season: int, rounds: nat, franchises: seq<string>): PickKey -> bool {
    (c: PickKey) => c.season == season && 1 <= c.round <= rounds && c.original in franchises && !Held(picks, c)
  }

  function InSeasons(picks: seq<NativePick>, season: int, ahead: nat, rounds: nat, franchises: seq<string>): PickKey -> bool {
    (c: PickKey) =>
      season < c.season <= season + ahead && c.season <= LAST_SEASON && 1 <= c.round <= rounds
      && c.original in franchises && !Held(picks, c)
  }

  lemma {:induction false} RowHolds(picks: seq<NativePick>, season: int, round: int, franchises: seq<string>)
    requires NoneTwice(franchises)
    ensures Holds(Row(picks, season, round, franchises), InRow(picks, season, round, franchises))
  {
    if franchises != [] {
      var n := |franchises| - 1;
      var c := PickKey(season, round, franchises[n]);
      var before, last := Row(picks, season, round, franchises[..n]), if Held(picks, c) then [] else [Fresh(c)];
      RowHolds(picks, season, round, franchises[..n]);
      assert !Held(picks, c) ==> last[0] == Fresh(c) && Held(last, c);
      assert franchises == franchises[..n] + [franchises[n]];
      HoldsSum(before, last, InRow(picks, season, round, franchises[..n]), (d: PickKey) => d == c && !Held(picks, c),
               InRow(picks, season, round, franchises));
    }
  }

  /** Two tests that no key passes together make up a third. */
  ghost predicate Splits(both: PickKey -> bool, left: PickKey -> bool, right: PickKey -> bool) {
    forall c :: (both(c) <==> left(c) || right(c)) && !(left(c) && right(c))
  }

  lemma LastRound(picks: seq<NativePick>, season: int, rounds: nat, franchises: seq<string>)
    requires rounds > 0
    ensures Splits(InRounds(picks, season, rounds, franchises), InRounds(picks, season, rounds - 1, franchises),
                   InRow(picks, season, rounds, franchises))
  {
  }

  lemma LastSeason(picks: seq<NativePick>, season: int, ahead: nat, rounds: nat, franchises: seq<string>)
    requires ahead > 0 && season + ahead <= LAST_SEASON
    ensures Splits(InSeasons(picks, season, ahead, rounds, franchises),
                   InSeasons(picks, season, ahead - 1, rounds, franchises),
                   InRounds(picks, season + ahead, rounds, franchises))
  {
  }

  lemma {:induction false} RoundsHold(picks: seq<NativePick>, season: int, rounds: nat, franchises: seq<string>)
    requires NoneTwice(franchises)
    ensures Holds(Rounds(picks, season, rounds, franchises), InRounds(picks, season, rounds, franchises))
  {
    if rounds > 0 {
      RoundsHold(picks, season, rounds - 1, franchises);
      RowHolds(picks, season, rounds, franchises);
      LastRound(picks, season, rounds, franchises);
      HoldsSum(Rounds(picks, season, rounds - 1, franchises), Row(picks, season, rounds, franchises),
               InRounds(picks, season, rounds - 1, franchises), InRow(picks, season, rounds, franchises),
               InRounds(picks, season, rounds, franchises));
    }
  }

  lemma HoldsSame(list: seq<NativePick>, test: PickKey -> bool, test': PickKey -> bool)
    requires Holds(list, test) && forall c :: test(c) <==> test'(c)
    ensures Holds(list, test')
  {
  }

  lemma NoSeasons(picks: seq<NativePick>, season: int, rounds: nat, franchises: seq<string>)
    ensures Holds([], InSeasons(picks, season, 0, rounds, franchises))
  {
  }

  lemma PastLastSeason(picks: seq<NativePick>, season: int, ahead: nat, rounds: nat, franchises: seq<string>)
    requires ahead > 0 && season + ahead > LAST_SEASON
    requires Holds(Seasons(picks, season, ahead - 1, rounds, franchises),
                   InSeasons(picks, season, ahead - 1, rounds, franchises))
    ensures Holds(Seasons(picks, season, ahead, rounds, franchises), InSeasons(picks, season, ahead, rounds, franchises))
  {
    var before := Seasons(picks, season, ahead - 1, rounds, franchises);
    HoldsSame(before, InSeasons(picks, season, ahead - 1, rounds, franchises),
              InSeasons(picks, season, ahead, rounds, franchises));
    assert Seasons(picks, season, ahead, rounds, franchises) == before;
  }

  lemma SeasonAdds(picks: seq<NativePick>, season: int, ahead: nat, rounds: nat, franchises: seq<string>)
    requires NoneTwice(franchises) && ahead > 0
    requires Holds(Seasons(picks, season, ahead - 1, rounds, franchises),
                   InSeasons(picks, season, ahead - 1, rounds, franchises))
    ensures Holds(Seasons(picks, season, ahead, rounds, franchises), InSeasons(picks, season, ahead, rounds, franchises))
  {
    if season + ahead <= LAST_SEASON {
      RoundsHold(picks, season + ahead, rounds, franchises);
      LastSeason(picks, season, ahead, rounds, franchises);
      HoldsSum(Seasons(picks, season, ahead - 1, rounds, franchises), Rounds(picks, season + ahead, rounds, franchises),
               InSeasons(picks, season, ahead - 1, rounds, franchises), InRounds(picks, season + ahead, rounds, franchises),
               InSeasons(picks, season, ahead, rounds, franchises));
    } else {
      PastLastSeason(picks, season, ahead, rounds, franchises);
    }
  }

  lemma {:induction false} SeasonsHold(picks: seq<NativePick>, season: int, ahead: nat, rounds: nat, franchises: seq<string>)
    requires NoneTwice(franchises)
    ensures Holds(Seasons(picks, season, ahead, rounds, franchises), InSeasons(picks, season, ahead, rounds, franchises))
  {
    if ahead == 0 {
      NoSeasons(picks, season, rounds, franchises);
    } else {
      SeasonsHold(picks, season, ahead - 1, rounds, franchises);
      SeasonAdds(picks, season, ahead, rounds, franchises);
    }
  }

  /** A close issues each wanted pick nobody holds, once, to the franchise it is named for, and nothing else. */
  lemma IssuesTheMissing(picks: seq<NativePick>, season: int, rounds: int, franchises: seq<string>)
    requires NoneTwice(franchises)
    ensures var out := Issued(picks, season, rounds, franchises);
            && (forall c :: Held(out, c) <==> Wanted(season, rounds, franchises, c) && !Held(picks, c))
            && (forall c :: Held(out, c) <==>
                  && (c.season == season + 1 || c.season == season + 2) && c.season <= 9999
                  && 1 <= c.round <= rounds && c.original in franchises && !Held(picks, c))
            && (forall p <- out :: p == Fresh(KeyOf(p)) && Unused(p) && p.owner == p.original)
            && KeysOnce(out)
  {
    var out := Issued(picks, season, rounds, franchises);
    var test := InSeasons(picks, season, ISSUED_SEASONS_AHEAD, Positive(rounds), franchises);
    SeasonsHold(picks, season, ISSUED_SEASONS_AHEAD, Positive(rounds), franchises);
    forall c ensures Held(out, c) <==> Wanted(season, rounds, franchises, c) && !Held(picks, c) {
      assert test(c) <==> Wanted(season, rounds, franchises, c) && !Held(picks, c);
      if k :| 0 <= k < |out| && KeyOf(out[k]) == c {
        assert out[k] in out;
      }
    }
  }

  // ----- closes over a whole ledger

  /** One draft's close: its season, how many rounds it had, and its franchises. */
  datatype Closing = Closing(season: int, rounds: int, franchises: seq<string>)

  function After(picks: seq<NativePick>, c: Closing): seq<NativePick> {
    picks + Issued(picks, c.season, c.rounds, c.franchises)
  }

  function Closes(picks: seq<NativePick>, closings: seq<Closing>): seq<NativePick> {
    if closings == [] then picks
    else
      var n := |closings| - 1;
      After(Closes(picks, closings[..n]), closings[n])
  }

  ghost predicate WantedBySome(closings: seq<Closing>, c: PickKey) {
    exists k :: 0 <= k < |closings| && Wanted(closings[k].season, closings[k].rounds, closings[k].franchises, c)
  }

  lemma AfterHolds(picks: seq<NativePick>, closing: Closing)
    requires NoneTwice(closing.franchises)
    ensures forall c :: Held(After(picks, closing), c) <==>
              Held(picks, c) || Wanted(closing.season, closing.rounds, closing.franchises, c)
    ensures KeysOnce(picks) ==> KeysOnce(After(picks, closing))
  {
    var out := Issued(picks, closing.season, closing.rounds, closing.franchises);
    IssuesTheMissing(picks, closing.season, closing.rounds, closing.franchises);
    forall c ensures Held(After(picks, closing), c) <==>
      Held(picks, c) || Wanted(closing.season, closing.rounds, closing.franchises, c)
    {
      HeldInSum(picks, out, c);
    }
    if KeysOnce(picks) {
      forall i, j | 0 <= i < j < |picks + out| ensures KeyOf((picks + out)[i]) != KeyOf((picks + out)[j]) {
        if i < |picks| <= j {
          assert KeyOf(picks[i]) == KeyOf(picks[i]) && Held(picks, KeyOf(picks[i]));
          assert Held(out, KeyOf(out[j - |picks|]));
        }
      }
    }
  }

  /** Any run of closes leaves in somebody's hands what was held before and what some close wanted, and nothing else,
      and never issues a pick twice. So the order in which drafts and sides close does not matter. */
  lemma {:induction false} EveryRunIssuesOnce(picks: seq<NativePick>, closings: seq<Closing>)
    requires forall k :: 0 <= k < |closings| ==> NoneTwice(closings[k].franchises)
    ensures forall c :: Held(Closes(picks, closings), c) <==> Held(picks, c) || WantedBySome(closings, c)
    ensures KeysOnce(picks) ==> KeysOnce(Closes(picks, closings))
  {
    if closings != [] {
      var n := |closings| - 1;
      EveryRunIssuesOnce(picks, closings[..n]);
      AfterHolds(Closes(picks, closings[..n]), closings[n]);
      forall c ensures WantedBySome(closings, c) <==>
        WantedBySome(closings[..n], c) || Wanted(closings[n].season, closings[n].rounds, closings[n].franchises, c)
      {
        if k :| 0 <= k < n && Wanted(closings[k].season, closings[k].rounds, closings[k].franchises, c) {
          assert closings[..n][k] == closings[k];
        }
      }
    }
  }

  /** Closing again issues nothing. */
  lemma ClosingAgainIssuesNothing(picks: seq<NativePick>, closing: Closing)
    requires NoneTwice(closing.franchises)
    ensures After(After(picks, closing), closing) == After(picks, closing)
  {
    var once := After(picks, closing);
    var out := Issued(once, closing.season, closing.rounds, closing.franchises);
    AfterHolds(picks, closing);
    IssuesTheMissing(once, closing.season, closing.rounds, closing.franchises);
    if out != [] {
      assert Held(out, KeyOf(out[0]));
    }
  }

  /** A close adds the same picks whether another side's draft closed before it or not. */
  lemma SidesCloseApart(picks: seq<NativePick>, one: Closing, other: Closing)
    requires forall f :: !(f in one.franchises && f in other.franchises)
    requires NoneTwice(one.franchises) && NoneTwice(other.franchises)
    ensures multiset(After(After(picks, one), other)) == multiset(After(After(picks, other), one))
  {
    IssuedBeside(picks, one, other);
    IssuedBeside(picks, other, one);
  }

  lemma IssuedBeside(picks: seq<NativePick>, one: Closing, other: Closing)
    requires forall f :: !(f in one.franchises && f in other.franchises)
    requires NoneTwice(one.franchises)
    ensures Issued(After(picks, one), other.season, other.rounds, other.franchises) ==
            Issued(picks, other.season, other.rounds, other.franchises)
  {
    AfterHolds(picks, one);
    SeasonsBeside(picks, After(picks, one), other.season, ISSUED_SEASONS_AHEAD, Positive(other.rounds), other.franchises);
  }

  /** What is issued depends only on which of the franchises' own picks are held. */
  lemma {:induction false} RowBeside(picks: seq<NativePick>, more: seq<NativePick>, season: int, round: int,
                                     franchises: seq<string>)
    requires forall c: PickKey :: c.original in franchises ==> (Held(picks, c) <==> Held(more, c))
    ensures Row(picks, season, round, franchises) == Row(more, season, round, franchises)
  {
    if franchises != [] {
      RowBeside(picks, more, season, round, franchises[..|franchises| - 1]);
    }
  }

  lemma {:induction false} RoundsBeside(picks: seq<NativePick>, more: seq<NativePick>, season: int, rounds: nat,
                                        franchises: seq<string>)
    requires forall c: PickKey :: c.original in franchises ==> (Held(picks, c) <==> Held(more, c))
    ensures Rounds(picks, season, rounds, franchises) == Rounds(more, season, rounds, franchises)
  {
    if rounds > 0 {
      RoundsBeside(picks, more, season, rounds - 1, franchises);
      RowBeside(picks, more, season, rounds, franchises);
    }
  }

  lemma {:induction false} SeasonsBeside(picks: seq<NativePick>, more: seq<NativePick>, season: int, ahead: nat,
                                         rounds: nat, franchises: seq<string>)
    requires forall c: PickKey :: c.original in franchises ==> (Held(picks, c) <==> Held(more, c))
    ensures Seasons(picks, season, ahead, rounds, franchises) == Seasons(more, season, ahead, rounds, franchises)
  {
    if ahead > 0 {
      SeasonsBeside(picks, more, season, ahead - 1, rounds, franchises);
      RoundsBeside(picks, more, season + ahead, rounds, franchises);
    }
  }
}
