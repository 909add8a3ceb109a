/** The native league's assets as values: rosters, picks, charges, free-agent lots and franchises, and the
    side seam through which every player lookup goes. */
module Assets {

  datatype Option<+T> = None | Some(value: T)

  /** The outcome of a change that the ledger may refuse. */
  datatype Result<+T> = Ok(value: T) | Refused(words: string) {
    predicate IsFailure() {
      Refused?
    }
    function PropagateFailure<U>(): Result<U>
      requires Refused?
    {
      Refused(words)
    }
    function Extract(): T
      requires Ok?
    {
      value
    }
  }

  datatype Status = Active | IR | Taxi

  datatype ContractStatus = UFA | RFA | AsHeld(text: string)

  /** What a roster entry's contract words record. */
  datatype ContractNote =
    | Recorded(text: string)
    | WonBid(salary: int, years: int)
    | RookieDraft(round: int, slot: int, season: int)
    | StartupDraft(round: int, slot: int, season: int)
    | MinimumAfterAuction

  datatype NativePlayer = NativePlayer(
    id: string,
    name: string,
    franchise: string,
    status: Status,
    salary: int,
    expirationYear: int,
    contractStatus: ContractStatus,
    note: ContractNote,
    rookieRound: int,
    acquiredVia: string,
    correction: string)

  datatype NativePick = NativePick(
    season: int,
    round: int,
    slot: int,
    original: string,
    owner: string,
    player: string,
    skipped: bool,
    compensatory: bool,
    correction: string)

  datatype NativeCharge = NativeCharge(id: string, franchise: string, amount: int, season: int, description: string)

  datatype PoolEntry = PoolEntry(player: string, side: string, name: string, season: int)

  datatype NativeFranchise = NativeFranchise(id: string, heldId: string, name: string, abbreviation: string)

  /** The first index of the sequence whose element passes the test, or -1. */
  function IndexFunc<T>(s: seq<T>, test: T -> bool): (i: int)
    ensures -1 <= i < |s|
    ensures i >= 0 ==> test(s[i]) && forall k :: 0 <= k < i ==> !test(s[k])
    ensures i < 0 ==> forall k :: 0 <= k < |s| ==> !test(s[k])
  {
    if s == [] then -1
    else if test(s[0]) then 0
    else
      var rest := IndexFunc(s[1..], test);
      if rest < 0 then -1 else rest + 1
  }

  /** The sequence without the element at i. */
  function Without<T>(s: seq<T>, i: nat): seq<T>
    requires i < |s|
  {
    s[..i] + s[i + 1..]
  }

  datatype Snapshot = Snapshot(
    season: int,
    franchises: seq<NativeFranchise>,
    players: seq<NativePlayer>,
    picks: seq<NativePick>,
    adjustments: seq<NativeCharge>,
    pool: seq<PoolEntry>,
    sides: map<string, string>)
  {
    /** Which side the map gives the franchise; the empty name where the map is silent. */
    function SideOf(franchise: string): string {
      if franchise in sides then sides[franchise] else ""
    }

    predicate PerSide() {
      |sides| != 0
    }

    function PlayerOn(side: string, id: string): int {
      IndexFunc(players, (p: NativePlayer) => p.id == id && SideOf(p.franchise) == side)
    }

    predicate OnSide(side: string, id: string) {
      PlayerOn(side, id) >= 0
    }

    function PlayerOf(franchise: string, id: string): int {
      IndexFunc(players, (p: NativePlayer) => p.id == id && p.franchise == franchise)
    }

    function PoolOn(side: string, id: string): int {
      IndexFunc(pool, (l: PoolEntry) => l.player == id && l.side == side)
    }

    predicate Lists(franchise: string) {
      exists k :: 0 <= k < |franchises| && franchises[k].id == franchise
    }

    /** Where a correction that names only a player looks for him. With several sides it must name a franchise too. */
    function TargetSide(franchise: string): Result<string> {
      if franchise != "" then Ok(SideOf(franchise))
      else if PerSide() then Refused("each side has its own copy of this player: name the franchise or side")
      else Ok("")
    }
  }
}
