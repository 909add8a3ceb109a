/** Admission to password work: two bounded channels, six admitted and two active, shared by any number of requests
    that arrive, wait, give up, work and release in any order. */
module PasswordWork {
  import opened Assets

  const ACTIVE_SLOTS: nat := 2
  const ADMITTED_SLOTS: nat := 6

  /** Where a request stands between sending its first token and taking back its last. */
  datatype Phase =
    | Queued    // admitted, waiting for an active slot or for its own cancellation
    | Checking  // just became active, about to look once more at its own cancellation
    | Working   // acquired: the password is being hashed or verified
    | Closing   // about to take its token back from the active channel
    | Leaving   // about to take its token back from the admitted channel

  predicate HoldsActive(p: Phase) {
    p.Checking? || p.Working? || p.Closing?
  }

  /** The channels' lengths and every request that has not left. */
  datatype State = State(active: nat, admitted: nat, at: map<nat, Phase>)

  const EMPTY := State(0, 0, map[])

  /** One step of one request. A request that arrives cancelled, or finds no admitted slot, is turned away. */
  datatype Event =
    | Arrive(id: nat, cancelled: bool)
    | BecomeActive(id: nat)
    | GiveUp(id: nat)
    | LookAgain(id: nat, cancelled: bool)
    | Finish(id: nat)
    | FreeActive(id: nat)
    | FreeAdmitted(id: nat)

  predicate In(s: State, id: nat, p: Phase) {
    id in s.at && s.at[id] == p
  }

  function Moved(s: State, id: nat, p: Phase): State {
    s.(at := s.at[id := p])
  }

  /** The state after the step; none where the step is not the request's next one, or its channel operation blocks. */
  function Step(s: State, e: Event): Option<State> {
    match e
    case Arrive(id, cancelled) =>
      if id in s.at then None
      else if cancelled || s.admitted >= ADMITTED_SLOTS then Some(s)
      else Some(Moved(s.(admitted := s.admitted + 1), id, Queued))
    case BecomeActive(id) =>
      if In(s, id, Queued) && s.active < ACTIVE_SLOTS then Some(Moved(s.(active := s.active + 1), id, Checking)) else None
    case GiveUp(id) =>
      if In(s, id, Queued) then Some(Moved(s, id, Leaving)) else None
    case LookAgain(id, cancelled) =>
      if In(s, id, Checking) then Some(Moved(s, id, if cancelled then Closing else Working)) else None
    case Finish(id) =>
      if In(s, id, Working) then Some(Moved(s, id, Closing)) else None
    case FreeActive(id) =>
      if In(s, id, Closing) && s.active > 0 then Some(Moved(s.(active := s.active - 1), id, Leaving)) else None
    case FreeAdmitted(id) =>
      if In(s, id, Leaving) && s.admitted > 0 then Some(s.(admitted := s.admitted - 1, at := s.at - {id})) else None
  }

  ghost function ActiveHolders(s: State): set<nat> {
    set id | id in s.at && HoldsActive(s.at[id])
  }

  /** Each channel holds one token for each request that still owes it one, and neither is over its size. */
  ghost predicate Accounted(s: State) {
    && s.active == |ActiveHolders(s)| <= ACTIVE_SLOTS
    && s.admitted == |s.at.Keys| <= ADMITTED_SLOTS
  }

  lemma Enters(s: State, id: nat)
    requires Accounted(s) && id !in s.at && s.admitted < ADMITTED_SLOTS
    ensures Accounted(Moved(s.(admitted := s.admitted + 1), id, Queued))
  {
    var after := Moved(s.(admitted := s.admitted + 1), id, Queued);
    assert ActiveHolders(after) == ActiveHolders(s);
    assert after.at.Keys == s.at.Keys + {id};
  }

  lemma StaysLevel(s: State, id: nat, p: Phase)
    requires Accounted(s) && id in s.at && HoldsActive(p) == HoldsActive(s.at[id])
    ensures Accounted(Moved(s, id, p))
  {
    assert ActiveHolders(Moved(s, id, p)) == ActiveHolders(s);
    assert Moved(s, id, p).at.Keys == s.at.Keys;
  }

  lemma TakesSlot(s: State, id: nat)
    requires Accounted(s) && In(s, id, Queued) && s.active < ACTIVE_SLOTS
    ensures Accounted(Moved(s.(active := s.active + 1), id, Checking))
  {
    var after := Moved(s.(active := s.active + 1), id, Checking);
    assert ActiveHolders(after) == ActiveHolders(s) + {id};
    assert after.at.Keys == s.at.Keys;
  }

  lemma FreesSlot(s: State, id: nat)
    requires Accounted(s) && In(s, id, Closing) && s.active > 0
    ensures Accounted(Moved(s.(active := s.active - 1), id, Leaving))
  {
    var after := Moved(s.(active := s.active - 1), id, Leaving);
    assert id in ActiveHolders(s);
    assert ActiveHolders(after) == ActiveHolders(s) - {id};
    assert after.at.Keys == s.at.Keys;
  }

  lemma Leaves(s: State, id: nat)
    requires Accounted(s) && In(s, id, Leaving) && s.admitted > 0
    ensures Accounted(s.(admitted := s.admitted - 1, at := s.at - {id}))
  {
    var after := s.(admitted := s.admitted - 1, at := s.at - {id});
    assert ActiveHolders(after) == ActiveHolders(s);
    assert after.at.Keys == s.at.Keys - {id};
  }

  lemma StepKeepsAccounts(s: State, e: Event)
    requires Accounted(s) && Step(s, e).Some?
    ensures Accounted(Step(s, e).value)
  {
    match e {
      case Arrive(id, cancelled) =>
        if !cancelled && s.admitted < ADMITTED_SLOTS {
          Enters(s, id);
        }
      case BecomeActive(id) => TakesSlot(s, id);
      case GiveUp(id) => StaysLevel(s, id, Leaving);
      case LookAgain(id, cancelled) => StaysLevel(s, id, if cancelled then Closing else Working);
      case Finish(id) => StaysLevel(s, id, Closing);
      case FreeActive(id) => FreesSlot(s, id);
      case FreeAdmitted(id) => Leaves(s, id);
    }
  }

  /** A request works only once it was seen not to be cancelled while it held an active slot; one that was seen
      cancelled there, or gave up, or came too late or when six were in, never does. */
  lemma OnlyTheUncancelledWork(s: State, e: Event, id: nat)
    requires Step(s, e).Some? && In(Step(s, e).value, id, Working) && !In(s, id, Working)
    ensures e == LookAgain(id, false) && In(s, id, Checking)
  {
  }

  /** Who becomes active and who gives up were waiting; a request is turned away if it comes cancelled or finds six. */
  lemma WhoMayEnter(s: State, id: nat, cancelled: bool)
    requires id !in s.at
    ensures In(Step(s, Arrive(id, cancelled)).value, id, Queued) <==> !cancelled && s.admitted < 6
    ensures Step(s, BecomeActive(id)).None? && Step(s, GiveUp(id)).None?
  {
  }

  /** A run of steps; one that cannot be taken yet is passed over. */
  function Run(s: State, events: seq<Event>): State
    decreases |events|
  {
    if events == [] then s
    else
      var next := Step(s, events[0]);
      Run(if next.Some? then next.value else s, events[1..])
  }

  /** Under every interleaving at most two requests are active and at most six are admitted, and each channel's length
      is the number of requests that hold its token. */
  lemma {:induction false} EveryRunIsAccounted(s: State, events: seq<Event>)
    requires Accounted(s)
    ensures Accounted(Run(s, events)) && Run(s, events).active <= 2 && Run(s, events).admitted <= 6
    decreases |events|
  {
    if events != [] {
      var next := Step(s, events[0]);
      if next.Some? {
        StepKeepsAccounts(s, events[0]);
      }
      EveryRunIsAccounted(if next.Some? then next.value else s, events[1..]);
    }
  }

  lemma EmptyIsAccounted()
    ensures Accounted(EMPTY)
  {
    assert ActiveHolders(EMPTY) == {} && EMPTY.at.Keys == {};
  }

  lemma MemberCounts<T>(x: T, s: set<T>)
    requires x in s
    ensures |s| > 0
  {
  }

  /** Taking a token back never blocks. */
  lemma ReleaseNeverBlocks(events: seq<Event>, id: nat)
    ensures var s := Run(EMPTY, events);
            && (In(s, id, Closing) ==> Step(s, FreeActive(id)).Some?)
            && (In(s, id, Leaving) ==> Step(s, FreeAdmitted(id)).Some?)
  {
    EmptyIsAccounted();
    EveryRunIsAccounted(EMPTY, events);
    var s := Run(EMPTY, events);
    if In(s, id, Closing) {
      MemberCounts(id, ActiveHolders(s));
    }
    if id in s.at {
      MemberCounts(id, s.at.Keys);
    }
  }

  /** A waiting request either can become active now, or two others hold the active slots and each can be released. */
  lemma WaiterIsNeverStuck(events: seq<Event>, id: nat)
    requires In(Run(EMPTY, events), id, Queued)
    ensures var s := Run(EMPTY, events);
            if s.active < ACTIVE_SLOTS then Step(s, BecomeActive(id)).Some?
            else |ActiveHolders(s)| == ACTIVE_SLOTS && id !in ActiveHolders(s)
  {
    EmptyIsAccounted();
    EveryRunIsAccounted(EMPTY, events);
  }

  // ----- with no new arrivals everyone leaves

  /** How many steps a request still has to take at most. */
  function Left(p: Phase): nat {
    match p
    case Queued => 5
    case Checking => 4
    case Working => 3
    case Closing => 2
    case Leaving => 1
  }

  ghost function StepsLeft(at: map<nat, Phase>): nat
    decreases |at.Keys|
  {
    if at.Keys == {} then 0
    else
      var id := AnyOf(at.Keys);
      assert (at - {id}).Keys == at.Keys - {id};
      Left(at[id]) + StepsLeft(at - {id})
  }

  ghost function AnyOf(s: set<nat>): nat
    requires s != {}
    ensures AnyOf(s) in s
  {
    var x :| x in s; x
  }

  lemma KeysWithout(at: map<nat, Phase>, one: nat, two: nat)
    ensures (at - {one}).Keys == at.Keys - {one} && (at - {two}).Keys == at.Keys - {two}
    ensures at - {one} - {two} == at - {two} - {one}
  {
  }

  /** The sum does not depend on which request is counted first. */
  lemma {:induction false} StepsLeftWithout(at: map<nat, Phase>, id: nat)
    requires id in at
    ensures StepsLeft(at) == Left(at[id]) + StepsLeft(at - {id})
    decreases |at.Keys|
  {
    var first := AnyOf(at.Keys);
    if first != id {
      KeysWithout(at, first, id);
      StepsLeftWithout(at - {first}, id);
      StepsLeftWithout(at - {id}, first);
    }
  }

  /** Every step but an arrival brings the end nearer. */
  lemma StepsRunDown(s: State, e: Event)
    requires !e.Arrive? && Step(s, e).Some?
    ensures StepsLeft(Step(s, e).value.at) < StepsLeft(s.at)
  {
    var after := Step(s, e).value.at;
    StepsLeftWithout(s.at, e.id);
    if e.id in after {
      StepsLeftWithout(after, e.id);
      assert after - {e.id} == s.at - {e.id};
    }
  }

  /** The step of a request that keeps going: it takes a slot if it can, and is not cancelled. */
  predicate Uncancelled(e: Event) {
    !e.Arrive? && !e.GiveUp? && (e.LookAgain? ==> !e.cancelled)
  }

  lemma HolderCanStep(s: State, id: nat) returns (e: Event)
    requires Accounted(s) && id in s.at && !s.at[id].Queued?
    ensures Uncancelled(e) && Step(s, e).Some?
  {
    MemberCounts(id, s.at.Keys);
    match s.at[id] {
      case Checking => e := LookAgain(id, false);
      case Working => e := Finish(id);
      case Closing => e := FreeActive(id); MemberCounts(id, ActiveHolders(s));
      case Leaving => e := FreeAdmitted(id);
    }
  }

  /** Nobody has to be cancelled for someone to take a step. */
  lemma SomeoneCanStep(s: State) returns (e: Event)
    requires Accounted(s) && s.at.Keys != {}
    ensures Uncancelled(e) && Step(s, e).Some?
  {
    var id := AnyOf(s.at.Keys);
    if !s.at[id].Queued? {
      e := HolderCanStep(s, id);
    } else if s.active < ACTIVE_SLOTS {
      e := BecomeActive(id);
    } else {
      e := HolderCanStep(s, AnyOf(ActiveHolders(s)));
    }
  }

  /** From any state a run can reach, the requests inside can all be served and leave both channels empty. */
  lemma {:induction false} EveryoneCanBeServed(s: State) returns (events: seq<Event>)
    requires Accounted(s)
    ensures forall e <- events :: Uncancelled(e)
    ensures Run(s, events) == EMPTY
    decreases StepsLeft(s.at)
  {
    if s.at.Keys == {} {
      assert s.at == map[] && ActiveHolders(s) == {};
      events := [];
    } else {
      var e := SomeoneCanStep(s);
      var next := Step(s, e).value;
      StepsRunDown(s, e);
      StepKeepsAccounts(s, e);
      var rest := EveryoneCanBeServed(next);
      events := [e] + rest;
      assert events[1..] == rest;
    }
  }
}
