/** Keeping the database status of a market behind the chain's
    (backend/src/services/autoResolverService.ts:72-125 and 153-216). Any number of
    resolver invocations may overlap, stop before their save, or lose a confirmation; the
    chain's own status only moves forward. */
module AutoResolver {
  import opened Orders

  const ACTIVE := 0
  const RESOLVING := 1
  const FINALIZED := 3
  const INVALID := 4

  /** The columns of a market row that the resolver writes. */
  datatype Row = Row(status: nat, outcome: Option<nat>, resolvedAt: Option<nat>)

  /** What getOnChainMarketState answers; None stands for its null. */
  datatype OnChain = OnChain(status: nat, outcome: Option<nat>)

  function AfterResolve(r: Row, winner: nat, now: nat): Row {
    Row(RESOLVING, Some(winner), Some(now))
  }

  /** The reconcile branches: the chain's status, and its outcome if it has one; only the
      resolve branch fills in a missing time. */
  function AfterReconcile(r: Row, answer: Option<OnChain>, resolving: bool, now: nat): Row {
    if answer.None? then r.(status := INVALID)
    else
      var found := answer.value;
      r.(status := found.status,
         outcome := if found.outcome.Some? then found.outcome else r.outcome,
         resolvedAt := if resolving && found.outcome.Some? && r.resolvedAt.None? then Some(now) else r.resolvedAt)
  }

  /** The answer of a transaction. NotActive covers every error message that starts the
      self-healing of the branch at hand. */
  datatype TxAnswer = Landed | NotActive | OtherError

  predicate ReadyToRecover(answer: Option<OnChain>) {
    answer.Some? && answer.value.status == FINALIZED && answer.value.outcome.Some?
  }

  /** The row after resolving and after finalizing, for each answer of the transaction. */
  function AfterResolution(r: Row, winner: nat, tx: TxAnswer, onChain: Option<OnChain>, now: nat): Row {
    match tx
    case Landed => AfterResolve(r, winner, now)
    case NotActive => AfterReconcile(r, onChain, true, now)
    case OtherError => r
  }

  function AfterFinalization(r: Row, tx: TxAnswer, onChain: Option<OnChain>): Row {
    match tx
    case Landed => r.(status := FINALIZED)
    case NotActive => AfterReconcile(r, onChain, false, 0)
    case OtherError => r
  }

  /** With which outcome liquidity recovery is launched, if it is: only with seed orders,
      and for `known`, the outcome of the row at hand, if the transaction landed. */
  function Recovery(hasSeedOrders: bool, known: Option<nat>, tx: TxAnswer,
                    onChain: Option<OnChain>): Option<Option<nat>> {
    if !hasSeedOrders then None
    else
      match tx
      case Landed => Some(known)
      case NotActive => if ReadyToRecover(onChain) then Some(onChain.value.outcome) else None
      case OtherError => None
  }

  class Market {
    var status: nat
    var resolvedOutcome: Option<nat>
    var resolvedAt: Option<nat>
    const hasSeedOrders: bool

    ghost function Contents(): Row
      reads this
    {
      Row(status, resolvedOutcome, resolvedAt)
    }

    constructor (hasSeedOrders: bool)
      ensures Contents() == Row(ACTIVE, None, None) && this.hasSeedOrders == hasSeedOrders
    {
      status, resolvedOutcome, resolvedAt := ACTIVE, None, None;
      this.hasSeedOrders := hasSeedOrders;
    }

    method ResolveOne(winner: nat, tx: TxAnswer, onChain: Option<OnChain>, now: nat)
      modifies this
      ensures Contents() == AfterResolution(old(Contents()), winner, tx, onChain, now)
      ensures tx.OtherError? ==>
              status == old(status) && resolvedOutcome == old(resolvedOutcome) && resolvedAt == old(resolvedAt)
      ensures tx.Landed? ==> status == RESOLVING && resolvedOutcome == Some(winner) && resolvedAt == Some(now)
      ensures tx.NotActive? && onChain.None? ==>
              status == INVALID && resolvedOutcome == old(resolvedOutcome) && resolvedAt == old(resolvedAt)
      ensures tx.NotActive? && onChain.Some? ==> status == onChain.value.status
      ensures tx.NotActive? && onChain.Some? && onChain.value.outcome.None? ==>
              resolvedOutcome == old(resolvedOutcome) && resolvedAt == old(resolvedAt)
      ensures tx.NotActive? && onChain.Some? && onChain.value.outcome.Some? ==>
              resolvedOutcome == onChain.value.outcome
              && resolvedAt == (if old(resolvedAt).Some? then old(resolvedAt) else Some(now))
    {
      if tx == Landed {
        status := RESOLVING;
        resolvedOutcome := Some(winner);
        resolvedAt := Some(now);
      } else if tx == NotActive {
        if onChain == None {
          status := INVALID;
          return;
        }
        status := onChain.value.status;
        if onChain.value.outcome.Some? {
          resolvedOutcome := onChain.value.outcome;
          if resolvedAt == None {
            resolvedAt := Some(now);
          }
        }
      }
    }

    /** `recover` holds the outcome with which liquidity recovery is launched, if it is. */
    method FinalizeOne(tx: TxAnswer, onChain: Option<OnChain>) returns (recover: Option<Option<nat>>)
      modifies this
      ensures Contents() == AfterFinalization(old(Contents()), tx, onChain)
      ensures recover == Recovery(hasSeedOrders, old(resolvedOutcome), tx, onChain)
      ensures tx.Landed? ==> status == FINALIZED && resolvedOutcome == old(resolvedOutcome)
      ensures tx.NotActive? ==> status == if onChain.Some? then onChain.value.status else INVALID
      ensures tx.NotActive? ==>
              resolvedOutcome ==
              if onChain.Some? && onChain.value.outcome.Some? then onChain.value.outcome else old(resolvedOutcome)
      ensures tx.OtherError? ==> status == old(status) && resolvedOutcome == old(resolvedOutcome)
      ensures recover.Some? <==>
              hasSeedOrders
              && (tx.Landed? || (tx.NotActive? && onChain.Some? && onChain.value.status == FINALIZED
                                 && onChain.value.outcome.Some?))
      ensures recover.Some? ==> status == FINALIZED && recover == Some(resolvedOutcome)
      ensures resolvedAt == old(resolvedAt)
    {
      recover := None;
      if tx == Landed {
        status := FINALIZED;
        if hasSeedOrders {
          recover := Some(resolvedOutcome);
        }
      } else if tx == NotActive {
        if onChain == None {
          status := INVALID;
          return;
        }
        status := onChain.value.status;
        if onChain.value.outcome.Some? {
          resolvedOutcome := onChain.value.outcome;
        }
        if onChain.value.status == FINALIZED && hasSeedOrders && onChain.value.outcome.Some? {
          recover := Some(onChain.value.outcome);
        }
      }
    }
  }

  // ------------------------------------------------------------- overlapping invocations

  /** The chain's account: closed accounts keep their last contents for the record. */
  datatype Chain = Chain(present: bool, status: nat, outcome: Option<nat>, everFinalized: bool)

  datatype Phase =
    | Resolve(winner: nat)
    | SaveResolved(winner: nat)
    | Finalize
    | SaveFinalized
    | Fetch(resolving: bool)
    | SaveReconciled(resolving: bool, answer: Option<OnChain>)
    | Stopped

  /** One invocation; `known` and `hasSeedOrders` are what the row it was given says. */
  datatype Worker = Worker(known: Option<nat>, hasSeedOrders: bool, phase: Phase)

  datatype System = System(chain: Chain, row: Row, hasSeedOrders: bool, workers: seq<Worker>,
                           recoveries: seq<Option<nat>>)

  const INITIAL := System(Chain(true, ACTIVE, None, false), Row(ACTIVE, None, None), false, [], [])

  datatype Event =
    | ChainMoves(status: nat, outcome: Option<nat>)
    | ChainCloses
    | SeedOrdersStored
    | StartResolve(winner: nat)
    | StartFinalize
    | Submit(id: nat, reached: bool, confirmed: bool)
    | FetchState(id: nat, readable: bool)
    | Save(id: nat, now: nat)
    | Stop(id: nat)

  function At(s: System, id: nat, phase: Phase): System
    requires id < |s.workers|
  {
    s.(workers := s.workers[id := s.workers[id].(phase := phase)])
  }

  /** The save of finalizeOne, and the recovery that follows it. */
  function Launched(s: System, w: Worker, tx: TxAnswer, onChain: Option<OnChain>): System {
    var recover := Recovery(w.hasSeedOrders, w.known, tx, onChain);
    s.(row := AfterFinalization(s.row, tx, onChain),
       recoveries := s.recoveries + if recover.Some? then [recover.value] else [])
  }

  /** A submission that does not reach the chain fails with an error that is only logged;
      one that the chain rejects starts the self-healing. */
  function Step(s: System, e: Event): System {
    match e
    case ChainMoves(status, outcome) =>
      if s.chain.present && s.chain.status <= status <= INVALID
        && (s.chain.outcome.Some? ==> outcome == s.chain.outcome) then
        s.(chain := Chain(true, status, outcome, s.chain.everFinalized || status == FINALIZED))
      else s
    case ChainCloses => s.(chain := s.chain.(present := false))
    case SeedOrdersStored => s.(hasSeedOrders := true)
    case StartResolve(winner) =>
      if s.row.status != ACTIVE then s
      else s.(workers := s.workers + [Worker(s.row.outcome, s.hasSeedOrders, Resolve(winner))])
    case StartFinalize =>
      if s.row.status != RESOLVING then s
      else s.(workers := s.workers + [Worker(s.row.outcome, s.hasSeedOrders, Finalize)])
    case Submit(id, reached, confirmed) =>
      if id >= |s.workers| then s
      else (match s.workers[id].phase
        case Resolve(winner) =>
          if s.chain.present && s.chain.status == ACTIVE && s.chain.outcome.None? && reached then
            var chain := s.chain.(status := RESOLVING, outcome := Some(winner));
            At(s.(chain := chain), id, if confirmed then SaveResolved(winner) else Stopped)
          else At(s, id, if reached then Fetch(true) else Stopped)
        case Finalize =>
          if s.chain.present && ACTIVE < s.chain.status < FINALIZED && reached then
            var chain := s.chain.(status := FINALIZED, everFinalized := true);
            At(s.(chain := chain), id, if confirmed then SaveFinalized else Stopped)
          else At(s, id, if reached then Fetch(false) else Stopped)
        case _ => s)
    case FetchState(id, readable) =>
      if id >= |s.workers| || !s.workers[id].phase.Fetch? then s
      else
        var answer := if readable && s.chain.present then Some(OnChain(s.chain.status, s.chain.outcome)) else None;
        At(s, id, SaveReconciled(s.workers[id].phase.resolving, answer))
    case Save(id, now) =>
      if id >= |s.workers| then s
      else (match s.workers[id].phase
        case SaveResolved(winner) => At(s, id, Stopped).(row := AfterResolution(s.row, winner, Landed, None, now))
        case SaveFinalized => Launched(At(s, id, Stopped), s.workers[id], Landed, None)
        case SaveReconciled(true, answer) =>
          At(s, id, Stopped).(row := AfterResolution(s.row, 0, NotActive, answer, now))
        case SaveReconciled(false, answer) => Launched(At(s, id, Stopped), s.workers[id], NotActive, answer)
        case _ => s)
    case Stop(id) => if id >= |s.workers| then s else At(s, id, Stopped)
  }

  function Run(events: seq<Event>): System {
    if events == [] then INITIAL else Step(Run(events[..|events| - 1]), events[|events| - 1])
  }

  /** How far the market has got: a closed account is past every status. */
  function Progress(c: Chain): nat {
    if c.present then c.status else INVALID
  }

  /** An outcome the chain knows, or none. */
  predicate Knows(c: Chain, outcome: Option<nat>) {
    outcome.Some? ==> outcome == c.outcome
  }

  predicate WorkerOk(c: Chain, w: Worker) {
    && Knows(c, w.known)
    && match w.phase
       case SaveResolved(winner) => RESOLVING <= Progress(c) && c.outcome == Some(winner)
       case SaveFinalized => FINALIZED <= Progress(c) && c.everFinalized
       case SaveReconciled(_, answer) =>
         if answer.None? then Progress(c) == INVALID
         else answer.value.status <= Progress(c) && Knows(c, answer.value.outcome)
              && (answer.value.status == FINALIZED ==> c.everFinalized)
       case _ => true
  }

  ghost predicate WorkersOk(s: System) {
    forall i :: 0 <= i < |s.workers| ==> WorkerOk(s.chain, s.workers[i])
  }

  /** Recovery was launched only after the chain was finalized, for the chain's outcome. */
  ghost predicate RecoveriesOk(s: System) {
    forall i :: 0 <= i < |s.recoveries| ==> RecoveryOk(s.chain, s.recoveries[i])
  }

  predicate RecoveryOk(c: Chain, outcome: Option<nat>) {
    c.everFinalized && Knows(c, outcome)
  }

  ghost predicate Inv(s: System) {
    && s.chain.status <= INVALID
    && (s.chain.status == FINALIZED && s.chain.present ==> s.chain.everFinalized)
    && s.row.status <= Progress(s.chain)
    && Knows(s.chain, s.row.outcome)
    && WorkersOk(s)
    && RecoveriesOk(s)
  }

  /** A state read that fails although the account is there and not yet invalid: the read
      reports every failure as a missing account. */
  predicate ReadFails(s: System, e: Event) {
    && e.FetchState? && e.id < |s.workers| && s.workers[e.id].phase.Fetch?
    && !e.readable && Progress(s.chain) < INVALID
  }

  /** The chain only moves on. */
  predicate Advances(c: Chain, c': Chain) {
    && Progress(c) <= Progress(c')
    && (c.outcome.Some? ==> c'.outcome == c.outcome)
    && (c.everFinalized ==> c'.everFinalized)
  }

  lemma StepAdvances(s: System, e: Event)
    requires s.chain.status <= INVALID
    ensures Advances(s.chain, Step(s, e).chain)
  {
  }

  lemma WorkerOkKept(c: Chain, c': Chain, w: Worker)
    requires WorkerOk(c, w) && c.status <= INVALID && c'.status <= INVALID && Advances(c, c')
    ensures WorkerOk(c', w)
  {
  }

  /** A step moves at most one worker; the others only see the chain advance. */
  lemma StepMovesOne(s: System, e: Event, i: nat)
    requires i < |Step(s, e).workers|
    ensures var s' := Step(s, e);
            || (i < |s.workers| && s'.workers[i] == s.workers[i])
            || (i == |s.workers| && s'.workers[i].known == s.row.outcome
               && (s'.workers[i].phase.Resolve? || s'.workers[i].phase.Finalize?))
            || (i < |s.workers| && (e.Submit? || e.FetchState? || e.Save? || e.Stop?) && e.id == i)
  {
  }

  lemma MovedWorkerOk(s: System, e: Event)
    requires Inv(s) && !ReadFails(s, e)
    requires (e.Submit? || e.FetchState? || e.Save? || e.Stop?) && e.id < |s.workers|
    ensures WorkerOk(Step(s, e).chain, Step(s, e).workers[e.id])
  {
    assert WorkerOk(s.chain, s.workers[e.id]);
  }

  lemma StepKeepsWorkers(s: System, e: Event)
    requires Inv(s) && !ReadFails(s, e)
    ensures WorkersOk(Step(s, e))
  {
    var s' := Step(s, e);
    StepAdvances(s, e);
    forall i | 0 <= i < |s'.workers|
      ensures WorkerOk(s'.chain, s'.workers[i])
    {
      StepMovesOne(s, e, i);
      if i < |s.workers| && s'.workers[i] == s.workers[i] {
        WorkerOkKept(s.chain, s'.chain, s.workers[i]);
      } else if i < |s.workers| {
        MovedWorkerOk(s, e);
      }
    }
  }

  /** A step launches at most one recovery, and only a save does. */
  lemma StepLaunches(s: System, e: Event)
    ensures var s' := Step(s, e);
            || s'.recoveries == s.recoveries
            || (e.Save? && e.id < |s.workers| && s'.chain == s.chain
                && match s.workers[e.id].phase
                   case SaveFinalized => s'.recoveries == s.recoveries + [s.workers[e.id].known]
                   case SaveReconciled(_, answer) => ReadyToRecover(answer)
                     && s'.recoveries == s.recoveries + [answer.value.outcome]
                   case _ => false)
  {
  }

  lemma StepKeepsRecoveries(s: System, e: Event)
    requires Inv(s)
    ensures RecoveriesOk(Step(s, e))
  {
    var s' := Step(s, e);
    StepAdvances(s, e);
    StepLaunches(s, e);
    if e.Save? && e.id < |s.workers| {
      assert WorkerOk(s.chain, s.workers[e.id]);
    }
    forall i | 0 <= i < |s'.recoveries|
      ensures RecoveryOk(s'.chain, s'.recoveries[i])
    {
      if i < |s.recoveries| {
        assert s'.recoveries[i] == s.recoveries[i];
        assert RecoveryOk(s.chain, s.recoveries[i]);
      }
    }
  }

  /** Every step keeps the invariant, except exactly a state read that fails on a live
      account. */
  lemma StepKeepsInvExactly(s: System, e: Event)
    requires Inv(s)
    ensures Inv(Step(s, e)) <==> !ReadFails(s, e)
  {
    var s' := Step(s, e);
    if ReadFails(s, e) {
      assert !WorkerOk(s'.chain, s'.workers[e.id]);
    } else {
      StepKeepsWorkers(s, e);
      StepKeepsRecoveries(s, e);
      if e.Save? && e.id < |s.workers| {
        assert WorkerOk(s.chain, s.workers[e.id]);
      }
    }
  }

  ghost predicate ReadsSucceed(events: seq<Event>) {
    forall k :: 0 <= k < |events| ==> !ReadFails(Run(events[..k]), events[k])
  }

  lemma {:induction false} RunsKeepInv(events: seq<Event>)
    requires ReadsSucceed(events)
    ensures Inv(Run(events))
  {
    if events != [] {
      var n := |events| - 1;
      assert forall k :: 0 <= k < n ==> events[..n][..k] == events[..k];
      RunsKeepInv(events[..n]);
      StepKeepsInvExactly(Run(events[..n]), events[n]);
    }
  }

  /** Under every interleaving the row is never ahead of the chain and names no outcome but
      the chain's; liquidity recovery starts only after the chain was finalized, and for
      the chain's outcome. */
  lemma DatabaseStaysBehind(events: seq<Event>)
    requires ReadsSucceed(events)
    ensures var s := Run(events);
            && s.row.status <= Progress(s.chain)
            && Knows(s.chain, s.row.outcome)
            && RecoveriesOk(s)
  {
    RunsKeepInv(events);
  }

  // -------------------------------------------------------- what is picked and submitted

  /** A market is picked for resolution exactly while the row is active, and for finalization
      exactly while it is resolving. */
  lemma PickedExactly(s: System, winner: nat)
    ensures var w := Worker(s.row.outcome, s.hasSeedOrders, Resolve(winner));
            Step(s, StartResolve(winner)) == if s.row.status == ACTIVE then s.(workers := s.workers + [w]) else s
    ensures var w := Worker(s.row.outcome, s.hasSeedOrders, Finalize);
            Step(s, StartFinalize) == if s.row.status == RESOLVING then s.(workers := s.workers + [w]) else s
  {
  }

  /** A submission changes the chain exactly if it reaches it in the right status. It is saved
      exactly if it was seen to land, and the account is read exactly if it was rejected. */
  lemma SubmittedExactly(s: System, id: nat, reached: bool, confirmed: bool)
    requires id < |s.workers| && (s.workers[id].phase.Resolve? || s.workers[id].phase.Finalize?)
    ensures var phase, s' := s.workers[id].phase, Step(s, Submit(id, reached, confirmed));
            var resolving, phase' := phase.Resolve?, s'.workers[id].phase;
            var lands := reached && s.chain.present
                         && if resolving then s.chain.status == ACTIVE && s.chain.outcome.None?
                            else ACTIVE < s.chain.status < FINALIZED;
            && s'.row == s.row && s'.recoveries == s.recoveries
            && s'.chain.status == (if !lands then s.chain.status else if resolving then RESOLVING else FINALIZED)
            && s'.chain.outcome == (if lands && resolving then Some(phase.winner) else s.chain.outcome)
            && (phase'.SaveResolved? || phase'.SaveFinalized? <==> lands && confirmed)
            && (phase' == Fetch(resolving) <==> reached && !lands)
            && (phase' == Stopped <==> !reached || (lands && !confirmed))
  {
  }

  // ------------------------------------------------------------------- catching up

  predicate Names(e: Event, id: nat) {
    (e.Submit? || e.FetchState? || e.Save? || e.Stop?) && e.id == id
  }

  lemma StepLeavesOthers(s: System, e: Event, id: nat)
    requires id < |s.workers| && !Names(e, id)
    ensures id < |Step(s, e).workers| && Step(s, e).workers[id] == s.workers[id]
  {
  }

  /** What happens elsewhere leaves a waiting worker as it is. */
  lemma {:induction false} WorkerWaits(events: seq<Event>, more: seq<Event>, id: nat)
    requires id < |Run(events).workers|
    requires forall k :: 0 <= k < |more| ==> !Names(more[k], id)
    ensures var s := Run(events + more); id < |s.workers| && s.workers[id] == Run(events).workers[id]
  {
    if more == [] {
      assert events + more == events;
    } else {
      var n := |more| - 1;
      WorkerWaits(events, more[..n], id);
      assert events + more == events + more[..n] + [more[n]];
      RunOfLonger(events + more[..n], more[n]);
      StepLeavesOthers(Run(events + more[..n]), more[n], id);
    }
  }

  /** A resolution that is confirmed and saved before the chain moves on, whatever else
      happens in between, leaves the row where the chain is. */
  lemma ConfirmedResolveCatchesUp(events: seq<Event>, id: nat, winner: nat, more: seq<Event>, now: nat)
    requires id < |Run(events).workers| && Run(events).workers[id].phase == Resolve(winner)
    requires var c := Run(events).chain; c.present && c.status == ACTIVE && c.outcome.None?
    requires forall k :: 0 <= k < |more| ==> !Names(more[k], id)
    requires Run(events + [Submit(id, true, true)] + more).chain == Run(events + [Submit(id, true, true)]).chain
    ensures var s := Run(events + [Submit(id, true, true)] + more + [Save(id, now)]);
            && s.chain.status == s.row.status == RESOLVING
            && s.chain.outcome == s.row.outcome == Some(winner)
            && s.row.resolvedAt == Some(now)
  {
    RunOfLonger(events, Submit(id, true, true));
    WorkerWaits(events + [Submit(id, true, true)], more, id);
    RunOfLonger(events + [Submit(id, true, true)] + more, Save(id, now));
  }

  lemma SaveFinalizes(s: System, id: nat, now: nat)
    requires id < |s.workers| && s.workers[id].phase == SaveFinalized && Knows(s.chain, s.row.outcome)
    ensures var s' := Step(s, Save(id, now));
            && s'.chain == s.chain && s'.row == s.row.(status := FINALIZED)
            && (s'.row.outcome == s.chain.outcome <==> s.row.outcome.Some? || s.chain.outcome.None?)
            && s'.recoveries == s.recoveries + if s.workers[id].hasSeedOrders then [s.workers[id].known] else []
  {
  }

  /** The same for a finalization, which leaves the row's outcome alone: it is the chain's
      exactly when the row had one or the chain has none. Recovery is launched exactly with
      seed orders. */
  lemma ConfirmedFinalizeCatchesUp(events: seq<Event>, id: nat, more: seq<Event>, now: nat)
    requires id < |Run(events).workers| && Run(events).workers[id].phase == Finalize
    requires var c := Run(events).chain; c.present && ACTIVE < c.status < FINALIZED
    requires forall k :: 0 <= k < |more| ==> !Names(more[k], id)
    requires Run(events + [Submit(id, true, true)] + more).chain == Run(events + [Submit(id, true, true)]).chain
    requires ReadsSucceed(events + [Submit(id, true, true)] + more)
    ensures var s0, s := Run(events + [Submit(id, true, true)] + more),
                         Run(events + [Submit(id, true, true)] + more + [Save(id, now)]);
            && s.chain == s0.chain && s.chain.status == s.row.status == FINALIZED
            && (s.row.outcome == s.chain.outcome <==> s0.row.outcome.Some? || s0.chain.outcome.None?)
            && s.recoveries == s0.recoveries
                               + if Run(events).workers[id].hasSeedOrders then [Run(events).workers[id].known] else []
  {
    RunOfLonger(events, Submit(id, true, true));
    WorkerWaits(events + [Submit(id, true, true)], more, id);
    RunsKeepInv(events + [Submit(id, true, true)] + more);
    RunOfLonger(events + [Submit(id, true, true)] + more, Save(id, now));
    SaveFinalizes(Run(events + [Submit(id, true, true)] + more), id, now);
  }

  lemma SaveHeals(s: System, id: nat, resolving: bool, now: nat)
    requires id < |s.workers| && Knows(s.chain, s.row.outcome)
    requires s.workers[id].phase == SaveReconciled(resolving, Some(OnChain(s.chain.status, s.chain.outcome)))
    ensures var s' := Step(s, Save(id, now));
            var launches := !resolving && s.workers[id].hasSeedOrders && s.chain.status == FINALIZED
                            && s.chain.outcome.Some?;
            && s'.chain == s.chain && s'.row.status == s.chain.status && s'.row.outcome == s.chain.outcome
            && s'.recoveries == s.recoveries + if launches then [s.chain.outcome] else []
  {
  }

  /** A rejected worker that reads the account and saves before the chain moves on heals the
      row: status and outcome are the chain's. The healing of a finalization launches
      recovery exactly for a finalized market with an outcome and seed orders. */
  lemma ReconcileCatchesUp(events: seq<Event>, id: nat, more: seq<Event>, now: nat)
    requires id < |Run(events).workers| && Run(events).workers[id].phase.Fetch? && Run(events).chain.present
    requires forall k :: 0 <= k < |more| ==> !Names(more[k], id)
    requires Run(events + [FetchState(id, true)] + more).chain == Run(events).chain
    requires ReadsSucceed(events + [FetchState(id, true)] + more)
    ensures var s0, s := Run(events + [FetchState(id, true)] + more),
                         Run(events + [FetchState(id, true)] + more + [Save(id, now)]);
            var w := Run(events).workers[id];
            var launches := !w.phase.resolving && w.hasSeedOrders && s.chain.status == FINALIZED
                            && s.chain.outcome.Some?;
            && s.chain == s0.chain && s.row.status == s.chain.status && s.row.outcome == s.chain.outcome
            && s.recoveries == s0.recoveries + if launches then [s.chain.outcome] else []
  {
    RunOfLonger(events, FetchState(id, true));
    WorkerWaits(events + [FetchState(id, true)], more, id);
    RunsKeepInv(events + [FetchState(id, true)] + more);
    RunOfLonger(events + [FetchState(id, true)] + more, Save(id, now));
    SaveHeals(Run(events + [FetchState(id, true)] + more), id, Run(events).workers[id].phase.resolving, now);
  }

  lemma UndisturbedResolve(s: System, winner: nat, now: nat)
    requires s.row.status == ACTIVE && s.chain.present && s.chain.status == ACTIVE && s.chain.outcome.None?
    ensures var n := |s.workers|;
            var s' := Step(Step(Step(s, StartResolve(winner)), Submit(n, true, true)), Save(n, now));
            && s'.chain == s.chain.(status := RESOLVING, outcome := Some(winner))
            && s'.row == Row(RESOLVING, Some(winner), Some(now))
            && |s'.workers| == n + 1
            && s'.hasSeedOrders == s.hasSeedOrders && s'.recoveries == s.recoveries
  {
  }

  lemma UndisturbedFinalize(s: System, now: nat)
    requires s.row.status == RESOLVING && s.chain.present && ACTIVE < s.chain.status < FINALIZED
    ensures var n := |s.workers|;
            var s' := Step(Step(Step(s, StartFinalize), Submit(n, true, true)), Save(n, now));
            && s'.chain == s.chain.(status := FINALIZED, everFinalized := true)
            && s'.row == s.row.(status := FINALIZED)
            && s'.recoveries == s.recoveries + if s.hasSeedOrders then [s.row.outcome] else []
  {
  }

  /** A market that is active on both sides and left undisturbed: one resolution and one
      finalization end with both sides finalized for the winner, and recovery is launched
      exactly with seed orders. */
  lemma FullResolution(s: System, winner: nat, now: nat, later: nat)
    requires s.row.status == ACTIVE && s.chain.present && s.chain.status == ACTIVE && s.chain.outcome.None?
    ensures var n := |s.workers|;
            var mid := Step(Step(Step(s, StartResolve(winner)), Submit(n, true, true)), Save(n, now));
            var s' := Step(Step(Step(mid, StartFinalize), Submit(n + 1, true, true)), Save(n + 1, later));
            && s'.chain.status == s'.row.status == FINALIZED
            && s'.chain.outcome == s'.row.outcome == Some(winner)
            && s'.row.resolvedAt == Some(now)
            && s'.recoveries == s.recoveries + if s.hasSeedOrders then [Some(winner)] else []
  {
    var n := |s.workers|;
    UndisturbedResolve(s, winner, now);
    UndisturbedFinalize(Step(Step(Step(s, StartResolve(winner)), Submit(n, true, true)), Save(n, now)), later);
  }

  /** One failed read is enough: the save that follows it marks a live market invalid. */
  lemma FailedReadInvalidates(s: System, id: nat, now: nat)
    requires id < |s.workers| && s.workers[id].phase.Fetch? && s.chain.present && s.chain.status < INVALID
    ensures var s' := Step(Step(s, FetchState(id, false)), Save(id, now));
            s'.chain == s.chain && s'.row.status == INVALID && s'.row.status > Progress(s'.chain)
  {
  }

  lemma RunOfLonger(events: seq<Event>, e: Event)
    ensures Run(events + [e]) == Step(Run(events), e)
  {
    AppendInit(events, e);
  }

  const TOO_LATE := [StartResolve(0), ChainMoves(RESOLVING, Some(1)), Submit(0, true, true)]

  lemma ReachFetch()
    ensures Run(TOO_LATE) == System(Chain(true, RESOLVING, Some(1), false), Row(ACTIVE, None, None), false,
                                    [Worker(None, false, Fetch(true))], [])
  {
    var es := [StartResolve(0)];
    RunOfLonger([], StartResolve(0));
    RunOfLonger(es, ChainMoves(RESOLVING, Some(1)));
    RunOfLonger(es + [ChainMoves(RESOLVING, Some(1))], Submit(0, true, true));
    assert [] + es == es;
    assert es + [ChainMoves(RESOLVING, Some(1))] + [Submit(0, true, true)] == TOO_LATE;
  }

  /** And a run gets there: somebody else resolves the market first, the submission is
      rejected, and the read that should heal the row fails. The market is being resolved on
      chain and invalid in the database. */
  lemma FailedReadIsReached() returns (events: seq<Event>)
    ensures var s := Run(events);
            s.chain.present && s.chain.status == RESOLVING && s.row.status == INVALID
  {
    ReachFetch();
    events := TOO_LATE + [FetchState(0, false)] + [Save(0, 7)];
    RunOfLonger(TOO_LATE, FetchState(0, false));
    RunOfLonger(TOO_LATE + [FetchState(0, false)], Save(0, 7));
    FailedReadInvalidates(Run(TOO_LATE), 0, 7);
  }
}
