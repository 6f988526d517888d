/** The replica-migration state machine, one probe at a time. */
module Migration {
  import opened Common

  const MAX_U32: nat := 0xFFFF_FFFF

  datatype Stage =
    | AddingLearner
    | WaitingLearner
    | CatchingUp
    | WaitingVoter
    | StabilizingVoter
    | WaitingTargetLeader
    | WaitingSourceRemoval

  datatype MemberRole = Voter | Learner

  datatype MigrationError =
    | Cancelled | Timeout | GroupNotFound | Terminal | ShuttingDown | Conflict | ProbeFailed | ProposalFailed

  /** What the group reports about itself and the two replicas. */
  datatype Probe = Probe(
    leads: bool,
    leaderId: U64,
    commitIndex: U64,
    pendingConfChange: bool,
    jointConfiguration: bool,
    sourceRole: Option<MemberRole>,
    targetRole: Option<MemberRole>,
    targetAddressMatches: bool,
    targetMatched: U64,
    targetRecentActive: bool)

  /** How the group answers: it may be gone, failing or stopping, and the probe itself may fail. */
  datatype GroupAnswer = Missing | Dead | Stopping | Unreadable | Answer(probe: Probe)

  /** A proposal handed to the group is taken, dropped (to be retried), or refused for good. */
  datatype ProposalResult = Taken | Dropped | Refused

  /** Everything outside the migration that one step depends on; nothing ties it to earlier steps. */
  datatype Input = Input(
    cancelRequested: bool,
    advanceClock: bool,
    now: U64,
    group: GroupAnswer,
    proposal: ProposalResult,
    forwarding: bool)

  datatype StepResult = Idle | Worked | Completed(error: Option<MigrationError>)

  /** What a step asked the group to do. */
  datatype Call = AddLearner | Promote | TransferLeader | RemoveSource

  datatype Params = Params(hostId: U64, source: U64, target: U64, timeoutTicks: U64, required: nat, startTick: U64)

  datatype State = State(stage: Stage, stableTicks: nat, sourceRemovalSubmitted: bool)

  const START := State(AddingLearner, 0, false)

  datatype Outcome = Outcome(state: State, result: StepResult, call: Option<Call>)

  predicate CaughtUp(p: Probe) { p.targetRecentActive && p.targetMatched >= p.commitIndex }

  class Replica {
    const params: Params
    var stage: Stage
    var stableTicks: nat
    var sourceRemovalSubmitted: bool

    ghost function View(): State
      reads this
    {
      State(stage, stableTicks, sourceRemovalSubmitted)
    }

    constructor (params: Params)
      ensures this.params == params && View() == START
    {
      this.params := params;
      stage, stableTicks, sourceRemovalSubmitted := AddingLearner, 0, false;
    }

    /** One more observation; the gate opens after enough of them without a lapse. */
    method ObserveCatchUp(p: Probe, advanceClock: bool) returns (open: bool)
      modifies this`stableTicks
      ensures stableTicks == Observed(old(stableTicks), p, advanceClock)
      ensures open == GateOpen(params, old(stableTicks), p, advanceClock)
      ensures open <==> p.targetRecentActive && p.targetMatched >= p.commitIndex && stableTicks >= params.required
      ensures !p.targetRecentActive || p.targetMatched < p.commitIndex ==> stableTicks == 0
      ensures p.targetRecentActive && p.targetMatched >= p.commitIndex && old(stableTicks) < MAX_U32 ==>
        stableTicks == old(stableTicks) + if advanceClock then 1 else 0
    {
      if !p.targetRecentActive || p.targetMatched < p.commitIndex {
        stableTicks := 0;
        return false;
      }
      var stable := stableTicks;
      if advanceClock && stable < MAX_U32 {
        stable := stable + 1;
        stableTicks := stable;
      }
      return stable >= params.required;
    }

    method Advance(s: Stage) returns (r: StepResult)
      modifies this`stage, this`stableTicks
      ensures stage == s && stableTicks == 0 && r == Worked
    {
      stage, stableTicks := s, 0;
      return Worked;
    }

    method Step(i: Input) returns (r: StepResult, call: Option<Call>)
      modifies this
      ensures Outcome(View(), r, call) == StepOf(params, old(View()), i)
      ensures Behaves(params, old(View()), i, Outcome(View(), r, call))
    {
      StepBehaves(params, View(), i);
      hide Behaves;
      call := None;
      if i.cancelRequested { return Completed(Some(Cancelled)), None; }
      if i.advanceClock && Max(i.now - params.startTick, 0) >= params.timeoutTicks {
        return Completed(Some(Timeout)), None;
      }
      match i.group
      case Missing => return Completed(Some(GroupNotFound)), None;
      case Dead => return Completed(Some(Terminal)), None;
      case Stopping => return Completed(Some(ShuttingDown)), None;
      case Unreadable => return Completed(Some(ProbeFailed)), None;
      case Answer(p) =>
        if p.targetRole.Some? && !p.targetAddressMatches { return Completed(Some(Conflict)), None; }
        if p.sourceRole.None? {
          if p.targetRole == Some(Voter) && p.targetAddressMatches { return Completed(None), None; }
          return Completed(Some(Conflict)), None;
        }
        if p.sourceRole != Some(Voter) { return Completed(Some(Conflict)), None; }
        if p.jointConfiguration { return Idle, None; }
        if stage == WaitingTargetLeader {
          r, call := WaitTargetLeader(i, p);
          return;
        }
        if stage == WaitingSourceRemoval && !p.leads {
          r, call := WaitSourceRemoval(i, p);
          return;
        }
        if !p.leads {
          stableTicks := 0;
          return Idle, None;
        }
        r, call := StepLeading(i, p);
    }

    method StepLeading(i: Input, p: Probe) returns (r: StepResult, call: Option<Call>)
      requires stage != WaitingTargetLeader
      modifies this
      ensures Outcome(View(), r, call) == StepLeadingOf(params, old(View()), i, p)
    {
      call := None;
      match stage
      case AddingLearner => r, call := AddTheLearner(i, p);
      case WaitingLearner =>
        if p.targetRole.None? {
          if !p.pendingConfChange { stage := AddingLearner; }
          return Idle, None;
        }
        r := Advance(if p.targetRole.value == Learner then CatchingUp else StabilizingVoter);
      case CatchingUp => r, call := CatchUpLearner(i, p);
      case WaitingVoter =>
        if p.targetRole.None? { return Completed(Some(Conflict)), None; }
        if p.targetRole.value == Voter {
          r := Advance(StabilizingVoter);
        } else if p.pendingConfChange {
          r := Idle;
        } else {
          r := Advance(CatchingUp);
        }
      case StabilizingVoter => r, call := StabilizeVoter(i, p);
      case WaitingSourceRemoval => r, call := WaitSourceRemoval(i, p);
    }

    method AddTheLearner(i: Input, p: Probe) returns (r: StepResult, call: Option<Call>)
      modifies this`stage, this`stableTicks
      ensures Outcome(View(), r, call) == AddLearnerOf(old(View()), i, p)
    {
      call := None;
      if p.targetRole.Some? {
        r := Advance(if p.targetRole.value == Learner then CatchingUp else StabilizingVoter);
        return;
      }
      if p.pendingConfChange { return Idle, None; }
      if i.proposal == Dropped { return Idle, Some(AddLearner); }
      if i.proposal == Refused { return Completed(Some(ProposalFailed)), Some(AddLearner); }
      stage, stableTicks := WaitingLearner, 0;
      return Worked, Some(AddLearner);
    }

    method CatchUpLearner(i: Input, p: Probe) returns (r: StepResult, call: Option<Call>)
      modifies this`stage, this`stableTicks
      ensures Outcome(View(), r, call) == CatchUpOf(params, old(View()), i, p)
    {
      call := None;
      if p.targetRole == Some(Voter) {
        r := Advance(StabilizingVoter);
        return;
      }
      if p.targetRole != Some(Learner) { return Completed(Some(Conflict)), None; }
      if p.pendingConfChange { return Idle, None; }
      var open := ObserveCatchUp(p, i.advanceClock);
      if !open { return Idle, None; }
      if i.proposal == Dropped { return Idle, Some(Promote); }
      if i.proposal == Refused { return Completed(Some(ProposalFailed)), Some(Promote); }
      stage, stableTicks := WaitingVoter, 0;
      return Worked, Some(Promote);
    }

    method StabilizeVoter(i: Input, p: Probe) returns (r: StepResult, call: Option<Call>)
      modifies this
      ensures Outcome(View(), r, call) == StabilizeOf(params, old(View()), i, p)
      ensures var seen := p.targetRole == Some(Voter) && !p.pendingConfChange
          && GateOpen(params, old(stableTicks), p, i.advanceClock);
        var handsOver := params.source == params.hostId == p.leaderId && i.forwarding;
        && (call == Some(TransferLeader) <==> seen && handsOver)
        && (call == Some(RemoveSource) <==> seen && !handsOver && (p.leads || i.forwarding))
        && (call.Some? ==> call.value == TransferLeader || call.value == RemoveSource)
        && (call == Some(TransferLeader) && i.proposal == Taken ==> stage == WaitingTargetLeader)
        && (call == Some(RemoveSource) && i.proposal == Taken ==> stage == WaitingSourceRemoval)
    {
      if p.targetRole != Some(Voter) { return Completed(Some(Conflict)), None; }
      if p.pendingConfChange { return Idle, None; }
      var open := ObserveCatchUp(p, i.advanceClock);
      if !open { return Idle, None; }
      if params.source == params.hostId && p.leaderId == params.source && i.forwarding {
        if i.proposal == Dropped { return Idle, Some(TransferLeader); }
        if i.proposal == Refused { return Completed(Some(ProposalFailed)), Some(TransferLeader); }
        stage, stableTicks := WaitingTargetLeader, 0;
        return Worked, Some(TransferLeader);
      }
      r, call := SubmitSourceRemoval(i, p);
    }

    method WaitTargetLeader(i: Input, p: Probe) returns (r: StepResult, call: Option<Call>)
      modifies this
      ensures Outcome(View(), r, call) == WaitLeaderOf(params, old(View()), i, p)
    {
      if p.targetRole != Some(Voter) { return Completed(Some(Conflict)), None; }
      if p.pendingConfChange { return Idle, None; }
      if p.leaderId == params.target {
        r, call := SubmitSourceRemoval(i, p);
        return;
      }
      if !p.leads { return Idle, None; }
      if i.proposal == Dropped { return Idle, Some(TransferLeader); }
      if i.proposal == Refused { return Completed(Some(ProposalFailed)), Some(TransferLeader); }
      return Worked, Some(TransferLeader);
    }

    method WaitSourceRemoval(i: Input, p: Probe) returns (r: StepResult, call: Option<Call>)
      modifies this
      ensures Outcome(View(), r, call) == WaitRemovalOf(old(View()), i, p)
    {
      if p.sourceRole.None? { return Completed(None), None; }
      if p.targetRole != Some(Voter) { return Completed(Some(Conflict)), None; }
      if p.pendingConfChange { return Idle, None; }
      if sourceRemovalSubmitted && !p.leads { return Idle, None; }
      r, call := SubmitSourceRemoval(i, p);
    }

    method SubmitSourceRemoval(i: Input, p: Probe) returns (r: StepResult, call: Option<Call>)
      modifies this
      ensures Outcome(View(), r, call) == RemoveSourceOf(old(View()), i, p)
    {
      if !p.leads && !i.forwarding { return Idle, None; }
      if i.proposal == Dropped { return Idle, Some(RemoveSource); }
      if i.proposal == Refused { return Completed(Some(ProposalFailed)), Some(RemoveSource); }
      sourceRemovalSubmitted := true;
      stage, stableTicks := WaitingSourceRemoval, 0;
      return Worked, Some(RemoveSource);
    }
  }

  // ----- The step as a function of the probe ---------------------------------------------------

  function Observed(stable: nat, p: Probe, advanceClock: bool): nat {
    if !CaughtUp(p) then 0 else if advanceClock && stable < MAX_U32 then stable + 1 else stable
  }

  predicate GateOpen(k: Params, stable: nat, p: Probe, advanceClock: bool) {
    CaughtUp(p) && Observed(stable, p, advanceClock) >= k.required
  }

  function To(s: State, stage: Stage): State { s.(stage := stage, stableTicks := 0) }

  /** A proposal moves on when taken, is retried when dropped, and ends the migration when refused. */
  function Propose(s: State, i: Input, call: Call, next: State): Outcome {
    match i.proposal
    case Taken => Outcome(next, Worked, Some(call))
    case Dropped => Outcome(s, Idle, Some(call))
    case Refused => Outcome(s, Completed(Some(ProposalFailed)), Some(call))
  }

  function Fail(s: State, e: MigrationError): Outcome { Outcome(s, Completed(Some(e)), None) }

  function RemoveSourceOf(s: State, i: Input, p: Probe): Outcome {
    if !p.leads && !i.forwarding then Outcome(s, Idle, None)
    else Propose(s, i, RemoveSource, State(WaitingSourceRemoval, 0, true))
  }

  function AddLearnerOf(s: State, i: Input, p: Probe): Outcome {
    match p.targetRole
    case Some(Learner) => Outcome(To(s, CatchingUp), Worked, None)
    case Some(Voter) => Outcome(To(s, StabilizingVoter), Worked, None)
    case None =>
      if p.pendingConfChange then Outcome(s, Idle, None) else Propose(s, i, AddLearner, To(s, WaitingLearner))
  }

  function CatchUpOf(k: Params, s: State, i: Input, p: Probe): Outcome {
    if p.targetRole == Some(Voter) then Outcome(To(s, StabilizingVoter), Worked, None)
    else if p.targetRole != Some(Learner) then Fail(s, Conflict)
    else if p.pendingConfChange then Outcome(s, Idle, None)
    else
      var seen := s.(stableTicks := Observed(s.stableTicks, p, i.advanceClock));
      if GateOpen(k, s.stableTicks, p, i.advanceClock) then Propose(seen, i, Promote, To(s, WaitingVoter))
      else Outcome(seen, Idle, None)
  }

  function StabilizeOf(k: Params, s: State, i: Input, p: Probe): Outcome {
    if p.targetRole != Some(Voter) then Fail(s, Conflict)
    else if p.pendingConfChange then Outcome(s, Idle, None)
    else
      var seen := s.(stableTicks := Observed(s.stableTicks, p, i.advanceClock));
      if !GateOpen(k, s.stableTicks, p, i.advanceClock) then Outcome(seen, Idle, None)
      else if k.source == k.hostId && p.leaderId == k.source && i.forwarding then
        Propose(seen, i, TransferLeader, To(s, WaitingTargetLeader))
      else RemoveSourceOf(seen, i, p)
  }

  function WaitLeaderOf(k: Params, s: State, i: Input, p: Probe): Outcome {
    if p.targetRole != Some(Voter) then Fail(s, Conflict)
    else if p.pendingConfChange then Outcome(s, Idle, None)
    else if p.leaderId == k.target then RemoveSourceOf(s, i, p)
    else if !p.leads then Outcome(s, Idle, None)
    else Propose(s, i, TransferLeader, s)
  }

  function WaitRemovalOf(s: State, i: Input, p: Probe): Outcome {
    if p.sourceRole == None then Outcome(s, Completed(None), None)
    else if p.targetRole != Some(Voter) then Fail(s, Conflict)
    else if p.pendingConfChange || (s.sourceRemovalSubmitted && !p.leads) then Outcome(s, Idle, None)
    else RemoveSourceOf(s, i, p)
  }

  function StepLeadingOf(k: Params, s: State, i: Input, p: Probe): Outcome
    requires s.stage != WaitingTargetLeader
  {
    match s.stage
    case AddingLearner => AddLearnerOf(s, i, p)
    case WaitingLearner =>
      (match p.targetRole
       case None => Outcome(if p.pendingConfChange then s else s.(stage := AddingLearner), Idle, None)
       case Some(Learner) => Outcome(To(s, CatchingUp), Worked, None)
       case Some(Voter) => Outcome(To(s, StabilizingVoter), Worked, None))
    case CatchingUp => CatchUpOf(k, s, i, p)
    case WaitingVoter =>
      (match p.targetRole
       case None => Fail(s, Conflict)
       case Some(Voter) => Outcome(To(s, StabilizingVoter), Worked, None)
       case Some(Learner) =>
         if p.pendingConfChange then Outcome(s, Idle, None) else Outcome(To(s, CatchingUp), Worked, None))
    case StabilizingVoter => StabilizeOf(k, s, i, p)
    case WaitingSourceRemoval => WaitRemovalOf(s, i, p)
  }

  function StepOf(k: Params, s: State, i: Input): Outcome {
    if i.cancelRequested then Fail(s, Cancelled)
    else if i.advanceClock && Max(i.now - k.startTick, 0) >= k.timeoutTicks then Fail(s, Timeout)
    else match i.group
      case Missing => Fail(s, GroupNotFound)
      case Dead => Fail(s, Terminal)
      case Stopping => Fail(s, ShuttingDown)
      case Unreadable => Fail(s, ProbeFailed)
      case Answer(p) =>
        if p.targetRole.Some? && !p.targetAddressMatches then Fail(s, Conflict)
        else if p.sourceRole == None then
          if p.targetRole == Some(Voter) then Outcome(s, Completed(None), None) else Fail(s, Conflict)
        else if p.sourceRole != Some(Voter) then Fail(s, Conflict)
        else if p.jointConfiguration then Outcome(s, Idle, None)
        else if s.stage == WaitingTargetLeader then WaitLeaderOf(k, s, i, p)
        else if s.stage == WaitingSourceRemoval && !p.leads then WaitRemovalOf(s, i, p)
        else if !p.leads then Outcome(s.(stableTicks := 0), Idle, None)
        else StepLeadingOf(k, s, i, p)
  }

  // ----- When each thing happens, told by the probe alone --------------------------------------

  ghost predicate TimedOut(k: Params, i: Input) {
    i.advanceClock && (i.now >= k.startTick + k.timeoutTicks || k.timeoutTicks == 0)
  }

  /** The migration is neither cancelled nor out of time, and its group answers. */
  ghost predicate Answered(k: Params, i: Input) { !i.cancelRequested && !TimedOut(k, i) && i.group.Answer? }

  /** And the answer lets it go on: the source votes, and a target that is a member has the requested address. */
  ghost predicate GoesOn(k: Params, i: Input) {
    && Answered(k, i) && i.group.probe.sourceRole == Some(Voter) && !i.group.probe.jointConfiguration
    && (i.group.probe.targetRole != None ==> i.group.probe.targetAddressMatches)
  }

  ghost predicate LeaderGoesOn(k: Params, i: Input) { GoesOn(k, i) && i.group.probe.leads }

  /** With this observation the target has been seen caught up often enough. */
  ghost predicate SeenEnough(k: Params, s: State, i: Input)
    requires i.group.Answer?
  {
    && i.group.probe.targetRecentActive && i.group.probe.targetMatched >= i.group.probe.commitIndex
    && (s.stableTicks >= k.required || (i.advanceClock && s.stableTicks < MAX_U32 && s.stableTicks + 1 >= k.required))
  }

  /** The source is this very host, it leads, and requests of others would reach the next leader. */
  ghost predicate HandsOver(k: Params, i: Input)
    requires i.group.Answer?
  {
    k.source == k.hostId && i.group.probe.leaderId == k.source && i.forwarding
  }

  ghost predicate VoterSettled(k: Params, i: Input) {
    GoesOn(k, i) && i.group.probe.targetRole == Some(Voter) && !i.group.probe.pendingConfChange
  }

  /** When the step asks the group for each thing it can ask for. */
  ghost predicate Asks(k: Params, s: State, i: Input, call: Call) {
    match call
    case AddLearner =>
      && LeaderGoesOn(k, i) && s.stage == AddingLearner
      && i.group.probe.targetRole == None && !i.group.probe.pendingConfChange
    case Promote =>
      && LeaderGoesOn(k, i) && s.stage == CatchingUp
      && i.group.probe.targetRole == Some(Learner) && !i.group.probe.pendingConfChange && SeenEnough(k, s, i)
    case TransferLeader =>
      && VoterSettled(k, i) && i.group.probe.leads
      && ((s.stage == StabilizingVoter && SeenEnough(k, s, i) && HandsOver(k, i))
          || (s.stage == WaitingTargetLeader && i.group.probe.leaderId != k.target))
    case RemoveSource =>
      && VoterSettled(k, i) && (i.group.probe.leads || i.forwarding)
      && ((s.stage == StabilizingVoter && i.group.probe.leads && SeenEnough(k, s, i) && !HandsOver(k, i))
          || (s.stage == WaitingTargetLeader && i.group.probe.leaderId == k.target)
          || (s.stage == WaitingSourceRemoval && (i.group.probe.leads || !s.sourceRemovalSubmitted)))
  }

  lemma CallsExactly(k: Params, s: State, i: Input, call: Call)
    ensures StepOf(k, s, i).call == Some(call) <==> Asks(k, s, i, call)
  {
  }

  /** When the step changes to another stage: a request is taken, or the target's role already says so. */
  ghost predicate MovesTo(k: Params, s: State, i: Input, to: Stage) {
    match to
    case AddingLearner =>
      && LeaderGoesOn(k, i) && s.stage == WaitingLearner
      && i.group.probe.targetRole == None && !i.group.probe.pendingConfChange
    case WaitingLearner => Asks(k, s, i, AddLearner) && i.proposal == Taken
    case CatchingUp =>
      && LeaderGoesOn(k, i) && i.group.probe.targetRole == Some(Learner)
      && (s.stage in {AddingLearner, WaitingLearner} || (s.stage == WaitingVoter && !i.group.probe.pendingConfChange))
    case WaitingVoter => Asks(k, s, i, Promote) && i.proposal == Taken
    case StabilizingVoter =>
      && LeaderGoesOn(k, i) && i.group.probe.targetRole == Some(Voter)
      && s.stage in {AddingLearner, WaitingLearner, CatchingUp, WaitingVoter}
    case WaitingTargetLeader => Asks(k, s, i, TransferLeader) && i.proposal == Taken
    case WaitingSourceRemoval => Asks(k, s, i, RemoveSource) && i.proposal == Taken
  }

  lemma MovesExactly(k: Params, s: State, i: Input, to: Stage)
    requires to != s.stage
    ensures StepOf(k, s, i).state.stage == to <==> MovesTo(k, s, i, to)
    ensures StepOf(k, s, i).state.sourceRemovalSubmitted
      <==> s.sourceRemovalSubmitted || (Asks(k, s, i, RemoveSource) && i.proposal == Taken)
  {
    CallsExactly(k, s, i, RemoveSource);
  }

  /** The leader looks whether the target has caught up. */
  ghost predicate Watches(k: Params, s: State, i: Input) {
    && LeaderGoesOn(k, i) && !i.group.probe.pendingConfChange
    && ((s.stage == CatchingUp && i.group.probe.targetRole == Some(Learner))
        || (s.stage == StabilizingVoter && i.group.probe.targetRole == Some(Voter)))
  }

  /** A step that stays counts a tick of the clock, or starts over, only when it watches; so does losing the lead. */
  lemma TicksExactly(k: Params, s: State, i: Input)
    requires StepOf(k, s, i).state.stage == s.stage
    ensures StepOf(k, s, i).state.stableTicks ==
      if Watches(k, s, i) then
        if !i.group.probe.targetRecentActive || i.group.probe.targetMatched < i.group.probe.commitIndex then 0
        else if i.advanceClock && s.stableTicks < MAX_U32 then s.stableTicks + 1 else s.stableTicks
      else if Asks(k, s, i, RemoveSource) && i.proposal == Taken then 0
      else if GoesOn(k, i) && !i.group.probe.leads && s.stage !in {WaitingTargetLeader, WaitingSourceRemoval} then 0
      else s.stableTicks
  {
    CallsExactly(k, s, i, RemoveSource);
  }

  /** A step that moves starts the count over, but for going back to add the learner once more. */
  lemma MovingStartsOver(k: Params, s: State, i: Input)
    requires StepOf(k, s, i).state.stage != s.stage
    ensures var t := StepOf(k, s, i).state; t.stableTicks == if t.stage == AddingLearner then s.stableTicks else 0
  {
  }

  /** The membership the group reports cannot be what this migration led to. */
  ghost predicate Contradicts(k: Params, s: State, i: Input) {
    && Answered(k, i)
    && ((i.group.probe.targetRole != None && !i.group.probe.targetAddressMatches)
        || (i.group.probe.sourceRole == None && i.group.probe.targetRole != Some(Voter))
        || i.group.probe.sourceRole == Some(Learner)
        || (GoesOn(k, i) && s.stage in {WaitingTargetLeader, WaitingSourceRemoval}
            && i.group.probe.targetRole != Some(Voter))
        || (LeaderGoesOn(k, i) && s.stage == StabilizingVoter && i.group.probe.targetRole != Some(Voter))
        || (LeaderGoesOn(k, i) && s.stage in {CatchingUp, WaitingVoter} && i.group.probe.targetRole == None))
  }

  /** How and when a migration ends; cancellation and time-out come first, then the group's own state. */
  ghost predicate Ends(k: Params, s: State, i: Input, e: Option<MigrationError>) {
    match e
    case Some(Cancelled) => i.cancelRequested
    case Some(Timeout) => !i.cancelRequested && TimedOut(k, i)
    case Some(GroupNotFound) => !i.cancelRequested && !TimedOut(k, i) && i.group == Missing
    case Some(Terminal) => !i.cancelRequested && !TimedOut(k, i) && i.group == Dead
    case Some(ShuttingDown) => !i.cancelRequested && !TimedOut(k, i) && i.group == Stopping
    case Some(ProbeFailed) => !i.cancelRequested && !TimedOut(k, i) && i.group == Unreadable
    case Some(Conflict) => Contradicts(k, s, i)
    case Some(ProposalFailed) => i.proposal == Refused && exists call :: Asks(k, s, i, call)
    case None =>
      && Answered(k, i) && i.group.probe.sourceRole == None
      && i.group.probe.targetRole == Some(Voter) && i.group.probe.targetAddressMatches
  }

  lemma EndsExactly(k: Params, s: State, i: Input, e: Option<MigrationError>)
    ensures StepOf(k, s, i).result == Completed(e) <==> Ends(k, s, i, e)
  {
    if i.group.Answer? {
      var target, source := i.group.probe.targetRole, i.group.probe.sourceRole;
      assert target.Some? ==> target.value == Voter || target.value == Learner;
      assert source.Some? ==> source.value == Voter || source.value == Learner;
    }
    if e == Some(ProposalFailed) {
      forall call ensures StepOf(k, s, i).call == Some(call) <==> Asks(k, s, i, call) { CallsExactly(k, s, i, call); }
      RefusedEnds(k, s, i);
      hide Asks, StepOf;
      if StepOf(k, s, i).call.Some? { assert Asks(k, s, i, StepOf(k, s, i).call.value); }
    }
  }

  lemma RefusedEnds(k: Params, s: State, i: Input)
    ensures StepOf(k, s, i).result == Completed(Some(ProposalFailed))
      <==> StepOf(k, s, i).call.Some? && i.proposal == Refused
  {
  }

  /** It has worked exactly when a request was taken or the target's role let it move on. */
  lemma WorksExactly(k: Params, s: State, i: Input)
    ensures StepOf(k, s, i).result == Worked <==>
      && !StepOf(k, s, i).result.Completed?
      && ((i.proposal == Taken && StepOf(k, s, i).call.Some?)
          || StepOf(k, s, i).state.stage !in {s.stage, AddingLearner})
  {
  }

  /** What a step may do, request by request, stage by stage and end by end. */
  ghost predicate Behaves(k: Params, s: State, i: Input, o: Outcome) {
    && (forall call :: o.call == Some(call) <==> Asks(k, s, i, call))
    && (forall to :: to != s.stage ==> (o.state.stage == to <==> MovesTo(k, s, i, to)))
    && (forall e :: o.result == Completed(e) <==> Ends(k, s, i, e))
  }

  lemma StepBehaves(k: Params, s: State, i: Input)
    ensures Behaves(k, s, i, StepOf(k, s, i))
  {
    hide StepOf, Asks, MovesTo, Ends;
    forall call ensures StepOf(k, s, i).call == Some(call) <==> Asks(k, s, i, call) { CallsExactly(k, s, i, call); }
    forall to | to != s.stage ensures StepOf(k, s, i).state.stage == to <==> MovesTo(k, s, i, to) {
      MovesExactly(k, s, i, to);
    }
    forall e ensures StepOf(k, s, i).result == Completed(e) <==> Ends(k, s, i, e) { EndsExactly(k, s, i, e); }
  }

  // ----- Runs against any sequence of probes ---------------------------------------------------

  /** The states a migration goes through; it takes no step after completing. */
  ghost predicate IsRun(k: Params, states: seq<State>, inputs: seq<Input>) {
    && |states| == |inputs| + 1 && states[0] == START
    && forall i :: 0 <= i < |inputs| ==>
      && states[i + 1] == StepOf(k, states[i], inputs[i]).state
      && (i + 1 < |inputs| ==> !StepOf(k, states[i], inputs[i]).result.Completed?)
  }

  /** The group answered a leader outside any joint phase with no membership change under way. */
  ghost predicate ReadableByLeader(i: Input) {
    i.group.Answer? && i.group.probe.leads && !i.group.probe.jointConfiguration && !i.group.probe.pendingConfChange
  }

  /** The observation counts towards the gate: a clock tick on which the leader sees the target caught up. */
  ghost predicate Counted(i: Input) { ReadableByLeader(i) && i.advanceClock && CaughtUp(i.group.probe) }

  /** The observation shows a lapse: leadership is lost, or the leader sees the target behind or silent. */
  ghost predicate Lapse(i: Input) {
    && i.group.Answer? && !i.group.probe.jointConfiguration
    && (!i.group.probe.leads || (!i.group.probe.pendingConfChange && !CaughtUp(i.group.probe)))
  }

  ghost function CountedIn(inputs: seq<Input>, from: nat, to: nat): nat
    requires from <= to <= |inputs|
  {
    if from == to then 0 else CountedIn(inputs, from, to - 1) + if Counted(inputs[to - 1]) then 1 else 0
  }

  predicate Gated(s: Stage) { s == CatchingUp || s == StabilizingVoter }

  /** Since step `from` the migration stayed in `stage` without a lapse and counted at least `n` observations. */
  ghost predicate Steady(states: seq<State>, inputs: seq<Input>, stage: Stage, from: nat, to: nat, n: nat) {
    && from <= to <= |inputs| && |states| == |inputs| + 1
    && (forall j :: from <= j < to ==> states[j].stage == stage && !Lapse(inputs[j]))
    && CountedIn(inputs, from, to) >= n
  }

  ghost predicate SteadyThrough(states: seq<State>, inputs: seq<Input>, stage: Stage, from: nat, last: nat, n: nat) {
    Steady(states, inputs, stage, from, last + 1, n)
  }

  /** The stable-tick counter never claims more than a steady stretch in the current stage. */
  lemma {:induction false} TicksAreEarned(k: Params, states: seq<State>, inputs: seq<Input>, n: nat) returns (from: nat)
    requires IsRun(k, states, inputs) && n < |inputs| && Gated(states[n].stage)
    ensures Steady(states, inputs, states[n].stage, from, n, states[n].stableTicks)
  {
    if states[n].stableTicks == 0 {
      from := n;
    } else {
      var s, i := states[n - 1], inputs[n - 1];
      assert states[n] == StepOf(k, s, i).state;
      TickStep(k, s, i);
      from := TicksAreEarned(k, states, inputs, n - 1);
    }
  }

  /** One step leaves a gated stage with ticks only if it was there, saw no lapse, and earned the difference. */
  lemma TickStep(k: Params, s: State, i: Input)
    requires Gated(StepOf(k, s, i).state.stage) && StepOf(k, s, i).state.stableTicks > 0
    ensures s.stage == StepOf(k, s, i).state.stage
    ensures StepOf(k, s, i).state.stableTicks <= s.stableTicks + if Counted(i) then 1 else 0
    ensures Lapse(i) ==> StepOf(k, s, i).result.Completed?
  {
  }

  /** The gate was passed at step `n`: the target in `role`, steady for long enough up to and including that step. */
  ghost predicate GatePassed(
    k: Params, states: seq<State>, inputs: seq<Input>, n: nat, stage: Stage, role: MemberRole)
  {
    && n < |inputs| && inputs[n].group.Answer? && inputs[n].group.probe.targetRole == Some(role)
    && CaughtUp(inputs[n].group.probe)
    && exists from: nat :: SteadyThrough(states, inputs, stage, from, n, k.required)
  }

  ghost function CallAt(k: Params, states: seq<State>, inputs: seq<Input>, n: nat): Option<Call>
    requires n < |inputs| < |states|
  {
    StepOf(k, states[n], inputs[n]).call
  }

  lemma GateAtStep(k: Params, states: seq<State>, inputs: seq<Input>, n: nat, role: MemberRole)
    requires IsRun(k, states, inputs) && n < |inputs| && Gated(states[n].stage)
    requires ReadableByLeader(inputs[n]) && inputs[n].group.probe.targetRole == Some(role)
    requires GateOpen(k, states[n].stableTicks, inputs[n].group.probe, inputs[n].advanceClock)
    ensures GatePassed(k, states, inputs, n, states[n].stage, role)
  {
    var from := TicksAreEarned(k, states, inputs, n);
    assert CountedIn(inputs, from, n + 1) == CountedIn(inputs, from, n) + if Counted(inputs[n]) then 1 else 0;
    assert SteadyThrough(states, inputs, states[n].stage, from, n, k.required);
  }

  /** The target is promoted only after catching up as a learner, steadily and for the required time. */
  lemma PromotionIsGated(k: Params, states: seq<State>, inputs: seq<Input>, n: nat)
    requires IsRun(k, states, inputs) && n < |inputs| && CallAt(k, states, inputs, n) == Some(Promote)
    ensures GatePassed(k, states, inputs, n, CatchingUp, Learner)
  {
    GateAtStep(k, states, inputs, n, Learner);
  }

  predicate PastGate(s: Stage) { s == WaitingTargetLeader || s == WaitingSourceRemoval }

  /** The last two stages are reached only through the voter's own gate. */
  lemma {:induction false} PastGateMeansPassed(k: Params, states: seq<State>, inputs: seq<Input>, n: nat)
    returns (j: nat)
    requires IsRun(k, states, inputs) && n <= |inputs| && PastGate(states[n].stage)
    ensures j < n && GatePassed(k, states, inputs, j, StabilizingVoter, Voter)
  {
    var s, i := states[n - 1], inputs[n - 1];
    assert states[n] == StepOf(k, s, i).state;
    if PastGate(s.stage) {
      j := PastGateMeansPassed(k, states, inputs, n - 1);
    } else {
      GateAtStep(k, states, inputs, n - 1, Voter);
      j := n - 1;
    }
  }

  /** The source is removed only with the target a voter, which by then had passed the gate as a voter. */
  lemma RemovalIsGated(k: Params, states: seq<State>, inputs: seq<Input>, n: nat) returns (j: nat)
    requires IsRun(k, states, inputs) && n < |inputs| && CallAt(k, states, inputs, n) == Some(RemoveSource)
    ensures j <= n && GatePassed(k, states, inputs, j, StabilizingVoter, Voter)
    ensures inputs[n].group.Answer? && inputs[n].group.probe.targetRole == Some(Voter)
    ensures inputs[n].group.probe.targetAddressMatches
  {
    if PastGate(states[n].stage) {
      j := PastGateMeansPassed(k, states, inputs, n);
    } else {
      GateAtStep(k, states, inputs, n, Voter);
      j := n;
    }
  }

  /** Success means the source is gone and the target votes at the address asked for. */
  lemma SuccessIsReal(k: Params, s: State, i: Input)
    ensures StepOf(k, s, i).result == Completed(None) ==>
      && i.group.Answer? && i.group.probe.sourceRole == None
      && i.group.probe.targetRole == Some(Voter) && i.group.probe.targetAddressMatches
    ensures !i.cancelRequested && i.group.Answer? && i.group.probe.sourceRole == None
      && i.group.probe.targetRole == Some(Voter) && i.group.probe.targetAddressMatches
      && !(i.advanceClock && Max(i.now - k.startTick, 0) >= k.timeoutTicks)
      ==> StepOf(k, s, i).result == Completed(None)
  {
  }

  /**
   * Behind the voter's gate a source that leads hands over, where others can still reach the leader, and any other
   * host has the source removed; after a hand-over the source is removed only once the target leads.
   */
  lemma HandsOverOrRemoves(k: Params, states: seq<State>, inputs: seq<Input>, n: nat)
    requires IsRun(k, states, inputs) && n < |inputs| && CallAt(k, states, inputs, n).Some?
    ensures states[n].stage == StabilizingVoter ==>
      inputs[n].group.Answer? && CallAt(k, states, inputs, n) ==
        if k.source == k.hostId == inputs[n].group.probe.leaderId && inputs[n].forwarding
        then Some(TransferLeader) else Some(RemoveSource)
    ensures CallAt(k, states, inputs, n) == Some(TransferLeader) && inputs[n].proposal == Taken ==>
      states[n + 1].stage == WaitingTargetLeader
    ensures CallAt(k, states, inputs, n) == Some(RemoveSource) && inputs[n].proposal == Taken ==>
      states[n + 1].stage == WaitingSourceRemoval && states[n + 1].sourceRemovalSubmitted
    ensures states[n].stage == WaitingTargetLeader ==>
      inputs[n].group.Answer?
      && (CallAt(k, states, inputs, n) == Some(RemoveSource) <==> inputs[n].group.probe.leaderId == k.target)
  {
    var call := CallAt(k, states, inputs, n).value;
    CallsExactly(k, states[n], inputs[n], call);
    assert states[n + 1] == StepOf(k, states[n], inputs[n]).state;
  }

  /** Leadership is handed over only after the same gate, or in the stage that follows it. */
  lemma TransferIsGated(k: Params, states: seq<State>, inputs: seq<Input>, n: nat) returns (j: nat)
    requires IsRun(k, states, inputs) && n < |inputs| && CallAt(k, states, inputs, n) == Some(TransferLeader)
    ensures j <= n && GatePassed(k, states, inputs, j, StabilizingVoter, Voter)
  {
    if PastGate(states[n].stage) {
      j := PastGateMeansPassed(k, states, inputs, n);
    } else {
      GateAtStep(k, states, inputs, n, Voter);
      j := n;
    }
  }
}
