/** How closely one follower replicates the leader's log, and the leader's handling of its answers. */
module Progress {
  import opened Common
  import opened Inflights

  datatype ProgressState = Probe | Replicate | Snapshot

  /** The invalid log index, standing for "no snapshot requested". */
  const INVALID_INDEX: nat := 0

  /** The value of a `Progress`: its fields, with the in-flight window as a FIFO. */
  datatype ProgressView = ProgressView(
    matched: U64,
    nextIdx: nat,
    state: ProgressState,
    paused: bool,
    pendingSnapshot: nat,
    pendingRequestSnapshot: nat,
    recentActive: bool,
    inflights: Fifo,
    commitGroupId: U64,
    committedIndex: nat)
  {
    /** What the runtime invariant checker demands of every peer, strengthened to be inductive. */
    ghost predicate Sound() {
      && inflights.Valid()
      && nextIdx > matched
      && Increasing(inflights.queue)
      && (state != Replicate ==> inflights.queue == [])
      && (forall x :: x in inflights.queue ==> matched < x < nextIdx)
    }

    function ResetState(s: ProgressState): ProgressView {
      this.(paused := false, pendingSnapshot := 0, state := s, inflights := inflights.Reset())
    }

    function Restart(next: nat): ProgressView {
      this.(matched := 0, nextIdx := next, state := Probe, paused := false, pendingSnapshot := 0,
            pendingRequestSnapshot := 0, recentActive := false, inflights := inflights.Reset())
    }

    function ToProbe(): ProgressView {
      ResetState(Probe).(nextIdx := if state == Snapshot then Max(matched, pendingSnapshot) + 1 else matched + 1)
    }

    function ToReplicate(): ProgressView { ResetState(Replicate).(nextIdx := matched + 1) }

    function ToSnapshot(index: nat): ProgressView { ResetState(Snapshot).(pendingSnapshot := index) }

    predicate SnapshotCaughtUp() { state == Snapshot && matched >= pendingSnapshot }

    /** Any answer shows the follower alive and carries its commit index. */
    function Heard(commit: nat): ProgressView {
      this.(recentActive := true, committedIndex := Max(committedIndex, commit))
    }

    function Acked(n: U64): ProgressView {
      this.(matched := Max(matched, n), nextIdx := Max(nextIdx, n + 1), paused := paused && n <= matched)
    }

    /** An accepted rejection that asks for no snapshot moves a probe back to here. */
    function Backoff(rejected: nat, hint: nat): nat { Max(Min(rejected, hint + 1), matched + 1) }

    predicate RejectionAccepted(rejected: nat, requestSnapshot: nat) {
      if state == Replicate then
        rejected > matched || (rejected == matched && requestSnapshot != INVALID_INDEX)
      else
        requestSnapshot != INVALID_INDEX || (nextIdx > 0 && nextIdx - 1 == rejected)
    }

    function Rejected(rejected: nat, hint: nat, requestSnapshot: nat): ProgressView {
      if !RejectionAccepted(rejected, requestSnapshot) then this
      else if state == Replicate then
        if requestSnapshot == INVALID_INDEX then this.(nextIdx := matched + 1)
        else this.(pendingRequestSnapshot := requestSnapshot)
      else if requestSnapshot == INVALID_INDEX then
        this.(nextIdx := Backoff(rejected, hint), paused := false)
      else
        this.(paused := false, pendingRequestSnapshot :=
          if pendingRequestSnapshot == INVALID_INDEX then requestSnapshot else pendingRequestSnapshot)
    }
  }

  function FreshProgress(nextIdx: nat, maxInflight: nat): ProgressView {
    ProgressView(0, nextIdx, Probe, false, 0, 0, false, Fifo([], maxInflight, None), 0, 0)
  }

  class Progress {
    var matched: U64
    var nextIdx: U64
    var state: ProgressState
    var paused: bool
    var pendingSnapshot: U64
    var pendingRequestSnapshot: U64
    var recentActive: bool
    const inflights: Ring
    var commitGroupId: U64
    var committedIndex: U64

    ghost predicate Valid()
      reads this, inflights, inflights.buffer
    {
      inflights.Valid()
    }

    ghost function View(): ProgressView
      reads this, inflights, inflights.buffer
      requires Valid()
    {
      ProgressView(matched, nextIdx, state, paused, pendingSnapshot, pendingRequestSnapshot,
                   recentActive, inflights.View(), commitGroupId, committedIndex)
    }

    constructor (nextIdx: U64, maxInflight: nat)
      ensures Valid() && fresh(inflights) && fresh(inflights.buffer)
      ensures View() == FreshProgress(nextIdx, maxInflight)
    {
      matched, this.nextIdx, state, paused := 0, nextIdx, Probe, false;
      pendingSnapshot, pendingRequestSnapshot, recentActive := 0, 0, false;
      commitGroupId, committedIndex := 0, 0;
      inflights := new Ring(maxInflight);
    }

    method Reset(nextIdx: U64)
      requires Valid()
      modifies this, inflights
      ensures Valid() && fresh(inflights.buffer)
      ensures View() == old(View()).Restart(nextIdx)
    {
      matched, this.nextIdx, state, paused := 0, nextIdx, Probe, false;
      pendingSnapshot, pendingRequestSnapshot, recentActive := 0, 0, false;
      inflights.Reset();
    }

    method ResetState(s: ProgressState)
      requires Valid()
      modifies this, inflights
      ensures Valid() && fresh(inflights.buffer)
      ensures View() == old(View()).ResetState(s)
    {
      paused, pendingSnapshot, state := false, 0, s;
      inflights.Reset();
    }

    method BecomeProbe()
      requires Valid() && matched < MAX_U64 && (state == Snapshot ==> pendingSnapshot < MAX_U64)
      modifies this, inflights
      ensures Valid() && fresh(inflights.buffer)
      ensures View() == old(View()).ToProbe()
      ensures state == Probe && !paused && nextIdx > matched && matched == old(matched) && inflights.View().queue == []
      ensures nextIdx == if old(state) == Snapshot && old(pendingSnapshot) > matched then old(pendingSnapshot) + 1
                         else matched + 1
    {
      if state == Snapshot {
        var pending := pendingSnapshot;
        ResetState(Probe);
        nextIdx := Max(matched + 1, pending + 1);
      } else {
        ResetState(Probe);
        nextIdx := matched + 1;
      }
    }

    method BecomeReplicate()
      requires Valid() && matched < MAX_U64
      modifies this, inflights
      ensures Valid() && fresh(inflights.buffer)
      ensures View() == old(View()).ToReplicate()
    {
      ResetState(Replicate);
      nextIdx := matched + 1;
    }

    method BecomeSnapshot(index: U64)
      requires Valid()
      modifies this, inflights
      ensures Valid() && fresh(inflights.buffer)
      ensures View() == old(View()).ToSnapshot(index)
    {
      ResetState(Snapshot);
      pendingSnapshot := index;
    }

    method UpdateCommitted(index: U64)
      requires Valid()
      modifies this`committedIndex
      ensures Valid() && View() == old(View()).(committedIndex := Max(old(committedIndex), index))
    {
      if index > committedIndex { committedIndex := index; }
    }

    method MaybeUpdate(n: U64) returns (advanced: bool)
      requires Valid() && n < MAX_U64
      modifies this
      ensures Valid() && View() == old(View()).Acked(n)
      ensures advanced == (n > old(matched)) == (matched > old(matched))
      ensures matched >= n && nextIdx > n && nextIdx >= old(nextIdx)
    {
      advanced := matched < n;
      if advanced {
        matched := n;
        paused := false;
      }
      if nextIdx < n + 1 { nextIdx := n + 1; }
    }

    method IsPaused() returns (r: bool)
      requires Valid()
      ensures r == (state == Snapshot || (state == Probe && paused) || (state == Replicate && View().inflights.Full()))
    {
      match state
      case Probe => return paused;
      case Replicate => r := inflights.Full();
      case Snapshot => return true;
    }

    /** Called after a non-empty append whose last index is `last`; never in the snapshot state. */
    method UpdateState(last: U64)
      requires Valid() && state != Snapshot && last < MAX_U64
      requires state == Replicate ==> !inflights.View().Full()
      modifies this, inflights, inflights.buffer
      ensures Valid() && (inflights.buffer == old(inflights.buffer) || fresh(inflights.buffer))
      ensures View() == Sent(old(View()), last)
      ensures old(state) == Probe ==> paused && nextIdx == old(nextIdx)
      ensures old(state) == Replicate ==>
        nextIdx == last + 1 && inflights.View().queue == old(inflights.View().queue) + [last]
    {
      match state
      case Probe => paused := true;
      case Replicate =>
        nextIdx := last + 1;
        inflights.Add(last);
    }

    /** Returns whether the rejection was news. */
    method MaybeDecTo(rejected: U64, matchHint: U64, requestSnapshot: U64) returns (r: bool)
      requires Valid() && matched < MAX_U64 && matchHint < MAX_U64
      modifies this
      ensures Valid() && View() == old(View()).Rejected(rejected, matchHint, requestSnapshot)
      ensures r == old(View()).RejectionAccepted(rejected, requestSnapshot)
      ensures r == !Stale(old(View()), rejected, requestSnapshot)
    {
      if state == Replicate {
        if rejected < matched || (rejected == matched && requestSnapshot == INVALID_INDEX) {
          return false;
        }
        if requestSnapshot == INVALID_INDEX {
          nextIdx := matched + 1;
        } else {
          pendingRequestSnapshot := requestSnapshot;
        }
        return true;
      }
      if (nextIdx == 0 || nextIdx - 1 != rejected) && requestSnapshot == INVALID_INDEX {
        return false;
      }
      if requestSnapshot == INVALID_INDEX {
        nextIdx := Min(rejected, matchHint + 1);
        if nextIdx < matched + 1 { nextIdx := matched + 1; }
      } else if pendingRequestSnapshot == INVALID_INDEX {
        pendingRequestSnapshot := requestSnapshot;
      }
      paused := false;
      return true;
    }

    /** The progress part of the leader's handling of a rejected append. */
    method HandleReject(rejected: U64, matchHint: U64, requestSnapshot: U64, commit: U64)
      requires Valid() && matched < MAX_U64 && matchHint < MAX_U64
      modifies this, inflights
      ensures Valid() && (inflights.buffer == old(inflights.buffer) || fresh(inflights.buffer))
      ensures View() == Handle(old(View()), Reject(rejected, matchHint, requestSnapshot, commit))
      ensures Does(old(View()), Reject(rejected, matchHint, requestSnapshot, commit), View())
    {
      HandleMeans(View(), Reject(rejected, matchHint, requestSnapshot, commit));
      hide Does;
      recentActive := true;
      UpdateCommitted(commit);
      var news := MaybeDecTo(rejected, matchHint, requestSnapshot);
      if news && state == Replicate { BecomeProbe(); }
    }

    /** The progress part of the leader's handling of an acknowledged append. */
    method HandleAccept(index: U64, commit: U64)
      requires Valid() && index < MAX_U64 && matched < MAX_U64
      modifies this, inflights
      ensures Valid() && (inflights.buffer == old(inflights.buffer) || fresh(inflights.buffer))
      ensures View() == Handle(old(View()), Accept(index, commit)) && Does(old(View()), Accept(index, commit), View())
    {
      HandleMeans(View(), Accept(index, commit));
      hide Does;
      recentActive := true;
      UpdateCommitted(commit);
      var advanced := MaybeUpdate(index);
      if !advanced { return; }
      match state
      case Probe => BecomeReplicate();
      // A replicating follower is never a caught-up snapshot, so nothing more happens to it.
      case Replicate => inflights.FreeTo(index);
      case Snapshot =>
        if matched >= pendingSnapshot { BecomeProbe(); }
    }

    method HandleSnapshotStatus(failed: bool)
      requires Valid() && matched < MAX_U64 && pendingSnapshot < MAX_U64
      modifies this, inflights
      ensures Valid() && (inflights.buffer == old(inflights.buffer) || fresh(inflights.buffer))
      ensures View() == Handle(old(View()), SnapshotStatus(failed)) && Does(old(View()), SnapshotStatus(failed), View())
    {
      HandleMeans(View(), SnapshotStatus(failed));
      hide Does;
      if state != Snapshot { return; }
      if failed { pendingSnapshot := 0; }
      BecomeProbe();
      paused := true;
      pendingRequestSnapshot := INVALID_INDEX;
    }

    method HandleHeartbeatResponse(commit: U64)
      requires Valid()
      modifies this, inflights
      ensures Valid() && (inflights.buffer == old(inflights.buffer) || fresh(inflights.buffer))
      ensures View() == Handle(old(View()), HeartbeatResponse(commit))
      ensures Does(old(View()), HeartbeatResponse(commit), View())
    {
      HandleMeans(View(), HeartbeatResponse(commit));
      hide Does;
      UpdateCommitted(commit);
      recentActive, paused := true, false;
      var full := inflights.Full();
      if state == Replicate && full { inflights.FreeFirstOne(); }
    }
  }

  // ----- Runs of a follower's progress ---------------------------------------------------------

  /** Everything the leader does to one follower's progress between two resets of leadership. */
  datatype Event =
    | Send(last: U64)
    | Accept(index: U64, commit: U64)
    | Reject(rejected: U64, hint: U64, requestSnapshot: U64, commit: U64)
    | SendSnapshot(index: U64)
    | SnapshotStatus(failed: bool)
    | Unreachable
    | HeartbeatResponse(commit: U64)
    | ResizeWindow(n: nat)
    | LeaderReset(next: U64)

  function Sent(p: ProgressView, last: nat): ProgressView {
    match p.state
    case Probe => p.(paused := true)
    case Replicate =>
      if last <= MAX_U64 then p.(nextIdx := last + 1, inflights := p.inflights.Push(last)) else p
    case Snapshot => p
  }

  function Handle(p: ProgressView, e: Event): ProgressView {
    match e
    case Send(last) => Sent(p, last)
    case Accept(n, commit) =>
      var q := p.Heard(commit).Acked(n);
      if n <= p.matched then q
      else if p.state == Probe then q.ToReplicate()
      else if p.state == Replicate then q.(inflights := q.inflights.FreeTo(n))
      else if q.SnapshotCaughtUp() then q.ToProbe() else q
    case Reject(rejected, hint, requestSnapshot, commit) =>
      var q := p.Heard(commit).Rejected(rejected, hint, requestSnapshot);
      if p.RejectionAccepted(rejected, requestSnapshot) && q.state == Replicate then q.ToProbe() else q
    case SendSnapshot(index) => p.ToSnapshot(index)
    case SnapshotStatus(failed) =>
      if p.state != Snapshot then p
      else (if failed then p.(pendingSnapshot := 0) else p).ToProbe()
        .(paused := true, pendingRequestSnapshot := INVALID_INDEX)
    case Unreachable => if p.state == Replicate then p.ToProbe() else p
    case HeartbeatResponse(commit) =>
      var q := p.Heard(commit).(paused := false);
      if q.state == Replicate && q.inflights.Full() then q.(inflights := Apply(q.inflights, FreeFirst)) else q
    case ResizeWindow(n) => p.(inflights := p.inflights.Resize(n))
    case LeaderReset(next) => p.Restart(next)
  }

  // ----- What each event does, field by field --------------------------------------------------

  /** Probing afresh from `next`: nothing in flight, no snapshot awaited. */
  ghost predicate ProbesFrom(q: ProgressView, next: int) {
    q.state == Probe && q.nextIdx == next && q.inflights.queue == [] && q.pendingSnapshot == 0
  }

  /** The follower answered with this commit index. */
  ghost predicate HeardFrom(p: ProgressView, commit: U64, q: ProgressView) {
    q.recentActive && q.committedIndex >= commit && q.committedIndex >= p.committedIndex
    && q.committedIndex in {commit as nat, p.committedIndex}
  }

  ghost predicate SamePlace(p: ProgressView, q: ProgressView) {
    && q.state == p.state && q.nextIdx == p.nextIdx && q.pendingSnapshot == p.pendingSnapshot
    && q.pendingRequestSnapshot == p.pendingRequestSnapshot && q.inflights == p.inflights && q.paused == p.paused
  }

  /** A rejection that tells a follower's leader nothing new. */
  ghost predicate Stale(p: ProgressView, rejected: U64, requestSnapshot: U64) {
    if p.state == Replicate then rejected < p.matched || (rejected == p.matched && requestSnapshot == 0)
    else requestSnapshot == 0 && p.nextIdx != rejected + 1
  }

  /** An acknowledged append up to `n`. */
  ghost predicate Accepts(p: ProgressView, n: U64, commit: U64, q: ProgressView) {
    && HeardFrom(p, commit, q) && q.matched >= n && q.matched >= p.matched && q.matched in {n, p.matched}
    && q.pendingRequestSnapshot == p.pendingRequestSnapshot
    && if n <= p.matched then
         q.nextIdx == Max(p.nextIdx, n + 1) && SamePlace(p, q.(nextIdx := p.nextIdx))
       else if p.state == Probe then
         q.state == Replicate && q.nextIdx == n + 1 && q.inflights.queue == [] && !q.paused
       else if p.state == Snapshot && n >= p.pendingSnapshot then
         ProbesFrom(q, n + 1) && !q.paused
       else
         && q.state == p.state && q.nextIdx == Max(p.nextIdx, n + 1) && !q.paused
         && q.pendingSnapshot == p.pendingSnapshot
         && q.inflights == (if p.state == Replicate then p.inflights.FreeTo(n) else p.inflights)
  }

  /** A rejected append: what was rejected, how far the follower's log may match, and a snapshot asked for or zero. */
  ghost predicate Rejects(
    p: ProgressView, rejected: U64, hint: U64, requestSnapshot: U64, commit: U64, q: ProgressView)
  {
    && HeardFrom(p, commit, q)
    && if Stale(p, rejected, requestSnapshot) then SamePlace(p, q)
       else if p.state == Replicate then
         && ProbesFrom(q, p.matched + 1) && !q.paused
         && q.pendingRequestSnapshot == (if requestSnapshot == 0 then p.pendingRequestSnapshot else requestSnapshot)
       else
         && q.state == p.state && !q.paused && q.pendingSnapshot == p.pendingSnapshot && q.inflights == p.inflights
         && BacksOff(p, rejected, hint, requestSnapshot, q.nextIdx)
         && q.pendingRequestSnapshot
            == (if p.pendingRequestSnapshot == 0 then requestSnapshot else p.pendingRequestSnapshot)
  }

  /** Back to what was rejected or right behind the hint, whichever comes first, but never to what is matched. */
  ghost predicate BacksOff(p: ProgressView, rejected: U64, hint: U64, requestSnapshot: U64, next: int) {
    if requestSnapshot != 0 then next == p.nextIdx
    else if rejected <= p.matched || hint < p.matched then next == p.matched + 1
    else next <= rejected && next <= hint + 1 && (next == rejected || next == hint + 1)
  }

  ghost predicate Does(p: ProgressView, e: Event, q: ProgressView) {
    && q.commitGroupId == p.commitGroupId
    && (!e.Accept? && !e.LeaderReset? ==> q.matched == p.matched)
    && (!e.Accept? && !e.Reject? && !e.HeartbeatResponse? ==> q.committedIndex == p.committedIndex)
    && match e
       case Send(last) =>
         if p.state == Replicate then
           q.nextIdx == last + 1 && q.inflights.queue == p.inflights.queue + [last] && q.state == Replicate
         else q == p.(paused := p.state == Probe || p.paused)
       case Accept(n, commit) => Accepts(p, n, commit, q)
       case Reject(rejected, hint, requestSnapshot, commit) => Rejects(p, rejected, hint, requestSnapshot, commit, q)
       case SendSnapshot(index) =>
         && q.state == Snapshot && q.pendingSnapshot == index && q.inflights.queue == [] && !q.paused
         && q.nextIdx == p.nextIdx && q.recentActive == p.recentActive
       case SnapshotStatus(failed) =>
         if p.state != Snapshot then q == p
         else
           && ProbesFrom(q, if failed then p.matched + 1 else Max(p.matched, p.pendingSnapshot) + 1)
           && q.paused && q.pendingRequestSnapshot == 0 && q.recentActive == p.recentActive
       case Unreachable =>
         if p.state == Replicate then ProbesFrom(q, p.matched + 1) && !q.paused && q.recentActive == p.recentActive
         else q == p
       case HeartbeatResponse(commit) =>
         && HeardFrom(p, commit, q) && SamePlace(p, q.(paused := p.paused, inflights := p.inflights)) && !q.paused
         && q.inflights
            == (if p.state == Replicate && p.inflights.Full() then Apply(p.inflights, FreeFirst) else p.inflights)
       case ResizeWindow(n) => q == p.(inflights := p.inflights.Resize(n))
       case LeaderReset(next) =>
         && ProbesFrom(q, next) && q.matched == 0 && !q.paused && !q.recentActive && q.pendingRequestSnapshot == 0
  }

  lemma AcceptMeans(p: ProgressView, n: U64, commit: U64)
    ensures Accepts(p, n, commit, Handle(p, Accept(n, commit)))
  {
    hide DropUpTo;
    EmptyWindow(p.inflights);
  }

  lemma EmptyWindow(f: Fifo)
    ensures f.Reset().queue == []
  {
  }

  lemma RejectMeans(p: ProgressView, rejected: U64, hint: U64, requestSnapshot: U64, commit: U64)
    ensures var q := Handle(p, Reject(rejected, hint, requestSnapshot, commit));
      Rejects(p, rejected, hint, requestSnapshot, commit, q)
  {
    EmptyWindow(p.inflights);
    if p.state != Replicate { BackoffMeans(p, rejected, hint); }
  }

  lemma BackoffMeans(p: ProgressView, rejected: U64, hint: U64)
    ensures BacksOff(p, rejected, hint, 0, p.Backoff(rejected, hint))
  {
  }

  lemma HandleMeans(p: ProgressView, e: Event)
    ensures Does(p, e, Handle(p, e))
  {
    hide Accepts, Rejects, DropUpTo, Apply;
    EmptyWindow(p.inflights);
    match e
    case Accept(n, commit) => AcceptMeans(p, n, commit);
    case Reject(rejected, hint, requestSnapshot, commit) => RejectMeans(p, rejected, hint, requestSnapshot, commit);
    case _ =>
  }

  /** After a snapshot that arrived, the follower is probed behind it; after one that failed, right behind its match. */
  lemma ProbesBehindSnapshot(p: ProgressView, failed: bool)
    requires p.state == Snapshot
    ensures var q := Handle(p, SnapshotStatus(failed));
      && q.state == Probe && q.paused && q.nextIdx > p.matched
      && (!failed ==> q.nextIdx > p.pendingSnapshot) && (failed ==> q.nextIdx == p.matched + 1)
  {
  }

  /** A send starts at `nextIdx` and goes out only to an unpaused follower; a new leader starts past its log. */
  ghost predicate Possible(p: ProgressView, e: Event) {
    match e
    case Send(last) => p.state != Snapshot && last >= p.nextIdx && (p.state == Replicate ==> !p.inflights.Full())
    case LeaderReset(next) => next > 0
    case _ => true
  }

  /** Every event keeps the invariant the runtime checker demands, in all three states. */
  lemma HandleKeepsSound(p: ProgressView, e: Event)
    requires p.Sound() && Possible(p, e)
    ensures Handle(p, e).Sound()
  {
    match e
    case Accept(n, commit) => AcceptKeepsSound(p, n, commit);
    case HeartbeatResponse(_) =>
      if p.inflights.queue != [] { FreeToWindow(p.inflights, p.inflights.queue[0]); }
    case Send(last) =>
      assert forall x :: x in p.inflights.queue ==> x < last;
      PushIncreasing(p.inflights.queue, last);
    case _ =>
  }

  lemma AcceptKeepsSound(p: ProgressView, n: U64, commit: U64)
    requires p.Sound()
    ensures Handle(p, Accept(n, commit)).Sound()
  {
    FreeToWindow(p.inflights, n);
  }

  lemma PushIncreasing(q: seq<U64>, x: U64)
    requires Increasing(q) && forall y :: y in q ==> y < x
    ensures Increasing(q + [x])
  {
    assert forall i :: 0 <= i < |q| ==> q[i] in q;
  }

  lemma FreeToWindow(f: Fifo, to: U64)
    requires f.Valid() && Increasing(f.queue)
    ensures f.FreeTo(to).Valid() && Increasing(f.FreeTo(to).queue)
    ensures forall x :: x in f.FreeTo(to).queue ==> x in f.queue && x > to
  {
    FreeToKeepsNewer(f.queue, to);
    var _ := DropUpToIsMaximal(f.queue, to);
  }

  ghost predicate IsRun(trace: seq<ProgressView>, events: seq<Event>) {
    && |trace| == |events| + 1 && trace[0].Sound()
    && forall i :: 0 <= i < |events| ==> Possible(trace[i], events[i]) && trace[i + 1] == Handle(trace[i], events[i])
  }

  /** Along every run the next index stays ahead of the match, and the window is ordered and between the two. */
  lemma {:induction false} RunsAreSound(trace: seq<ProgressView>, events: seq<Event>, i: nat)
    requires IsRun(trace, events) && i <= |events|
    ensures trace[i].Sound()
  {
    if i > 0 {
      RunsAreSound(trace, events, i - 1);
      HandleKeepsSound(trace[i - 1], events[i - 1]);
    }
  }

  /** Between resets of leadership the match index never goes back. */
  lemma MatchedNeverFalls(p: ProgressView, e: Event)
    requires !e.LeaderReset?
    ensures Handle(p, e).matched >= p.matched
  {
  }

  /** What is still unconfirmed between the match index and the probe position. */
  function Gap(p: ProgressView): int { p.nextIdx - p.matched }

  /** In probe, an accepted plain rejection narrows the gap until the follower is probed right after its match. */
  lemma ProbeNarrows(p: ProgressView, rejected: U64, hint: U64, commit: U64)
    requires p.Sound() && p.state == Probe && p.RejectionAccepted(rejected, INVALID_INDEX)
    ensures Handle(p, Reject(rejected, hint, INVALID_INDEX, commit)).state == Probe
    ensures 1 <= Gap(Handle(p, Reject(rejected, hint, INVALID_INDEX, commit))) <= Max(1, Gap(p) - 1)
  {
  }

  predicate Narrows(p: ProgressView, e: Event) {
    e.Reject? && e.requestSnapshot == INVALID_INDEX && p.RejectionAccepted(e.rejected, INVALID_INDEX)
  }

  /** How many accepted plain rejections there are among the first `k` events. */
  function Rejections(trace: seq<ProgressView>, events: seq<Event>, k: nat): nat
    requires k <= |events| < |trace|
  {
    if k == 0 then 0
    else Rejections(trace, events, k - 1) + if Narrows(trace[k - 1], events[k - 1]) then 1 else 0
  }

  /** Nothing that leaves the follower in probe widens the gap, short of a new leader's reset. */
  lemma ProbeNeverWidens(p: ProgressView, e: Event)
    requires p.Sound() && p.state == Probe && Possible(p, e) && !e.LeaderReset?
    requires Handle(p, e).state == Probe
    ensures Gap(Handle(p, e)) <= Gap(p)
  {
  }

  /** Probing converges: whatever else happens, as long as it lasts each accepted plain rejection narrows the gap. */
  lemma {:induction false} ProbeConverges(trace: seq<ProgressView>, events: seq<Event>, k: nat)
    requires IsRun(trace, events) && k <= |events|
    requires forall i :: 0 <= i <= k ==> trace[i].state == Probe
    requires forall i :: 0 <= i < k ==> !events[i].LeaderReset?
    ensures 1 <= Gap(trace[k]) <= Max(1, Gap(trace[0]) - Rejections(trace, events, k))
  {
    hide Handle, Possible;
    RunsAreSound(trace, events, k);
    if k > 0 {
      ProbeConverges(trace, events, k - 1);
      RunsAreSound(trace, events, k - 1);
      var p, e := trace[k - 1], events[k - 1];
      ProbeNeverWidens(p, e);
      if Narrows(p, e) { ProbeNarrows(p, e.rejected, e.hint, e.commit); }
    }
  }
}
