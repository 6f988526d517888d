/** A group's share of the transport: a bounded inbox, one reserved snapshot slot, and the accounts kept of both. */
module GroupTransport {
  import opened Common

  datatype Kind = Snapshot | TransferLeader | Ordinary

  /** A message as the queue sees it: its kind, its sender and the bytes it retains. */
  datatype Message = Message(kind: Kind, from: U64, bytes: nat)

  datatype Limits = Limits(maxMessages: nat, maxBytes: nat, maxPeerEvents: nat)

  datatype Reply = Accepted | Ignored | ShuttingDown | Backpressure

  /**
   * `passed`, `lost` and `delivered` are the messages that passed the source and stop checks, those dropped
   * and those handed on, oldest first.
   */
  datatype State = State(
    inbox: seq<Message>,
    slot: Option<Message>,
    peers: set<U64>,
    stopped: bool,
    limits: Limits,
    pendingMessages: int,
    pendingBytes: int,
    droppedMessages: nat,
    droppedBytes: nat,
    passed: seq<Message>,
    lost: seq<Message>,
    delivered: seq<Message>)

  function Bytes(ms: seq<Message>): nat {
    if ms == [] then 0 else Bytes(ms[..|ms| - 1]) + ms[|ms| - 1].bytes
  }

  function SlotList(s: State): seq<Message> { if s.slot.Some? then [s.slot.value] else [] }

  predicate IsSnapshot(m: Message) { m.kind.Snapshot? }

  function Plain(ms: seq<Message>): seq<Message> {
    if ms == [] then []
    else Plain(ms[..|ms| - 1]) + if IsSnapshot(ms[|ms| - 1]) then [] else [ms[|ms| - 1]]
  }

  // ----- Operations ----------------------------------------------------------------------------

  /**
   * Without a shared identity every source passes; with one, the sender must be a peer, and for a leadership
   * transfer it may also be this node.
   */
  predicate SourceOk(s: State, identity: Option<U64>, m: Message) {
    identity.None? || m.from in s.peers || (m.kind.TransferLeader? && m.from == identity.value)
  }

  predicate NoRoom(s: State, m: Message) {
    |s.inbox| >= s.limits.maxMessages || m.bytes > Max(s.limits.maxBytes - s.pendingBytes, 0)
  }

  /** A snapshot always finds the slot, ousting the one before it. */
  function Slotted(s: State, m: Message): State {
    var t := s.(slot := Some(m), passed := s.passed + [m]);
    match s.slot
    case Some(before) =>
      t.(pendingBytes := s.pendingBytes - before.bytes + m.bytes,
         droppedMessages := s.droppedMessages + 1, droppedBytes := s.droppedBytes + before.bytes,
         lost := s.lost + [before])
    case None => t.(pendingMessages := s.pendingMessages + 1, pendingBytes := s.pendingBytes + m.bytes)
  }

  function Dropped(s: State, m: Message): State {
    s.(droppedMessages := s.droppedMessages + 1, droppedBytes := s.droppedBytes + m.bytes,
       passed := s.passed + [m], lost := s.lost + [m])
  }

  function Appended(s: State, m: Message): State {
    s.(inbox := s.inbox + [m], passed := s.passed + [m],
       pendingMessages := s.pendingMessages + 1, pendingBytes := s.pendingBytes + m.bytes)
  }

  function Enqueued(s: State, identity: Option<U64>, m: Message): (State, Reply) {
    if !SourceOk(s, identity, m) then (s, Ignored)
    else if s.stopped then (s, ShuttingDown)
    else if IsSnapshot(m) then (Slotted(s, m), Accepted)
    else if NoRoom(s, m) then (Dropped(s, m), Backpressure)
    else (Appended(s, m), Accepted)
  }

  function Delivered(s: State, m: Message): State {
    s.(pendingMessages := s.pendingMessages - 1, pendingBytes := s.pendingBytes - m.bytes,
       delivered := s.delivered + [m])
  }

  /** The snapshot goes first; without a callback nothing moves. */
  function Polled(s: State, callback: bool): State {
    if s.stopped || !callback then s
    else if s.slot.Some? then Delivered(s.(slot := None), s.slot.value)
    else if s.inbox != [] then Delivered(s.(inbox := s.inbox[1..]), s.inbox[0])
    else s
  }

  // ----- The same, reply by reply ----------------------------------------------------------------

  /** A sender that may not write to this group: not a peer, nor this node asking for its own transfer. */
  ghost predicate Stranger(s: State, identity: Option<U64>, m: Message) {
    identity.Some? && m.from !in s.peers && !(m.kind == TransferLeader && m.from == identity.value)
  }

  /** Another message, or so many bytes more than wait already, would exceed a limit. */
  ghost predicate Overflows(s: State, m: Message) {
    |s.inbox| + 1 > s.limits.maxMessages || (m.bytes > 0 && s.pendingBytes + m.bytes > s.limits.maxBytes)
  }

  /** Each reply, exactly when it is given. */
  ghost predicate RepliesWith(s: State, identity: Option<U64>, m: Message, r: Reply) {
    match r
    case Ignored => Stranger(s, identity, m)
    case ShuttingDown => !Stranger(s, identity, m) && s.stopped
    case Backpressure => !Stranger(s, identity, m) && !s.stopped && m.kind != Snapshot && Overflows(s, m)
    case Accepted => !Stranger(s, identity, m) && !s.stopped && (m.kind == Snapshot || !Overflows(s, m))
  }

  /** Whatever the reply, at most this message comes in and at most one goes lost: this one, or an ousted snapshot. */
  ghost predicate Takes(s: State, m: Message, r: Reply, t: State) {
    && t.inbox == (if r == Accepted && m.kind != Snapshot then s.inbox + [m] else s.inbox)
    && t.slot == (if r == Accepted && m.kind == Snapshot then Some(m) else s.slot)
    && t.passed == (if r in {Accepted, Backpressure} then s.passed + [m] else s.passed)
    && t.lost == (
         if r == Backpressure then s.lost + [m]
         else if r == Accepted && m.kind == Snapshot && s.slot.Some? then s.lost + [s.slot.value]
         else s.lost)
    && t.delivered == s.delivered && t.peers == s.peers && t.stopped == s.stopped && t.limits == s.limits
  }

  lemma EnqueueMeans(s: State, identity: Option<U64>, m: Message)
    ensures RepliesWith(s, identity, m, Enqueued(s, identity, m).1)
    ensures Takes(s, m, Enqueued(s, identity, m).1, Enqueued(s, identity, m).0)
  {
  }

  /** One poll hands on at most one message: the snapshot if there is one, otherwise the oldest of the inbox. */
  ghost predicate HandsOn(s: State, callback: bool, t: State) {
    if callback && !s.stopped && s.slot.Some? then
      t.delivered == s.delivered + [s.slot.value] && t.slot == None && t.inbox == s.inbox
    else if callback && !s.stopped && s.inbox != [] then
      t.delivered + t.inbox == s.delivered + s.inbox && |t.inbox| == |s.inbox| - 1 && t.slot == None
    else t == s
  }

  lemma PollMeans(s: State, callback: bool)
    ensures var t := Polled(s, callback);
      && HandsOn(s, callback, t) && t.passed == s.passed && t.lost == s.lost
      && t.peers == s.peers && t.stopped == s.stopped && t.limits == s.limits
  {
    if s.inbox != [] { assert s.inbox == [s.inbox[0]] + s.inbox[1..]; }
  }

  /** While a snapshot waits, no poll delivers an ordinary message. */
  lemma SnapshotFirst(s: State, callback: bool, m: Message)
    requires Sorted(s) && s.slot.Some? && Polled(s, callback).delivered == s.delivered + [m]
    ensures m.kind == Snapshot && m == s.slot.value
  {
    PollMeans(s, callback);
    assert Polled(s, callback).delivered[|s.delivered|] == m;
  }

  // ----- The accounts --------------------------------------------------------------------------

  /** Pending and dropped counts and bytes are those of what is pending and what was dropped. */
  ghost predicate Counted(s: State) {
    && s.pendingMessages == |s.inbox| + |SlotList(s)|
    && s.pendingBytes == Bytes(s.inbox) + Bytes(SlotList(s))
    && s.droppedMessages == |s.lost| && s.droppedBytes == Bytes(s.lost)
  }

  /** Every message that passed the checks was delivered, or dropped, or is pending. */
  ghost predicate Kept(s: State) {
    multiset(s.passed) == multiset(s.delivered) + multiset(s.lost) + multiset(s.inbox) + multiset(SlotList(s))
  }

  ghost predicate Balanced(s: State) { Counted(s) && Kept(s) }

  /** Snapshots keep out of the inbox, and only they use the slot. */
  ghost predicate Sorted(s: State) {
    && (forall i :: 0 <= i < |s.inbox| ==> !IsSnapshot(s.inbox[i]))
    && (s.slot.Some? ==> IsSnapshot(s.slot.value))
  }

  predicate Within(s: State) { |s.inbox| <= s.limits.maxMessages && Bytes(s.inbox) <= s.limits.maxBytes }

  lemma BytesAppend(ms: seq<Message>, m: Message)
    ensures Bytes(ms + [m]) == Bytes(ms) + m.bytes
  {
    assert (ms + [m])[..|ms|] == ms;
  }

  lemma {:induction false} BytesFront(ms: seq<Message>)
    requires ms != []
    ensures Bytes(ms) == ms[0].bytes + Bytes(ms[1..])
  {
    if |ms| > 1 {
      var front := ms[..|ms| - 1];
      BytesFront(front);
      assert front[1..] == ms[1..][..|ms| - 2] && front[0] == ms[0];
    } else {
      assert ms[..0] == [] && ms[1..] == [];
    }
  }

  lemma SlotBytes(s: State)
    ensures Bytes(SlotList(s)) == if s.slot.Some? then s.slot.value.bytes else 0
  {
    if s.slot.Some? { assert [s.slot.value][..0] == []; }
  }

  lemma SlottedBalances(s: State, m: Message)
    requires Balanced(s)
    ensures Balanced(Slotted(s, m))
  {
    hide Bytes;
    SlotBytes(s);
    SlotBytes(Slotted(s, m));
    if s.slot.Some? { BytesAppend(s.lost, s.slot.value); }
  }

  lemma DroppedBalances(s: State, m: Message)
    requires Balanced(s)
    ensures Balanced(Dropped(s, m))
  {
    hide Bytes;
    BytesAppend(s.lost, m);
  }

  lemma AppendedBalances(s: State, m: Message)
    requires Balanced(s)
    ensures Balanced(Appended(s, m))
    ensures Within(s) && !NoRoom(s, m) ==> Within(Appended(s, m))
  {
    hide Bytes;
    BytesAppend(s.inbox, m);
  }

  lemma EnqueueBalances(s: State, identity: Option<U64>, m: Message)
    requires Balanced(s)
    ensures Balanced(Enqueued(s, identity, m).0)
  {
    hide Balanced, Bytes, SourceOk, NoRoom;
    SlottedBalances(s, m);
    DroppedBalances(s, m);
    AppendedBalances(s, m);
  }

  lemma EnqueueSorts(s: State, identity: Option<U64>, m: Message)
    requires Sorted(s)
    ensures Sorted(Enqueued(s, identity, m).0)
  {
    hide SourceOk, NoRoom;
  }

  lemma EnqueueStaysWithin(s: State, identity: Option<U64>, m: Message)
    requires Balanced(s) && Within(s)
    ensures Within(Enqueued(s, identity, m).0)
  {
    hide Balanced, Bytes, SourceOk, NoRoom;
    AppendedBalances(s, m);
  }

  lemma DeliveredSlot(s: State)
    requires Balanced(s) && s.slot.Some?
    ensures Balanced(Delivered(s.(slot := None), s.slot.value))
  {
    hide Bytes;
    SlotBytes(s);
    SlotBytes(s.(slot := None));
  }

  lemma DeliveredFirst(s: State)
    requires Balanced(s) && s.inbox != []
    ensures Balanced(Delivered(s.(inbox := s.inbox[1..]), s.inbox[0]))
    ensures Within(s) ==> Within(Delivered(s.(inbox := s.inbox[1..]), s.inbox[0]))
  {
    hide Bytes;
    BytesFront(s.inbox);
    assert s.inbox == [s.inbox[0]] + s.inbox[1..];
  }

  lemma PollBalances(s: State, callback: bool)
    requires Balanced(s) && Sorted(s)
    ensures Balanced(Polled(s, callback)) && Sorted(Polled(s, callback))
    ensures Within(s) ==> Within(Polled(s, callback))
  {
    hide Balanced, Bytes;
    if s.slot.Some? { DeliveredSlot(s); }
    if s.inbox != [] { DeliveredFirst(s); }
  }

  // ----- Runs ----------------------------------------------------------------------------------

  datatype Event =
    | Enqueue(identity: Option<U64>, message: Message)
    | Poll(callback: bool)
    | SetLimits(limits: Limits)
    | SetPeers(peers: set<U64>)
    | Stop

  function After(s: State, e: Event): State {
    match e
    case Enqueue(identity, m) => Enqueued(s, identity, m).0
    case Poll(callback) => Polled(s, callback)
    case SetLimits(limits) => s.(limits := limits)
    case SetPeers(peers) => s.(peers := peers)
    case Stop => s.(stopped := true)
  }

  function AfterAll(s: State, es: seq<Event>): State {
    if es == [] then s else After(AfterAll(s, es[..|es| - 1]), es[|es| - 1])
  }

  function Start(limits: Limits): State { State([], None, {}, false, limits, 0, 0, 0, 0, [], [], []) }

  /** The accounts balance after every run, whatever is enqueued, polled, relimited or stopped. */
  lemma {:induction false} RunsBalance(limits: Limits, es: seq<Event>)
    ensures Balanced(AfterAll(Start(limits), es)) && Sorted(AfterAll(Start(limits), es))
  {
    hide Balanced, Sorted, Enqueued, Polled;
    if es == [] {
      assert Balanced(Start(limits)) && Sorted(Start(limits)) by { StartBalances(limits); }
    } else {
      RunsBalance(limits, es[..|es| - 1]);
      var s := AfterAll(Start(limits), es[..|es| - 1]);
      match es[|es| - 1]
      case Enqueue(identity, m) => {
        EnqueueBalances(s, identity, m);
        EnqueueSorts(s, identity, m);
      }
      case Poll(callback) => PollBalances(s, callback);
      case SetLimits(l) => OnlySettings(s, s.(limits := l));
      case SetPeers(peers) => OnlySettings(s, s.(peers := peers));
      case Stop => OnlySettings(s, s.(stopped := true));
    }
  }

  lemma StartBalances(limits: Limits)
    ensures Balanced(Start(limits)) && Sorted(Start(limits)) && Within(Start(limits))
  {
  }

  lemma OnlySettings(s: State, t: State)
    requires t == s.(limits := t.limits, peers := t.peers, stopped := t.stopped)
    ensures Balanced(t) == Balanced(s) && Sorted(t) == Sorted(s)
  {
  }

  /** While the limits stay as they are, the inbox never exceeds either, whatever snapshots arrive. */
  lemma {:induction false} InboxStaysWithin(limits: Limits, es: seq<Event>)
    requires forall i :: 0 <= i < |es| ==> !es[i].SetLimits?
    ensures Within(AfterAll(Start(limits), es)) && AfterAll(Start(limits), es).limits == limits
  {
    hide Balanced, Sorted;
    if es != [] {
      var front, last := es[..|es| - 1], es[|es| - 1];
      assert !last.SetLimits?;
      InboxStaysWithin(limits, front);
      RunsBalance(limits, front);
      var s := AfterAll(Start(limits), front);
      if last.Enqueue? { EnqueueStaysWithin(s, last.identity, last.message); }
      if last.Poll? { PollBalances(s, last.callback); }
    }
  }

  /** The ordinary messages a run has let into the inbox, in order. */
  function LetIn(s: State, es: seq<Event>): seq<Message> {
    if es == [] then []
    else
      var before := AfterAll(s, es[..|es| - 1]);
      var after := AfterAll(s, es);
      LetIn(s, es[..|es| - 1]) + after.inbox[Min(|before.inbox|, |after.inbox|)..]
  }

  lemma PlainAppend(ms: seq<Message>, m: Message)
    ensures Plain(ms + [m]) == Plain(ms) + if IsSnapshot(m) then [] else [m]
  {
    assert (ms + [m])[..|ms|] == ms;
  }

  /** What one event lets in joins the line behind what was delivered and what waits. */
  lemma LineGrows(s: State, e: Event)
    requires Sorted(s)
    ensures var t := After(s, e);
      Plain(t.delivered) + t.inbox == Plain(s.delivered) + s.inbox + t.inbox[Min(|s.inbox|, |t.inbox|)..]
  {
    hide Plain, SourceOk, NoRoom;
    var t := After(s, e);
    if e.Poll? && t != s {
      if s.slot.Some? {
        PlainAppend(s.delivered, s.slot.value);
      } else {
        PlainAppend(s.delivered, s.inbox[0]);
        assert s.inbox == [s.inbox[0]] + t.inbox;
      }
    } else {
      assert t.delivered == s.delivered;
      if |t.inbox| > |s.inbox| {
        assert t.inbox == s.inbox + [e.message];
      }
    }
  }

  /** Ordinary messages are delivered in the order in which they were let in: those delivered, then those waiting. */
  lemma {:induction false} DeliveredInOrder(limits: Limits, es: seq<Event>)
    ensures var s := AfterAll(Start(limits), es);
      LetIn(Start(limits), es) == Plain(s.delivered) + s.inbox
  {
    hide Balanced, Sorted, After, Plain;
    if es == [] {
      assert Plain([]) == [] by { PlainOfNone(); }
    } else {
      DeliveredInOrder(limits, es[..|es| - 1]);
      RunsBalance(limits, es[..|es| - 1]);
      LineGrows(AfterAll(Start(limits), es[..|es| - 1]), es[|es| - 1]);
    }
  }

  lemma PlainOfNone()
    ensures Plain([]) == []
  {
  }

  // ----- The transport -------------------------------------------------------------------------

  class Transport {
    var inbox: seq<Message>
    var snapshotInbox: Option<Message>
    var peers: set<U64>
    var stopped: bool
    var limits: Limits
    var pendingMessages: int
    var pendingBytes: int
    var droppedMessages: nat
    var droppedBytes: nat
    ghost var passed: seq<Message>
    ghost var lost: seq<Message>
    ghost var delivered: seq<Message>

    ghost function View(): State
      reads this
    {
      State(inbox, snapshotInbox, peers, stopped, limits, pendingMessages, pendingBytes, droppedMessages, droppedBytes,
            passed, lost, delivered)
    }

    constructor (limits: Limits)
      ensures View() == Start(limits)
    {
      inbox, snapshotInbox, peers, stopped, this.limits := [], None, {}, false, limits;
      pendingMessages, pendingBytes, droppedMessages, droppedBytes := 0, 0, 0, 0;
      passed, lost, delivered := [], [], [];
    }

    method EnqueueMessage(identity: Option<U64>, m: Message) returns (r: Reply)
      modifies this
      ensures View() == Enqueued(old(View()), identity, m).0
      ensures r == Enqueued(old(View()), identity, m).1
      ensures RepliesWith(old(View()), identity, m, r) && Takes(old(View()), m, r, View())
    {
      EnqueueMeans(View(), identity, m);
      hide RepliesWith, Takes;
      hide Slotted;
      if identity.Some? {
        var validSource := if m.kind == TransferLeader then m.from == identity.value || m.from in peers
                           else m.from in peers;
        if !validSource { return Ignored; }
      }
      if stopped { return ShuttingDown; }
      if m.kind == Snapshot {
        EnqueueSnapshot(m);
        return Accepted;
      }
      passed := passed + [m];
      if |inbox| >= limits.maxMessages || m.bytes > Max(limits.maxBytes - pendingBytes, 0) {
        droppedMessages := droppedMessages + 1;
        droppedBytes := droppedBytes + m.bytes;
        lost := lost + [m];
        return Backpressure;
      }
      inbox := inbox + [m];
      pendingMessages := pendingMessages + 1;
      pendingBytes := pendingBytes + m.bytes;
      return Accepted;
    }

    method EnqueueSnapshot(m: Message)
      modifies this
      ensures View() == Slotted(old(View()), m)
    {
      passed := passed + [m];
      if snapshotInbox.Some? {
        pendingBytes := pendingBytes - snapshotInbox.value.bytes;
        droppedMessages := droppedMessages + 1;
        droppedBytes := droppedBytes + snapshotInbox.value.bytes;
        lost := lost + [snapshotInbox.value];
      } else {
        pendingMessages := pendingMessages + 1;
      }
      snapshotInbox := Some(m);
      pendingBytes := pendingBytes + m.bytes;
    }

    /** The message handed to the callback, if any; the callback's own outcome changes nothing here. */
    method PollOne(callback: bool) returns (m: Option<Message>)
      modifies this
      ensures View() == Polled(old(View()), callback)
      ensures m.Some? ==> delivered == old(delivered) + [m.value]
      ensures m.None? ==> View() == old(View())
      ensures HandsOn(old(View()), callback, View())
      ensures old(snapshotInbox).Some? && m.Some? ==> m == old(snapshotInbox)
      ensures m.Some? <==> callback && !old(stopped) && (old(snapshotInbox).Some? || old(inbox) != [])
    {
      PollMeans(View(), callback);
      if stopped { return None; }
      if snapshotInbox.Some? {
        if !callback { return None; }
        m := snapshotInbox;
        snapshotInbox := None;
      } else if |inbox| != 0 {
        if !callback { return None; }
        m := Some(inbox[0]);
        inbox := inbox[1..];
      } else {
        return None;
      }
      pendingMessages := pendingMessages - 1;
      pendingBytes := pendingBytes - m.value.bytes;
      delivered := delivered + [m.value];
    }
  }
}
