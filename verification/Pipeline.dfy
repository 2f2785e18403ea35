/** The discovery pipeline: scans, the event queue, the connector and the connection manager,
    interleaved step by step. */
module Pipeline {
  import opened Prelude
  import opened Discovery
  import C = Connection

  // ---- The connector ----

  function Handle(w: C.World, e: Event): C.World {
    if !e.peer.IsValid() then w
    else match e
      case Added(p) => C.Apply(w, C.Connect(p.peerID, p.Endpoint()))
      case Removed(p) => C.Apply(w, C.Disconnect(p.peerID))
  }

  function HandleAll(w: C.World, events: seq<Event>): C.World {
    if events == [] then w else Handle(HandleAll(w, events[..|events| - 1]), events[|events| - 1])
  }

  lemma {:induction false} HandleAllAppend(w: C.World, a: seq<Event>, b: seq<Event>)
    ensures HandleAll(w, a + b) == HandleAll(HandleAll(w, a), b)
    decreases |b|
  {
    if b == [] {
      assert a + b == a;
    } else {
      var n := |b| - 1;
      HandleAllAppend(w, a, b[..n]);
      assert (a + b)[..|a + b| - 1] == a + b[..n];
    }
  }

  class Connector {
    const mgr: C.Manager

    constructor (mgr: C.Manager)
      ensures this.mgr == mgr
    {
      this.mgr := mgr;
    }

    method HandleEvent(e: Event)
      modifies mgr
      ensures mgr.State() == Handle(old(mgr.State()), e)
    {
      if !e.peer.IsValid() {
        return;
      }
      var ok;
      match e {
        case Added(p) => ok := mgr.Connect(p.peerID, p.Endpoint());
        case Removed(p) => ok := mgr.Disconnect(p.peerID);
      }
    }

    /** Receives until the queue is empty, while nothing else runs. */
    method Drain(d: MDNSDiscovery)
      modifies mgr, d`events
      ensures d.events == []
      ensures mgr.State() == HandleAll(old(mgr.State()), old(d.events))
    {
      ghost var all, taken := d.events, [];
      while d.events != []
        invariant all == taken + d.events
        invariant mgr.State() == HandleAll(old(mgr.State()), taken)
        decreases |d.events|
      {
        var e := d.events[0];
        d.events := d.events[1..];
        HandleEvent(e);
        assert (taken + [e])[..|taken|] == taken;
        taken := taken + [e];
      }
      assert taken == all;
    }
  }

  // ---- The whole pipeline as a state machine ----

  /** Where the scan loop stands with a scan result: todo holds the keys its current loop has still
      to visit. */
  datatype Phase =
    | Idle(last: Option<seq<PeerInfo>>)
    | Adding(scan: seq<PeerInfo>, todo: set<string>)
    | Removing(scan: seq<PeerInfo>, todo: set<string>)

  /** inHand is the event the connector has received and not handled yet. handled records the
      events handled so far; it is history only. */
  datatype State = State(local: string, feed: Feed, inHand: Option<Event>, world: C.World, phase: Phase, handled: seq<Event>)

  datatype Step =
    | Begin(scan: seq<PeerInfo>)
    | Visit(key: string)
    | Turn
    | Receive
    | HandleReceived
    | Dial(attempt: nat, ok: bool)

  function Init(local: string): State {
    State(local, Feed(map[], []), None, C.EMPTY, Idle(None), [])
  }

  /** A step that is not enabled leaves the state as it is. */
  function Next(s: State, step: Step): State {
    match step
    case Begin(scan) =>
      if !s.phase.Idle? then s
      else s.(phase := Adding(scan, SeenSet(s.local, scan).Keys))
    case Visit(key) =>
      if s.phase.Idle? || key !in s.phase.todo then s
      else
        var seen, todo := SeenSet(s.local, s.phase.scan), s.phase.todo - {key};
        if s.phase.Adding? then s.(feed := VisitSeen(s.feed, seen, key), phase := Adding(s.phase.scan, todo))
        else s.(feed := VisitEntry(s.feed, seen.Keys, key), phase := Removing(s.phase.scan, todo))
    case Turn =>
      if s.phase.Adding? && s.phase.todo == {} then s.(phase := Removing(s.phase.scan, s.feed.entries.Keys))
      else if s.phase.Removing? && s.phase.todo == {} then s.(phase := Idle(Some(s.phase.scan)))
      else s
    case Receive =>
      if s.feed.events == [] || s.inHand.Some? then s
      else s.(feed := s.feed.(events := s.feed.events[1..]), inHand := Some(s.feed.events[0]))
    case HandleReceived =>
      if s.inHand.None? then s
      else s.(inHand := None, world := Handle(s.world, s.inHand.value), handled := s.handled + [s.inHand.value])
    case Dial(attempt, ok) => s.(world := C.Apply(s.world, C.Finish(attempt, ok)))
  }

  function Run(local: string, steps: seq<Step>): State {
    if steps == [] then Init(local) else Next(Run(local, steps[..|steps| - 1]), steps[|steps| - 1])
  }

  /** The step has an event to send and the queue is full. */
  predicate Overflows(s: State, step: Step) {
    Next(s, step).feed.entries != s.feed.entries && |s.feed.events| >= QUEUE_SLOTS
  }

  predicate NeverOverflows(local: string, steps: seq<Step>) {
    steps == [] ||
    (var n := |steps| - 1; NeverOverflows(local, steps[..n]) && !Overflows(Run(local, steps[..n]), steps[n]))
  }

  function Endpoints(entries: Entries): map<string, string> {
    map k | k in entries :: entries[k].Endpoint()
  }

  /** The events sent and not handled yet: the one in hand comes before the queued ones. */
  function Outstanding(s: State): seq<Event> {
    (if s.inHand.Some? then [s.inHand.value] else []) + s.feed.events
  }

  /** Replaying the outstanding events brings the connection manager to the known entries. */
  ghost predicate CatchesUp(s: State) {
    C.Tracked(HandleAll(s.world, Outstanding(s))) == Endpoints(s.feed.entries)
  }

  // ---- Events alternate ----

  /** Each event adds a peer not tracked by then, or removes one that is. */
  ghost predicate Alternates(w: C.World, events: seq<Event>) {
    events == [] ||
    (var n := |events| - 1;
     && Alternates(w, events[..n])
     && FitsNext(HandleAll(w, events[..n]), events[n]))
  }

  ghost predicate FitsNext(w: C.World, e: Event) {
    e.peer.IsValid() && (e.Added? <==> e.peer.peerID !in w.peers)
  }

  lemma {:induction false} AlternatesPrefix(w: C.World, events: seq<Event>, k: nat)
    requires Alternates(w, events) && k <= |events|
    ensures Alternates(w, events[..k])
    ensures k < |events| ==> FitsNext(HandleAll(w, events[..k]), events[k])
    decreases |events|
  {
    var n := |events| - 1;
    if k < n {
      AlternatesPrefix(w, events[..n], k);
      assert events[..n][..k] == events[..k];
    } else if k > n {
      assert events[..k] == events;
    }
  }

  /** What an event does to the tracked peers depends on the tracked peers only. */
  lemma HandleTracked(w: C.World, v: C.World, e: Event)
    requires C.Tracked(w) == C.Tracked(v) && FitsNext(v, e)
    ensures C.Tracked(Handle(w, e)) == C.Tracked(Handle(v, e))
    ensures C.Tracked(Handle(v, e)) ==
              if e.Added? then C.Tracked(v)[e.peer.peerID := e.peer.Endpoint()] else C.Tracked(v) - {e.peer.peerID}
  {
    assert w.peers.Keys == C.Tracked(w).Keys && v.peers.Keys == C.Tracked(v).Keys;
    assert forall p :: p in v.peers ==> w.peers[p].endpoint == C.Tracked(w)[p];
  }

  lemma {:induction false} HandleAllTracked(w: C.World, v: C.World, a: seq<Event>, b: seq<Event>)
    requires Alternates(v, a + b)
    requires C.Tracked(w) == C.Tracked(HandleAll(v, a))
    ensures C.Tracked(HandleAll(w, b)) == C.Tracked(HandleAll(v, a + b))
    decreases |b|
  {
    if b == [] {
      assert a + b == a;
    } else {
      var n := |b| - 1;
      var all := a + b;
      assert all[..|all| - 1] == a + b[..n];
      HandleAllTracked(w, v, a, b[..n]);
      HandleTracked(HandleAll(w, b[..n]), HandleAll(v, a + b[..n]), b[n]);
    }
  }

  // ---- The invariant of runs without overflow ----

  ghost predicate Inv(s: State) {
    && WellKeyed(s.local, s.feed.entries)
    && |s.feed.events| <= QUEUE_SLOTS
    && ScanInv(s)
    && C.Tracked(s.world) == C.Tracked(HandleAll(C.EMPTY, s.handled))
    && Replays(Sent(s), s.feed.entries)
  }

  /** All events ever sent, in order. */
  function Sent(s: State): seq<Event> {
    s.handled + Outstanding(s)
  }

  /** The whole event history alternates and replays to the entries. */
  ghost predicate Replays(history: seq<Event>, entries: Entries) {
    && Alternates(C.EMPTY, history)
    && C.Tracked(HandleAll(C.EMPTY, history)) == Endpoints(entries)
  }

  ghost predicate ScanInv(s: State) {
    match s.phase
    case Idle(last) => last.Some? ==> s.feed.entries.Keys == SeenSet(s.local, last.value).Keys
    case Adding(scan, todo) =>
      var seen := SeenSet(s.local, scan);
      WellKeyed(s.local, seen) && todo <= seen.Keys && seen.Keys - todo <= s.feed.entries.Keys
    case Removing(scan, todo) =>
      var seen := SeenSet(s.local, scan);
      seen.Keys <= s.feed.entries.Keys && s.feed.entries.Keys <= seen.Keys + todo
  }

  /** Sending the event of a change keeps the replay of the whole history equal to the entries. */
  lemma SendKeepsReplay(q: seq<Event>, entries: Entries, e: Event, entries': Entries)
    requires Replays(q, entries)
    requires e.peer.IsValid()
    requires if e.Added?
             then e.peer.peerID !in entries && entries' == entries[e.peer.peerID := e.peer]
             else e.peer.peerID in entries && entries' == entries - {e.peer.peerID}
    ensures Replays(q + [e], entries')
  {
    var v := HandleAll(C.EMPTY, q);
    assert v.peers.Keys == C.Tracked(v).Keys == Endpoints(entries).Keys == entries.Keys;
    OneMoreEvent(C.EMPTY, q, e);
    HandleTracked(v, v, e);
    EndpointsChange(entries, e, entries');
  }

  lemma OneMoreEvent(w: C.World, q: seq<Event>, e: Event)
    requires Alternates(w, q) && FitsNext(HandleAll(w, q), e)
    ensures Alternates(w, q + [e]) && HandleAll(w, q + [e]) == Handle(HandleAll(w, q), e)
  {
    assert (q + [e])[..|q|] == q;
  }

  lemma EndpointsChange(entries: Entries, e: Event, entries': Entries)
    requires entries' == if e.Added? then entries[e.peer.peerID := e.peer] else entries - {e.peer.peerID}
    ensures Endpoints(entries') ==
              if e.Added? then Endpoints(entries)[e.peer.peerID := e.peer.Endpoint()]
              else Endpoints(entries) - {e.peer.peerID}
  {}

  lemma VisitKeepsReplay(s: State, key: string)
    requires Inv(s) && !Overflows(s, Visit(key))
    ensures var s' := Next(s, Visit(key)); Replays(Sent(s'), s'.feed.entries)
  {
    if !s.phase.Idle? && key in s.phase.todo {
      var seen := SeenSet(s.local, s.phase.scan);
      if s.phase.Adding? && key !in s.feed.entries {
        AddKeepsReplay(s, seen, key);
      } else if s.phase.Removing? && key in s.feed.entries && key !in seen {
        RemoveKeepsReplay(s, seen, key);
      }
    }
  }

  lemma AddKeepsReplay(s: State, seen: Entries, key: string)
    requires Replays(Sent(s), s.feed.entries) && |s.feed.events| < QUEUE_SLOTS
    requires WellKeyed(s.local, seen) && key in seen && key !in s.feed.entries
    ensures var s' := s.(feed := VisitSeen(s.feed, seen, key)); Replays(Sent(s'), s'.feed.entries)
  {
    var s', e := s.(feed := VisitSeen(s.feed, seen, key)), Added(seen[key]);
    SendKeepsReplay(Sent(s), s.feed.entries, e, s'.feed.entries);
    assert Sent(s') == Sent(s) + [e];
  }

  lemma RemoveKeepsReplay(s: State, seen: Entries, key: string)
    requires Replays(Sent(s), s.feed.entries) && |s.feed.events| < QUEUE_SLOTS
    requires WellKeyed(s.local, s.feed.entries) && key in s.feed.entries && key !in seen
    ensures var s' := s.(feed := VisitEntry(s.feed, seen.Keys, key)); Replays(Sent(s'), s'.feed.entries)
  {
    var s', e := s.(feed := VisitEntry(s.feed, seen.Keys, key)), Removed(s.feed.entries[key]);
    SendKeepsReplay(Sent(s), s.feed.entries, e, s'.feed.entries);
    assert Sent(s') == Sent(s) + [e];
  }

  lemma VisitKeepsScan(s: State, key: string)
    requires WellKeyed(s.local, s.feed.entries) && ScanInv(s) && |s.feed.events| <= QUEUE_SLOTS
    ensures var s' := Next(s, Visit(key));
            WellKeyed(s'.local, s'.feed.entries) && ScanInv(s') && |s'.feed.events| <= QUEUE_SLOTS
  {}

  lemma ReceiveKeepsInv(s: State)
    requires Inv(s)
    ensures Inv(Next(s, Receive))
  {
    assert Sent(Next(s, Receive)) == Sent(s);
  }

  lemma HandleKeepsInv(s: State)
    requires Inv(s)
    ensures Inv(Next(s, HandleReceived))
  {
    if s.inHand.Some? {
      var e, s', q := s.inHand.value, Next(s, HandleReceived), Sent(s);
      assert Sent(s') == q;
      AlternatesPrefix(C.EMPTY, q, |s.handled|);
      assert q[..|s.handled|] == s.handled && s'.handled[..|s.handled|] == s.handled;
      HandleTracked(s.world, HandleAll(C.EMPTY, s.handled), e);
    }
  }

  lemma DialKeepsTracked(w: C.World, attempt: nat, ok: bool)
    ensures C.Tracked(C.Apply(w, C.Finish(attempt, ok))) == C.Tracked(w)
  {}

  lemma BeginKeepsInv(s: State, scan: seq<PeerInfo>)
    requires Inv(s)
    ensures Inv(Next(s, Begin(scan)))
  {
    SeenSetIsValid(s.local, scan);
    assert Sent(Next(s, Begin(scan))) == Sent(s);
  }

  lemma VisitKeepsInv(s: State, key: string)
    requires Inv(s) && !Overflows(s, Visit(key))
    ensures Inv(Next(s, Visit(key)))
  {
    VisitKeepsReplay(s, key);
    VisitKeepsScan(s, key);
  }

  lemma TurnKeepsScan(s: State)
    requires WellKeyed(s.local, s.feed.entries) && ScanInv(s)
    ensures ScanInv(Next(s, Turn)) && Next(s, Turn) == s.(phase := Next(s, Turn).phase)
  {}

  lemma TurnKeepsInv(s: State)
    requires Inv(s)
    ensures Inv(Next(s, Turn))
  {
    TurnKeepsScan(s);
    assert Sent(Next(s, Turn)) == Sent(s);
  }

  lemma DialKeepsInv(s: State, attempt: nat, ok: bool)
    requires Inv(s)
    ensures Inv(Next(s, Dial(attempt, ok)))
  {
    DialKeepsTracked(s.world, attempt, ok);
    assert Sent(Next(s, Dial(attempt, ok))) == Sent(s);
  }

  lemma StepKeepsInv(s: State, step: Step)
    requires Inv(s) && !Overflows(s, step)
    ensures Inv(Next(s, step))
  {
    match step
    case Begin(scan) => BeginKeepsInv(s, scan);
    case Visit(key) => VisitKeepsInv(s, key);
    case Turn => TurnKeepsInv(s);
    case Receive => ReceiveKeepsInv(s);
    case HandleReceived => HandleKeepsInv(s);
    case Dial(attempt, ok) => DialKeepsInv(s, attempt, ok);
  }

  lemma {:induction false} RunKeepsInv(local: string, steps: seq<Step>)
    requires NeverOverflows(local, steps)
    ensures Inv(Run(local, steps))
    decreases |steps|
  {
    if steps != [] {
      var n := |steps| - 1;
      RunKeepsInv(local, steps[..n]);
      StepKeepsInv(Run(local, steps[..n]), steps[n]);
    }
  }

  // ---- Main results ----

  lemma QueueCatchesUp(local: string, steps: seq<Step>)
    requires NeverOverflows(local, steps)
    ensures CatchesUp(Run(local, steps))
  {
    RunKeepsInv(local, steps);
    InvCatchesUp(Run(local, steps));
  }

  /** Once the queue is empty after a scan and nothing is in hand, the manager tracks exactly the valid peers of that
      scan other than the local one, at the endpoints they were first seen with. */
  lemma DrainedTracksLastScan(local: string, steps: seq<Step>, peer: string)
    requires NeverOverflows(local, steps)
    requires var s := Run(local, steps);
             Outstanding(s) == [] && s.phase.Idle? && s.phase.last.Some?
    ensures var s := Run(local, steps);
            && (peer in s.world.peers <==>
                  peer != local && peer != "" &&
                  exists info :: info in s.phase.last.value && info.host != "" && 0 < info.port <= 65535 && info.peerID == peer)
            && (peer in s.world.peers ==>
                  peer in s.feed.entries && s.world.peers[peer].endpoint == s.feed.entries[peer].Endpoint())
  {
    RunKeepsInv(local, steps);
    var s := Run(local, steps);
    LocalNeverChanges(local, steps);
    SeenSetIsValid(local, s.phase.last.value);
    assert Sent(s) == s.handled;
    assert peer in s.world.peers <==> peer in C.Tracked(s.world);
    assert peer in s.feed.entries <==> peer in Endpoints(s.feed.entries);
    if peer in s.world.peers {
      assert C.Tracked(s.world)[peer] == Endpoints(s.feed.entries)[peer];
    }
  }

  lemma {:induction false} LocalNeverChanges(local: string, steps: seq<Step>)
    ensures Run(local, steps).local == local
  {
    if steps != [] {
      LocalNeverChanges(local, steps[..|steps| - 1]);
    }
  }

  lemma PeerAfterEvent(w: C.World, e: Event, peer: string)
    ensures FitsNext(w, e) && e.peer.peerID == peer ==> (peer in Handle(w, e).peers <==> e.Added?)
    ensures e.peer.peerID != peer ==> (peer in Handle(w, e).peers <==> peer in w.peers)
  {}

  lemma {:induction false} TrackedSince(events: seq<Event>, i: nat, k: nat)
    requires Alternates(C.EMPTY, events) && i < k <= |events|
    requires forall m :: i < m < k ==> events[m].peer.peerID != events[i].peer.peerID
    ensures events[i].peer.peerID in HandleAll(C.EMPTY, events[..k]).peers <==> events[i].Added?
    decreases k
  {
    var before := HandleAll(C.EMPTY, events[..k - 1]);
    assert events[..k][..k - 1] == events[..k - 1];
    AlternatesPrefix(C.EMPTY, events, k - 1);
    PeerAfterEvent(before, events[k - 1], events[i].peer.peerID);
    if k - 1 > i {
      TrackedSince(events, i, k - 1);
    }
  }

  lemma {:induction false} UntrackedBefore(events: seq<Event>, peer: string, k: nat)
    requires k <= |events|
    requires forall m :: 0 <= m < k ==> events[m].peer.peerID != peer
    ensures peer !in HandleAll(C.EMPTY, events[..k]).peers
  {
    if k > 0 {
      assert events[..k][..k - 1] == events[..k - 1];
      PeerAfterEvent(HandleAll(C.EMPTY, events[..k - 1]), events[k - 1], peer);
      UntrackedBefore(events, peer, k - 1);
    }
  }

  /** A peer's first event adds it, and each later one is of the other kind than the one before. */
  lemma EventsAlternate(local: string, steps: seq<Step>, i: nat, j: nat)
    requires NeverOverflows(local, steps)
    requires i < j < |Sent(Run(local, steps))|
    requires var h := Sent(Run(local, steps));
             h[i].peer.peerID == h[j].peer.peerID
             && forall m :: i < m < j ==> h[m].peer.peerID != h[i].peer.peerID
    ensures var h := Sent(Run(local, steps)); h[i].Added? <==> h[j].Removed?
  {
    RunKeepsInv(local, steps);
    var h := Sent(Run(local, steps));
    TrackedSince(h, i, j);
    AlternatesPrefix(C.EMPTY, h, j);
  }

  lemma FirstEventAdds(local: string, steps: seq<Step>, i: nat)
    requires NeverOverflows(local, steps)
    requires i < |Sent(Run(local, steps))|
    requires var h := Sent(Run(local, steps));
             forall m :: 0 <= m < i ==> h[m].peer.peerID != h[i].peer.peerID
    ensures Sent(Run(local, steps))[i].Added?
  {
    RunKeepsInv(local, steps);
    var h := Sent(Run(local, steps));
    UntrackedBefore(h, h[i].peer.peerID, i);
    AlternatesPrefix(C.EMPTY, h, i);
  }

  /** The bound on the queue is exactly what the agreement rests on: the first change met with a
      full queue breaks it. */
  lemma OverflowBreaksAgreement(s: State, step: Step)
    requires Inv(s) && step.Visit? && Next(s, step).feed.entries != s.feed.entries
    ensures CatchesUp(Next(s, step)) <==> |s.feed.events| < 32
  {
    InvCatchesUp(s);
    if Overflows(s, step) {
      VisitChangesKeys(s.feed, SeenSet(s.local, s.phase.scan), step.key);
      UntoldChange(s, Next(s, step));
    } else {
      StepKeepsInv(s, step);
      InvCatchesUp(Next(s, step));
    }
  }

  /** A change of which no event tells. */
  lemma UntoldChange(s: State, s': State)
    requires CatchesUp(s) && s'.world == s.world && Outstanding(s') == Outstanding(s)
    requires s'.feed.entries.Keys != s.feed.entries.Keys
    ensures !CatchesUp(s')
  {
    assert Endpoints(s.feed.entries).Keys == s.feed.entries.Keys;
    assert Endpoints(s'.feed.entries).Keys == s'.feed.entries.Keys;
  }

  // ---- Progress ----

  /** With nothing in hand, receiving and handling hands the oldest event over to the manager. */
  lemma OldestIsHandled(s: State)
    requires s.inHand.None? && s.feed.events != []
    ensures var s' := Next(Next(s, Receive), HandleReceived);
            && Outstanding(s') == Outstanding(s)[1..] && s'.inHand.None?
            && s'.world == Handle(s.world, s.feed.events[0]) && s'.feed.entries == s.feed.entries
  {}

  function VisitAll(s: State, keys: seq<string>): State {
    if keys == [] then s else Next(VisitAll(s, keys[..|keys| - 1]), Visit(keys[|keys| - 1]))
  }

  lemma {:induction false} VisitsShrinkTodo(s: State, keys: seq<string>)
    requires !s.phase.Idle?
    ensures var t := VisitAll(s, keys);
            && t.phase == s.phase.(todo := s.phase.todo - Elements(keys))
            && t.local == s.local
  {
    if keys != [] {
      LastElement(keys);
      VisitsShrinkTodo(s, keys[..|keys| - 1]);
    }
  }

  /** A scan runs to its end, whatever the orders in which the two maps are visited. */
  lemma ScanCompletes(s: State, scan: seq<PeerInfo>, added: seq<string>, removed: seq<string>)
    requires s.phase.Idle? && Elements(added) == SeenSet(s.local, scan).Keys
    requires var t := VisitAll(Next(s, Begin(scan)), added); Elements(removed) == t.feed.entries.Keys
    ensures var t := Next(VisitAll(Next(s, Begin(scan)), added), Turn);
            Next(VisitAll(t, removed), Turn).phase == Idle(Some(scan))
  {
    VisitsShrinkTodo(Next(s, Begin(scan)), added);
    var t := Next(VisitAll(Next(s, Begin(scan)), added), Turn);
    assert SeenSet(s.local, scan).Keys - Elements(added) == {};
    VisitsShrinkTodo(t, removed);
    assert t.phase.todo - Elements(removed) == {};
  }

  // ---- A run that overflows ----

  /** The first scan, with these keys visited and nothing received meanwhile. */
  function FirstScan(scan: seq<PeerInfo>, keys: seq<string>): seq<Step> {
    if keys == [] then [Begin(scan)] else FirstScan(scan, keys[..|keys| - 1]) + [Visit(keys[|keys| - 1])]
  }

  lemma RunOneMore(local: string, steps: seq<Step>, step: Step)
    ensures Run(local, steps + [step]) == Next(Run(local, steps), step)
    ensures NeverOverflows(local, steps + [step]) <==> NeverOverflows(local, steps) && !Overflows(Run(local, steps), step)
  {
    assert (steps + [step])[..|steps|] == steps;
  }

  /** These keys have been visited, and each has its event in the queue. */
  ghost predicate AllQueued(s: State, local: string, scan: seq<PeerInfo>, keys: set<string>) {
    && s.local == local && s.phase == Adding(scan, SeenSet(local, scan).Keys - keys)
    && s.feed.entries.Keys == keys && |s.feed.events| == |keys|
  }

  lemma VisitQueues(s: State, local: string, scan: seq<PeerInfo>, keys: set<string>, key: string)
    requires AllQueued(s, local, scan, keys) && key in SeenSet(local, scan) && key !in keys
    ensures Next(s, Visit(key)).feed.entries != s.feed.entries
    ensures |keys| < QUEUE_SLOTS ==> AllQueued(Next(s, Visit(key)), local, scan, keys + {key})
  {
    var s' := Next(s, Visit(key));
    assert s'.feed == VisitSeen(s.feed, SeenSet(local, scan), key);
    assert s'.feed.entries.Keys == keys + {key};
    assert SeenSet(local, scan).Keys - keys - {key} == SeenSet(local, scan).Keys - (keys + {key});
  }

  lemma {:induction false} FirstScanQueuesAll(local: string, scan: seq<PeerInfo>, keys: seq<string>)
    requires Distinct(keys) && Elements(keys) <= SeenSet(local, scan).Keys && |keys| <= QUEUE_SLOTS
    ensures AllQueued(Run(local, FirstScan(scan, keys)), local, scan, Elements(keys))
    ensures NeverOverflows(local, FirstScan(scan, keys))
    ensures |Elements(keys)| == |keys|
    decreases |keys|
  {
    if keys == [] {
      RunOneMore(local, [], Begin(scan));
      assert [] + [Begin(scan)] == [Begin(scan)];
      assert SeenSet(local, scan).Keys - {} == SeenSet(local, scan).Keys;
    } else {
      var before, key := keys[..|keys| - 1], keys[|keys| - 1];
      LastElement(keys);
      FirstScanQueuesAll(local, scan, before);
      RunOneMore(local, FirstScan(scan, before), Visit(key));
      VisitQueues(Run(local, FirstScan(scan, before)), local, scan, Elements(before), key);
    }
  }

  /** A first scan of more than 32 valid peers loses an event, in every visiting order, if nothing is
      received meanwhile: the 33rd peer becomes known but is not announced. */
  lemma ThirtyThirdIsLost(local: string, scan: seq<PeerInfo>, keys: seq<string>)
    requires Distinct(keys) && Elements(keys) <= SeenSet(local, scan).Keys && |keys| == QUEUE_SLOTS + 1
    ensures NeverOverflows(local, FirstScan(scan, keys[..QUEUE_SLOTS]))
    ensures Overflows(Run(local, FirstScan(scan, keys[..QUEUE_SLOTS])), Visit(keys[QUEUE_SLOTS]))
    ensures !CatchesUp(Run(local, FirstScan(scan, keys)))
  {
    var before, key := keys[..QUEUE_SLOTS], keys[QUEUE_SLOTS];
    assert keys == before + [key];
    assert key !in Elements(before) && Elements(before) <= Elements(keys) && key in Elements(keys);
    FirstScanQueuesAll(local, scan, before);
    var steps := FirstScan(scan, before);
    VisitQueues(Run(local, steps), local, scan, Elements(before), key);
    RunOneMore(local, steps, Visit(key));
    RunKeepsInv(local, steps);
    OverflowBreaksAgreement(Run(local, steps), Visit(key));
  }

  function Name(k: nat): string {
    seq(k + 1, _ => 'a')
  }

  /** Such a scan exists. */
  lemma CrowdOverflows()
    ensures var keys := seq(QUEUE_SLOTS + 1, k requires k >= 0 => Name(k));
            var crowd := seq(QUEUE_SLOTS + 1, k requires k >= 0 => PeerInfo(Name(k), "host", 4000));
            !CatchesUp(Run("me", FirstScan(crowd, keys)))
  {
    var keys := seq(QUEUE_SLOTS + 1, k requires k >= 0 => Name(k));
    var crowd := seq(QUEUE_SLOTS + 1, k requires k >= 0 => PeerInfo(Name(k), "host", 4000));
    SeenSetIsValid("me", crowd);
    forall key | key in Elements(keys) ensures key in SeenSet("me", crowd) {
      var k :| 0 <= k < |keys| && keys[k] == key;
      assert crowd[k] in crowd && crowd[k].IsValid() && key[0] != "me"[0];
    }
    forall i, j | 0 <= i < j < |keys| ensures keys[i] != keys[j] {
      assert |keys[i]| != |keys[j]|;
    }
    ThirtyThirdIsLost("me", crowd, keys);
  }

  lemma VisitChangesKeys(f: Feed, seen: Entries, key: string)
    ensures var g := VisitSeen(f, seen, key); g.entries != f.entries ==> g.entries.Keys != f.entries.Keys
    ensures var g := VisitEntry(f, seen.Keys, key); g.entries != f.entries ==> g.entries.Keys != f.entries.Keys
  {}

  lemma InvCatchesUp(s: State)
    requires Inv(s)
    ensures CatchesUp(s)
  {
    HandleAllTracked(s.world, C.EMPTY, s.handled, Outstanding(s));
  }
}
