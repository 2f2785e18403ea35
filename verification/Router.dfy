/** The TCP server: listed clients, the registry of peer IDs, and one bounded queue per client.
    Connections are named by numbers; conns holds the object behind each name. */
module Router {
  import opened Prelude
  import P = Protocol
  import T = Timestamp

  const MAX_CONNECTIONS := 256
  const QUEUE_SLOTS := 16

  type ConnID = nat
  datatype Conn = Conn(peerID: string, queue: seq<P.Message>, closed: bool)

  const NEW_CONN := Conn("", [], false)

  /** pending is the connection that passed the limit check and is not listed yet. */
  datatype State = State(clients: set<ConnID>, peers: map<string, ConnID>, conns: map<ConnID, Conn>, pending: Option<ConnID>)

  const EMPTY := State({}, map[], map[], None)

  // ---- One critical section each ----

  predicate CanTake(c: Conn) {
    !c.closed && |c.queue| < QUEUE_SLOTS
  }

  function Queued(c: Conn, m: P.Message): Conn {
    if CanTake(c) then c.(queue := c.queue + [m]) else c
  }

  function Unregistered(peers: map<string, ConnID>, peerID: string, id: ConnID): map<string, ConnID> {
    if peerID != "" && peerID in peers && peers[peerID] == id then peers - {peerID} else peers
  }

  function Unlisted(s: State, id: ConnID): State
    requires id in s.conns
  {
    s.(clients := s.clients - {id}, peers := Unregistered(s.peers, s.conns[id].peerID, id))
  }

  function Closed(s: State, id: ConnID): State
    requires id in s.conns
  {
    s.(conns := s.conns[id := s.conns[id].(closed := true)])
  }

  /** removeClient: the client leaves the maps under the lock and is closed after it. */
  function Removed(s: State, id: ConnID): State
    requires id in s.conns
  {
    Closed(Unlisted(s, id), id)
  }

  /** Queue the message, or remove the client if it cannot take it. */
  function SentTo(s: State, id: ConnID, m: P.Message): State
    requires id in s.conns
  {
    if CanTake(s.conns[id]) then s.(conns := s.conns[id := Queued(s.conns[id], m)]) else Removed(s, id)
  }

  // ---- Broadcast ----

  /** Every listed client and every registered one has an object. */
  ghost predicate Valid(s: State) {
    && s.clients <= s.conns.Keys
    && s.peers.Values <= s.conns.Keys
    && (s.pending.Some? ==> s.pending.value in s.conns)
  }

  function SentToEach(s: State, ids: seq<ConnID>, m: P.Message): State
    requires forall id :: id in ids ==> id in s.conns
    ensures SentToEach(s, ids, m).conns.Keys == s.conns.Keys
  {
    if ids == [] then s else SentTo(SentToEach(s, ids[..|ids| - 1], m), ids[|ids| - 1], m)
  }

  /** Sending to these clients in this order has, for each of them and for all others, the effect
      a broadcast promises. */
  ghost predicate BroadcastEffect(s: State, reached: set<ConnID>, m: P.Message, s': State) {
    && s'.conns.Keys == s.conns.Keys
    && (forall id :: id in reached && id in s.conns && !s.conns[id].closed && |s.conns[id].queue| < 16 ==>
          s'.conns[id] == s.conns[id].(queue := s.conns[id].queue + [m]))
    && (forall id :: id in reached && id in s.conns && (s.conns[id].closed || |s.conns[id].queue| >= 16) ==>
          s'.conns[id] == s.conns[id].(closed := true))
    && (forall id :: id in s.conns && id !in reached ==> s'.conns[id] == s.conns[id])
    && (forall id :: id in s'.clients <==> id in s.clients && !Dropped(s, reached, id))
    && (forall k :: k in s'.peers <==> k in s.peers && !(Dropped(s, reached, s.peers[k]) && RegisteredAs(s, k)))
    && (forall k :: k in s'.peers ==> s'.peers[k] == s.peers[k])
    && s'.pending == s.pending
  }

  ghost predicate Dropped(s: State, reached: set<ConnID>, id: ConnID) {
    id in reached && id in s.conns && (s.conns[id].closed || |s.conns[id].queue| >= 16)
  }

  /** The registration under k is under the current ID of its client. */
  ghost predicate RegisteredAs(s: State, k: string) {
    k != "" && k in s.peers && s.peers[k] in s.conns && s.conns[s.peers[k]].peerID == k
  }

  lemma SentToHasEffect(s: State, reached: set<ConnID>, m: P.Message, mid: State, id: ConnID)
    requires BroadcastEffect(s, reached, m, mid) && id in s.conns && id !in reached
    ensures BroadcastEffect(s, reached + {id}, m, SentTo(mid, id, m))
  {
    var s' := SentTo(mid, id, m);
    assert mid.conns[id] == s.conns[id];
    forall k
      ensures k in s'.peers <==> k in s.peers && !(Dropped(s, reached + {id}, s.peers[k]) && RegisteredAs(s, k))
    {}
  }

  lemma {:induction false} BroadcastReachesAll(s: State, ids: seq<ConnID>, m: P.Message)
    requires Distinct(ids) && forall id :: id in ids ==> id in s.conns
    ensures BroadcastEffect(s, Elements(ids), m, SentToEach(s, ids, m))
  {
    if ids != [] {
      var n := |ids| - 1;
      LastElement(ids);
      assert ids[n] !in Elements(ids[..n]);
      BroadcastReachesAll(s, ids[..n], m);
      SentToHasEffect(s, Elements(ids[..n]), m, SentToEach(s, ids[..n], m), ids[n]);
    }
  }

  // ---- Every interleaving ----

  datatype Step =
    | Check(id: ConnID)
    | Insert
    | Enqueue(id: ConnID, message: P.Message)
    | Emit(id: ConnID)
    | Unlist(id: ConnID)
    | CloseConn(id: ConnID)
    | Name(id: ConnID, peerID: string)
    | Register(id: ConnID, peerID: string)

  /** A step that is not possible leaves the state as it is. Check and Insert are the two critical
      sections of the accept loop; Name and Register are the two halves of a join. */
  function Apply(s: State, step: Step): State {
    match step
    case Check(id) =>
      if s.pending.Some? || id in s.conns || |s.clients| >= MAX_CONNECTIONS then s
      else s.(conns := s.conns[id := NEW_CONN], pending := Some(id))
    case Insert =>
      if s.pending.None? then s
      else s.(clients := s.clients + {s.pending.value}, pending := None)
    case Enqueue(id, m) =>
      if id !in s.conns then s else s.(conns := s.conns[id := Queued(s.conns[id], m)])
    case Emit(id) =>
      if id !in s.conns || s.conns[id].queue == [] then s
      else s.(conns := s.conns[id := s.conns[id].(queue := s.conns[id].queue[1..])])
    case Unlist(id) => if id !in s.conns then s else Unlisted(s, id)
    case CloseConn(id) => if id !in s.conns then s else Closed(s, id)
    case Name(id, peerID) =>
      if id !in s.conns || peerID == "" then s
      else s.(conns := s.conns[id := s.conns[id].(peerID := peerID)])
    case Register(id, peerID) =>
      if id !in s.conns || peerID == "" then s else s.(peers := s.peers[peerID := id])
  }

  function Run(steps: seq<Step>): State {
    if steps == [] then EMPTY else Apply(Run(steps[..|steps| - 1]), steps[|steps| - 1])
  }

  lemma StepStaysValid(s: State, step: Step)
    requires Valid(s)
    ensures Valid(Apply(s, step))
  {
    var s' := Apply(s, step);
    forall c | c in s'.peers.Values ensures c in s'.conns {
      var k :| k in s'.peers && s'.peers[k] == c;
      assert (step.Register? && step.id == c) || (k in s.peers && s.peers[k] in s.peers.Values);
    }
  }

  /** In every run, proper joins or not, each listed and each registered client has an object. */
  lemma {:induction false} RunStaysValid(steps: seq<Step>)
    ensures Valid(Run(steps))
  {
    if steps != [] {
      RunStaysValid(steps[..|steps| - 1]);
      StepStaysValid(Run(steps[..|steps| - 1]), steps[|steps| - 1]);
    }
  }

  // ---- The connection limit ----

  ghost predicate UnderLimit(s: State) {
    |s.clients| <= MAX_CONNECTIONS && (s.pending.Some? ==> |s.clients| < MAX_CONNECTIONS)
  }

  lemma {:induction false} LimitHolds(steps: seq<Step>)
    ensures UnderLimit(Run(steps))
  {
    if steps != [] {
      var n := |steps| - 1;
      LimitHolds(steps[..n]);
      var s := Run(steps[..n]);
      if steps[n].Unlist? {
        SubsetSize(s.clients - {steps[n].id}, s.clients);
      }
    }
  }

  // ---- Queues ----

  function Queue(s: State, id: ConnID): seq<P.Message> {
    if id in s.conns then s.conns[id].queue else []
  }

  function Enqueued(steps: seq<Step>, id: ConnID): seq<P.Message> {
    if steps == [] then []
    else
      var n := |steps| - 1;
      var s := Run(steps[..n]);
      Enqueued(steps[..n], id) +
        if steps[n].Enqueue? && steps[n].id == id && id in s.conns && CanTake(s.conns[id])
        then [steps[n].message] else []
  }

  function Emitted(steps: seq<Step>, id: ConnID): seq<P.Message> {
    if steps == [] then []
    else
      var n := |steps| - 1;
      var queue := Queue(Run(steps[..n]), id);
      Emitted(steps[..n], id) + if steps[n] == Emit(id) && queue != [] then [queue[0]] else []
  }

  lemma StepMovesQueue(s: State, step: Step, id: ConnID)
    ensures Queue(Apply(s, step), id) ==
              if step == Emit(id) && Queue(s, id) != [] then Queue(s, id)[1..]
              else if step.Enqueue? && step.id == id && id in s.conns && CanTake(s.conns[id])
              then Queue(s, id) + [step.message]
              else Queue(s, id)
  {}

  lemma StepConserves(s: State, step: Step, id: ConnID, emitted: seq<P.Message>, enqueued: seq<P.Message>)
    requires emitted + Queue(s, id) == enqueued
    ensures var out := if step == Emit(id) && Queue(s, id) != [] then [Queue(s, id)[0]] else [];
            var got := if step.Enqueue? && step.id == id && id in s.conns && CanTake(s.conns[id])
                       then [step.message] else [];
            emitted + out + Queue(Apply(s, step), id) == enqueued + got
  {
    StepMovesQueue(s, step, id);
  }

  /** What a client's writer has emitted, followed by its queue, is what was accepted for it: the
      emissions are a prefix, in order, with nothing lost or repeated. */
  lemma {:induction false} EmittedIsPrefix(steps: seq<Step>, id: ConnID)
    ensures Emitted(steps, id) + Queue(Run(steps), id) == Enqueued(steps, id)
    ensures Emitted(steps, id) <= Enqueued(steps, id)
  {
    if steps != [] {
      var n := |steps| - 1;
      EmittedIsPrefix(steps[..n], id);
      StepConserves(Run(steps[..n]), steps[n], id, Emitted(steps[..n], id), Enqueued(steps[..n], id));
    }
  }

  /** A closed client stays closed and its queue never grows. */
  lemma ClosedNeverGrows(s: State, step: Step, id: ConnID)
    requires id in s.conns && s.conns[id].closed
    ensures var s' := Apply(s, step);
            && id in s'.conns && s'.conns[id].closed
            && (Queue(s', id) == Queue(s, id) || (step == Emit(id) && Queue(s', id) == Queue(s, id)[1..]))
  {}

  // ---- The registry ----

  /** Every entry points to a listed client whose ID it is. */
  ghost predicate RegistryOK(s: State) {
    forall k :: k in s.peers ==> k != "" && s.peers[k] in s.clients && s.peers[k] in s.conns && s.conns[s.peers[k]].peerID == k
  }

  /** Renaming a client keeps the registry sound exactly if it is not registered under another ID. */
  lemma {:induction false} NameKeepsRegistryIff(s: State, id: ConnID, peerID: string)
    requires RegistryOK(s) && id in s.conns && peerID != ""
    ensures RegistryOK(Apply(s, Name(id, peerID))) <==> forall k :: k in s.peers && s.peers[k] == id ==> k == peerID
  {
    var s' := Apply(s, Name(id, peerID));
    if RegistryOK(s') {
      forall k | k in s.peers && s.peers[k] == id ensures k == peerID {
        assert k in s'.peers;
      }
    }
  }

  /** Registering a client keeps the registry sound exactly if the client is still listed and still
      carries that ID. */
  lemma RegisterKeepsRegistryIff(s: State, id: ConnID, peerID: string)
    requires RegistryOK(s) && id in s.conns && peerID != ""
    ensures RegistryOK(Apply(s, Register(id, peerID))) <==> id in s.clients && s.conns[id].peerID == peerID
  {
    var s' := Apply(s, Register(id, peerID));
    assert peerID in s'.peers && s'.peers[peerID] == id;
  }

  /** Joins that keep to one ID per client and happen while the client is listed. */
  ghost predicate ProperJoin(s: State, step: Step) {
    match step
    case Name(id, peerID) => forall k :: k in s.peers && s.peers[k] == id ==> k == peerID
    case Register(id, peerID) => id in s.clients && id in s.conns && s.conns[id].peerID == peerID
    case _ => true
  }

  lemma StepKeepsRegistry(s: State, step: Step)
    requires RegistryOK(s) && Valid(s) && ProperJoin(s, step)
    ensures RegistryOK(Apply(s, step))
  {
    var s' := Apply(s, step);
    assert forall k :: k in s'.peers ==> s'.peers[k] in s'.peers.Values;
  }

  lemma {:induction false} RegistryHolds(steps: seq<Step>)
    requires forall i :: 0 <= i < |steps| ==> ProperJoin(Run(steps[..i]), steps[i])
    ensures RegistryOK(Run(steps))
    decreases |steps|
  {
    if steps != [] {
      var n := |steps| - 1;
      assert forall i :: 0 <= i < n ==> steps[..n][..i] == steps[..i];
      RegistryHolds(steps[..n]);
      RunStaysValid(steps[..n]);
      StepKeepsRegistry(Run(steps[..n]), steps[n]);
    }
  }

  /** Removing a client takes away its own registration and nobody else's. */
  lemma RemoveSparesNewerHolder(s: State, id: ConnID, k: string)
    requires RegistryOK(s) && id in s.conns
    ensures k in Removed(s, id).peers <==> k in s.peers && s.peers[k] != id
    ensures k in Removed(s, id).peers ==> Removed(s, id).peers[k] == s.peers[k]
  {}

  /** A client removed between the two halves of its join stays in the registry. */
  lemma LateRegistrationIsStale()
    ensures var s := Run([Check(0), Insert, Name(0, "p"), Unlist(0), Register(0, "p")]);
            "p" in s.peers && s.peers["p"] !in s.clients
  {
    var steps := [Check(0), Insert, Name(0, "p"), Unlist(0), Register(0, "p")];
    assert steps[..5] == steps;
    assert steps[..4][..3] == steps[..3] && steps[..3][..2] == steps[..2] && steps[..2][..1] == steps[..1];
    assert steps[..1][..0] == [];
    assert Run(steps[..1]) == State({}, map[], map[0 := NEW_CONN], Some(0));
    assert Run(steps[..2]) == State({0}, map[], map[0 := NEW_CONN], None);
    assert Run(steps[..3]) == State({0}, map[], map[0 := Conn("p", [], false)], None);
    assert Run(steps[..4]) == State({}, map[], map[0 := Conn("p", [], false)], None);
  }

  // ---- The server ----

  function Failure(to: string, body: string, id: string, stamp: T.Stamp): P.Message {
    P.Message(P.VERSION, id, "system", "server", to, "", stamp, body)
  }

  function UnknownNotice(m: P.Message, id: string, stamp: T.Stamp): P.Message {
    Failure(m.senderID, "delivery failed: peer " + m.recipientID + " unknown or offline", id, stamp)
  }

  function GoneNotice(m: P.Message, id: string, stamp: T.Stamp): P.Message {
    Failure(m.senderID, "delivery failed: peer " + m.recipientID + " disconnected", id, stamp)
  }

  /** A directed message: queued for the client registered under its recipient, or else the sender is
      told that there is none or that it has been removed. */
  function Directed(s: State, sender: ConnID, m: P.Message, unknown: P.Message, gone: P.Message): State
    requires Valid(s)
  {
    if m.recipientID !in s.peers then Apply(s, Enqueue(sender, unknown))
    else
      var to := s.peers[m.recipientID];
      assert to in s.peers.Values;
      if CanTake(s.conns[to]) then SentTo(s, to, m) else Apply(Removed(s, to), Enqueue(sender, gone))
  }

  /** Of all queues only two can grow: the registered recipient's by the message, or, if it is unknown
      or cannot take it, the sender's by the notice. Only that recipient can be removed. */
  lemma DirectedReachesOne(s: State, sender: ConnID, m: P.Message, unknown: P.Message, gone: P.Message, id: ConnID)
    requires Valid(s) && sender in s.conns && id in s.conns
    ensures var s', known := Directed(s, sender, m, unknown, gone), m.recipientID in s.peers;
            var delivered := known && s.peers[m.recipientID] in s.conns
                             && !s.conns[s.peers[m.recipientID]].closed && |s.conns[s.peers[m.recipientID]].queue| < 16;
            && Queue(s', id) == Queue(s, id)
                 + (if delivered && id == s.peers[m.recipientID] then [m] else [])
                 + (if !delivered && id == sender && !s.conns[id].closed && |s.conns[id].queue| < 16 then [if known then gone else unknown] else [])
            && (s'.conns[id].closed <==> s.conns[id].closed || (known && !delivered && id == s.peers[m.recipientID]))
            && (id in s'.clients <==> id in s.clients && !(known && !delivered && id == s.peers[m.recipientID]))
  {
    if m.recipientID in s.peers {
      assert s.peers[m.recipientID] in s.peers.Values;
    }
  }

  lemma NotBlank(s: string)
    requires s != "" && P.SpaceLen(s) == 0
    ensures !P.IsBlank(s)
  {}

  lemma FailureCanBeSent(to: string, body: string, id: string, stamp: T.Stamp)
    requires |to| <= P.MAX_SENDER_ID_LEN && body != "" && P.SpaceLen(body) == 0 && |body| <= P.MAX_BODY_LEN
    requires !P.IsBlank(id) && |id| <= P.MAX_ID_LEN && T.HasText(stamp) && !T.IsZero(stamp)
    ensures P.CanSend(Failure(to, body, id, stamp))
  {
    NotBlank(body);
    NotBlank("server");
  }

  lemma NoticeText(who: string, rest: string)
    requires |who| <= P.MAX_SENDER_ID_LEN && |rest| <= 24
    ensures var body := "delivery failed: peer " + who + rest;
            body != "" && P.SpaceLen(body) == 0 && |body| <= P.MAX_BODY_LEN
  {
    assert ("delivery failed: peer " + who + rest)[0] == 'd';
  }

  /** A notice about a valid message is addressed to its sender and can be sent itself. */
  lemma NoticesCanBeSent(m: P.Message, id: string, stamp: T.Stamp)
    requires |m.senderID| <= P.MAX_SENDER_ID_LEN && |m.recipientID| <= P.MAX_SENDER_ID_LEN
    requires !P.IsBlank(id) && |id| <= P.MAX_ID_LEN && T.HasText(stamp) && !T.IsZero(stamp)
    ensures var n := UnknownNotice(m, id, stamp); P.CanSend(n) && n.recipientID == m.senderID
    ensures var n := GoneNotice(m, id, stamp); P.CanSend(n) && n.recipientID == m.senderID
  {
    NoticeText(m.recipientID, " unknown or offline");
    NoticeText(m.recipientID, " disconnected");
    FailureCanBeSent(m.senderID, "delivery failed: peer " + m.recipientID + " unknown or offline", id, stamp);
    FailureCanBeSent(m.senderID, "delivery failed: peer " + m.recipientID + " disconnected", id, stamp);
  }

  class Server {
    var clients: set<ConnID>
    var peers: map<string, ConnID>
    var conns: map<ConnID, Conn>
    var pending: Option<ConnID>

    function View(): State
      reads this
    {
      State(clients, peers, conns, pending)
    }

    constructor ()
      ensures View() == EMPTY
    {
      clients, peers, conns, pending := {}, map[], map[], None;
    }

    /** The limit check of the accept loop, and the client object it makes. */
    method Admit(id: ConnID) returns (admitted: bool)
      requires id !in conns && pending.None?
      modifies this
      ensures View() == Apply(old(View()), Check(id))
      ensures admitted <==> |old(clients)| < 256
      ensures clients == old(clients) && peers == old(peers)
      ensures if admitted then pending == Some(id) && conns == old(conns)[id := Conn("", [], false)]
              else pending.None? && conns == old(conns)
    {
      admitted := |clients| < MAX_CONNECTIONS;
      if admitted {
        conns := conns[id := NEW_CONN];
        pending := Some(id);
      }
    }

    method AddClient()
      requires pending.Some?
      modifies this
      ensures View() == Apply(old(View()), Insert)
      ensures clients == old(clients) + {old(pending).value} && pending.None?
      ensures peers == old(peers) && conns == old(conns)
    {
      clients := clients + {pending.value};
      pending := None;
    }

    method RemoveClient(id: ConnID)
      requires id in conns
      modifies this
      ensures View() == Apply(Apply(old(View()), Unlist(id)), CloseConn(id)) == Removed(old(View()), id)
      ensures clients == old(clients) - {id} && pending == old(pending)
      ensures conns == old(conns)[id := old(conns)[id].(closed := true)]
      ensures var k := old(conns)[id].peerID;
              peers == if k != "" && k in old(peers) && old(peers)[k] == id then old(peers) - {k} else old(peers)
    {
      if id in clients {
        clients := clients - {id};
      }
      var peerID := conns[id].peerID;
      if peerID != "" {
        if peerID in peers && peers[peerID] == id {
          peers := peers - {peerID};
        }
      }
      conns := conns[id := conns[id].(closed := true)];
    }

    method RegisterPeer(id: ConnID, peerID: string)
      requires id in conns && peerID != ""
      modifies this
      ensures View() == Apply(old(View()), Register(id, peerID))
      ensures peers == old(peers)[peerID := id] && clients == old(clients) && conns == old(conns) && pending == old(pending)
    {
      peers := peers[peerID := id];
    }

    method EnqueueTo(id: ConnID, m: P.Message) returns (ok: bool)
      requires id in conns
      modifies this`conns
      ensures conns == old(conns)[id := Queued(old(conns)[id], m)]
      ensures ok <==> !old(conns)[id].closed && |old(conns)[id].queue| < 16
      ensures conns == if ok then old(conns)[id := old(conns)[id].(queue := old(conns)[id].queue + [m])] else old(conns)
    {
      ok := !conns[id].closed && |conns[id].queue| < QUEUE_SLOTS;
      if ok {
        conns := conns[id := conns[id].(queue := conns[id].queue + [m])];
      } else {
        assert conns[id := conns[id]] == conns;
      }
    }

    /** An undirected message, while nothing else runs: the listed clients other than the sender
        are reached in arbitrary order. */
    method Broadcast(sender: ConnID, m: P.Message)
      requires Valid(View())
      modifies this
      ensures BroadcastEffect(old(View()), old(clients) - {sender}, m, View())
    {
      var recipients := clients - {sender};
      var todo := recipients;
      ghost var order: seq<ConnID> := [];
      while todo != {}
        invariant todo <= recipients
        invariant Lists(order, recipients - todo)
        invariant forall id :: id in order ==> id in old(conns)
        invariant View() == SentToEach(old(View()), order, m)
        decreases todo
      {
        var id :| id in todo;
        ListOneMore(order, recipients - todo, id);
        assert recipients - (todo - {id}) == recipients - todo + {id};
        order := order + [id];
        todo := todo - {id};
        var ok := EnqueueTo(id, m);
        if !ok {
          RemoveClient(id);
        }
      }
      assert recipients - todo == recipients;
      BroadcastReachesAll(old(View()), order, m);
    }

    /** A directed message; a failure is reported to the sender, whose own queue may be full. */
    method Direct(sender: ConnID, m: P.Message, unknown: P.Message, gone: P.Message) returns (delivered: bool)
      requires Valid(View()) && sender in conns
      modifies this
      ensures delivered <==> m.recipientID in old(peers) && CanTake(old(conns)[old(peers)[m.recipientID]])
      ensures View() == Directed(old(View()), sender, m, unknown, gone)
    {
      if m.recipientID !in peers {
        var told := EnqueueTo(sender, unknown);
        return false;
      }
      var recipient := peers[m.recipientID];
      assert recipient in peers.Values;
      delivered := EnqueueTo(recipient, m);
      if !delivered {
        assert View() == old(View());
        RemoveClient(recipient);
        var told := EnqueueTo(sender, gone);
      }
    }

    method RouteMessage(sender: ConnID, m: P.Message, now: T.Stamp, nowID: string)
      requires Valid(View()) && sender in conns
      modifies this
      ensures P.IsBlank(m.recipientID) ==>
                BroadcastEffect(old(View()), old(clients) - {sender}, m, View())
      ensures !P.IsBlank(m.recipientID) ==>
                View() == Directed(old(View()), sender, m, UnknownNotice(m, nowID, now), GoneNotice(m, nowID, now))
    {
      if !P.IsBlank(m.recipientID) {
        var unknown, gone := UnknownNotice(m, nowID, now), GoneNotice(m, nowID, now);
        var delivered := Direct(sender, m, unknown, gone);
      } else {
        Broadcast(sender, m);
      }
    }
  }
}
