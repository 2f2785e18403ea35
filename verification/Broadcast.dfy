/** A broadcast among everything else that goes on: each send, each unlisting and each closing is a
    critical section of its own, and any steps of other goroutines may stand between them. */
module Broadcast {
  import opened Prelude
  import R = Router
  import P = Protocol

  type ConnID = R.ConnID

  /** A client that could not take the message is unlisted next, and then closed. */
  datatype Stage = Sending | Failed(id: ConnID) | Unlisted(id: ConnID)

  /** todo holds the recipients still to be visited; sent and dropped are history only. */
  datatype Cast = Cast(todo: set<ConnID>, stage: Stage, sent: seq<ConnID>, dropped: set<ConnID>)

  datatype World = World(state: R.State, cast: Cast)

  datatype Move =
    | Visit(id: ConnID)
    | Resume
    | Other(step: R.Step)

  /** The recipients are those listed when the broadcast starts. */
  function Start(s: R.State, sender: ConnID): World {
    World(s, Cast(s.clients - {sender}, Sending, [], {}))
  }

  /** The step a move makes on the server, if it makes one. */
  function StepOf(w: World, m: P.Message, move: Move): Option<R.Step> {
    match move
    case Other(step) => Some(step)
    case Visit(id) =>
      if w.cast.stage.Sending? && id in w.cast.todo && id in w.state.conns && R.CanTake(w.state.conns[id])
      then Some(R.Enqueue(id, m)) else None
    case Resume =>
      match w.cast.stage
      case Sending => None
      case Failed(id) => Some(R.Unlist(id))
      case Unlisted(id) => Some(R.CloseConn(id))
  }

  function CastAfter(w: World, move: Move): Cast {
    var c := w.cast;
    match move
    case Other(_) => c
    case Visit(id) =>
      if !c.stage.Sending? || id !in c.todo || id !in w.state.conns then c
      else if R.CanTake(w.state.conns[id]) then c.(todo := c.todo - {id}, sent := c.sent + [id])
      else c.(todo := c.todo - {id}, stage := Failed(id))
    case Resume =>
      match c.stage
      case Sending => c
      case Failed(id) => c.(stage := Unlisted(id))
      case Unlisted(id) => c.(stage := Sending, dropped := c.dropped + {id})
  }

  function Next(w: World, m: P.Message, move: Move): World {
    var step := StepOf(w, m, move);
    World(if step.Some? then R.Apply(w.state, step.value) else w.state, CastAfter(w, move))
  }

  function Run(s: R.State, sender: ConnID, m: P.Message, moves: seq<Move>): World {
    if moves == [] then Start(s, sender)
    else Next(Run(s, sender, m, moves[..|moves| - 1]), m, moves[|moves| - 1])
  }

  // ---- The server's own runs ----

  /** The steps made on the server, by the broadcast and by others. */
  function Trace(s: R.State, sender: ConnID, m: P.Message, moves: seq<Move>): seq<R.Step> {
    if moves == [] then []
    else
      var n := |moves| - 1;
      var step := StepOf(Run(s, sender, m, moves[..n]), m, moves[n]);
      Trace(s, sender, m, moves[..n]) + if step.Some? then [step.value] else []
  }

  /** With a broadcast under way the server still makes one of its runs, so all that holds of every
      run, the connection limit and the order of the queues among it, holds here. */
  lemma {:induction false} CastIsServerRun(steps: seq<R.Step>, sender: ConnID, m: P.Message, moves: seq<Move>)
    ensures var s := R.Run(steps);
            Run(s, sender, m, moves).state == R.Run(steps + Trace(s, sender, m, moves))
  {
    var s := R.Run(steps);
    if moves == [] {
      assert steps + [] == steps;
    } else {
      var n := |moves| - 1;
      var before := steps + Trace(s, sender, m, moves[..n]);
      CastIsServerRun(steps, sender, m, moves[..n]);
      var step := StepOf(Run(s, sender, m, moves[..n]), m, moves[n]);
      if step.Some? {
        assert steps + Trace(s, sender, m, moves) == before + [step.value];
        assert (before + [step.value])[..|before|] == before;
      } else {
        assert Trace(s, sender, m, moves) == Trace(s, sender, m, moves[..n]);
      }
    }
  }

  // ---- What becomes of each recipient ----

  /** The connection between check and listing is not listed yet. */
  ghost predicate PendingIsNew(s: R.State) {
    R.Valid(s) && (s.pending.Some? ==> s.pending.value !in s.clients)
  }

  lemma {:induction false} PendingStaysNew(steps: seq<R.Step>)
    ensures PendingIsNew(R.Run(steps))
  {
    if steps != [] {
      PendingStaysNew(steps[..|steps| - 1]);
      R.StepStaysValid(R.Run(steps[..|steps| - 1]), steps[|steps| - 1]);
    }
  }

  /** A connection that has been listed: it can leave the list, but never enter it again. */
  ghost predicate WasListed(s: R.State, id: ConnID) {
    id in s.conns && s.pending != Some(id)
  }

  lemma StepKeepsListed(s: R.State, step: R.Step, id: ConnID)
    requires WasListed(s, id)
    ensures WasListed(R.Apply(s, step), id)
    ensures id !in s.clients ==> id !in R.Apply(s, step).clients
    ensures s.conns[id].closed ==> R.Apply(s, step).conns[id].closed
  {}

  /** Each recipient is still to be visited, was sent the message, was dropped, or is being dropped. */
  ghost predicate Accounted(c: Cast, id: ConnID) {
    var dropping := (c.stage.Failed? || c.stage.Unlisted?) && c.stage.id == id;
    && (id in c.todo || id in c.sent || id in c.dropped || dropping)
    && !(id in c.todo && (id in c.sent || id in c.dropped || dropping))
    && !(id in c.sent && (id in c.dropped || dropping))
    && !(id in c.dropped && dropping)
  }

  /** A dropped client is off the list and closed, and one being dropped is off the list already
      once that half is done. */
  ghost predicate IsGone(w: World, id: ConnID) {
    && WasListed(w.state, id)
    && (id in w.cast.dropped ==> id !in w.state.clients && w.state.conns[id].closed)
    && (w.cast.stage == Unlisted(id) ==> id !in w.state.clients)
  }

  lemma MoveKeepsAccount(w: World, m: P.Message, move: Move, id: ConnID)
    requires Accounted(w.cast, id) && IsGone(w, id)
    ensures Accounted(Next(w, m, move).cast, id) && IsGone(Next(w, m, move), id)
  {
    var step := StepOf(w, m, move);
    if step.Some? {
      StepKeepsListed(w.state, step.value, id);
    }
  }

  lemma MoveKeepsOthersOut(w: World, m: P.Message, move: Move, recipients: set<ConnID>)
    requires Distinct(w.cast.sent) && OnlyThese(w.cast, recipients)
    requires forall id :: id in recipients ==> Accounted(w.cast, id)
    ensures Distinct(Next(w, m, move).cast.sent) && OnlyThese(Next(w, m, move).cast, recipients)
  {
    if move.Visit? && move.id in w.cast.todo {
      assert move.id !in w.cast.sent;
    }
  }

  ghost predicate OnlyThese(c: Cast, recipients: set<ConnID>) {
    && c.todo + Elements(c.sent) + c.dropped <= recipients
    && (c.stage.Sending? || c.stage.id in recipients)
  }

  lemma {:induction false} EachIsAccounted(s: R.State, sender: ConnID, m: P.Message, moves: seq<Move>)
    requires PendingIsNew(s)
    ensures var w := Run(s, sender, m, moves);
            && (forall id :: id in s.clients - {sender} ==> Accounted(w.cast, id) && IsGone(w, id))
            && Distinct(w.cast.sent) && OnlyThese(w.cast, s.clients - {sender})
  {
    if moves != [] {
      var n := |moves| - 1;
      var w := Run(s, sender, m, moves[..n]);
      EachIsAccounted(s, sender, m, moves[..n]);
      MoveKeepsOthersOut(w, m, moves[n], s.clients - {sender});
      forall id | id in s.clients - {sender}
        ensures Accounted(Next(w, m, moves[n]).cast, id) && IsGone(Next(w, m, moves[n]), id)
      {
        MoveKeepsAccount(w, m, moves[n], id);
      }
    }
  }

  /** In every interleaving with other goroutines, a finished broadcast has queued the message exactly
      once for each client that was listed at its start, other than the sender, or else that client is
      off the list and closed for good. It touches nobody else. */
  lemma BroadcastAmongOthers(steps: seq<R.Step>, sender: ConnID, m: P.Message, moves: seq<Move>, id: ConnID)
    requires var c := Run(R.Run(steps), sender, m, moves).cast; c.todo == {} && c.stage.Sending?
    ensures var s, w := R.Run(steps), Run(R.Run(steps), sender, m, moves);
            && Distinct(w.cast.sent)
            && (id in w.cast.sent || id in w.cast.dropped <==> id in s.clients && id != sender)
            && !(id in w.cast.sent && id in w.cast.dropped)
            && (id in w.cast.dropped ==> id !in w.state.clients && id in w.state.conns && w.state.conns[id].closed)
  {
    PendingStaysNew(steps);
    EachIsAccounted(R.Run(steps), sender, m, moves);
    FinishedIsDone(Run(R.Run(steps), sender, m, moves), R.Run(steps).clients - {sender}, id);
  }

  lemma FinishedIsDone(w: World, recipients: set<ConnID>, id: ConnID)
    requires w.cast.todo == {} && w.cast.stage.Sending? && OnlyThese(w.cast, recipients)
    requires id in recipients ==> Accounted(w.cast, id) && IsGone(w, id)
    ensures id in w.cast.sent || id in w.cast.dropped <==> id in recipients
    ensures !(id in w.cast.sent && id in w.cast.dropped)
    ensures id in w.cast.dropped ==> id !in w.state.clients && id in w.state.conns && w.state.conns[id].closed
  {
    assert id in w.cast.sent ==> id in Elements(w.cast.sent);
  }

  /** When the broadcast came to this client, it was closed or its queue was full. */
  ghost predicate Refused(s: R.State, sender: ConnID, m: P.Message, moves: seq<Move>, id: ConnID) {
    moves != [] &&
    (var n := |moves| - 1;
     var w := Run(s, sender, m, moves[..n]);
     || Refused(s, sender, m, moves[..n], id)
     || (&& moves[n] == Visit(id) && w.cast.stage.Sending? && id in w.cast.todo && id in w.state.conns
         && (w.state.conns[id].closed || |w.state.conns[id].queue| >= 16)))
  }

  /** A client is dropped exactly if it could not take the message when its turn came. */
  lemma {:induction false} DroppedIffRefused(s: R.State, sender: ConnID, m: P.Message, moves: seq<Move>, id: ConnID)
    requires PendingIsNew(s)
    ensures var c := Run(s, sender, m, moves).cast;
            Refused(s, sender, m, moves, id) <==> id in c.dropped || (!c.stage.Sending? && c.stage.id == id)
  {
    if moves != [] {
      DroppedIffRefused(s, sender, m, moves[..|moves| - 1], id);
    }
  }

  /** How often the broadcast queued the message for a client. */
  function Queued(s: R.State, sender: ConnID, m: P.Message, moves: seq<Move>, id: ConnID): nat {
    if moves == [] then 0
    else
      var n := |moves| - 1;
      var w := Run(s, sender, m, moves[..n]);
      Queued(s, sender, m, moves[..n], id) +
        if moves[n] == Visit(id) && StepOf(w, m, moves[n]).Some? then 1 else 0
  }

  /** The history of sends is that count. */
  lemma {:induction false} SentIsQueuedOnce(s: R.State, sender: ConnID, m: P.Message, moves: seq<Move>, id: ConnID)
    requires PendingIsNew(s)
    ensures Queued(s, sender, m, moves, id) == if id in Run(s, sender, m, moves).cast.sent then 1 else 0
  {
    if moves != [] {
      var n := |moves| - 1;
      EachIsAccounted(s, sender, m, moves[..n]);
      SentIsQueuedOnce(s, sender, m, moves[..n], id);
    }
  }
}
