/** The connection manager: one entry per tracked peer, and dials running in the background. */
module Connection {
  import opened Prelude

  datatype DialState = Disconnected | Connecting | Connected | Failed

  /** attempt identifies the peer state allocated by the Connect call that made the entry. */
  datatype Entry = Entry(endpoint: string, state: DialState, attempt: nat)

  /** dials maps every attempt whose dial has not returned yet to its peer. */
  datatype World = World(peers: map<string, Entry>, dials: map<nat, string>, next: nat)

  const EMPTY := World(map[], map[], 0)

  datatype Step =
    | Connect(peer: string, endpoint: string)
    | Disconnect(peer: string)
    | Forget(peer: string)
    | Finish(attempt: nat, ok: bool)

  predicate Busy(w: World, peer: string) {
    peer in w.peers && (w.peers[peer].state == Connected || w.peers[peer].state == Connecting)
  }

  function StartDial(w: World, peer: string, endpoint: string): World {
    World(w.peers[peer := Entry(endpoint, Connecting, w.next)], w.dials[w.next := peer], w.next + 1)
  }

  /** A finished dial overwrites the state of whatever entry its peer has now. */
  function Mark(peers: map<string, Entry>, peer: string, state: DialState): map<string, Entry> {
    if peer in peers then peers[peer := peers[peer].(state := state)] else peers
  }

  function Apply(w: World, s: Step): World {
    match s
    case Connect(peer, endpoint) =>
      if peer == "" || endpoint == "" || Busy(w, peer) then w else StartDial(w, peer, endpoint)
    case Disconnect(peer) => w.(peers := w.peers - {peer})
    case Forget(peer) => w.(peers := w.peers - {peer})
    case Finish(attempt, ok) =>
      if attempt !in w.dials then w
      else World(Mark(w.peers, w.dials[attempt], if ok then Connected else Failed), w.dials - {attempt}, w.next)
  }

  function Run(steps: seq<Step>): World {
    if steps == [] then EMPTY else Apply(Run(steps[..|steps| - 1]), steps[|steps| - 1])
  }

  function Tracked(w: World): map<string, string> {
    map p | p in w.peers :: w.peers[p].endpoint
  }

  // ---- Every interleaving ----

  /** A connecting entry has its own dial outstanding. */
  ghost predicate OwnDialOutstanding(w: World) {
    && (forall p :: p in w.peers && w.peers[p].state == Connecting ==>
          w.peers[p].attempt in w.dials && w.dials[w.peers[p].attempt] == p)
    && (forall a :: a in w.dials ==> a < w.next)
    && (forall p :: p in w.peers ==> w.peers[p].attempt < w.next && w.peers[p].state != Disconnected)
  }

  lemma StepKeepsOwnDial(w: World, s: Step)
    requires OwnDialOutstanding(w)
    ensures OwnDialOutstanding(Apply(w, s))
  {}

  lemma {:induction false} ConnectingHasItsDial(steps: seq<Step>)
    ensures OwnDialOutstanding(Run(steps))
    decreases |steps|
  {
    if steps != [] {
      ConnectingHasItsDial(steps[..|steps| - 1]);
      StepKeepsOwnDial(Run(steps[..|steps| - 1]), steps[|steps| - 1]);
    }
  }

  /** Once every dial has finished, each tracked peer is connected or failed. */
  lemma NoneLeftConnecting(steps: seq<Step>, peer: string)
    requires Run(steps).dials == map[]
    requires peer in Run(steps).peers
    ensures Run(steps).peers[peer].state in {Connected, Failed}
  {
    ConnectingHasItsDial(steps);
  }

  // ---- Runs that abandon no dial ----

  function DialsOf(w: World, peer: string): set<nat> {
    set a | a in w.dials && w.dials[a] == peer
  }

  /** The step does not drop a peer whose dial is still out. */
  predicate Spares(w: World, s: Step) {
    s.Disconnect? || s.Forget? ==> !(s.peer in w.peers && w.peers[s.peer].state == Connecting)
  }

  predicate NothingAbandoned(steps: seq<Step>) {
    steps == [] ||
    (var before := steps[..|steps| - 1]; NothingAbandoned(before) && Spares(Run(before), steps[|steps| - 1]))
  }

  /** Every outstanding dial is that of a connecting entry. */
  ghost predicate DialsMatchEntries(w: World) {
    forall a :: a in w.dials ==>
      var p := w.dials[a];
      p in w.peers && w.peers[p].state == Connecting && w.peers[p].attempt == a
  }

  /** What a caller can check before dropping a peer is exactly what keeps dials and entries matched. */
  lemma DialsStayMatchedIff(w: World, s: Step)
    requires OwnDialOutstanding(w) && DialsMatchEntries(w)
    ensures DialsMatchEntries(Apply(w, s)) <==> Spares(w, s)
  {
    if !Spares(w, s) {
      var a := w.peers[s.peer].attempt;
      assert a in Apply(w, s).dials && Apply(w, s).dials[a] == s.peer;
    }
  }

  /** Dials and entries match now and did at every earlier point. */
  ghost predicate MatchedThroughout(steps: seq<Step>) {
    DialsMatchEntries(Run(steps)) && (steps == [] || MatchedThroughout(steps[..|steps| - 1]))
  }

  /** Over whole runs: dials and entries match at every point exactly if no dial was ever abandoned. */
  lemma {:induction false} MatchedThroughoutIff(steps: seq<Step>)
    ensures MatchedThroughout(steps) <==> NothingAbandoned(steps)
    decreases |steps|
  {
    if steps != [] {
      var before := steps[..|steps| - 1];
      MatchedThroughoutIff(before);
      ConnectingHasItsDial(before);
      if DialsMatchEntries(Run(before)) {
        DialsStayMatchedIff(Run(before), steps[|steps| - 1]);
      }
    }
  }

  /** Exactly one dial while connecting, none otherwise. */
  lemma OneDialPerConnectingPeer(steps: seq<Step>, peer: string)
    requires NothingAbandoned(steps)
    ensures var w := Run(steps);
            |DialsOf(w, peer)| == if peer in w.peers && w.peers[peer].state == Connecting then 1 else 0
  {
    var w := Run(steps);
    ConnectingHasItsDial(steps);
    MatchedThroughoutIff(steps);
    if peer in w.peers && w.peers[peer].state == Connecting {
      assert DialsOf(w, peer) == {w.peers[peer].attempt};
    } else {
      assert DialsOf(w, peer) == {};
    }
  }

  /** How the dial of an attempt returned, if it has. */
  function Outcome(steps: seq<Step>, attempt: nat): Option<bool> {
    if steps == [] then None
    else
      var n := |steps| - 1;
      if steps[n].Finish? && steps[n].attempt == attempt && attempt in Run(steps[..n]).dials
      then Some(steps[n].ok)
      else Outcome(steps[..n], attempt)
  }

  /** A dial returns once. */
  lemma {:induction false} OutcomeIsFinal(steps: seq<Step>, attempt: nat)
    requires Outcome(steps, attempt).Some?
    ensures attempt < Run(steps).next && attempt !in Run(steps).dials
  {
    var n := |steps| - 1;
    ConnectingHasItsDial(steps[..n]);
    if Outcome(steps[..n], attempt).Some? {
      OutcomeIsFinal(steps[..n], attempt);
    }
  }

  function StateAfter(outcome: Option<bool>): DialState {
    match outcome
    case None => Connecting
    case Some(ok) => if ok then Connected else Failed
  }

  ghost predicate ShowsOutcome(steps: seq<Step>, peer: string) {
    peer in Run(steps).peers ==>
      Run(steps).peers[peer].state == StateAfter(Outcome(steps, Run(steps).peers[peer].attempt))
  }

  lemma OutcomeAfter(steps: seq<Step>, s: Step, attempt: nat)
    ensures Outcome(steps + [s], attempt) ==
              if s.Finish? && s.attempt == attempt && attempt in Run(steps).dials then Some(s.ok) else Outcome(steps, attempt)
    ensures Outcome(steps, attempt).Some? ==> attempt < Run(steps).next && attempt !in Run(steps).dials
  {
    assert (steps + [s])[..|steps|] == steps;
    if Outcome(steps, attempt).Some? {
      OutcomeIsFinal(steps, attempt);
    }
  }

  lemma StepShowsOutcome(steps: seq<Step>, s: Step, peer: string)
    requires DialsMatchEntries(Run(steps)) && ShowsOutcome(steps, peer)
    ensures ShowsOutcome(steps + [s], peer)
  {
    var w := Run(steps);
    var w' := Apply(w, s);
    assert (steps + [s])[..|steps|] == steps;
    ConnectingHasItsDial(steps);
    if peer in w'.peers {
      OutcomeAfter(steps, s, w'.peers[peer].attempt);
    }
  }

  /** If no dial is abandoned, each entry's state is the outcome of its own dial. */
  lemma {:induction false} StateIsOwnOutcome(steps: seq<Step>, peer: string)
    requires NothingAbandoned(steps) && peer in Run(steps).peers
    ensures var e := Run(steps).peers[peer]; e.state == StateAfter(Outcome(steps, e.attempt))
    decreases |steps|
  {
    var before, s := steps[..|steps| - 1], steps[|steps| - 1];
    assert steps == before + [s];
    MatchedThroughoutIff(before);
    if peer in Run(before).peers {
      StateIsOwnOutcome(before, peer);
    }
    StepShowsOutcome(before, s, peer);
  }

  /** With a dial abandoned the count fails, and that dial decides the state of the new entry. */
  lemma AbandonedDialIsMisattributed()
    ensures var before := [Connect("p", "e"), Disconnect("p"), Connect("p", "e")];
            && DialsOf(Run(before), "p") == {0, 1}
            && var w := Run(before + [Finish(0, true)]);
               w.peers["p"] == Entry("e", Connected, 1) && DialsOf(w, "p") == {1}
  {
    var s := [Connect("p", "e"), Disconnect("p"), Connect("p", "e"), Finish(0, true)];
    var before := s[..3];
    assert before == [Connect("p", "e"), Disconnect("p"), Connect("p", "e")] && s == before + [Finish(0, true)];
    assert s[..3][..2] == s[..2] && s[..2][..1] == s[..1] && s[..1][..0] == [];
    assert Run(s[..1]) == StartDial(EMPTY, "p", "e");
    assert Run(s[..2]) == World(map[], map[0 := "p"], 1);
    assert Run(s[..3]) == World(map["p" := Entry("e", Connecting, 1)], map[0 := "p", 1 := "p"], 2);
    assert Run(s) == World(map["p" := Entry("e", Connected, 1)], map[1 := "p"], 2);
  }

  // ---- How many dials there are ----

  /** Dials started for a peer. */
  function Dials(steps: seq<Step>, peer: string): nat {
    if steps == [] then 0
    else
      var n := |steps| - 1;
      var w := Run(steps[..n]);
      Dials(steps[..n], peer) +
        if steps[n].Connect? && steps[n].peer == peer && Apply(w, steps[n]).next > w.next then 1 else 0
  }

  /** Times the peer was dropped while tracked. */
  function Drops(steps: seq<Step>, peer: string): nat {
    if steps == [] then 0
    else
      var n := |steps| - 1;
      Drops(steps[..n], peer) +
        if (steps[n].Disconnect? || steps[n].Forget?) && steps[n].peer == peer && peer in Run(steps[..n]).peers
        then 1 else 0
  }

  /** Connect calls that found the peer failed. */
  function Retries(steps: seq<Step>, peer: string): nat {
    if steps == [] then 0
    else
      var n := |steps| - 1;
      var w, s := Run(steps[..n]), steps[n];
      Retries(steps[..n], peer) +
        if s.Connect? && s.peer == peer && s.endpoint != "" && peer in w.peers && w.peers[peer].state == Failed
        then 1 else 0
  }

  /** A peer that is connecting or connected is never dialed again and a failed one always is: the dials
      are one for each time the peer was dropped, one for each retry, and one if it is tracked now. */
  lemma {:induction false} DialsAreCounted(steps: seq<Step>, peer: string)
    requires peer != ""
    ensures Dials(steps, peer) == Drops(steps, peer) + Retries(steps, peer) + if peer in Run(steps).peers then 1 else 0
  {
    if steps != [] {
      var n := |steps| - 1;
      DialsAreCounted(steps[..n], peer);
      ConnectingHasItsDial(steps[..n]);
    }
  }

  // ---- The manager ----

  class Manager {
    var peers: map<string, Entry>
    var dials: map<nat, string>
    var next: nat

    function State(): World
      reads this
    {
      World(peers, dials, next)
    }

    constructor ()
      ensures State() == EMPTY
    {
      peers, dials, next := map[], map[], 0;
    }

    method Connect(peerID: string, endpoint: string) returns (ok: bool)
      modifies this
      ensures State() == Apply(old(State()), Step.Connect(peerID, endpoint))
      ensures ok <==> peerID != "" && endpoint != ""
      ensures if ok && (peerID in old(peers) ==> old(peers)[peerID].state in {Disconnected, Failed})
              then peers == old(peers)[peerID := Entry(endpoint, Connecting, old(next))] && dials == old(dials)[old(next) := peerID]
              else peers == old(peers) && dials == old(dials)
    {
      if peerID == "" || endpoint == "" {
        return false;
      }
      if peerID in peers {
        match peers[peerID].state {
          case Connected => return true;
          case Connecting => return true;
          case _ =>
        }
      }
      peers := peers[peerID := Entry(endpoint, Connecting, next)];
      dials := dials[next := peerID];
      next := next + 1;
      ok := true;
    }

    /** The rest of a dial goroutine: the dial returns and the peer is marked. */
    method FinishDial(attempt: nat, succeeded: bool)
      requires attempt in dials
      modifies this
      ensures State() == Apply(old(State()), Finish(attempt, succeeded))
      ensures dials == old(dials) - {attempt}
      ensures var peer := old(dials)[attempt];
              && peers.Keys == old(peers).Keys
              && (peer in peers ==> peers[peer] == old(peers)[peer].(state := if succeeded then Connected else Failed))
              && forall other :: other in peers && other != peer ==> peers[other] == old(peers)[other]
    {
      var peer := dials[attempt];
      dials := dials - {attempt};
      MarkState(peer, if succeeded then Connected else Failed);
    }

    method MarkState(peerID: string, state: DialState)
      modifies this`peers
      ensures peers == Mark(old(peers), peerID, state)
    {
      if peerID !in peers {
        return;
      }
      peers := peers[peerID := peers[peerID].(state := state)];
    }

    method Disconnect(peerID: string) returns (ok: bool)
      modifies this`peers
      ensures ok <==> peerID != ""
      ensures State() == if ok then Apply(old(State()), Step.Disconnect(peerID)) else old(State())
      ensures peers == if peerID != "" then old(peers) - {peerID} else old(peers)
    {
      if peerID == "" {
        return false;
      }
      peers := peers - {peerID};
      ok := true;
    }

    method Forget(peerID: string)
      modifies this`peers
      ensures State() == Apply(old(State()), Step.Forget(peerID))
      ensures peers == old(peers) - {peerID}
    {
      peers := peers - {peerID};
    }
  }
}
