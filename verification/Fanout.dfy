/** Event fan-out to subscribers: bounded channels, filled without blocking, closed on leaving. */
module Fanout {
  import opened Prelude

  const SUBSCRIBER_BUF := 64
  const MAX_SUBS := 16

  datatype EventKind = NewMessage | PeerConnected | PeerDisconnected | StatusChanged | ErrorRaised
  datatype Event = Event(kind: EventKind, conversationID: string)

  type ChanID = nat
  datatype Chan = Chan(buffer: seq<Event>, closed: bool)

  const OPEN := Chan([], false)

  /** subs lists the registered channels; chans holds every channel ever made. */
  datatype Hub = Hub(subs: seq<ChanID>, chans: map<ChanID, Chan>, next: ChanID)

  const EMPTY := Hub([], map[], 0)

  // ---- Channel operations; Go panics outside their preconditions ----

  function Send(c: Chan, e: Event): Chan
    requires !c.closed
  {
    if |c.buffer| < SUBSCRIBER_BUF then c.(buffer := c.buffer + [e]) else c
  }

  function Closed(c: Chan): Chan
    requires !c.closed
  {
    c.(closed := true)
  }

  // ---- Steps ----

  /** strict tells SubscribeE from Subscribe, which at the cap answers with a closed channel. */
  datatype Step =
    | Subscribe(strict: bool)
    | Unsubscribe(ch: ChanID)
    | Publish(event: Event)
    | Receive(ch: ChanID)
    | Close

  /** Registered channels are different, open and at most 16. */
  ghost predicate Valid(h: Hub) {
    && Distinct(h.subs) && |h.subs| <= MAX_SUBS
    && (forall c :: c in h.subs ==> c in h.chans && !h.chans[c].closed)
    && (forall c :: c in h.chans ==> c < h.next && |h.chans[c].buffer| <= SUBSCRIBER_BUF)
  }

  function Without(subs: seq<ChanID>, ch: ChanID): seq<ChanID> {
    if subs == [] then []
    else if subs[0] == ch then subs[1..]
    else [subs[0]] + Without(subs[1..], ch)
  }

  lemma {:induction false} WithoutOne(subs: seq<ChanID>, ch: ChanID, i: nat)
    requires i < |subs| && subs[i] == ch && ch !in subs[..i]
    ensures Without(subs, ch) == subs[..i] + subs[i + 1..]
  {
    if i > 0 {
      assert subs[1..][..i - 1] == subs[..i][1..];
      WithoutOne(subs[1..], ch, i - 1);
    }
  }

  /** Being a function on valid states, a step never closes a channel twice and never sends to a
      closed one. */
  function Apply(h: Hub, s: Step): Hub
    requires Valid(h)
  {
    match s
    case Subscribe(strict) =>
      if |h.subs| < MAX_SUBS then Hub(h.subs + [h.next], h.chans[h.next := OPEN], h.next + 1)
      else if strict then h
      else Hub(h.subs, h.chans[h.next := Closed(OPEN)], h.next + 1)
    case Unsubscribe(ch) =>
      if ch !in h.subs then h
      else h.(subs := Without(h.subs, ch), chans := h.chans[ch := Closed(h.chans[ch])])
    case Publish(e) =>
      h.(chans := map c | c in h.chans :: if c in h.subs then Send(h.chans[c], e) else h.chans[c])
    case Receive(ch) =>
      if ch !in h.chans || h.chans[ch].buffer == [] then h
      else h.(chans := h.chans[ch := h.chans[ch].(buffer := h.chans[ch].buffer[1..])])
    case Close =>
      Hub([], map c | c in h.chans :: if c in h.subs then Closed(h.chans[c]) else h.chans[c], h.next)
  }

  lemma {:induction false} WithoutStaysDistinct(subs: seq<ChanID>, ch: ChanID)
    requires Distinct(subs) && ch in subs
    ensures var rest := Without(subs, ch);
            Distinct(rest) && |rest| == |subs| - 1 && forall c :: c in rest <==> c in subs && c != ch
  {
    assert subs == [subs[0]] + subs[1..];
    assert forall i :: 0 < i < |subs| ==> subs[i] != subs[0];
    assert subs[0] !in subs[1..];
    if subs[0] != ch {
      WithoutStaysDistinct(subs[1..], ch);
    }
  }

  lemma StepStaysValid(h: Hub, s: Step)
    requires Valid(h)
    ensures Valid(Apply(h, s))
  {
    assert forall i :: 0 <= i < |h.subs| ==> h.subs[i] in h.subs;
    if s.Unsubscribe? && s.ch in h.subs {
      WithoutStaysDistinct(h.subs, s.ch);
    }
  }

  /** The state after a run, with the proof that it stays valid. */
  ghost function Run(steps: seq<Step>): (h: Hub)
    ensures Valid(h)
  {
    if steps == [] then EMPTY
    else
      var before, s := Run(steps[..|steps| - 1]), steps[|steps| - 1];
      StepStaysValid(before, s);
      Apply(before, s)
  }

  // ---- What a subscriber was offered, got and missed ----

  /** The events published while ch was registered. */
  ghost function Offered(steps: seq<Step>, ch: ChanID): seq<Event> {
    if steps == [] then []
    else
      var n := |steps| - 1;
      Offered(steps[..n], ch) +
        if steps[n].Publish? && ch in Run(steps[..n]).subs then [steps[n].event] else []
  }

  function Buffer(h: Hub, ch: ChanID): seq<Event> {
    if ch in h.chans then h.chans[ch].buffer else []
  }

  /** The events taken out of ch. */
  ghost function Received(steps: seq<Step>, ch: ChanID): seq<Event> {
    if steps == [] then []
    else
      var n := |steps| - 1;
      var buffer := Buffer(Run(steps[..n]), ch);
      Received(steps[..n], ch) + if steps[n] == Receive(ch) && buffer != [] then [buffer[0]] else []
  }

  /** How often ch was registered and full at a publish. */
  ghost function Full(steps: seq<Step>, ch: ChanID): nat {
    if steps == [] then 0
    else
      var n := |steps| - 1;
      var h := Run(steps[..n]);
      Full(steps[..n], ch) +
        if steps[n].Publish? && ch in h.subs && |Buffer(h, ch)| >= 64 then 1 else 0
  }

  /** a can be got from b by leaving out elements. */
  predicate Subsequence(a: seq<Event>, b: seq<Event>) {
    a == [] ||
    (b != [] &&
     var a', b' := a[..|a| - 1], b[..|b| - 1];
     (a[|a| - 1] == b[|b| - 1] && Subsequence(a', b')) || Subsequence(a, b'))
  }

  lemma SubsequenceSnoc(a: seq<Event>, b: seq<Event>, e: Event)
    requires Subsequence(a, b)
    ensures Subsequence(a + [e], b + [e]) && Subsequence(a, b + [e])
  {
    assert (a + [e])[..|a|] == a && (b + [e])[..|b|] == b;
  }

  ghost predicate InOrder(got: seq<Event>, offered: seq<Event>, missed: nat) {
    Subsequence(got, offered) && |got| + missed == |offered|
  }

  lemma PublishKeepsOrder(received: seq<Event>, h: Hub, e: Event, ch: ChanID, offered: seq<Event>, missed: nat)
    requires Valid(h) && ch in h.subs && InOrder(received + Buffer(h, ch), offered, missed)
    ensures InOrder(received + Buffer(Apply(h, Publish(e)), ch), offered + [e],
                    missed + if |Buffer(h, ch)| >= SUBSCRIBER_BUF then 1 else 0)
  {
    var got := received + Buffer(h, ch);
    SubsequenceSnoc(got, offered, e);
    if |Buffer(h, ch)| < SUBSCRIBER_BUF {
      assert received + Buffer(Apply(h, Publish(e)), ch) == got + [e];
    }
  }

  /** What a subscriber received, followed by what waits for it, is an in-order subsequence of what
      it was offered, short of it by exactly the publishes that met a full buffer. */
  lemma {:induction false} ReceivedInOrder(steps: seq<Step>, ch: ChanID)
    ensures InOrder(Received(steps, ch) + Buffer(Run(steps), ch), Offered(steps, ch), Full(steps, ch))
  {
    if steps != [] {
      var n := |steps| - 1;
      ReceivedInOrder(steps[..n], ch);
      if steps[n].Publish? && ch in Run(steps[..n]).subs {
        PublishStepKeepsOrder(steps, ch);
      } else {
        QuietStepKeepsOrder(steps, ch);
      }
    }
  }

  lemma PublishStepKeepsOrder(steps: seq<Step>, ch: ChanID)
    requires steps != []
    requires var n := |steps| - 1;
             && steps[n].Publish? && ch in Run(steps[..n]).subs
             && InOrder(Received(steps[..n], ch) + Buffer(Run(steps[..n]), ch), Offered(steps[..n], ch), Full(steps[..n], ch))
    ensures InOrder(Received(steps, ch) + Buffer(Run(steps), ch), Offered(steps, ch), Full(steps, ch))
  {
    var n := |steps| - 1;
    var h, e := Run(steps[..n]), steps[n].event;
    PublishKeepsOrder(Received(steps[..n], ch), h, e, ch, Offered(steps[..n], ch), Full(steps[..n], ch));
    assert Received(steps, ch) == Received(steps[..n], ch);
  }

  lemma QuietStepKeepsOrder(steps: seq<Step>, ch: ChanID)
    requires steps != []
    requires var n := |steps| - 1; !(steps[n].Publish? && ch in Run(steps[..n]).subs)
    ensures var n := |steps| - 1;
            && Received(steps, ch) + Buffer(Run(steps), ch) == Received(steps[..n], ch) + Buffer(Run(steps[..n]), ch)
            && Offered(steps, ch) == Offered(steps[..n], ch) && Full(steps, ch) == Full(steps[..n], ch)
  {
    var n := |steps| - 1;
    SameQueue(Run(steps[..n]), steps[n], ch);
  }

  lemma SameQueue(h: Hub, s: Step, ch: ChanID)
    requires Valid(h) && !(s.Publish? && ch in h.subs)
    ensures Buffer(h, ch) == (if s == Receive(ch) && Buffer(h, ch) != [] then [Buffer(h, ch)[0]] else [])
                             + Buffer(Apply(h, s), ch)
  {}

  lemma {:induction false} SubsequenceOfSameLength(a: seq<Event>, b: seq<Event>)
    requires Subsequence(a, b)
    ensures |a| <= |b| && (|a| == |b| ==> a == b)
  {
    if a != [] {
      var a', b' := a[..|a| - 1], b[..|b| - 1];
      assert a == a' + [a[|a| - 1]] && b == b' + [b[|b| - 1]];
      if Subsequence(a, b') {
        SubsequenceOfSameLength(a, b');
      } else {
        SubsequenceOfSameLength(a', b');
      }
    }
  }

  /** A subscriber gets everything exactly when its buffer was never full at a publish. */
  lemma CompleteIffNeverFull(steps: seq<Step>, ch: ChanID)
    ensures Received(steps, ch) + Buffer(Run(steps), ch) == Offered(steps, ch) <==> Full(steps, ch) == 0
  {
    ReceivedInOrder(steps, ch);
    SubsequenceOfSameLength(Received(steps, ch) + Buffer(Run(steps), ch), Offered(steps, ch));
  }

  /** A closed channel stays closed and only drains. */
  lemma ClosedOnlyDrains(h: Hub, s: Step, ch: ChanID)
    requires Valid(h) && ch in h.chans && h.chans[ch].closed
    ensures var h' := Apply(h, s);
            && ch in h'.chans && h'.chans[ch].closed && ch !in h'.subs
            && (h'.chans[ch].buffer == h.chans[ch].buffer
                || (s == Receive(ch) && h'.chans[ch].buffer == h.chans[ch].buffer[1..]))
  {
    StepStaysValid(h, s);
  }

  // ---- Joining and leaving ----

  /** A subscriber below the cap gets a new channel that is open, empty and registered last; at the cap
      it gets a closed one, or none. Nothing else changes. */
  lemma SubscribeRegisters(h: Hub, strict: bool)
    requires Valid(h)
    ensures var h' := Apply(h, Subscribe(strict));
            && (|h.subs| < 16 ==>
                  h'.subs == h.subs + [h.next] && h.next in h'.chans && h'.chans[h.next] == Chan([], false))
            && (|h.subs| >= 16 ==>
                  h'.subs == h.subs
                  && if strict then h'.chans == h.chans else h.next in h'.chans && h'.chans[h.next] == Chan([], true))
            && (forall c :: c in h.chans ==> c in h'.chans && h'.chans[c] == h.chans[c])
  {}

  /** Unsubscribing takes out and closes a registered channel; what waits in it, every other channel and
      the order of the other registrations stay. Any other channel is left alone. */
  lemma UnsubscribeTakesOut(h: Hub, ch: ChanID)
    requires Valid(h)
    ensures var h' := Apply(h, Unsubscribe(ch));
            && ch !in h'.subs
            && (ch in h.subs ==> ch in h'.chans && h'.chans[ch] == Chan(h.chans[ch].buffer, true))
            && (ch !in h.subs ==> h' == h)
            && h'.chans.Keys == h.chans.Keys
            && (forall c :: c in h.chans && c != ch ==> h'.chans[c] == h.chans[c])
            && (forall i :: 0 <= i < |h.subs| && h.subs[i] == ch ==> h'.subs == h.subs[..i] + h.subs[i + 1..])
  {
    if ch in h.subs {
      WithoutStaysDistinct(h.subs, ch);
      var i :| 0 <= i < |h.subs| && h.subs[i] == ch;
      WithoutOne(h.subs, ch, i);
    }
  }

  /** Closing the service takes out and closes every registered channel and touches no other. */
  lemma CloseTakesAllOut(h: Hub)
    requires Valid(h)
    ensures var h' := Apply(h, Close);
            && h'.subs == [] && h'.chans.Keys == h.chans.Keys
            && (forall c :: c in h.subs ==> c in h'.chans && h'.chans[c] == Chan(h.chans[c].buffer, true))
            && (forall c :: c in h.chans && c !in h.subs ==> h'.chans[c] == h.chans[c])
  {}

  lemma StaysOut(h: Hub, s: Step, ch: ChanID)
    requires Valid(h) && ch in h.chans && ch !in h.subs
    ensures var h' := Apply(h, s); ch in h'.chans && ch !in h'.subs
  {
    if s.Unsubscribe? {
      UnsubscribeTakesOut(h, s.ch);
      if s.ch in h.subs {
        WithoutStaysDistinct(h.subs, s.ch);
      }
    }
  }

  /** At some point of the run the channel was there and was unsubscribed, or the service was closed. */
  ghost predicate HasLeft(steps: seq<Step>, ch: ChanID) {
    steps != [] &&
    (var before, s := steps[..|steps| - 1], steps[|steps| - 1];
     HasLeft(before, ch) || (ch in Run(before).chans && (s == Unsubscribe(ch) || s == Close)))
  }

  lemma {:induction false} LeftIsOut(steps: seq<Step>, ch: ChanID)
    requires HasLeft(steps, ch)
    ensures ch in Run(steps).chans && ch !in Run(steps).subs
    decreases |steps|
  {
    var before, s := steps[..|steps| - 1], steps[|steps| - 1];
    if HasLeft(before, ch) {
      LeftIsOut(before, ch);
      StaysOut(Run(before), s, ch);
    } else {
      UnsubscribeTakesOut(Run(before), ch);
      CloseTakesAllOut(Run(before));
    }
  }

  /** Over runs: once a subscriber has unsubscribed or the service was closed, no later step offers it
      another event. */
  lemma LeavingEndsOffers(steps: seq<Step>, s: Step, ch: ChanID)
    requires HasLeft(steps, ch)
    ensures HasLeft(steps + [s], ch) && Offered(steps + [s], ch) == Offered(steps, ch)
  {
    LeftIsOut(steps, ch);
    assert (steps + [s])[..|steps|] == steps;
  }

  // ---- The subscriber part of the service ----

  class Subscribers {
    var subs: seq<ChanID>
    var chans: map<ChanID, Chan>
    var next: ChanID

    function State(): Hub
      reads this
    {
      Hub(subs, chans, next)
    }

    constructor ()
      ensures State() == EMPTY
    {
      subs, chans, next := [], map[], 0;
    }

    method MakeChan() returns (ch: ChanID)
      modifies this
      ensures ch == old(next) && State() == Hub(old(subs), old(chans)[ch := OPEN], ch + 1)
    {
      ch := next;
      chans := chans[ch := OPEN];
      next := next + 1;
    }

    method CloseChan(ch: ChanID)
      requires ch in chans && !chans[ch].closed
      modifies this`chans
      ensures chans == old(chans)[ch := Closed(old(chans)[ch])]
    {
      chans := chans[ch := chans[ch].(closed := true)];
    }

    method TrySend(ch: ChanID, e: Event)
      requires ch in chans && !chans[ch].closed
      modifies this`chans
      ensures chans == old(chans)[ch := Send(old(chans)[ch], e)]
    {
      if |chans[ch].buffer| < SUBSCRIBER_BUF {
        chans := chans[ch := chans[ch].(buffer := chans[ch].buffer + [e])];
      }
    }

    method Subscribe() returns (ch: ChanID)
      requires Valid(State())
      modifies this
      ensures Valid(State()) && State() == Apply(old(State()), Step.Subscribe(false))
      ensures ch == old(next) && ch in chans
      ensures chans[ch].closed <==> |old(subs)| == MAX_SUBS
      ensures subs == if |old(subs)| < MAX_SUBS then old(subs) + [ch] else old(subs)
    {
      ghost var before := State();
      ch := MakeChan();
      if |subs| >= MAX_SUBS {
        CloseChan(ch);
      } else {
        subs := subs + [ch];
      }
      StepStaysValid(before, Step.Subscribe(false));
    }

    method SubscribeE() returns (ch: Option<ChanID>)
      requires Valid(State())
      modifies this
      ensures Valid(State()) && State() == Apply(old(State()), Step.Subscribe(true))
      ensures ch == if |old(subs)| < MAX_SUBS then Some(old(next)) else None
      ensures subs == if ch.Some? then old(subs) + [ch.value] else old(subs)
    {
      StepStaysValid(State(), Step.Subscribe(true));
      if |subs| >= MAX_SUBS {
        return None;
      }
      var made := MakeChan();
      subs := subs + [made];
      ch := Some(made);
    }

    method Unsubscribe(ch: ChanID)
      requires Valid(State())
      modifies this
      ensures Valid(State()) && State() == Apply(old(State()), Step.Unsubscribe(ch))
      ensures ch !in subs
      ensures ch in old(subs) ==> ch in chans && chans[ch] == Chan(old(chans)[ch].buffer, true)
    {
      StepStaysValid(State(), Step.Unsubscribe(ch));
      UnsubscribeTakesOut(State(), ch);
      for i := 0 to |subs|
        invariant ch !in subs[..i] && State() == old(State())
      {
        if subs[i] == ch {
          WithoutOne(subs, ch, i);
          subs := subs[..i] + subs[i + 1..];
          CloseChan(ch);
          return;
        }
      }
      assert subs[..|subs|] == subs;
    }

    method Publish(e: Event)
      requires Valid(State())
      modifies this`chans
      ensures Valid(State()) && State() == Apply(old(State()), Step.Publish(e))
    {
      StepStaysValid(State(), Step.Publish(e));
      for i := 0 to |subs|
        invariant chans.Keys == old(chans).Keys
        invariant forall c :: c in chans ==>
                    chans[c] == if c in subs[..i] then Send(old(chans)[c], e) else old(chans)[c]
      {
        TrySend(subs[i], e);
      }
      assert subs[..|subs|] == subs;
    }

    method Receive(ch: ChanID) returns (e: Option<Event>)
      requires Valid(State())
      modifies this`chans
      ensures Valid(State()) && State() == Apply(old(State()), Step.Receive(ch))
      ensures e == if Buffer(old(State()), ch) == [] then None else Some(Buffer(old(State()), ch)[0])
    {
      StepStaysValid(State(), Step.Receive(ch));
      if ch !in chans || chans[ch].buffer == [] {
        return None;
      }
      e := Some(chans[ch].buffer[0]);
      chans := chans[ch := chans[ch].(buffer := chans[ch].buffer[1..])];
    }

    method Close()
      requires Valid(State())
      modifies this
      ensures Valid(State()) && State() == Apply(old(State()), Step.Close)
      ensures subs == [] && forall c :: c in old(subs) ==> c in chans && chans[c].closed
    {
      StepStaysValid(State(), Step.Close);
      for i := 0 to |subs|
        invariant subs == old(subs) && next == old(next)
        invariant chans.Keys == old(chans).Keys
        invariant forall c :: c in chans ==>
                    chans[c] == if c in subs[..i] then Closed(old(chans)[c]) else old(chans)[c]
      {
        CloseChan(subs[i]);
      }
      assert subs[..|subs|] == subs;
      subs := [];
    }
  }
}
