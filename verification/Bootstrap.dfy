/** The bootstrap maintenance loop: on every tick it checks connectivity and, when all bootstrap
    peers are lost, redials them with backoff until the retry limit is met. */
module Bootstrap {
  import B = Backoff

  /** What a tick finds: the connected peers, those a redial would reach, and whether the manager is
      closed during the sleep. */
  datatype Tick = Tick(connected: set<string>, reachable: set<string>, cancelled: bool)

  datatype Loop = Running(attempts: nat) | GivenUp | Stopped

  predicate Up(peers: seq<string>, t: Tick) {
    exists p :: p in peers && p in t.connected
  }

  predicate Reconnects(peers: seq<string>, t: Tick) {
    exists p :: p in peers && p in t.reachable
  }

  /** A round that redials every bootstrap peer in vain. */
  predicate Fails(peers: seq<string>, t: Tick) {
    forall p :: p in peers ==> p !in t.connected && p !in t.reachable
  }

  predicate LimitMet(limit: int, attempts: nat) {
    limit > 0 && attempts >= limit
  }

  function OnTick(limit: int, peers: seq<string>, l: Loop, t: Tick): Loop {
    if !l.Running? then l
    else if Up(peers, t) then Running(0)
    else if LimitMet(limit, l.attempts) then GivenUp
    else if t.cancelled then Stopped
    else if Reconnects(peers, t) then Running(0)
    else Running(l.attempts + 1)
  }

  function Run(limit: int, peers: seq<string>, ticks: seq<Tick>): Loop {
    if ticks == [] then Running(0)
    else OnTick(limit, peers, Run(limit, peers, ticks[..|ticks| - 1]), ticks[|ticks| - 1])
  }

  /** What one tick does: with a peer connected it resets; otherwise it gives up at the limit, stops if
      cancelled, resets if a redial succeeds, and else counts one more failed round. */
  lemma TickDecides(limit: int, peers: seq<string>, attempts: nat, t: Tick)
    ensures var l := OnTick(limit, peers, Running(attempts), t);
            var lost := forall p :: p in peers ==> p !in t.connected;
            && (l == GivenUp <==> lost && 0 < limit <= attempts)
            && (l == Stopped <==> lost && !(0 < limit <= attempts) && t.cancelled)
            && (l == Running(attempts + 1) <==> Fails(peers, t) && !(0 < limit <= attempts) && !t.cancelled)
            && (l.Running? ==> l.attempts in {0, attempts + 1})
  {}

  /** How many rounds in a row failed just before tick n. */
  function FailStreak(peers: seq<string>, ticks: seq<Tick>, n: nat): nat
    requires n <= |ticks|
  {
    if n == 0 || !Fails(peers, ticks[n - 1]) then 0 else 1 + FailStreak(peers, ticks, n - 1)
  }

  ghost predicate NeverCancelled(ticks: seq<Tick>) {
    forall i :: 0 <= i < |ticks| ==> !ticks[i].cancelled
  }

  /** Tick i finds all peers lost after limit failed rounds in a row. */
  predicate ExhaustedAt(limit: int, peers: seq<string>, ticks: seq<Tick>, i: nat)
    requires i < |ticks|
  {
    (forall p :: p in peers ==> p !in ticks[i].connected) && 0 < limit <= FailStreak(peers, ticks, i)
  }

  lemma {:induction false} StreakOfPrefix(peers: seq<string>, ticks: seq<Tick>, k: nat, n: nat)
    requires n <= k <= |ticks|
    ensures FailStreak(peers, ticks[..k], n) == FailStreak(peers, ticks, n)
  {
    if n > 0 {
      StreakOfPrefix(peers, ticks, k, n - 1);
    }
  }

  /** While the loop runs, its attempts are the failed rounds since the last success. */
  lemma {:induction false} AttemptsAreStreak(limit: int, peers: seq<string>, ticks: seq<Tick>)
    requires NeverCancelled(ticks)
    ensures var l := Run(limit, peers, ticks);
            && !l.Stopped?
            && (l.Running? ==> l.attempts == FailStreak(peers, ticks, |ticks|))
            && (l.Running? && limit > 0 ==> l.attempts <= limit)
  {
    if ticks != [] {
      var n := |ticks| - 1;
      AttemptsAreStreak(limit, peers, ticks[..n]);
      StreakOfPrefix(peers, ticks, n, n);
    }
  }

  /** Uncancelled, the loop has given up exactly if some tick found all peers lost after limit failed
      rounds in a row. */
  lemma {:induction false} GivesUpIff(limit: int, peers: seq<string>, ticks: seq<Tick>)
    requires NeverCancelled(ticks)
    ensures Run(limit, peers, ticks).GivenUp? <==>
              exists i :: 0 <= i < |ticks| && ExhaustedAt(limit, peers, ticks, i)
  {
    if ticks != [] {
      var n := |ticks| - 1;
      GivesUpIff(limit, peers, ticks[..n]);
      AttemptsAreStreak(limit, peers, ticks[..n]);
      StreakOfPrefix(peers, ticks, n, n);
      forall i | 0 <= i < n ensures ExhaustedAt(limit, peers, ticks[..n], i) <==> ExhaustedAt(limit, peers, ticks, i) {
        StreakOfPrefix(peers, ticks, n, i);
      }
      assert (exists i :: 0 <= i < |ticks| && ExhaustedAt(limit, peers, ticks, i)) <==>
             ExhaustedAt(limit, peers, ticks, n) || exists i :: 0 <= i < n && ExhaustedAt(limit, peers, ticks[..n], i);
    }
  }

  /** It gives up at the tick that follows the limit-th failure, not at a later one. */
  lemma GivesUpAtLimit(limit: int, peers: seq<string>, ticks: seq<Tick>)
    requires NeverCancelled(ticks) && ticks != []
    requires Run(limit, peers, ticks[..|ticks| - 1]).Running? && Run(limit, peers, ticks).GivenUp?
    ensures limit > 0 && FailStreak(peers, ticks, |ticks| - 1) == limit
  {
    var n := |ticks| - 1;
    AttemptsAreStreak(limit, peers, ticks[..n]);
    StreakOfPrefix(peers, ticks, n, n);
  }

  /** Without a limit it never gives up. */
  lemma {:induction false} UnlimitedNeverGivesUp(limit: int, peers: seq<string>, ticks: seq<Tick>)
    requires limit <= 0
    ensures !Run(limit, peers, ticks).GivenUp?
  {
    if ticks != [] {
      UnlimitedNeverGivesUp(limit, peers, ticks[..|ticks| - 1]);
    }
  }

  // ---- The manager ----

  class BootstrapManager {
    const peers: seq<string>
    const backoff: B.Backoff
    var gone: bool
    var exhausted: bool

    ghost predicate Valid()
      reads this, backoff
    {
      backoff.Valid() && peers != []
    }

    function State(): Loop
      reads this, backoff
    {
      if !gone then Running(backoff.attempts) else if exhausted then GivenUp else Stopped
    }

    constructor (peers: seq<string>, c: B.Config)
      requires peers != []
      ensures Valid() && fresh(backoff) && State() == Running(0)
      ensures this.peers == peers && backoff.cfg == B.Normalized(c)
    {
      this.peers := peers;
      backoff := new B.Backoff(c);
      gone, exhausted := false, false;
    }

    /** One tick of maintainLoop; gone means the loop has returned. */
    method ProcessTick(t: Tick, factor: real)
      requires Valid() && !gone && B.IsFactor(factor)
      modifies this, backoff
      ensures Valid()
      ensures State() == OnTick(backoff.cfg.maxRetries, peers, old(State()), t)
    {
      var hasBootstrap := false;
      var disconnected: seq<string> := [];
      for i := 0 to |peers|
        invariant hasBootstrap <==> exists p :: p in peers[..i] && p in t.connected
        invariant !hasBootstrap ==> disconnected == peers[..i]
      {
        assert peers[..i + 1] == peers[..i] + [peers[i]];
        if peers[i] in t.connected {
          hasBootstrap := true;
        } else {
          disconnected := disconnected + [peers[i]];
        }
      }
      assert peers[..|peers|] == peers;
      if hasBootstrap {
        backoff.Reset();
        return;
      }
      if |disconnected| > 0 {
        var slept := backoff.Sleep(factor, t.cancelled);
        if !slept.Slept? {
          gone, exhausted := true, slept.MaxRetriesReached?;
          return;
        }
        var reconnected := false;
        for i := 0 to |disconnected|
          invariant reconnected <==> exists p :: p in peers[..i] && p in t.reachable
          invariant Valid() && backoff.attempts == old(backoff.attempts) + 1 && !gone
        {
          assert peers[..i + 1] == peers[..i] + [peers[i]];
          if disconnected[i] in t.reachable {
            reconnected := true;
          }
        }
        if reconnected {
          backoff.Reset();
        }
      }
    }
  }
}
