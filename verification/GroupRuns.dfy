/** Group calls that overlap. A call changes memory in one critical section and writes to the store
    in a later one, with nothing that covers both: any number of calls may stand between the two. */
module GroupRuns {
  import opened Prelude
  import opened GroupService
  import G = Groups
  import S = Store

  // ---- Runs ----

  /** pending holds the calls between their two halves. begun and written are history only: the
      calls in the order of their memory halves, and of the store writes that took effect. */
  datatype State = State(sys: Sys, pending: map<nat, Call>, next: nat, begun: seq<Call>, written: seq<Call>)

  datatype Step = Begin(call: Call) | Write(n: nat, diskOk: bool)

  predicate Tolerated(m: G.Memory, c: Call) {
    Tolerates(c, G.ErrorOf(m, MemoryOp(c)))
  }

  /** The store refuses a membership of a group it does not have. */
  predicate Lands(t: S.Tables, c: Call) {
    c.CreateGroup? || c.DeleteGroup? || c.id in t.groups
  }

  /** A call that memory refuses ends there. */
  function Next(s: State, step: Step): State {
    match step
    case Begin(c) =>
      if !Tolerated(s.sys.mem, c) then s
      else State(MemoryHalf(s.sys, c), s.pending[s.next := c], s.next + 1, s.begun + [c], s.written)
    case Write(n, diskOk) =>
      if n !in s.pending then s
      else
        var c := s.pending[n];
        State(StoreHalf(s.sys, c, diskOk), s.pending - {n}, s.next, s.begun,
              if diskOk && Lands(s.sys.db, c) then s.written + [c] else s.written)
  }

  /** A process that starts from tables t: its manager is loaded from them. */
  function Run(t: S.Tables, steps: seq<Step>): State {
    if steps == [] then State(Sys(Load(t, G.EMPTY), t), map[], 0, [], [])
    else Next(Run(t, steps[..|steps| - 1]), steps[|steps| - 1])
  }

  /** Two halves with nothing in between are a call that runs alone. */
  lemma AloneIsDo(s: State, c: Call, diskOk: bool)
    requires s.next !in s.pending
    ensures Next(Next(s, Begin(c)), Write(s.next, diskOk)).sys == Do(s.sys, c, diskOk)
  {}

  /** No run, whatever overlaps and whatever fails, leaves a membership without its group. */
  lemma {:induction false} RunKeepsForeignKey(t: S.Tables, steps: seq<Step>)
    requires S.ForeignKey(t)
    ensures S.ForeignKey(Run(t, steps).sys.db)
  {
    if steps != [] {
      var n := |steps| - 1;
      RunKeepsForeignKey(t, steps[..n]);
      var s := Run(t, steps[..n]);
      if steps[n].Write? && steps[n].n in s.pending {
        WriteKeepsForeignKey(s.sys.db, s.pending[steps[n].n]);
      }
    }
  }

  // ---- Memory and store as stories of one group ----

  /** What a list of calls makes of a group that the tables t start from. */
  function Story(t: S.Tables, log: seq<Call>, id: string): Option<G.Group> {
    if log == [] then InStore(t, id)
    else
      var n := |log| - 1;
      if log[n].id == id then Effect(Story(t, log[..n], id), log[n]) else Story(t, log[..n], id)
  }

  /** Every membership call in the list finds its group. */
  ghost predicate Grounded(t: S.Tables, log: seq<Call>) {
    forall i :: 0 <= i < |log| && (log[i].JoinGroup? || log[i].LeaveGroup?) ==> Story(t, log[..i], log[i].id).Some?
  }

  lemma OneMoreCall(t: S.Tables, log: seq<Call>, c: Call)
    requires Grounded(t, log)
    requires c.JoinGroup? || c.LeaveGroup? ==> Story(t, log, c.id).Some?
    ensures Grounded(t, log + [c])
    ensures forall id :: Story(t, log + [c], id) == if c.id == id then Effect(Story(t, log, id), c) else Story(t, log, id)
  {
    assert (log + [c])[..|log|] == log;
    assert forall i :: 0 <= i < |log| ==> (log + [c])[..i] == log[..i];
  }

  ghost predicate Told(t: S.Tables, s: State) {
    && Grounded(t, s.begun) && Grounded(t, s.written)
    && (forall id :: InMemory(s.sys.mem, id) == Story(t, s.begun, id))
    && (forall id :: InStore(s.sys.db, id) == Story(t, s.written, id))
  }

  lemma BeginIsTold(t: S.Tables, s: State, c: Call)
    requires Told(t, s)
    ensures Told(t, Next(s, Begin(c)))
  {
    if Tolerated(s.sys.mem, c) {
      assert InMemory(s.sys.mem, c.id) == Story(t, s.begun, c.id);
      OneMoreCall(t, s.begun, c);
      forall id ensures InMemory(Next(s, Begin(c)).sys.mem, id) == Story(t, s.begun + [c], id) {
        MemoryEffect(s.sys.mem, c, id);
      }
    }
  }

  lemma WriteIsTold(t: S.Tables, s: State, n: nat, diskOk: bool)
    requires Told(t, s) && S.ForeignKey(s.sys.db)
    ensures Told(t, Next(s, Write(n, diskOk)))
  {
    if n in s.pending && diskOk && Lands(s.sys.db, s.pending[n]) {
      var c := s.pending[n];
      assert InStore(s.sys.db, c.id) == Story(t, s.written, c.id);
      OneMoreCall(t, s.written, c);
      forall id ensures InStore(Next(s, Write(n, diskOk)).sys.db, id) == Story(t, s.written + [c], id) {
        StoreEffect(s.sys.db, c, id);
      }
    }
  }

  /** Memory is what the begun calls make of the start, and the store what the writes that took
      effect make of it: the two differ by order and by lost writes only. */
  lemma {:induction false} RunIsTold(t: S.Tables, steps: seq<Step>)
    requires S.ForeignKey(t)
    ensures Told(t, Run(t, steps))
  {
    if steps == [] {
      RestartRebuilds(Run(t, []).sys);
      assert forall id :: AgreeOn(Run(t, []).sys, id);
    } else {
      var n := |steps| - 1;
      var s := Run(t, steps[..n]);
      RunIsTold(t, steps[..n]);
      RunKeepsForeignKey(t, steps[..n]);
      match steps[n]
      case Begin(c) => BeginIsTold(t, s, c);
      case Write(k, diskOk) => WriteIsTold(t, s, k, diskOk);
    }
  }

  // ---- How a story ends ----

  /** The last call that made or deleted the group. */
  function LastLife(log: seq<Call>, id: string): Option<Call> {
    if log == [] then None
    else
      var c := log[|log| - 1];
      if c.id == id && (c.CreateGroup? || c.DeleteGroup?) then Some(c) else LastLife(log[..|log| - 1], id)
  }

  function LastCreate(log: seq<Call>, id: string): Option<Call> {
    if log == [] then None
    else
      var c := log[|log| - 1];
      if c.id == id && c.CreateGroup? then Some(c) else LastCreate(log[..|log| - 1], id)
  }

  /** The last call that made a new group, rather than rename one. */
  function Founding(t: S.Tables, log: seq<Call>, id: string): Option<Call> {
    if log == [] then None
    else
      var c, before := log[|log| - 1], log[..|log| - 1];
      if c.id == id && c.CreateGroup? && !Alive(t, before, id) then Some(c) else Founding(t, before, id)
  }

  /** The last call that decided about one membership. */
  function LastMembership(log: seq<Call>, id: string, peer: string): Option<Call> {
    if log == [] then None
    else
      var c := log[|log| - 1];
      if c.id == id && (c.DeleteGroup? || ((c.JoinGroup? || c.LeaveGroup?) && c.peer == peer)) then Some(c)
      else LastMembership(log[..|log| - 1], id, peer)
  }

  predicate Alive(t: S.Tables, log: seq<Call>, id: string) {
    match LastLife(log, id)
    case None => id in t.groups
    case Some(c) => c.CreateGroup?
  }

  predicate Joined(t: S.Tables, log: seq<Call>, id: string, peer: string) {
    match LastMembership(log, id, peer)
    case None => (id, peer) in t.members && t.members[(id, peer)].active
    case Some(c) => c.JoinGroup?
  }

  function NameOf(t: S.Tables, log: seq<Call>, id: string): Option<string> {
    match LastCreate(log, id)
    case None => if id in t.groups then Some(t.groups[id].name) else None
    case Some(c) => if c.CreateGroup? then Some(c.name) else None
  }

  function BornAt(t: S.Tables, log: seq<Call>, id: string): Option<int> {
    match Founding(t, log, id)
    case None => if id in t.groups then Some(t.groups[id].createdAt) else None
    case Some(c) => Some(c.now)
  }

  /** The last calls of both lists leave the group in the same way: the same kind of last call on
      its life and on each membership, and if it lives, the same name and the same founding time. */
  ghost predicate SameEnding(t: S.Tables, a: seq<Call>, b: seq<Call>, id: string) {
    && (Alive(t, a, id) <==> Alive(t, b, id))
    && (Alive(t, a, id) ==>
          && NameOf(t, a, id) == NameOf(t, b, id)
          && BornAt(t, a, id) == BornAt(t, b, id)
          && forall p :: Joined(t, a, id, p) <==> Joined(t, b, id, p))
  }

  ghost predicate EndsAs(t: S.Tables, log: seq<Call>, id: string, g: Option<G.Group>) {
    && (g.Some? <==> Alive(t, log, id))
    && (g.Some? ==> NameOf(t, log, id) == Some(g.value.name) && BornAt(t, log, id) == Some(g.value.createdAt))
    && forall p :: Joined(t, log, id, p) <==> g.Some? && p in g.value.members
  }

  lemma {:induction false} StoryEnds(t: S.Tables, log: seq<Call>, id: string)
    requires S.ForeignKey(t) && Grounded(t, log)
    ensures EndsAs(t, log, id, Story(t, log, id))
    decreases |log|
  {
    if log == [] {
      forall p ensures Joined(t, [], id, p) <==> id in t.groups && p in S.ActiveMembers(t, id) {}
    } else {
      var n := |log| - 1;
      assert forall i :: 0 <= i < n ==> log[..n][..i] == log[..i];
      StoryEnds(t, log[..n], id);
      CallEnds(t, log[..n], log[n], id, Story(t, log[..n], id));
      assert log == log[..n] + [log[n]];
    }
  }

  lemma CallEnds(t: S.Tables, log: seq<Call>, c: Call, id: string, g: Option<G.Group>)
    requires EndsAs(t, log, id, g)
    requires c.id == id && (c.JoinGroup? || c.LeaveGroup?) ==> g.Some?
    ensures EndsAs(t, log + [c], id, if c.id == id then Effect(g, c) else g)
  {
    assert (log + [c])[..|log|] == log;
    var g' := if c.id == id then Effect(g, c) else g;
    forall p ensures Joined(t, log + [c], id, p) <==> g'.Some? && p in g'.value.members {
      assert Joined(t, log, id, p) <==> g.Some? && p in g.value.members;
    }
  }

  /** The exact condition, for every interleaving, with calls still under way and with writes lost:
      memory and store agree on a group exactly if the order of the memory halves and the order of
      the writes that took effect end the same way for it. */
  lemma AgreementIff(t: S.Tables, steps: seq<Step>, id: string)
    requires S.ForeignKey(t)
    ensures var s := Run(t, steps);
            AgreeOn(s.sys, id) <==> SameEnding(t, s.begun, s.written, id)
  {
    var s := Run(t, steps);
    RunIsTold(t, steps);
    StoryEnds(t, s.begun, id);
    StoryEnds(t, s.written, id);
    var a, b := Story(t, s.begun, id), Story(t, s.written, id);
    assert InMemory(s.sys.mem, id) == a && InStore(s.sys.db, id) == b;
    if SameEnding(t, s.begun, s.written, id) && a.Some? {
      assert forall p :: p in a.value.members <==> p in b.value.members;
      assert a.value.members == b.value.members;
    }
  }

  /** Two calls that both succeed and part memory from the store, in every group that has not got
      the member yet: the later call writes first. A restart brings back the member who left. */
  lemma OverlapPartsMemoryFromStore(t: S.Tables, id: string, peer: string, now: int, later: int)
    requires S.ForeignKey(t) && id in t.groups && id != "" && peer != "" && peer !in S.ActiveMembers(t, id)
    ensures var s := Run(t, [Begin(JoinGroup(id, peer, now)), Begin(LeaveGroup(id, peer, later)),
                             Write(1, true), Write(0, true)]);
            && s.pending == map[] && |s.written| == 2
            && id in s.sys.mem.groups && peer !in s.sys.mem.groups[id].members
            && id in Load(s.sys.db, G.EMPTY).groups && peer in Load(s.sys.db, G.EMPTY).groups[id].members
  {
    var join, leave := JoinGroup(id, peer, now), LeaveGroup(id, peer, later);
    var s2 := Next(Next(Run(t, []), Begin(join)), Begin(leave));
    JoinedAndLeft(t, id, peer, now, later);
    WriteKeepsForeignKey(t, leave);
    StoreEffect(t, leave, id);
    StoreEffect(Written(t, leave), join, id);
    LaterWritesFirst(s2, join, leave);
    FourSteps(t, Begin(join), Begin(leave), Write(1, true), Write(0, true));
    var back := Sys(s2.sys.mem, Written(Written(t, leave), join));
    RestartRebuilds(back);
    assert AgreeOn(Sys(Load(back.db, G.EMPTY), back.db), id);
  }

  lemma JoinedAndLeft(t: S.Tables, id: string, peer: string, now: int, later: int)
    requires id in t.groups && id != "" && peer != "" && peer !in S.ActiveMembers(t, id)
    ensures var join, leave := JoinGroup(id, peer, now), LeaveGroup(id, peer, later);
            var s := Next(Next(Run(t, []), Begin(join)), Begin(leave));
            && s.pending == map[0 := join, 1 := leave] && s.sys.db == t && s.written == []
            && id in s.sys.mem.groups && peer !in s.sys.mem.groups[id].members
  {
    var join, leave := JoinGroup(id, peer, now), LeaveGroup(id, peer, later);
    var s := Run(t, []);
    RestartRebuilds(s.sys);
    assert AgreeOn(s.sys, id);
    MemoryEffect(s.sys.mem, join, id);
    MemoryEffect(Next(s, Begin(join)).sys.mem, leave, id);
  }

  lemma LaterWritesFirst(s: State, c: Call, d: Call)
    requires s.pending == map[0 := c, 1 := d] && c.id in s.sys.db.groups && d.id in s.sys.db.groups
    requires !c.DeleteGroup? && !d.DeleteGroup?
    ensures Next(Next(s, Write(1, true)), Write(0, true)) ==
              State(s.sys.(db := Written(Written(s.sys.db, d), c)), map[], s.next, s.begun, s.written + [d] + [c])
  {
    assert s.pending - {1} == map[0 := c] && map[0 := c] - {0} == map[];
  }

  lemma FourSteps(t: S.Tables, a: Step, b: Step, c: Step, d: Step)
    ensures Run(t, [a, b, c, d]) == Next(Next(Next(Next(Run(t, []), a), b), c), d)
  {
    assert [a][..0] == [] && [a, b][..1] == [a] && [a, b, c][..2] == [a, b] && [a, b, c, d][..3] == [a, b, c];
    assert Run(t, [a]) == Next(Run(t, []), a);
    assert Run(t, [a, b]) == Next(Run(t, [a]), b);
    assert Run(t, [a, b, c]) == Next(Run(t, [a, b]), c);
  }

  // ---- Calls on one group that do not overlap ----

  predicate PendingOn(s: State, n: nat, id: string) {
    n in s.pending && s.pending[n].id == id
  }

  /** A call on this group starts only when the one before it has returned, and its write goes
      through. Nothing is asked of calls on other groups. */
  ghost predicate InTurn(s: State, step: Step, id: string) {
    match step
    case Begin(c) => c.id == id ==> forall n :: !PendingOn(s, n, id)
    case Write(n, diskOk) => PendingOn(s, n, id) ==> diskOk
  }

  ghost predicate AllInTurn(t: S.Tables, steps: seq<Step>, id: string) {
    steps == [] ||
    (var n := |steps| - 1; AllInTurn(t, steps[..n], id) && InTurn(Run(t, steps[..n]), steps[n], id))
  }

  /** The store is behind memory by the one call under way, if there is one. */
  ghost predicate AtMostOneBehind(s: State, id: string) {
    && S.ForeignKey(s.sys.db)
    && (forall n :: n in s.pending ==> n < s.next)
    && (forall n, m :: PendingOn(s, n, id) && PendingOn(s, m, id) ==> n == m)
    && (forall n :: PendingOn(s, n, id) ==> InMemory(s.sys.mem, id) == Effect(InStore(s.sys.db, id), s.pending[n]))
    && ((forall n :: !PendingOn(s, n, id)) ==> AgreeOn(s.sys, id))
  }

  lemma BeginInTurn(s: State, c: Call, id: string)
    requires AtMostOneBehind(s, id) && InTurn(s, Begin(c), id)
    ensures AtMostOneBehind(Next(s, Begin(c)), id)
  {
    if Tolerated(s.sys.mem, c) {
      var s' := Next(s, Begin(c));
      MemoryEffect(s.sys.mem, c, id);
      assert c.id == id ==> PendingOn(s', s.next, id);
      forall n ensures n != s.next ==> (PendingOn(s', n, id) <==> PendingOn(s, n, id)) {}
    }
  }

  lemma WriteInTurn(s: State, n: nat, diskOk: bool, id: string)
    requires AtMostOneBehind(s, id) && InTurn(s, Write(n, diskOk), id)
    ensures AtMostOneBehind(Next(s, Write(n, diskOk)), id)
  {
    if n in s.pending {
      var s' := Next(s, Write(n, diskOk));
      StoreEffect(s.sys.db, s.pending[n], id);
      WriteKeepsForeignKey(s.sys.db, s.pending[n]);
      forall m ensures PendingOn(s', m, id) <==> PendingOn(s, m, id) && m != n {}
      forall m | PendingOn(s', m, id)
        ensures InMemory(s'.sys.mem, id) == Effect(InStore(s'.sys.db, id), s'.pending[m])
      {
        assert PendingOn(s, m, id) && !PendingOn(s, n, id);
      }
    }
  }

  lemma {:induction false} InTurnIsAtMostOneBehind(t: S.Tables, steps: seq<Step>, id: string)
    requires S.ForeignKey(t) && AllInTurn(t, steps, id)
    ensures AtMostOneBehind(Run(t, steps), id)
    decreases |steps|
  {
    if steps == [] {
      RestartRebuilds(Run(t, []).sys);
    } else {
      var n := |steps| - 1;
      var s := Run(t, steps[..n]);
      InTurnIsAtMostOneBehind(t, steps[..n], id);
      match steps[n]
      case Begin(c) => BeginInTurn(s, c, id);
      case Write(k, diskOk) => WriteInTurn(s, k, diskOk, id);
    }
  }

  /** Memory and store agree on a group whose calls come one at a time, whenever none is under way,
      whatever calls on other groups overlap or fail. Calls made one after the other are the case
      in which every group is such a group. */
  lemma RunKeepsAgreement(t: S.Tables, steps: seq<Step>, id: string)
    requires S.ForeignKey(t) && AllInTurn(t, steps, id)
    requires forall n :: !PendingOn(Run(t, steps), n, id)
    ensures AgreeOn(Run(t, steps).sys, id)
  {
    InTurnIsAtMostOneBehind(t, steps, id);
  }

  /** If no two calls on one group overlap, a restart after all calls have returned rebuilds the
      groups and members of memory. */
  lemma RestartAfterRun(t: S.Tables, steps: seq<Step>)
    requires S.ForeignKey(t) && Run(t, steps).pending == map[]
    requires forall id :: AllInTurn(t, steps, id)
    ensures var s := Run(t, steps).sys; Load(s.db, G.EMPTY).groups == s.mem.groups
  {
    forall id ensures AgreeOn(Run(t, steps).sys, id) {
      RunKeepsAgreement(t, steps, id);
    }
    RestartRebuilds(Run(t, steps).sys);
  }
}
