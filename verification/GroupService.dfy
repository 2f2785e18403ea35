/** Group calls of the chat service: every change is written to the in-memory manager and to the
    store, and a restart rebuilds the manager from the store. */
module GroupService {
  import opened Prelude
  import G = Groups
  import S = Store

  // ---- The restart rebuild ----

  function Restored(row: S.GroupRow, members: set<string>): G.Group {
    G.Group(row.name, members, row.createdAt)
  }

  /** Groups already in memory are skipped; the others come back with their active members and an
      empty duplicate filter. */
  function Load(t: S.Tables, m: G.Memory): G.Memory {
    LoadSome(t, m, t.groups.Keys)
  }

  function LoadSome(t: S.Tables, m: G.Memory, ids: set<string>): G.Memory {
    var missing := set id | id in ids && id in t.groups && id !in m.groups;
    G.Memory(m.groups + RestoredGroups(t, missing), m.seen + EmptyFilters(missing))
  }

  function RestoredGroups(t: S.Tables, ids: set<string>): map<string, G.Group> {
    map id | id in ids && id in t.groups :: Restored(t.groups[id], S.ActiveMembers(t, id))
  }

  function EmptyFilters(ids: set<string>): map<string, set<string>> {
    map id | id in ids :: {}
  }

  function LoadOne(t: S.Tables, m: G.Memory, id: string): G.Memory {
    if id !in t.groups || id in m.groups then m
    else G.Memory(m.groups[id := Restored(t.groups[id], S.ActiveMembers(t, id))], m.seen[id := {}])
  }

  function LoadEach(t: S.Tables, m: G.Memory, ids: seq<string>): G.Memory {
    if ids == [] then m else LoadOne(t, LoadEach(t, m, ids[..|ids| - 1]), ids[|ids| - 1])
  }

  lemma RestoredMore(t: S.Tables, ids: set<string>, id: string)
    requires id in t.groups
    ensures RestoredGroups(t, ids + {id}) == RestoredGroups(t, ids)[id := Restored(t.groups[id], S.ActiveMembers(t, id))]
    ensures EmptyFilters(ids + {id}) == EmptyFilters(ids)[id := {}]
  {}

  lemma MergeUpdated<V>(m: map<string, V>, n: map<string, V>, id: string, v: V)
    ensures m + n[id := v] == (m + n)[id := v]
  {}

  lemma LoadOneMore(t: S.Tables, m: G.Memory, ids: set<string>, id: string)
    ensures LoadOne(t, LoadSome(t, m, ids), id) == LoadSome(t, m, ids + {id})
  {
    var missing := set x | x in ids && x in t.groups && x !in m.groups;
    var missing' := set x | x in ids + {id} && x in t.groups && x !in m.groups;
    if id in t.groups && id !in m.groups && id !in ids {
      assert missing' == missing + {id};
      RestoredMore(t, missing, id);
      MergeUpdated(m.groups, RestoredGroups(t, missing), id, Restored(t.groups[id], S.ActiveMembers(t, id)));
      MergeUpdated(m.seen, EmptyFilters(missing), id, {});
    } else {
      assert missing' == missing;
      assert id in missing ==> id in RestoredGroups(t, missing);
    }
  }

  /** Loading row by row gives the same memory in every row order. */
  lemma {:induction false} LoadEachIsLoadSome(t: S.Tables, m: G.Memory, ids: seq<string>)
    ensures LoadEach(t, m, ids) == LoadSome(t, m, Elements(ids))
  {
    if ids != [] {
      LastElement(ids);
      LoadEachIsLoadSome(t, m, ids[..|ids| - 1]);
      LoadOneMore(t, m, Elements(ids[..|ids| - 1]), ids[|ids| - 1]);
    } else {
      assert LoadSome(t, m, {}).groups == m.groups && LoadSome(t, m, {}).seen == m.seen;
    }
  }

  method LoadFromStore(store: S.Store, mgr: G.GroupManager)
    modifies mgr
    ensures mgr.State() == Load(store.tables, old(mgr.State()))
    ensures mgr.groups.Keys == old(mgr.groups).Keys + store.tables.groups.Keys
    ensures forall id :: id in mgr.groups ==>
              mgr.groups[id] == if id in old(mgr.groups) then old(mgr.groups)[id]
                                else G.Group(store.tables.groups[id].name, S.ActiveMembers(store.tables, id), store.tables.groups[id].createdAt)
  {
    var ids := store.ListGroups();
    for i := 0 to |ids|
      invariant mgr.State() == LoadEach(store.tables, old(mgr.State()), ids[..i])
    {
      assert ids[..i + 1][..i] == ids[..i];
      assert ids[i] in Elements(ids);
      RestoreGroup(store, mgr, ids[i]);
    }
    assert ids[..|ids|] == ids;
    LoadEachIsLoadSome(store.tables, old(mgr.State()), ids);
  }

  method RestoreGroup(store: S.Store, mgr: G.GroupManager, id: string)
    requires id in store.tables.groups
    modifies mgr
    ensures mgr.State() == LoadOne(store.tables, old(mgr.State()), id)
  {
    if id in mgr.groups {
      return;
    }
    var row := store.tables.groups[id];
    mgr.groups := mgr.groups[id := G.Group(row.name, {}, row.createdAt)];
    mgr.seen := mgr.seen[id := {}];
    RestoreMembers(store, mgr, id);
  }

  method RestoreMembers(store: S.Store, mgr: G.GroupManager, id: string)
    requires id in mgr.groups && mgr.groups[id].members == {}
    modifies mgr`groups
    ensures mgr.groups == old(mgr.groups)[id := old(mgr.groups)[id].(members := S.ActiveMembers(store.tables, id))]
  {
    var rows := store.ListGroupMembers(id);
    ghost var group := mgr.groups[id];
    for j := 0 to |rows|
      invariant id in mgr.groups
      invariant mgr.groups == old(mgr.groups)[id := group.(members := mgr.groups[id].members)]
      invariant forall p :: p in mgr.groups[id].members <==> exists k :: 0 <= k < j && rows[k].1.active && rows[k].0 == p
    {
      if rows[j].1.active && rows[j].0 !in mgr.groups[id].members {
        mgr.groups := mgr.groups[id := mgr.groups[id].(members := mgr.groups[id].members + {rows[j].0})];
      }
    }
    var active := S.ActiveMembers(store.tables, id);
    forall p ensures p in mgr.groups[id].members <==> p in active {
      if p in active {
        assert (p, store.tables.members[(id, p)]) in rows;
      }
      if k :| 0 <= k < |rows| && rows[k].1.active && rows[k].0 == p {
        assert rows[k] in rows;
        assert (id, p) in store.tables.members;
      }
    }
    assert mgr.groups[id].members == active;
  }

  lemma NothingMissing(t: S.Tables, m: G.Memory)
    requires forall id :: id in t.groups ==> id in m.groups
    ensures Load(t, m) == m
  {
    assert RestoredGroups(t, {}) == map[] && EmptyFilters({}) == map[];
    assert m.groups + map[] == m.groups && m.seen + map[] == m.seen;
    assert (set id | id in t.groups.Keys && id in t.groups && id !in m.groups) == {};
  }

  lemma {:induction false} LoadTwiceIsLoadOnce(t: S.Tables, m: G.Memory)
    ensures Load(t, Load(t, m)) == Load(t, m)
  {
    var l := Load(t, m);
    assert forall id :: id in t.groups ==> id in l.groups;
    NothingMissing(t, l);
  }

  // ---- The service calls ----

  datatype Sys = Sys(mem: G.Memory, db: S.Tables)

  datatype Call =
    | CreateGroup(id: string, name: string, now: int)
    | JoinGroup(id: string, peer: string, now: int)
    | LeaveGroup(id: string, peer: string, now: int)
    | DeleteGroup(id: string, now: int)

  function MemoryOp(c: Call): G.Op {
    match c
    case CreateGroup(id, name, now) => G.Create(id, name, now)
    case JoinGroup(id, peer, _) => G.Add(id, peer)
    case LeaveGroup(id, peer, _) => G.Remove(id, peer)
    case DeleteGroup(id, _) => G.Delete(id)
  }

  /** The memory errors after which a call still writes to the store. */
  predicate Tolerates(c: Call, err: Option<G.Error>) {
    match c
    case CreateGroup(_, _, _) => err == None
    case JoinGroup(_, _, _) => err in {None, Some(G.MemberAlreadyAdded)}
    case LeaveGroup(_, _, _) => err in {None, Some(G.MemberNotFound)}
    case DeleteGroup(_, _) => err in {None, Some(G.GroupNotFound)}
  }

  /** Which calls go on to the store: a create must be new, a join or leave must find its group, and
      nothing may be blank. */
  lemma ToleratedIff(m: G.Memory, c: Call)
    ensures Tolerates(c, G.ErrorOf(m, MemoryOp(c))) <==>
              c.id != "" &&
              match c
              case CreateGroup(id, name, _) => name != "" && id !in m.groups
              case JoinGroup(id, peer, _) => peer != "" && id in m.groups
              case LeaveGroup(id, peer, _) => peer != "" && id in m.groups
              case DeleteGroup(_, _) => true
  {}

  function Written(t: S.Tables, c: Call): S.Tables {
    match c
    case CreateGroup(id, name, now) => S.Upserted(t, id, name, now)
    case JoinGroup(id, peer, now) => if id in t.groups then S.MemberSet(t, id, peer, now, true, now) else t
    case LeaveGroup(id, peer, now) => if id in t.groups then S.MemberSet(t, id, peer, now, false, now) else t
    case DeleteGroup(id, _) => S.Deleted(t, id)
  }

  function MemoryHalf(s: Sys, c: Call): Sys {
    if Tolerates(c, G.ErrorOf(s.mem, MemoryOp(c))) then s.(mem := G.Apply(s.mem, MemoryOp(c))) else s
  }

  /** diskOk tells whether the store write goes through. */
  function StoreHalf(s: Sys, c: Call, diskOk: bool): Sys {
    if diskOk then s.(db := Written(s.db, c)) else s
  }

  /** A call that runs alone. Calls that overlap are the subject of GroupRuns. */
  function Do(s: Sys, c: Call, diskOk: bool): Sys {
    if Tolerates(c, G.ErrorOf(s.mem, MemoryOp(c))) then StoreHalf(MemoryHalf(s, c), c, diskOk) else s
  }

  function InMemory(m: G.Memory, id: string): Option<G.Group> {
    if id in m.groups then Some(m.groups[id]) else None
  }

  /** The group as a restart would rebuild it. */
  function InStore(t: S.Tables, id: string): Option<G.Group> {
    if id in t.groups then Some(Restored(t.groups[id], S.ActiveMembers(t, id))) else None
  }

  /** Same group IDs, names and creation times; members are the active rows. */
  ghost predicate Agree(s: Sys) {
    forall id :: AgreeOn(s, id)
  }

  ghost predicate AgreeOn(s: Sys, id: string) {
    InMemory(s.mem, id) == InStore(s.db, id)
  }

  /** What a call makes of its group, wherever the group is kept. */
  function Effect(g: Option<G.Group>, c: Call): Option<G.Group> {
    match c
    case CreateGroup(_, name, now) => Some(if g.Some? then g.value.(name := name) else G.Group(name, {}, now))
    case JoinGroup(_, peer, _) => if g.None? then None else Some(g.value.(members := g.value.members + {peer}))
    case LeaveGroup(_, peer, _) => if g.None? then None else Some(g.value.(members := g.value.members - {peer}))
    case DeleteGroup(_, _) => None
  }

  lemma MemoryEffect(m: G.Memory, c: Call, id: string)
    requires Tolerates(c, G.ErrorOf(m, MemoryOp(c)))
    ensures InMemory(G.Apply(m, MemoryOp(c)), id) ==
              if c.id == id then Effect(InMemory(m, id), c) else InMemory(m, id)
  {
    if c.JoinGroup? && c.peer in m.groups[c.id].members {
      assert m.groups[c.id].members + {c.peer} == m.groups[c.id].members;
    } else if c.LeaveGroup? && c.peer !in m.groups[c.id].members {
      assert m.groups[c.id].members - {c.peer} == m.groups[c.id].members;
    }
  }

  lemma StoreEffect(t: S.Tables, c: Call, id: string)
    requires S.ForeignKey(t)
    ensures InStore(Written(t, c), id) == if c.id == id then Effect(InStore(t, id), c) else InStore(t, id)
  {
    match c
    case CreateGroup(_, name, now) =>
      assert id !in t.groups ==> S.ActiveMembers(t, id) == {};
    case JoinGroup(_, peer, now) => ActiveAfterSet(t, c.id, peer, now, true, now, id);
    case LeaveGroup(_, peer, now) => ActiveAfterSet(t, c.id, peer, now, false, now, id);
    case DeleteGroup(_, _) => ActiveAfterDelete(t, c.id, id);
  }

  lemma ActiveAfterSet(t: S.Tables, id: string, peer: string, joinedAt: int, active: bool, lastSeen: int, other: string)
    ensures S.ActiveMembers(S.MemberSet(t, id, peer, joinedAt, active, lastSeen), other) ==
              if other != id then S.ActiveMembers(t, other)
              else if active then S.ActiveMembers(t, id) + {peer} else S.ActiveMembers(t, id) - {peer}
  {
    var u := S.MemberSet(t, id, peer, joinedAt, active, lastSeen);
    assert forall p :: p in S.ActiveMembers(t, other) <==> (other, p) in t.members && t.members[(other, p)].active;
    assert forall p :: p in S.ActiveMembers(u, other) <==> (other, p) in u.members && u.members[(other, p)].active;
  }

  lemma ActiveAfterDelete(t: S.Tables, id: string, other: string)
    ensures S.ActiveMembers(S.Deleted(t, id), other) == if other == id then {} else S.ActiveMembers(t, other)
  {
    var u := S.Deleted(t, id);
    assert forall p :: p in S.ActiveMembers(t, other) <==> (other, p) in t.members && t.members[(other, p)].active;
    assert forall p :: p in S.ActiveMembers(u, other) <==> (other, p) in u.members && u.members[(other, p)].active;
  }

  lemma WriteKeepsForeignKey(t: S.Tables, c: Call)
    requires S.ForeignKey(t)
    ensures S.ForeignKey(Written(t, c))
  {}

  /** A call that runs alone, and whose write goes through, keeps memory and store in agreement on
      each group they agree on. */
  lemma SuccessKeepsAgreement(s: Sys, c: Call, id: string)
    requires AgreeOn(s, id) && S.ForeignKey(s.db)
    ensures AgreeOn(Do(s, c, true), id)
  {
    if Tolerates(c, G.ErrorOf(s.mem, MemoryOp(c))) {
      MemoryEffect(s.mem, c, id);
      StoreEffect(s.db, c, id);
    }
  }

  /** A restart after agreement changes nothing, and a restart brings agreement. */
  lemma RestartRebuilds(s: Sys)
    ensures Agree(Sys(Load(s.db, G.EMPTY), s.db))
    ensures Agree(s) <==> Load(s.db, G.EMPTY).groups == s.mem.groups
  {
    var loaded := Load(s.db, G.EMPTY);
    assert loaded.groups.Keys == s.db.groups.Keys;
    forall id ensures InMemory(loaded, id) == InStore(s.db, id) {}
    if Agree(s) {
      forall id ensures id in s.mem.groups <==> id in loaded.groups
                ensures id in s.mem.groups && id in loaded.groups ==> s.mem.groups[id] == loaded.groups[id]
      {
        assert AgreeOn(s, id);
      }
    }
    if s.mem.groups == loaded.groups {
      forall id ensures AgreeOn(s, id) {}
    }
  }

  /** A call that runs alone keeps memory and store in agreement exactly when its store write goes
      through or the manager refuses it. */
  lemma AgreementKeptIff(s: Sys, c: Call, diskOk: bool)
    requires Agree(s) && S.ForeignKey(s.db)
    ensures Agree(Do(s, c, diskOk)) <==> diskOk || G.ErrorOf(s.mem, MemoryOp(c)).Some?
  {
    var err := G.ErrorOf(s.mem, MemoryOp(c));
    if diskOk {
      forall id ensures AgreeOn(Do(s, c, true), id) {
        assert AgreeOn(s, id);
        SuccessKeepsAgreement(s, c, id);
      }
    } else if err.Some? {
      forall id ensures AgreeOn(Do(s, c, false), id) {
        assert AgreeOn(s, id);
      }
    } else {
      assert AgreeOn(s, c.id);
      MemoryEffect(s.mem, c, c.id);
      assert !AgreeOn(Do(s, c, false), c.id);
    }
  }

  // ---- Calls that undo each other ----

  /** Deleting a group just created leaves memory and tables as they were before. */
  lemma DeleteUndoesCreate(s: Sys, id: string, name: string, now: int, later: int)
    requires Agree(s) && S.ForeignKey(s.db) && G.Consistent(s.mem)
    requires G.ErrorOf(s.mem, G.Create(id, name, now)).None?
    ensures Do(Do(s, CreateGroup(id, name, now), true), DeleteGroup(id, later), true) == s
  {
    assert AgreeOn(s, id);
    var s' := Do(Do(s, CreateGroup(id, name, now), true), DeleteGroup(id, later), true);
    assert s'.mem.groups == s.mem.groups && s'.mem.seen == s.mem.seen;
    assert s'.db.groups == s.db.groups && s'.db.members == s.db.members;
  }

  /** Leaving undoes joining in memory and for every reader of active rows; the row itself stays. */
  lemma LeaveUndoesJoin(s: Sys, id: string, peer: string, now: int, later: int, other: string)
    requires Agree(s)
    requires G.ErrorOf(s.mem, G.Add(id, peer)).None?
    ensures var s' := Do(Do(s, JoinGroup(id, peer, now), true), LeaveGroup(id, peer, later), true);
            && s'.mem.groups == s.mem.groups
            && S.ActiveMembers(s'.db, other) == S.ActiveMembers(s.db, other)
            && (id, peer) in s'.db.members && !s'.db.members[(id, peer)].active
  {
    assert AgreeOn(s, id);
    var c, d := JoinGroup(id, peer, now), LeaveGroup(id, peer, later);
    var joined := Do(s, c, true);
    ActiveAfterSet(s.db, id, peer, now, true, now, other);
    ActiveAfterSet(joined.db, id, peer, later, false, later, other);
    assert s.mem.groups[id].members + {peer} - {peer} == s.mem.groups[id].members;
  }

  /** While a row exists no call changes when it was made: a peer that rejoins keeps its first
      joining time, a group its creation time. */
  lemma FirstTimesAreKept(s: Sys, c: Call, diskOk: bool, k: S.MemberKey)
    ensures var t := Do(s, c, diskOk).db;
            && (k in s.db.members && k in t.members ==> t.members[k].joinedAt == s.db.members[k].joinedAt)
            && (k.0 in s.db.groups && k.0 in t.groups ==> t.groups[k.0].createdAt == s.db.groups[k.0].createdAt)
  {}

  /** A call whose write failed is undone by a restart. */
  lemma RestartUndoesFailedCall(s: Sys, c: Call)
    requires Agree(s)
    ensures Load(Do(s, c, false).db, G.EMPTY).groups == s.mem.groups
  {
    RestartRebuilds(s);
  }

  // ---- The service ----

  class P2PService {
    const groups: G.GroupManager
    const store: S.Store

    function State(): Sys
      reads groups, store
    {
      Sys(groups.State(), store.tables)
    }

    constructor (groups: G.GroupManager, store: S.Store)
      ensures this.groups == groups && this.store == store
    {
      this.groups, this.store := groups, store;
    }

    method Create(id: string, name: string, now: int, diskOk: bool) returns (ok: bool)
      requires S.ForeignKey(store.tables) && now != S.ZERO_TIME
      modifies groups, store
      ensures S.ForeignKey(store.tables)
      ensures State() == Do(old(State()), CreateGroup(id, name, now), diskOk)
      ensures ok <==> diskOk && id != "" && name != "" && id !in old(groups.groups)
      ensures ok ==> InMemory(groups.State(), id) == Some(G.Group(name, {}, now))
                     && id in store.tables.groups && store.tables.groups[id].name == name
    {
      var err := groups.CreateGroup(id, name, now);
      if err.Some? {
        return false;
      }
      var storeErr := store.UpsertGroup(id, name, now, now, diskOk);
      ok := storeErr.None?;
    }

    method Join(id: string, peer: string, now: int, diskOk: bool) returns (ok: bool)
      requires S.ForeignKey(store.tables) && now != S.ZERO_TIME
      modifies groups, store
      ensures S.ForeignKey(store.tables)
      ensures State() == Do(old(State()), JoinGroup(id, peer, now), diskOk)
      ensures ok <==> diskOk && id != "" && peer != "" && id in old(groups.groups) && id in old(store.tables).groups
      ensures ok ==> id in groups.groups && peer in groups.groups[id].members
                     && (id, peer) in store.tables.members && store.tables.members[(id, peer)].active
    {
      var err := groups.AddMember(id, peer);
      if err.Some? && err != Some(G.MemberAlreadyAdded) {
        return false;
      }
      var storeErr := store.SetGroupMembership(id, peer, now, true, now, now, diskOk);
      ok := storeErr.None?;
    }

    method Leave(id: string, peer: string, now: int, diskOk: bool) returns (ok: bool)
      requires S.ForeignKey(store.tables) && now != S.ZERO_TIME
      modifies groups, store
      ensures S.ForeignKey(store.tables)
      ensures State() == Do(old(State()), LeaveGroup(id, peer, now), diskOk)
      ensures ok <==> diskOk && id != "" && peer != "" && id in old(groups.groups) && id in old(store.tables).groups
      ensures ok ==> id in groups.groups && peer !in groups.groups[id].members
                     && (id, peer) in store.tables.members && !store.tables.members[(id, peer)].active
    {
      var err := groups.RemoveMember(id, peer);
      if err.Some? && err != Some(G.MemberNotFound) {
        return false;
      }
      var storeErr := store.SetGroupMembership(id, peer, now, false, now, now, diskOk);
      ok := storeErr.None?;
    }

    /** Deleting a group that the store does not have reports an error and changes no row. */
    method Delete(id: string, now: int, diskOk: bool) returns (ok: bool)
      requires S.ForeignKey(store.tables)
      modifies groups, store
      ensures S.ForeignKey(store.tables)
      ensures State() == Do(old(State()), DeleteGroup(id, now), diskOk)
      ensures ok <==> id != "" && diskOk && id in old(store.tables).groups
      ensures ok ==> id !in groups.groups && id !in store.tables.groups && forall k :: k in store.tables.members ==> k.0 != id
    {
      var err := groups.DeleteGroup(id);
      if err.Some? && err != Some(G.GroupNotFound) {
        return false;
      }
      var storeErr := store.DeleteGroup(id, diskOk);
      ok := storeErr.None?;
      if id !in old(store.tables).groups {
        DeleteUnknown(old(store.tables), id);
      }
    }
  }

  lemma DeleteUnknown(t: S.Tables, id: string)
    requires S.ForeignKey(t) && id !in t.groups
    ensures S.Deleted(t, id) == t
  {
    assert S.Deleted(t, id).groups == t.groups;
    assert S.Deleted(t, id).members == t.members;
  }
}
