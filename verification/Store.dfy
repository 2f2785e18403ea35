/** The tables behind the groups: each statement is atomic, memberships are soft-deleted, and
    deleting a group cascades to its memberships. */
module Store {
  import opened Prelude
  import StringOrder

  /** The zero time, for which the store substitutes its own clock. */
  const ZERO_TIME := 0

  datatype GroupRow = GroupRow(name: string, createdAt: int)
  datatype MemberRow = MemberRow(joinedAt: int, active: bool, lastSeen: int)
  type MemberKey = (string, string)

  datatype Tables = Tables(groups: map<string, GroupRow>, members: map<MemberKey, MemberRow>)

  datatype Error = IDRequired | NameRequired | WriteFailed | ForeignKeyViolated | NoRows

  ghost predicate ForeignKey(t: Tables) {
    forall k :: k in t.members ==> k.0 in t.groups
  }

  // ---- The statements ----

  /** INSERT ... ON CONFLICT: a conflicting row keeps its creation time. */
  function Upserted(t: Tables, id: string, name: string, createdAt: int): Tables {
    t.(groups := t.groups[id := if id in t.groups then t.groups[id].(name := name) else GroupRow(name, createdAt)])
  }

  /** INSERT ... ON CONFLICT: a conflicting row keeps its joining time. */
  function MemberSet(t: Tables, id: string, peer: string, joinedAt: int, active: bool, lastSeen: int): Tables {
    var k := (id, peer);
    t.(members := t.members[k := MemberRow(if k in t.members then t.members[k].joinedAt else joinedAt, active, lastSeen)])
  }

  /** DELETE, with ON DELETE CASCADE. */
  function Deleted(t: Tables, id: string): Tables {
    Tables(t.groups - {id}, map k | k in t.members && k.0 != id :: t.members[k])
  }

  function ActiveMembers(t: Tables, id: string): set<string> {
    set k | k in t.members && k.0 == id && t.members[k].active :: k.1
  }

  // ---- The store ----

  /** A statement on a failing disk reports an error and changes nothing. */
  class Store {
    var tables: Tables

    constructor (tables: Tables)
      ensures this.tables == tables
    {
      this.tables := tables;
    }

    method UpsertGroup(id: string, name: string, createdAt: int, now: int, diskOk: bool) returns (err: Option<Error>)
      requires ForeignKey(tables)
      modifies this
      ensures ForeignKey(tables)
      ensures err.None? <==> id != "" && name != "" && diskOk
      ensures tables == if err.Some? then old(tables)
                        else Upserted(old(tables), id, name, if createdAt == ZERO_TIME then now else createdAt)
      ensures err.None? ==>
                && id in tables.groups && tables.groups[id].name == name
                && tables.groups[id].createdAt ==
                     (if id in old(tables).groups then old(tables).groups[id].createdAt
                      else if createdAt == ZERO_TIME then now else createdAt)
    {
      if id == "" { return Some(IDRequired); }
      if name == "" { return Some(NameRequired); }
      var created := if createdAt == ZERO_TIME then now else createdAt;
      if !diskOk { return Some(WriteFailed); }
      var row := if id in tables.groups then tables.groups[id].(name := name) else GroupRow(name, created);
      tables := tables.(groups := tables.groups[id := row]);
      err := None;
    }

    method SetGroupMembership(id: string, peer: string, joinedAt: int, active: bool, lastSeen: int, now: int, diskOk: bool)
      returns (err: Option<Error>)
      requires ForeignKey(tables)
      modifies this
      ensures ForeignKey(tables)
      ensures err.None? <==> id != "" && peer != "" && diskOk && id in old(tables).groups
      ensures var joined := if joinedAt == ZERO_TIME then now else joinedAt;
              tables == if err.Some? then old(tables)
                        else MemberSet(old(tables), id, peer, joined, active, if lastSeen == ZERO_TIME then joined else lastSeen)
      ensures err.None? ==>
                && (id, peer) in tables.members && tables.members[(id, peer)].active == active
                && tables.members[(id, peer)].joinedAt ==
                     (if (id, peer) in old(tables).members then old(tables).members[(id, peer)].joinedAt
                      else if joinedAt == ZERO_TIME then now else joinedAt)
    {
      if id == "" { return Some(IDRequired); }
      if peer == "" { return Some(IDRequired); }
      var joined := if joinedAt == ZERO_TIME then now else joinedAt;
      var lastSeen' := if lastSeen == ZERO_TIME then joined else lastSeen;
      if !diskOk { return Some(WriteFailed); }
      if id !in tables.groups { return Some(ForeignKeyViolated); }
      var k := (id, peer);
      var row := if k in tables.members then tables.members[k].(active := active, lastSeen := lastSeen')
                 else MemberRow(joined, active, lastSeen');
      tables := tables.(members := tables.members[k := row]);
      err := None;
    }

    method DeleteGroup(id: string, diskOk: bool) returns (err: Option<Error>)
      requires ForeignKey(tables)
      modifies this
      ensures ForeignKey(tables)
      ensures err.None? <==> id != "" && diskOk && id in old(tables).groups
      ensures id != "" && diskOk && id !in old(tables).groups ==> err == Some(NoRows)
      ensures tables == if err.Some? then old(tables) else Deleted(old(tables), id)
      ensures err.None? ==> id !in tables.groups && forall k :: k in tables.members ==> k.0 != id
    {
      if id == "" { return Some(IDRequired); }
      if !diskOk { return Some(WriteFailed); }
      if id !in tables.groups { return Some(NoRows); }
      tables := Tables(tables.groups - {id}, map k | k in tables.members && k.0 != id :: tables.members[k]);
      err := None;
    }

    /** ORDER BY group_id ASC. */
    method ListGroups() returns (ids: seq<string>)
      ensures Elements(ids) == tables.groups.Keys && StringOrder.Ascending(ids)
    {
      ids := StringOrder.SortSet(tables.groups.Keys);
    }

    /** ORDER BY peer_id ASC. */
    method ListGroupMembers(id: string) returns (rows: seq<(string, MemberRow)>)
      ensures forall r :: r in rows <==> (id, r.0) in tables.members && tables.members[(id, r.0)] == r.1
      ensures forall i, j :: 0 <= i < j < |rows| ==> StringOrder.Less(rows[i].0, rows[j].0)
    {
      var listed := set k | k in tables.members && k.0 == id :: k.1;
      var peers := StringOrder.SortSet(listed);
      assert forall p :: p in listed ==> (id, p) in tables.members;
      rows := [];
      for i := 0 to |peers|
        invariant |rows| == i
        invariant forall k :: 0 <= k < i ==>
                    peers[k] in listed && rows[k] == (peers[k], tables.members[(id, peers[k])])
      {
        assert peers[i] in Elements(peers);
        rows := rows + [(peers[i], tables.members[(id, peers[i])])];
      }
      forall r: (string, MemberRow) | (id, r.0) in tables.members && tables.members[(id, r.0)] == r.1 ensures r in rows {
        assert (id, r.0).1 in Elements(peers);
        var i :| 0 <= i < |peers| && peers[i] == r.0;
        assert rows[i] == r;
      }
    }
  }
}
