/** The in-memory group manager: groups, their members, and one duplicate filter per group. */
module Groups {
  import opened Prelude
  import StringOrder
  import SeenFilter

  datatype Group = Group(name: string, members: set<string>, createdAt: int)

  datatype Memory = Memory(groups: map<string, Group>, seen: map<string, set<string>>)

  const EMPTY := Memory(map[], map[])

  datatype Error =
    | InvalidGroupID | InvalidGroupName | InvalidPeerID | InvalidMessageID
    | GroupNotFound | GroupAlreadyExists | MemberAlreadyAdded | MemberNotFound | DuplicateMessage

  datatype Op =
    | Create(id: string, name: string, now: int)
    | Add(id: string, peer: string)
    | Remove(id: string, peer: string)
    | Delete(id: string)
    | Route(id: string, messageID: string, sender: string, evicted: set<string>)
    | Mark(id: string, messageID: string, evicted: set<string>)
    | RestoreGroup(id: string, name: string, createdAt: int)
    | RestoreMember(id: string, peer: string)

  // ---- What each operation answers and does ----

  function ErrorOf(m: Memory, op: Op): Option<Error> {
    match op
    case Create(id, name, now) =>
      if id == "" then Some(InvalidGroupID) else if name == "" then Some(InvalidGroupName)
      else if id in m.groups then Some(GroupAlreadyExists) else None
    case Add(id, peer) =>
      if id == "" then Some(InvalidGroupID) else if peer == "" then Some(InvalidPeerID)
      else if id !in m.groups then Some(GroupNotFound)
      else if peer in m.groups[id].members then Some(MemberAlreadyAdded) else None
    case Remove(id, peer) =>
      if id == "" then Some(InvalidGroupID) else if peer == "" then Some(InvalidPeerID)
      else if id !in m.groups then Some(GroupNotFound)
      else if peer !in m.groups[id].members then Some(MemberNotFound) else None
    case Delete(id) =>
      if id == "" then Some(InvalidGroupID) else if id !in m.groups then Some(GroupNotFound) else None
    case Route(id, messageID, sender, evicted) =>
      if id == "" then Some(InvalidGroupID) else if messageID == "" then Some(InvalidMessageID)
      else if sender == "" then Some(InvalidPeerID) else if id !in m.groups then Some(GroupNotFound)
      else if id in m.seen && messageID in m.seen[id] then Some(DuplicateMessage) else None
    case Mark(id, messageID, evicted) =>
      if id == "" then Some(InvalidGroupID) else if messageID == "" then Some(InvalidMessageID)
      else if id !in m.groups then Some(GroupNotFound) else None
    case RestoreGroup(id, name, createdAt) => None
    case RestoreMember(id, peer) => None
  }

  function WithMembers(m: Memory, id: string, members: set<string>): Memory
    requires id in m.groups
  {
    m.(groups := m.groups[id := m.groups[id].(members := members)])
  }

  function Recorded(m: Memory, id: string, r: SeenFilter.Record): Memory {
    m.(seen := m.seen[id := SeenFilter.Insert(if id in m.seen then m.seen[id] else {}, r)])
  }

  /** A failing operation changes nothing. */
  function Apply(m: Memory, op: Op): Memory {
    if ErrorOf(m, op).Some? then m
    else match op
      case Create(id, name, now) => Memory(m.groups[id := Group(name, {}, now)], m.seen[id := {}])
      case Add(id, peer) => WithMembers(m, id, m.groups[id].members + {peer})
      case Remove(id, peer) => WithMembers(m, id, m.groups[id].members - {peer})
      case Delete(id) => Memory(m.groups - {id}, m.seen - {id})
      case Route(id, messageID, sender, evicted) => Recorded(m, id, SeenFilter.Record(messageID, true, evicted))
      case Mark(id, messageID, evicted) => Recorded(m, id, SeenFilter.Record(messageID, false, evicted))
      case RestoreGroup(id, name, createdAt) =>
        if id in m.groups then m else Memory(m.groups[id := Group(name, {}, createdAt)], m.seen[id := {}])
      case RestoreMember(id, peer) =>
        if id !in m.groups then m else WithMembers(m, id, m.groups[id].members + {peer})
  }

  /** The evictions an operation records are ones its prune may make. */
  ghost predicate Possible(m: Memory, op: Op) {
    ErrorOf(m, op).None? ==>
      match op
      case Route(id, messageID, sender, evicted) =>
        id in m.seen ==> SeenFilter.MayEvict(m.seen[id] + {messageID}, evicted)
      case Mark(id, messageID, evicted) =>
        id in m.seen ==> SeenFilter.MayEvict(m.seen[id] + {messageID}, evicted)
      case _ => true
  }

  function Run(ops: seq<Op>): Memory {
    if ops == [] then EMPTY else Apply(Run(ops[..|ops| - 1]), ops[|ops| - 1])
  }

  ghost predicate PossibleRun(ops: seq<Op>) {
    forall i :: 0 <= i < |ops| ==> Possible(Run(ops[..i]), ops[i])
  }

  // ---- Every reachable state ----

  /** Every group has its filter and every filter its group; filters stay bounded. */
  ghost predicate Consistent(m: Memory) {
    && m.seen.Keys == m.groups.Keys
    && forall id :: id in m.seen ==> |m.seen[id]| <= SeenFilter.MAX_SEEN
  }

  lemma RecordStaysConsistent(m: Memory, id: string, r: SeenFilter.Record)
    requires Consistent(m) && id in m.groups && SeenFilter.MayEvict(m.seen[id] + {r.id}, r.evicted)
    ensures Consistent(Recorded(m, id, r))
  {
    SeenFilter.PruneIsExact(m.seen[id], r);
  }

  lemma StepStaysConsistent(m: Memory, op: Op)
    requires Consistent(m) && Possible(m, op)
    ensures Consistent(Apply(m, op))
  {
    if ErrorOf(m, op).None? {
      match op
      case Route(id, messageID, _, evicted) =>
        RecordStaysConsistent(m, id, SeenFilter.Record(messageID, true, evicted));
      case Mark(id, messageID, evicted) =>
        RecordStaysConsistent(m, id, SeenFilter.Record(messageID, false, evicted));
      case _ =>
    }
  }

  lemma {:induction false} ReachableIsConsistent(ops: seq<Op>)
    requires PossibleRun(ops)
    ensures Consistent(Run(ops))
    decreases |ops|
  {
    if ops != [] {
      var n := |ops| - 1;
      assert forall i :: 0 <= i < n ==> ops[..n][..i] == ops[..i];
      ReachableIsConsistent(ops[..n]);
      StepStaysConsistent(Run(ops[..n]), ops[n]);
    }
  }

  /** The records made in the filter of one group; creating, restoring or deleting the group
      starts its history afresh. */
  function FilterHistory(ops: seq<Op>, id: string): seq<SeenFilter.Record> {
    if ops == [] then []
    else
      var n := |ops| - 1;
      Extended(FilterHistory(ops[..n], id), Run(ops[..n]), ops[n], id)
  }

  function Extended(history: seq<SeenFilter.Record>, m: Memory, op: Op, id: string): seq<SeenFilter.Record> {
    var err := ErrorOf(m, op);
    if op.id != id then history
    else match op
      case Create(_, _, _) => if err.None? then [] else history
      case RestoreGroup(_, _, _) => if id !in m.groups then [] else history
      case Delete(_) => if err.None? then [] else history
      case Route(_, messageID, _, evicted) =>
        if err in {None, Some(DuplicateMessage)}
        then history + [SeenFilter.Record(messageID, true, evicted)] else history
      case Mark(_, messageID, evicted) =>
        if err.None? then history + [SeenFilter.Record(messageID, false, evicted)] else history
      case _ => history
  }

  /** The history is a possible run of one filter, and leads to the group's seen set. */
  ghost predicate Follows(history: seq<SeenFilter.Record>, m: Memory, id: string) {
    && SeenFilter.ValidRun(history)
    && (if id in m.seen then m.seen[id] == SeenFilter.Seen(history) else history == [])
  }

  lemma RecordFollows(history: seq<SeenFilter.Record>, r: SeenFilter.Record)
    requires SeenFilter.ValidRun(history)
    requires var s := SeenFilter.Seen(history);
             (r.routed && r.id in s) || SeenFilter.MayEvict(s + {r.id}, r.evicted)
    ensures SeenFilter.ValidRun(history + [r])
    ensures SeenFilter.Seen(history + [r]) == SeenFilter.Insert(SeenFilter.Seen(history), r)
  {
    assert (history + [r])[..|history|] == history;
  }

  lemma RouteFollows(history: seq<SeenFilter.Record>, m: Memory, op: Op)
    requires op.Route? && Consistent(m) && Possible(m, op) && Follows(history, m, op.id)
    ensures Follows(Extended(history, m, op, op.id), Apply(m, op), op.id)
  {
    var r := SeenFilter.Record(op.messageID, true, op.evicted);
    var err := ErrorOf(m, op);
    if err == None {
      RecordFollows(history, r);
      assert Apply(m, op).seen[op.id] == SeenFilter.Insert(m.seen[op.id], r);
    } else if err == Some(DuplicateMessage) {
      RecordFollows(history, r);
      assert SeenFilter.Insert(m.seen[op.id], r) == m.seen[op.id];
    }
  }

  lemma MarkFollows(history: seq<SeenFilter.Record>, m: Memory, op: Op)
    requires op.Mark? && Consistent(m) && Possible(m, op) && Follows(history, m, op.id)
    ensures Follows(Extended(history, m, op, op.id), Apply(m, op), op.id)
  {
    if ErrorOf(m, op).None? {
      var r := SeenFilter.Record(op.messageID, false, op.evicted);
      RecordFollows(history, r);
      assert Apply(m, op).seen[op.id] == SeenFilter.Insert(m.seen[op.id], r);
    }
  }

  /** An operation that makes, removes or leaves alone the filter of its group. */
  lemma OtherFollows(history: seq<SeenFilter.Record>, m: Memory, op: Op)
    requires !op.Route? && !op.Mark? && Consistent(m) && Follows(history, m, op.id)
    ensures Follows(Extended(history, m, op, op.id), Apply(m, op), op.id)
  {}

  lemma StepFollows(history: seq<SeenFilter.Record>, m: Memory, op: Op, id: string)
    requires Consistent(m) && Possible(m, op) && Follows(history, m, id)
    ensures Follows(Extended(history, m, op, id), Apply(m, op), id)
  {
    if op.id != id {
      OtherGroupKeepsFilter(m, op, id);
    } else if op.Route? {
      RouteFollows(history, m, op);
    } else if op.Mark? {
      MarkFollows(history, m, op);
    } else {
      OtherFollows(history, m, op);
    }
  }

  lemma OtherGroupKeepsFilter(m: Memory, op: Op, id: string)
    requires op.id != id
    ensures id in Apply(m, op).seen <==> id in m.seen
    ensures id in m.seen ==> Apply(m, op).seen[id] == m.seen[id]
  {}

  /** What is proved of one filter's runs holds of every group's filter since its creation. */
  lemma {:induction false} FilterFollowsHistory(ops: seq<Op>, id: string)
    requires PossibleRun(ops)
    ensures Follows(FilterHistory(ops, id), Run(ops), id)
    decreases |ops|
  {
    if ops != [] {
      var n := |ops| - 1;
      assert forall i :: 0 <= i < n ==> ops[..n][..i] == ops[..i];
      FilterFollowsHistory(ops[..n], id);
      ReachableIsConsistent(ops[..n]);
      assert Possible(Run(ops[..n]), ops[n]);
      StepFollows(FilterHistory(ops[..n], id), Run(ops[..n]), ops[n], id);
    }
  }

  /** While at most 10,000 different IDs were recorded in a group since its creation, routing any
      of them again is a duplicate, whatever else happened to this or other groups. */
  lemma RecordedMessageIsDuplicate(ops: seq<Op>, id: string, messageID: string, sender: string, evicted: set<string>)
    requires PossibleRun(ops) && id in Run(ops).groups
    requires id != "" && messageID != "" && sender != ""
    requires |SeenFilter.Recorded(FilterHistory(ops, id))| <= SeenFilter.MAX_SEEN
    ensures messageID in SeenFilter.Recorded(FilterHistory(ops, id)) <==>
              ErrorOf(Run(ops), Route(id, messageID, sender, evicted)) == Some(DuplicateMessage)
  {
    ReachableIsConsistent(ops);
    FilterFollowsHistory(ops, id);
    SeenFilter.RememberedUpToCap(FilterHistory(ops, id));
  }

  /** How often routing accepted the message in the group since the group's creation. */
  function Acceptances(ops: seq<Op>, id: string, messageID: string): nat {
    if ops == [] then 0
    else
      var n := |ops| - 1;
      var m, op := Run(ops[..n]), ops[n];
      var before := Acceptances(ops[..n], id, messageID);
      if op.id != id then before
      else if id !in m.groups || id !in Apply(m, op).groups then 0
      else if op.Route? && op.messageID == messageID && ErrorOf(m, op).None? then before + 1
      else before
  }

  /** A route or mark of a message in an existing group, with nothing blank, enters the group's history. */
  lemma RecordingExtends(history: seq<SeenFilter.Record>, m: Memory, op: Op)
    requires (op.Route? && op.sender != "") || op.Mark?
    requires op.id != "" && op.messageID != "" && op.id in m.groups
    ensures Extended(history, m, op, op.id) == history + [SeenFilter.Record(op.messageID, op.Route?, op.evicted)]
  {}

  /** Routing accepts a message exactly if nothing is blank, the group exists and the message is not in
      its filter. */
  lemma AcceptedIffFresh(m: Memory, id: string, messageID: string, sender: string, evicted: set<string>)
    requires Consistent(m)
    ensures ErrorOf(m, Route(id, messageID, sender, evicted)).None? <==>
              id != "" && messageID != "" && sender != "" && id in m.groups && messageID !in m.seen[id]
  {}

  lemma StepAccepts(history: seq<SeenFilter.Record>, m: Memory, op: Op, id: string, messageID: string)
    requires Consistent(m) && Follows(history, m, id) && id in m.groups && id in Apply(m, op).groups && op.id == id
    ensures SeenFilter.Acceptances(Extended(history, m, op, id), messageID) ==
              SeenFilter.Acceptances(history, messageID)
              + if op.Route? && op.messageID == messageID && ErrorOf(m, op).None? then 1 else 0
  {
    var longer := Extended(history, m, op, id);
    if |longer| == |history| + 1 {
      assert longer[..|history|] == history;
    }
  }

  /** The manager's acceptances are those of the filter's history. */
  lemma {:induction false} AcceptancesFollowHistory(ops: seq<Op>, id: string, messageID: string)
    requires PossibleRun(ops)
    ensures Acceptances(ops, id, messageID) == SeenFilter.Acceptances(FilterHistory(ops, id), messageID)
    decreases |ops|
  {
    if ops != [] {
      var n := |ops| - 1;
      assert forall i :: 0 <= i < n ==> ops[..n][..i] == ops[..i];
      AcceptancesFollowHistory(ops[..n], id, messageID);
      FilterFollowsHistory(ops[..n], id);
      ReachableIsConsistent(ops[..n]);
      var m, op := Run(ops[..n]), ops[n];
      if op.id == id && id in m.groups && id in Apply(m, op).groups {
        StepAccepts(FilterHistory(ops[..n], id), m, op, id, messageID);
      } else if op.id == id {
        NewGroupIsEmpty(FilterHistory(ops[..n], id), m, op);
      }
    }
  }

  lemma NewGroupIsEmpty(history: seq<SeenFilter.Record>, m: Memory, op: Op)
    requires Consistent(m) && Follows(history, m, op.id)
    requires op.id !in m.groups || op.id !in Apply(m, op).groups
    ensures Extended(history, m, op, op.id) == []
  {}

  /** In every run of the manager, while at most 10,000 different messages were recorded in a group since
      its creation, each message was accepted exactly once if it was routed there before it was marked
      there, and never otherwise. */
  lemma AcceptedExactlyOnce(ops: seq<Op>, id: string, messageID: string)
    requires PossibleRun(ops)
    requires |SeenFilter.Recorded(FilterHistory(ops, id))| <= SeenFilter.MAX_SEEN
    ensures var first := SeenFilter.FirstRecord(FilterHistory(ops, id), messageID);
            Acceptances(ops, id, messageID) == if first.Some? && first.value.routed then 1 else 0
  {
    AcceptancesFollowHistory(ops, id, messageID);
    FilterFollowsHistory(ops, id);
    SeenFilter.AcceptedExactlyOnce(FilterHistory(ops, id), messageID);
  }

  // ---- The manager ----

  class GroupManager {
    var groups: map<string, Group>
    var seen: map<string, set<string>>

    function State(): Memory
      reads this
    {
      Memory(groups, seen)
    }

    constructor ()
      ensures State() == EMPTY
    {
      groups, seen := map[], map[];
    }

    method CreateGroup(id: string, name: string, now: int) returns (err: Option<Error>)
      modifies this
      ensures var op := Create(id, name, now);
              err == ErrorOf(old(State()), op) && State() == Apply(old(State()), op)
      ensures err.None? <==> id != "" && name != "" && id !in old(groups)
      ensures err.None? ==> groups == old(groups)[id := Group(name, {}, now)] && seen == old(seen)[id := {}]
    {
      if id == "" { return Some(InvalidGroupID); }
      if name == "" { return Some(InvalidGroupName); }
      if id in groups { return Some(GroupAlreadyExists); }
      groups := groups[id := Group(name, {}, now)];
      seen := seen[id := {}];
      err := None;
    }

    method AddMember(id: string, peer: string) returns (err: Option<Error>)
      modifies this`groups
      ensures var op := Add(id, peer);
              err == ErrorOf(old(State()), op) && State() == Apply(old(State()), op)
      ensures err.None? <==> id != "" && peer != "" && id in old(groups) && peer !in old(groups)[id].members
      ensures err == Some(MemberAlreadyAdded) <==>
                id != "" && peer != "" && id in old(groups) && peer in old(groups)[id].members
      ensures err.None? ==> groups == old(groups)[id := old(groups)[id].(members := old(groups)[id].members + {peer})]
    {
      if id == "" { return Some(InvalidGroupID); }
      if peer == "" { return Some(InvalidPeerID); }
      if id !in groups { return Some(GroupNotFound); }
      if peer in groups[id].members { return Some(MemberAlreadyAdded); }
      groups := groups[id := groups[id].(members := groups[id].members + {peer})];
      err := None;
    }

    method RemoveMember(id: string, peer: string) returns (err: Option<Error>)
      modifies this`groups
      ensures var op := Remove(id, peer);
              err == ErrorOf(old(State()), op) && State() == Apply(old(State()), op)
      ensures err.None? <==> id != "" && peer != "" && id in old(groups) && peer in old(groups)[id].members
      ensures err == Some(MemberNotFound) <==>
                id != "" && peer != "" && id in old(groups) && peer !in old(groups)[id].members
      ensures err.None? ==> groups == old(groups)[id := old(groups)[id].(members := old(groups)[id].members - {peer})]
    {
      if id == "" { return Some(InvalidGroupID); }
      if peer == "" { return Some(InvalidPeerID); }
      if id !in groups { return Some(GroupNotFound); }
      if peer !in groups[id].members { return Some(MemberNotFound); }
      groups := groups[id := groups[id].(members := groups[id].members - {peer})];
      err := None;
    }

    method DeleteGroup(id: string) returns (err: Option<Error>)
      modifies this
      ensures err == ErrorOf(old(State()), Delete(id)) && State() == Apply(old(State()), Delete(id))
      ensures err == if id == "" then Some(InvalidGroupID) else if id !in old(groups) then Some(GroupNotFound) else None
      ensures err.None? ==> groups == old(groups) - {id} && seen == old(seen) - {id}
    {
      if id == "" { return Some(InvalidGroupID); }
      if id !in groups { return Some(GroupNotFound); }
      groups := groups - {id};
      seen := seen - {id};
      err := None;
    }

    method ViewMembers(id: string) returns (r: Result<seq<string>, Error>)
      ensures id == "" ==> r == Err(InvalidGroupID)
      ensures id != "" && id !in groups ==> r == Err(GroupNotFound)
      ensures id != "" && id in groups ==>
                r.Ok? && StringOrder.Ascending(r.value) && Elements(r.value) == groups[id].members
    {
      if id == "" { return Err(InvalidGroupID); }
      if id !in groups { return Err(GroupNotFound); }
      var members := StringOrder.SortSet(groups[id].members);
      r := Ok(members);
    }

    /** The first critical section of RouteGroupMessage: reject or record the message. */
    method AcceptMessage(id: string, messageID: string, sender: string)
      returns (err: Option<Error>, ghost evicted: set<string>)
      requires Consistent(State())
      modifies this`seen
      ensures var op := Route(id, messageID, sender, evicted);
              && err == ErrorOf(old(State()), op) && State() == Apply(old(State()), op)
              && Possible(old(State()), op)
      ensures Consistent(State())
      ensures err.None? <==>
                id != "" && messageID != "" && sender != "" && id in groups && messageID !in old(seen)[id]
      ensures err == Some(DuplicateMessage) <==>
                id != "" && messageID != "" && sender != "" && id in groups && messageID in old(seen)[id]
      ensures seen == if err.None? then old(seen)[id := old(seen)[id] + {messageID} - evicted] else old(seen)
    {
      evicted := {};
      ghost var before := State();
      if id == "" { return Some(InvalidGroupID), {}; }
      if messageID == "" { return Some(InvalidMessageID), {}; }
      if sender == "" { return Some(InvalidPeerID), {}; }
      if id !in groups { return Some(GroupNotFound), {}; }
      if messageID in seen[id] { return Some(DuplicateMessage), {}; }
      var kept;
      kept, evicted := SeenFilter.PruneSeen(seen[id] + {messageID});
      seen := seen[id := kept];
      err := None;
      StepStaysConsistent(before, Route(id, messageID, sender, evicted));
    }

    /** The rest of RouteGroupMessage, on the members the group has by then. A nil set of connected
        peers means no filter; deliver tells whether the delivery to a peer succeeds. */
    method DeliverMessage(id: string, sender: string, connected: Option<set<string>>, deliver: Option<string -> bool>)
      returns (r: Result<seq<string>, Error>)
      ensures r.Ok? <==> id != "" && id in groups
      ensures r.Ok? ==>
                && StringOrder.Ascending(r.value)
                && forall p :: p in r.value <==>
                     && p in groups[id].members && p != sender && (connected.None? || p in connected.value)
                     && deliver.Some? && deliver.value(p)
    {
      var view := ViewMembers(id);
      if view.Err? {
        return view;
      }
      var members := view.value;
      var delivered := [];
      for i := 0 to |members|
        invariant StringOrder.Ascending(delivered)
        invariant forall p :: p in delivered ==> exists k :: 0 <= k < i && members[k] == p
        invariant forall p :: p in delivered <==> p in Recipients(Elements(members[..i]), sender, connected, deliver)
      {
        var peer := members[i];
        assert members[..i + 1] == members[..i] + [peer];
        if peer != sender && (connected.None? || peer in connected.value)
           && deliver.Some? && deliver.value(peer) {
          assert forall k :: 0 <= k < |delivered| ==> delivered[k] in delivered;
          delivered := delivered + [peer];
        }
      }
      assert members[..|members|] == members;
      assert forall p :: p in members <==> p in groups[id].members by {
        assert forall p :: p in members <==> p in Elements(members);
      }
      r := Ok(delivered);
    }

    method MarkMessageSeen(id: string, messageID: string) returns (err: Option<Error>, ghost evicted: set<string>)
      requires Consistent(State())
      modifies this`seen
      ensures var op := Mark(id, messageID, evicted);
              && err == ErrorOf(old(State()), op) && State() == Apply(old(State()), op)
              && Possible(old(State()), op)
      ensures Consistent(State())
      ensures err.None? <==> id != "" && messageID != "" && id in groups
      ensures seen == if err.None? then old(seen)[id := old(seen)[id] + {messageID} - evicted] else old(seen)
    {
      evicted := {};
      ghost var before := State();
      if id == "" { return Some(InvalidGroupID), {}; }
      if messageID == "" { return Some(InvalidMessageID), {}; }
      if id !in groups { return Some(GroupNotFound), {}; }
      var kept;
      kept, evicted := SeenFilter.PruneSeen(seen[id] + {messageID});
      seen := seen[id := kept];
      err := None;
      StepStaysConsistent(before, Mark(id, messageID, evicted));
    }

    /** What routing the message would answer. */
    function IsDuplicate(id: string, messageID: string): (r: bool)
      requires Consistent(State())
      reads this
      ensures forall sender, evicted :: sender != "" ==>
                (r <==> ErrorOf(State(), Route(id, messageID, sender, evicted)) == Some(DuplicateMessage))
    {
      id != "" && messageID != "" && id in seen && messageID in seen[id]
    }
  }

  function Recipients(members: set<string>, sender: string, connected: Option<set<string>>, deliver: Option<string -> bool>): set<string> {
    set p | p in members && p != sender && (connected.None? || p in connected.value)
            && deliver.Some? && deliver.value(p)
  }
}
