/** mDNS discovery: scan results are diffed against the known entries, and the differences are
    pushed as events onto a bounded queue. */
module Discovery {
  import opened Prelude
  import opened Decimal

  const QUEUE_SLOTS := 32

  datatype PeerInfo = PeerInfo(peerID: string, host: string, port: int) {
    predicate IsValid() {
      peerID != "" && host != "" && 0 < port <= 65535
    }

    /** net.JoinHostPort: a host with a colon is an IPv6 literal and is bracketed. */
    function Endpoint(): string {
      Bracketed(host) + [':'] + Digits(port)
    }

    function Key(): string {
      if peerID != "" then peerID else Endpoint()
    }
  }

  // ---- Endpoints ----

  /** What stands before and behind the last colon. */
  function SplitAtColon(s: string): (string, string) {
    if s == "" then ("", "")
    else if s[|s| - 1] == ':' then (s[..|s| - 1], "")
    else
      var (front, back) := SplitAtColon(s[..|s| - 1]);
      (front, back + [s[|s| - 1]])
  }

  lemma {:induction false} SplitsAtLastColon(front: string, back: string)
    requires ':' !in back
    ensures SplitAtColon(front + [':'] + back) == (front, back)
    decreases |back|
  {
    var s := front + [':'] + back;
    if back == "" {
      assert s[..|s| - 1] == front;
    } else {
      var n := |back| - 1;
      SplitsAtLastColon(front, back[..n]);
      assert s[..|s| - 1] == front + [':'] + back[..n];
      assert back == back[..n] + [back[n]];
    }
  }

  lemma NoColon(d: string)
    requires AllDigits(d)
    ensures ':' !in d
  {}

  function Bracketed(host: string): string {
    if ':' in host then ['['] + host + [']'] else host
  }

  /** The host that stands before the last colon of an endpoint. */
  function HostOf(text: string): string {
    if ':' in text && |text| >= 2 && text[0] == '[' && text[|text| - 1] == ']' then text[1..|text| - 1] else text
  }

  lemma HostReadsBack(host: string)
    ensures HostOf(Bracketed(host)) == host
    ensures |Bracketed(host)| == if ':' in host then |host| + 2 else |host|
  {
    if ':' in host {
      var i :| 0 <= i < |host| && host[i] == ':';
      assert Bracketed(host)[i + 1] == ':';
    }
  }

  /** An endpoint splits into the host, in brackets exactly if it holds a colon, and the digits of the
      port, without leading zeros. */
  lemma EndpointReadsBack(p: PeerInfo)
    requires p.port > 0
    ensures var (host, port) := SplitAtColon(p.Endpoint());
            && HostOf(host) == p.host && |host| == (if ':' in p.host then |p.host| + 2 else |p.host|)
            && port != "" && AllDigits(port) && Number(port) == p.port && port[0] != '0'
  {
    SplitsEndpoint(p);
    HostReadsBack(p.host);
    DigitsReadBack(p.port);
  }

  lemma SplitsEndpoint(p: PeerInfo)
    requires p.port > 0
    ensures SplitAtColon(p.Endpoint()) == (Bracketed(p.host), Digits(p.port))
  {
    DigitsReadBack(p.port);
    NoColon(Digits(p.port));
    SplitsAtLastColon(Bracketed(p.host), Digits(p.port));
  }

  /** Different hosts or ports have different endpoints. */
  lemma EndpointsDiffer(p: PeerInfo, q: PeerInfo)
    requires p.port > 0 && q.port > 0
    ensures p.Endpoint() == q.Endpoint() <==> p.host == q.host && p.port == q.port
  {
    EndpointReadsBack(p);
    EndpointReadsBack(q);
  }

  datatype Event = Added(peer: PeerInfo) | Removed(peer: PeerInfo)

  type Entries = map<string, PeerInfo>

  // ---- The steps of a scan ----

  /** The entries a scan result asks for: valid peers other than the local one, the last of
      several results with one key winning. */
  function SeenSet(local: string, seen: seq<PeerInfo>): Entries {
    if seen == [] then map[]
    else
      var rest, info := SeenSet(local, seen[..|seen| - 1]), seen[|seen| - 1];
      if !info.IsValid() || info.peerID == local then rest else rest[info.Key() := info]
  }

  lemma {:induction false} SeenSetIsValid(local: string, seen: seq<PeerInfo>)
    ensures WellKeyed(local, SeenSet(local, seen))
    ensures forall k :: k in SeenSet(local, seen) <==>
              k != local && k != "" &&
              exists info :: info in seen && info.host != "" && 0 < info.port <= 65535 && info.peerID == k
    ensures forall k :: k in SeenSet(local, seen) ==> SeenSet(local, seen)[k] in seen
    decreases |seen|
  {
    if seen != [] {
      var n := |seen| - 1;
      SeenSetIsValid(local, seen[..n]);
      assert seen == seen[..n] + [seen[n]];
    }
  }

  /** Of several results for one peer the last valid one counts. */
  lemma {:induction false} LastResultCounts(local: string, seen: seq<PeerInfo>, i: nat)
    requires i < |seen| && seen[i].peerID != "" && seen[i].peerID != local && seen[i].host != "" && 0 < seen[i].port <= 65535
    requires forall j :: i < j < |seen| && seen[j].peerID == seen[i].peerID ==>
               seen[j].host == "" || !(0 < seen[j].port <= 65535)
    ensures var k := seen[i].peerID; k in SeenSet(local, seen) && SeenSet(local, seen)[k] == seen[i]
    decreases |seen|
  {
    var n := |seen| - 1;
    if i < n {
      LastResultCounts(local, seen[..n], i);
    }
  }

  ghost predicate WellKeyed(local: string, entries: Entries) {
    forall k :: k in entries ==> entries[k].IsValid() && entries[k].peerID == k && k != local
  }

  datatype Feed = Feed(entries: Entries, events: seq<Event>)

  /** A send that drops the event when the queue is full. */
  function Push(events: seq<Event>, e: Event): seq<Event> {
    if |events| < QUEUE_SLOTS then events + [e] else events
  }

  /** One turn of the loop over the scanned peers. */
  function VisitSeen(f: Feed, seen: Entries, key: string): Feed {
    if key !in seen || key in f.entries then f
    else Feed(f.entries[key := seen[key]], Push(f.events, Added(seen[key])))
  }

  /** One turn of the loop over the known entries. */
  function VisitEntry(f: Feed, seen: set<string>, key: string): Feed {
    if key !in f.entries || key in seen then f
    else Feed(f.entries - {key}, Push(f.events, Removed(f.entries[key])))
  }

  function VisitAllSeen(f: Feed, seen: Entries, keys: seq<string>): Feed {
    if keys == [] then f
    else VisitSeen(VisitAllSeen(f, seen, keys[..|keys| - 1]), seen, keys[|keys| - 1])
  }

  function VisitAllEntries(f: Feed, seen: set<string>, keys: seq<string>): Feed {
    if keys == [] then f
    else VisitEntry(VisitAllEntries(f, seen, keys[..|keys| - 1]), seen, keys[|keys| - 1])
  }

  lemma {:induction false} AfterVisitingSeen(f: Feed, seen: Entries, keys: seq<string>)
    requires |f.events| <= QUEUE_SLOTS && Elements(keys) <= seen.Keys
    ensures var g := VisitAllSeen(f, seen, keys);
            && g.entries.Keys == f.entries.Keys + Elements(keys)
            && (forall k :: k in g.entries ==> g.entries[k] == if k in f.entries then f.entries[k] else seen[k])
            && |g.events| <= QUEUE_SLOTS
  {
    if keys != [] {
      var n := |keys| - 1;
      LastElement(keys);
      AfterVisitingSeen(f, seen, keys[..n]);
    }
  }

  lemma {:induction false} AfterVisitingEntries(f: Feed, seen: set<string>, keys: seq<string>)
    requires |f.events| <= QUEUE_SLOTS
    ensures var g := VisitAllEntries(f, seen, keys);
            && g.entries.Keys == f.entries.Keys - (Elements(keys) - seen)
            && (forall k :: k in g.entries ==> g.entries[k] == f.entries[k])
            && |g.events| <= QUEUE_SLOTS
  {
    if keys != [] {
      var n := |keys| - 1;
      LastElement(keys);
      AfterVisitingEntries(f, seen, keys[..n]);
    }
  }

  // ---- The discovery object ----

  class MDNSDiscovery {
    const local: string
    var entries: Entries
    var events: seq<Event>

    ghost predicate Valid()
      reads this
    {
      WellKeyed(local, entries) && |events| <= QUEUE_SLOTS
    }

    function State(): Feed
      reads this
    {
      Feed(entries, events)
    }

    constructor (local: string)
      ensures Valid() && this.local == local && entries == map[] && events == []
    {
      this.local := local;
      entries, events := map[], [];
    }

    method Send(e: Event)
      modifies this`events
      ensures events == Push(old(events), e)
    {
      if |events| < QUEUE_SLOTS {
        events := events + [e];
      }
    }

    /** Applies a scan result while nothing is received from the queue. added and removed are the
        orders in which the two maps were walked: any order is possible. */
    method ApplyDiff(seen: seq<PeerInfo>) returns (ghost added: seq<string>, ghost removed: seq<string>)
      requires Valid()
      modifies this
      ensures Valid()
      ensures entries.Keys == SeenSet(local, seen).Keys
      ensures forall k :: k in entries ==>
                entries[k] == if k in old(entries) then old(entries)[k] else SeenSet(local, seen)[k]
      ensures Lists(added, SeenSet(local, seen).Keys)
      ensures Lists(removed, old(entries).Keys + SeenSet(local, seen).Keys)
      ensures var wanted := SeenSet(local, seen);
              State() == VisitAllEntries(VisitAllSeen(old(State()), wanted, added), wanted.Keys, removed)
    {
      var seenSet: Entries := map[];
      for i := 0 to |seen|
        invariant seenSet == SeenSet(local, seen[..i])
        invariant unchanged(this)
      {
        assert seen[..i + 1][..i] == seen[..i];
        var info := seen[i];
        if info.IsValid() && info.peerID != local {
          seenSet := seenSet[info.Key() := info];
        }
      }
      assert seen[..|seen|] == seen;
      SeenSetIsValid(local, seen);
      added := AddNew(seenSet);
      removed := RemoveGone(seenSet);
    }

    method AddNew(seenSet: Entries) returns (ghost added: seq<string>)
      requires Valid() && WellKeyed(local, seenSet)
      modifies this
      ensures Valid()
      ensures entries.Keys == seenSet.Keys + old(entries).Keys
      ensures forall k :: k in entries ==> entries[k] == if k in old(entries) then old(entries)[k] else seenSet[k]
      ensures Lists(added, seenSet.Keys)
      ensures State() == VisitAllSeen(old(State()), seenSet, added)
    {
      added := [];
      var todo := seenSet.Keys;
      while todo != {}
        invariant todo <= seenSet.Keys
        invariant Lists(added, seenSet.Keys - todo)
        invariant State() == VisitAllSeen(old(State()), seenSet, added)
        decreases todo
      {
        var key :| key in todo;
        ListOneMore(added, seenSet.Keys - todo, key);
        assert seenSet.Keys - (todo - {key}) == seenSet.Keys - todo + {key};
        added := added + [key];
        todo := todo - {key};
        AddIfNew(seenSet, key);
      }
      AfterVisitingSeen(old(State()), seenSet, added);
    }

    method AddIfNew(seenSet: Entries, key: string)
      requires key in seenSet
      modifies this
      ensures State() == VisitSeen(old(State()), seenSet, key)
    {
      if key !in entries {
        entries := entries[key := seenSet[key]];
        Send(Added(seenSet[key]));
      }
    }

    method RemoveGone(seenSet: Entries) returns (ghost removed: seq<string>)
      requires Valid() && seenSet.Keys <= entries.Keys
      modifies this
      ensures Valid()
      ensures entries.Keys == seenSet.Keys
      ensures forall k :: k in entries ==> entries[k] == old(entries)[k]
      ensures Lists(removed, old(entries).Keys)
      ensures State() == VisitAllEntries(old(State()), seenSet.Keys, removed)
    {
      removed := [];
      var todo := entries.Keys;
      ghost var all := todo;
      while todo != {}
        invariant todo <= entries.Keys && todo <= all
        invariant Lists(removed, all - todo)
        invariant State() == VisitAllEntries(old(State()), seenSet.Keys, removed)
        decreases todo
      {
        var key :| key in todo;
        ListOneMore(removed, all - todo, key);
        assert all - (todo - {key}) == all - todo + {key};
        removed := removed + [key];
        todo := todo - {key};
        RemoveIfGone(seenSet, key);
      }
      AfterVisitingEntries(old(State()), seenSet.Keys, removed);
    }

    method RemoveIfGone(seenSet: Entries, key: string)
      requires key in entries
      modifies this
      ensures State() == VisitEntry(old(State()), seenSet.Keys, key)
    {
      if key !in seenSet {
        var info := entries[key];
        entries := entries - {key};
        Send(Removed(info));
      }
    }
  }
}
