/** The lazily pruned provider table of the DHT, and the full advertisement history it stands for. */
module ProviderHistory {
  import opened Prelude

  datatype AddrInfo = AddrInfo(id: string, addrs: seq<string>)
  datatype Record = Record(info: AddrInfo, expires: int)
  type Bucket = map<string, Record>
  type Table = map<string, Bucket>

  predicate Accepted(ns: string, info: AddrInfo) {
    ns != "" && info.id != "" && info.addrs != []
  }

  predicate Expired(r: Record, now: int) {
    now > r.expires
  }

  // ---- What each operation does to the table ----

  function Put(t: Table, ns: string, info: AddrInfo, ttl: int, now: int): Table {
    if !Accepted(ns, info) then t
    else t[ns := (if ns in t then t[ns] else map[])[info.id := Record(info, now + ttl)]]
  }

  function Prune(t: Table, ns: string, now: int): Table {
    if ns !in t then t
    else t[ns := map p | p in t[ns] && !Expired(t[ns][p], now) :: t[ns][p]]
  }

  function Drop(t: Table, peer: string): Table {
    map ns | ns in t :: t[ns] - {peer}
  }

  /** The peers a lookup in ns at time now answers with. */
  function Live(t: Table, ns: string, now: int): map<string, AddrInfo> {
    if ns !in t then map[]
    else map p | p in t[ns] && !Expired(t[ns][p], now) :: t[ns][p].info
  }

  // ---- Runs ----

  datatype Op = Advertise(ns: string, info: AddrInfo, ttl: int) | Lookup(ns: string) | Remove(peer: string)
  datatype Call = Call(op: Op, at: int)

  function Exec(t: Table, c: Call): Table {
    match c.op
    case Advertise(ns, info, ttl) => Put(t, ns, info, ttl, c.at)
    case Lookup(ns) => Prune(t, ns, c.at)
    case Remove(peer) => Drop(t, peer)
  }

  function Run(calls: seq<Call>): Table {
    if calls == [] then map[] else Exec(Run(calls[..|calls| - 1]), calls[|calls| - 1])
  }

  /** Times never decrease, and end no later than now. */
  ghost predicate Timely(calls: seq<Call>, now: int) {
    && (forall i, j :: 0 <= i < j < |calls| ==> calls[i].at <= calls[j].at)
    && (forall i :: 0 <= i < |calls| ==> calls[i].at <= now)
  }

  /** The record of the latest accepted advertisement of peer in ns since its last removal, were
      nothing ever pruned. */
  function Latest(calls: seq<Call>, ns: string, peer: string): Option<Record> {
    if calls == [] then None
    else
      var c := calls[|calls| - 1];
      if c.op.Remove? && c.op.peer == peer then None
      else if c.op.Advertise? && c.op.ns == ns != "" && c.op.info.id == peer != "" && c.op.info.addrs != [] then
        Some(Record(c.op.info, c.at + c.op.ttl))
      else Latest(calls[..|calls| - 1], ns, peer)
  }

  /** What the table may forget: only records that have expired by now. */
  ghost predicate Faithful(t: Table, calls: seq<Call>, now: int) {
    && (forall ns, p :: ns in t && p in t[ns] ==> Latest(calls, ns, p) == Some(t[ns][p]))
    && (forall ns, p :: var r := Latest(calls, ns, p);
          r.Some? && !Expired(r.value, now) ==> ns in t && p in t[ns])
  }

  lemma {:induction false} TableIsFaithful(calls: seq<Call>, now: int)
    requires Timely(calls, now)
    ensures Faithful(Run(calls), calls, now)
    decreases |calls|
  {
    if calls != [] {
      var n := |calls| - 1;
      var before, c := Run(calls[..n]), calls[n];
      TableIsFaithful(calls[..n], c.at);
      var t := Exec(before, c);
      forall ns, p | ns in t && p in t[ns]
        ensures Latest(calls, ns, p) == Some(t[ns][p])
      {
        if c.op.Remove? {
          assert p in before[ns];
        }
      }
      forall ns, p | var r := Latest(calls, ns, p); r.Some? && !Expired(r.value, now)
        ensures ns in t && p in t[ns]
      {
        var r := Latest(calls[..n], ns, p);
        if r.Some? && !Expired(r.value, c.at) {
          assert p in before[ns];
        }
      }
    }
  }

  /** The pruned table answers exactly as the full history would. */
  lemma {:induction false} LookupMatchesHistory(calls: seq<Call>, ns: string, peer: string, now: int)
    requires Timely(calls, now)
    ensures var r := Latest(calls, ns, peer);
            var answer := Live(Run(calls), ns, now);
            && (peer in answer <==> r.Some? && now <= r.value.expires)
            && (peer in answer ==> answer[peer] == r.value.info)
  {
    TableIsFaithful(calls, now);
  }

  // ---- Without any order of the clock readings ----

  /** No lookup in ns since the latest accepted advertisement of peer found it expired. */
  predicate Spared(calls: seq<Call>, ns: string, peer: string) {
    calls == [] ||
    (var c, before := calls[|calls| - 1], calls[..|calls| - 1];
     || (c.op.Advertise? && c.op.ns == ns != "" && c.op.info.id == peer != "" && c.op.info.addrs != [])
     || (&& Spared(before, ns, peer)
         && (c.op == Lookup(ns) && Latest(before, ns, peer).Some? ==> !Expired(Latest(before, ns, peer).value, c.at))))
  }

  lemma {:induction false} TableHoldsSpared(calls: seq<Call>, ns: string, peer: string)
    ensures var t := Run(calls);
            && (ns in t && peer in t[ns] <==> Latest(calls, ns, peer).Some? && Spared(calls, ns, peer))
            && (ns in t && peer in t[ns] ==> Latest(calls, ns, peer) == Some(t[ns][peer]))
  {
    if calls != [] {
      var n := |calls| - 1;
      TableHoldsSpared(calls[..n], ns, peer);
    }
  }

  /** The exact condition for all runs, whatever the clock does: an unexpired advertisement is found
      unless an earlier lookup, reading a later time, has pruned it. Under the lock Go's monotonic
      readings never go back, which is why LookupMatchesHistory asks for no more than their order. */
  lemma {:induction false} LookupFindsSpared(calls: seq<Call>, ns: string, peer: string, now: int)
    ensures var r := Latest(calls, ns, peer);
            peer in Live(Run(calls), ns, now) <==> r.Some? && now <= r.value.expires && Spared(calls, ns, peer)
  {
    TableHoldsSpared(calls, ns, peer);
  }

  /** A run on which the condition fails. */
  lemma {:induction false} BackwardClockMissesProvider()
    ensures var info := AddrInfo("p", ["/ip4"]);
            var calls := [Call(Advertise("ns", info, 5), 0), Call(Lookup("ns"), 10)];
            && Latest(calls, "ns", "p") == Some(Record(info, 5))
            && "p" !in Live(Run(calls), "ns", 3)
            && "p" in Live(Run(calls[..1]), "ns", 3)
  {
    var info := AddrInfo("p", ["/ip4"]);
    var calls := [Call(Advertise("ns", info, 5), 0), Call(Lookup("ns"), 10)];
    assert calls[..1][..0] == [] && calls[..1] == [calls[0]];
    assert Run(calls[..1]) == Put(map[], "ns", info, 5, 0);
    assert Latest(calls[..1], "ns", "p") == Some(Record(info, 5));
  }
}
