/** The duplicate filter of one group: a bounded set of message IDs that evicts half of its
    entries, in arbitrary order, when it overflows. */
module SeenFilter {
  import opened Prelude

  const MAX_SEEN := 10_000

  /** What a prune of s may evict: nothing up to the cap, any half of s above it. */
  predicate MayEvict(s: set<string>, evicted: set<string>) {
    if |s| <= MAX_SEEN then evicted == {}
    else evicted <= s && |evicted| == |s| / 2
  }

  /** One recorded ID, by routing or by marking, and what the prune after it evicted. */
  datatype Record = Record(id: string, routed: bool, evicted: set<string>)

  /** Routing rejects an ID that is in the set and then changes nothing. */
  predicate Accepts(s: set<string>, r: Record) {
    r.routed && r.id !in s
  }

  function Insert(s: set<string>, r: Record): set<string> {
    if r.routed && r.id in s then s else s + {r.id} - r.evicted
  }

  ghost predicate ValidRun(rs: seq<Record>) {
    rs == [] ||
    (var n := |rs| - 1;
     && ValidRun(rs[..n])
     && ((rs[n].routed && rs[n].id in Seen(rs[..n])) || MayEvict(Seen(rs[..n]) + {rs[n].id}, rs[n].evicted)))
  }

  /** The set since the group's creation. */
  function Seen(rs: seq<Record>): set<string> {
    if rs == [] then {} else Insert(Seen(rs[..|rs| - 1]), rs[|rs| - 1])
  }

  // ---- Counts over a run ----

  /** How often id was put into the set while absent from it. */
  function Insertions(rs: seq<Record>, id: string): nat {
    if rs == [] then 0
    else
      var n := |rs| - 1;
      Insertions(rs[..n], id) + if rs[n].id == id && id !in Seen(rs[..n]) then 1 else 0
  }

  /** How often RouteGroupMessage accepted id. */
  function Acceptances(rs: seq<Record>, id: string): nat {
    if rs == [] then 0
    else
      var n := |rs| - 1;
      Acceptances(rs[..n], id) + if rs[n].id == id && Accepts(Seen(rs[..n]), rs[n]) then 1 else 0
  }

  predicate Skipped(rs: seq<Record>, n: nat)
    requires n < |rs|
  {
    rs[n].routed && rs[n].id in Seen(rs[..n])
  }

  function Evictions(rs: seq<Record>, id: string): nat {
    if rs == [] then 0
    else
      var n := |rs| - 1;
      Evictions(rs[..n], id) + if !Skipped(rs, n) && id in rs[n].evicted then 1 else 0
  }

  function TotalInsertions(rs: seq<Record>): nat {
    if rs == [] then 0
    else
      var n := |rs| - 1;
      TotalInsertions(rs[..n]) + if rs[n].id !in Seen(rs[..n]) then 1 else 0
  }

  function Prunes(rs: seq<Record>): nat {
    if rs == [] then 0
    else
      var n := |rs| - 1;
      Prunes(rs[..n]) + if |Seen(rs[..n]) + {rs[n].id}| > MAX_SEEN then 1 else 0
  }

  function Recorded(rs: seq<Record>): set<string> {
    if rs == [] then {} else Recorded(rs[..|rs| - 1]) + {rs[|rs| - 1].id}
  }

  // ---- One step ----

  /** A prune happens at 10,001 IDs, removes exactly 5,000 and leaves 5,001. */
  lemma {:induction false} PruneIsExact(s: set<string>, r: Record)
    requires |s| <= MAX_SEEN
    requires (r.routed && r.id in s) || MayEvict(s + {r.id}, r.evicted)
    ensures |Insert(s, r)| <= MAX_SEEN
    ensures |s + {r.id}| > MAX_SEEN ==>
              r.id !in s && |s + {r.id}| == 10_001 && |r.evicted| == 5_000 && |Insert(s, r)| == 5_001
    ensures |s + {r.id}| <= MAX_SEEN ==> Insert(s, r) == s + {r.id}
  {
    var t := s + {r.id};
    if r.id in s {
      assert t == s;
    } else {
      assert |t| == |s| + 1;
      if |t| > MAX_SEEN {
        assert t == Insert(s, r) + r.evicted;
      }
    }
  }

  lemma {:induction false} SeenIsBounded(rs: seq<Record>)
    requires ValidRun(rs)
    ensures |Seen(rs)| <= MAX_SEEN
  {
    if rs != [] {
      SeenIsBounded(rs[..|rs| - 1]);
      PruneIsExact(Seen(rs[..|rs| - 1]), rs[|rs| - 1]);
    }
  }

  // ---- Conservation ----

  lemma {:induction false} InsertionsAreConserved(rs: seq<Record>)
    requires ValidRun(rs)
    ensures TotalInsertions(rs) == |Seen(rs)| + 5_000 * Prunes(rs)
    ensures Prunes(rs) > 0 ==> |Seen(rs)| >= 5_001
  {
    if rs != [] {
      var n := |rs| - 1;
      var s, r := Seen(rs[..n]), rs[n];
      InsertionsAreConserved(rs[..n]);
      SeenIsBounded(rs[..n]);
      PruneIsExact(s, r);
      if r.id in s {
        assert s + {r.id} == s;
      } else {
        assert |s + {r.id}| == |s| + 1;
      }
    }
  }

  /** How many prunes there were follows from the number of insertions alone. */
  lemma PruneCount(rs: seq<Record>)
    requires ValidRun(rs)
    ensures Prunes(rs) == if TotalInsertions(rs) <= MAX_SEEN then 0 else (TotalInsertions(rs) - 5_001) / 5_000
    ensures 5_000 * Prunes(rs) <= TotalInsertions(rs)
  {
    InsertionsAreConserved(rs);
    SeenIsBounded(rs);
  }

  /** For each ID, insertions are evictions plus one if it is in the set. */
  lemma {:induction false} EachIdIsConserved(rs: seq<Record>, id: string)
    requires ValidRun(rs)
    ensures Insertions(rs, id) == Evictions(rs, id) + if id in Seen(rs) then 1 else 0
    ensures Acceptances(rs, id) <= Insertions(rs, id)
  {
    if rs != [] {
      EachIdIsConserved(rs[..|rs| - 1], id);
    }
  }

  lemma AcceptedOncePlusEvictions(rs: seq<Record>, id: string)
    requires ValidRun(rs)
    ensures Acceptances(rs, id) <= 1 + Evictions(rs, id)
  {
    EachIdIsConserved(rs, id);
  }

  // ---- Nothing is forgotten up to the cap ----

  lemma {:induction false} SeenWasRecorded(rs: seq<Record>)
    ensures Seen(rs) <= Recorded(rs)
  {
    if rs != [] {
      SeenWasRecorded(rs[..|rs| - 1]);
    }
  }

  lemma {:induction false} RememberedUpToCap(rs: seq<Record>)
    requires ValidRun(rs) && |Recorded(rs)| <= MAX_SEEN
    ensures Seen(rs) == Recorded(rs)
  {
    if rs != [] {
      var n := |rs| - 1;
      SubsetSize(Recorded(rs[..n]), Recorded(rs));
      RememberedUpToCap(rs[..n]);
      PruneIsExact(Seen(rs[..n]), rs[n]);
    }
  }

  /** Every recorded ID is remembered exactly while at most 10,000 different IDs were recorded,
      whatever the eviction order. */
  lemma AllRememberedIffUnderCap(rs: seq<Record>)
    requires ValidRun(rs)
    ensures Seen(rs) == Recorded(rs) <==> |Recorded(rs)| <= MAX_SEEN
  {
    if |Recorded(rs)| <= MAX_SEEN {
      RememberedUpToCap(rs);
    }
    SeenIsBounded(rs);
  }

  /** ... so a later route of a recorded ID is rejected. */
  lemma LaterRouteRejected(rs: seq<Record>, r: Record)
    requires ValidRun(rs) && |Recorded(rs)| <= MAX_SEEN
    requires r.id in Recorded(rs)
    ensures !Accepts(Seen(rs), r)
  {
    RememberedUpToCap(rs);
  }

  /** The record that first put id into the filter. */
  function FirstRecord(rs: seq<Record>, id: string): Option<Record> {
    if rs == [] then None
    else
      var before := FirstRecord(rs[..|rs| - 1], id);
      if before.Some? then before
      else if rs[|rs| - 1].id == id then Some(rs[|rs| - 1]) else None
  }

  lemma {:induction false} FirstOfRecorded(rs: seq<Record>, id: string)
    ensures FirstRecord(rs, id).Some? <==> id in Recorded(rs)
  {
    if rs != [] {
      FirstOfRecorded(rs[..|rs| - 1], id);
    }
  }

  /** Up to that number routing accepts an ID exactly once if it was routed before it was ever marked,
      and never otherwise. */
  lemma {:induction false} AcceptedExactlyOnce(rs: seq<Record>, id: string)
    requires ValidRun(rs) && |Recorded(rs)| <= MAX_SEEN
    ensures Acceptances(rs, id) ==
              if FirstRecord(rs, id).Some? && FirstRecord(rs, id).value.routed then 1 else 0
  {
    if rs != [] {
      var n := |rs| - 1;
      SubsetSize(Recorded(rs[..n]), Recorded(rs));
      AcceptedExactlyOnce(rs[..n], id);
      RememberedUpToCap(rs[..n]);
      FirstOfRecorded(rs[..n], id);
    }
  }

  // ---- The loop of pruneSeen ----

  method PruneSeen(s: set<string>) returns (kept: set<string>, ghost evicted: set<string>)
    ensures MayEvict(s, evicted) && kept == s - evicted
    ensures |kept| == if |s| <= MAX_SEEN then |s| else |s| - |s| / 2
  {
    kept, evicted := s, {};
    if |s| <= MAX_SEEN {
      return;
    }
    var toDelete, deleted := |s| / 2, 0;
    while deleted < toDelete
      invariant deleted <= toDelete
      invariant evicted <= s && |evicted| == deleted
      invariant kept == s - evicted && |kept| == |s| - deleted
    {
      var k :| k in kept;
      kept := kept - {k};
      evicted := evicted + {k};
      deleted := deleted + 1;
    }
  }
}
