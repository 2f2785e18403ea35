/** The DHT manager: routing table, provider table, closest-peer selection and peer discovery. */
module Dht {
  import opened Prelude
  import opened ProviderHistory
  import XorMetric

  const DEFAULT_K_BUCKET_SIZE := 20

  datatype PeerDist = PeerDist(info: AddrInfo, dist: nat)

  // ---- What a closest-peer query may answer ----

  ghost predicate DistinctIds(xs: seq<AddrInfo>) {
    forall i, j :: 0 <= i < j < |xs| ==> xs[i].id != xs[j].id
  }

  ghost function Ids(xs: seq<AddrInfo>): set<string> {
    set e | e in xs :: e.id
  }

  /** xs lists every entry of m, each once, in some order. */
  ghost predicate Enumerates(xs: seq<AddrInfo>, m: map<string, AddrInfo>) {
    && DistinctIds(xs)
    && (forall e :: e in xs ==> e.id in m && m[e.id] == e)
    && (forall p :: p in m ==> m[p] in xs)
  }

  /** out holds min(count, |table|) different entries of the table, nearest first, and no entry
      left out is strictly closer than one returned. */
  ghost predicate Closest(table: map<string, AddrInfo>, dist: string -> nat, count: nat, out: seq<AddrInfo>) {
    && |out| == (if |table| < count then |table| else count)
    && DistinctIds(out)
    && (forall e :: e in out ==> e.id in table && table[e.id] == e)
    && (forall i, j :: 0 <= i < j < |out| ==> dist(out[i].id) <= dist(out[j].id))
    && (forall e, p :: e in out && p in table && p !in Ids(out) ==> dist(e.id) <= dist(p))
  }

  function DistanceTo(hash: string -> XorMetric.Hash, target: string): string -> nat {
    id => XorMetric.Distance(hash(target), hash(id))
  }

  ghost predicate HashesDiffer(hash: string -> XorMetric.Hash, ids: set<string>) {
    forall p, q :: p in ids && q in ids && p != q ==> hash(p) != hash(q)
  }

  lemma NoSmallerAt(table: map<string, AddrInfo>, dist: string -> nat, count: nat,
                    a: seq<AddrInfo>, b: seq<AddrInfo>, k: nat)
    requires Closest(table, dist, count, a) && Closest(table, dist, count, b)
    requires k < |a| && forall i :: 0 <= i < k ==> a[i] == b[i]
    ensures dist(b[k].id) <= dist(a[k].id)
  {
    var p := a[k].id;
    assert a[k] in a && b[k] in b;
    if p in Ids(b) {
      var i := LaterIn(a, b, k);
      assert dist(b[k].id) <= dist(b[i].id);
    }
  }

  /** An entry of both lists cannot stand in b before the two lists part. */
  lemma LaterIn(a: seq<AddrInfo>, b: seq<AddrInfo>, k: nat) returns (i: nat)
    requires DistinctIds(a) && k < |a| && a[k].id in Ids(b)
    requires |a| == |b| && forall i :: 0 <= i < k ==> a[i] == b[i]
    ensures k <= i < |b| && b[i].id == a[k].id
  {
    i :| 0 <= i < |b| && b[i].id == a[k].id;
  }

  lemma {:induction false} SamePrefix(table: map<string, AddrInfo>, hash: string -> XorMetric.Hash,
                                      target: string, count: nat, a: seq<AddrInfo>, b: seq<AddrInfo>, k: nat)
    requires HashesDiffer(hash, table.Keys)
    requires Closest(table, DistanceTo(hash, target), count, a)
    requires Closest(table, DistanceTo(hash, target), count, b)
    requires k <= |a|
    ensures forall i :: 0 <= i < k ==> a[i] == b[i]
  {
    if k > 0 {
      SamePrefix(table, hash, target, count, a, b, k - 1);
      NoSmallerAt(table, DistanceTo(hash, target), count, a, b, k - 1);
      NoSmallerAt(table, DistanceTo(hash, target), count, b, a, k - 1);
      var p, q := a[k - 1], b[k - 1];
      XorMetric.Unidirectional(hash(target), hash(p.id), hash(q.id));
      assert p in a && q in b;
    }
  }

  /** When the peers' hashes differ there is one answer, whatever order the map was read in. */
  lemma ClosestIsUnique(table: map<string, AddrInfo>, hash: string -> XorMetric.Hash,
                        target: string, count: nat, a: seq<AddrInfo>, b: seq<AddrInfo>)
    requires HashesDiffer(hash, table.Keys)
    requires Closest(table, DistanceTo(hash, target), count, a)
    requires Closest(table, DistanceTo(hash, target), count, b)
    ensures a == b
  {
    SamePrefix(table, hash, target, count, a, b, |a|);
  }

  /** A target that is in the table is the first answer when the hashes differ: it alone is at
      distance zero. */
  lemma TargetComesFirst(table: map<string, AddrInfo>, hash: string -> XorMetric.Hash,
                         target: string, count: nat, out: seq<AddrInfo>)
    requires HashesDiffer(hash, table.Keys) && target in table && table[target].id == target && count > 0
    requires Closest(table, DistanceTo(hash, target), count, out)
    ensures out != [] && out[0] == table[target]
  {
    var dist, first := DistanceTo(hash, target), out[0];
    assert first in out;
    XorMetric.ZeroIffEqual(hash(target), hash(target));
    XorMetric.ZeroIffEqual(hash(target), hash(first.id));
    assert target !in Ids(out) ==> dist(first.id) <= dist(target);
    assert dist(first.id) == 0;
  }

  /** Nearest is nearest to the target. */
  lemma ClosestToTarget(table: map<string, AddrInfo>, hash: string -> XorMetric.Hash,
                        target: string, count: nat, out: seq<AddrInfo>)
    requires Closest(table, DistanceTo(hash, target), count, out)
    ensures forall i, j :: 0 <= i < j < |out| ==>
              XorMetric.Distance(hash(target), hash(out[i].id)) <= XorMetric.Distance(hash(target), hash(out[j].id))
    ensures forall e, p :: e in out && p in table && p !in Ids(out) ==>
              XorMetric.Distance(hash(target), hash(e.id)) <= XorMetric.Distance(hash(target), hash(p))
  {
    var dist := DistanceTo(hash, target);
    assert forall p :: dist(p) == XorMetric.Distance(hash(target), hash(p));
  }

  // ---- Sorting by distance: sort.Slice, modelled as an insertion sort ----

  ghost predicate Ascending(xs: seq<PeerDist>) {
    forall i, j :: 0 <= i < j < |xs| ==> xs[i].dist <= xs[j].dist
  }

  method InsertByDistance(xs: seq<PeerDist>, x: PeerDist) returns (ys: seq<PeerDist>)
    requires Ascending(xs) && Distinct(xs) && x !in xs
    ensures Ascending(ys) && Distinct(ys)
    ensures |ys| == |xs| + 1
    ensures forall y :: y in ys <==> y == x || y in xs
  {
    var at := |xs|;
    while at > 0 && x.dist < xs[at - 1].dist
      invariant 0 <= at <= |xs|
      invariant forall i :: at <= i < |xs| ==> x.dist < xs[i].dist
    {
      at := at - 1;
    }
    ys := xs[..at] + [x] + xs[at..];
    InsertedAt(xs, x, at, ys);
  }

  lemma InsertedAt(xs: seq<PeerDist>, x: PeerDist, at: nat, ys: seq<PeerDist>)
    requires at <= |xs| && ys == xs[..at] + [x] + xs[at..]
    requires Ascending(xs) && Distinct(xs) && x !in xs
    requires forall i :: at <= i < |xs| ==> x.dist < xs[i].dist
    requires at > 0 ==> xs[at - 1].dist <= x.dist
    ensures Ascending(ys) && Distinct(ys)
    ensures forall y :: y in ys <==> y == x || y in xs
  {
    InsertedElements(xs, x, at, ys);
    forall i | 0 <= i < at ensures xs[i].dist <= x.dist {}
    forall i, j | 0 <= i < j < |ys| ensures ys[i].dist <= ys[j].dist && ys[i] != ys[j] {
      var i', j' := if i < at then i else i - 1, if j < at then j else j - 1;
      if i != at && j != at {
        assert i' < j' && ys[i] == xs[i'] && ys[j] == xs[j'];
      } else if i == at {
        assert ys[j] == xs[j'];
      } else {
        assert ys[i] == xs[i'];
      }
    }
  }

  lemma InsertedElements(xs: seq<PeerDist>, x: PeerDist, at: nat, ys: seq<PeerDist>)
    requires at <= |xs| && ys == xs[..at] + [x] + xs[at..]
    ensures forall y :: y in ys <==> y == x || y in xs
  {
    assert xs == xs[..at] + xs[at..];
  }

  method SortByDistance(xs: seq<PeerDist>) returns (ys: seq<PeerDist>)
    requires Distinct(xs)
    ensures Ascending(ys) && Distinct(ys)
    ensures |ys| == |xs|
    ensures forall y :: y in ys <==> y in xs
  {
    ys := [];
    for i := 0 to |xs|
      invariant Ascending(ys) && Distinct(ys) && |ys| == i
      invariant forall y :: y in ys <==> y in xs[..i]
    {
      assert xs[..i + 1] == xs[..i] + [xs[i]];
      ys := InsertByDistance(ys, xs[i]);
    }
    assert xs[..|xs|] == xs;
  }

  /** The first entries of a sorted listing of the table are its closest entries. */
  lemma SortedPrefixIsClosest(table: map<string, AddrInfo>, dist: string -> nat, count: nat,
                              ds: seq<PeerDist>, out: seq<AddrInfo>)
    requires forall p :: p in table ==> table[p].id == p
    requires Ascending(ds) && Distinct(ds) && |ds| == |table|
    requires forall d :: d in ds <==> d.info.id in table && d == PeerDist(table[d.info.id], dist(d.info.id))
    requires |out| == (if |table| < count then |table| else count)
    requires forall i :: 0 <= i < |out| ==> out[i] == ds[i].info
    ensures Closest(table, dist, count, out)
  {
    forall i, j | 0 <= i < j < |ds| ensures ds[i].info.id != ds[j].info.id {
      assert ds[i] in ds && ds[j] in ds;
    }
    forall e | e in out ensures e.id in table && table[e.id] == e {
      var i :| 0 <= i < |out| && out[i] == e;
      assert ds[i] in ds;
    }
    forall i | 0 <= i < |out| ensures dist(out[i].id) == ds[i].dist {
      assert ds[i] in ds;
    }
    assert forall k :: 0 <= k < |out| ==> out[k] in out && out[k].id in Ids(out);
    forall e, p | e in out && p in table && p !in Ids(out) ensures dist(e.id) <= dist(p) {
      var i :| 0 <= i < |out| && out[i] == e;
      assert PeerDist(table[p], dist(p)) in ds;
      var k :| 0 <= k < |ds| && ds[k] == PeerDist(table[p], dist(p));
      assert |out| <= k;
    }
  }

  // ---- Merging local providers with the replies of queried peers ----

  /** The outcome of querying one peer; a failed or mistyped reply contributes nothing. */
  datatype Reply = NoAnswer | Answer(peers: seq<AddrInfo>)

  /** The first n replies offer a peer with this ID and at least one address. */
  ghost predicate Replied(replies: seq<Reply>, n: nat, id: string)
    requires n <= |replies|
  {
    exists r, e :: 0 <= r < n && replies[r].Answer? && e in replies[r].peers && e.addrs != [] && e.id == id
  }

  /** What was emitted so far: different peers with addresses, never self; seen is their IDs. */
  ghost predicate Emitted(self: string, out: seq<AddrInfo>, seen: set<string>) {
    && DistinctIds(out)
    && (forall e :: e in out ==> e.id != self && e.addrs != [])
    && seen == Ids(out) + {self}
  }

  method EmitIfNew(self: string, out: seq<AddrInfo>, seen: set<string>, pi: AddrInfo)
    returns (out': seq<AddrInfo>, seen': set<string>, isNew: bool)
    requires Emitted(self, out, seen) && pi.addrs != []
    ensures Emitted(self, out', seen')
    ensures isNew <==> pi.id !in seen
    ensures out' == if isNew then out + [pi] else out
    ensures Ids(out') == Ids(out) + ({pi.id} - {self})
  {
    out', seen', isNew := out, seen, pi.id !in seen;
    if isNew {
      IdsSnoc(out, pi);
      seen' := seen + {pi.id};
      out' := out + [pi];
    }
  }

  lemma {:induction false} IdsCount(xs: seq<AddrInfo>)
    requires DistinctIds(xs)
    ensures |Ids(xs)| == |xs|
  {
    if xs != [] {
      var n := |xs| - 1;
      IdsCount(xs[..n]);
      assert xs == xs[..n] + [xs[n]];
      IdsSnoc(xs[..n], xs[n]);
      assert forall e :: e in xs[..n] ==> e.id != xs[n].id;
    }
  }

  lemma SeenCount(self: string, out: seq<AddrInfo>, seen: set<string>)
    requires Emitted(self, out, seen)
    ensures |seen| == |out| + 1 && |Ids(out)| == |out|
  {
    IdsCount(out);
    assert self !in Ids(out);
  }

  /** Where the local phase stands after the first i local providers. */
  ghost predicate LocalPhase(self: string, limit: nat, local: seq<AddrInfo>, i: nat,
                             out: seq<AddrInfo>, seen: set<string>, full: bool)
    requires i <= |local|
  {
    && Emitted(self, out, seen)
    && Ids(out) == FirstIds(local, i) - {self}
    && (if full then |out| == limit else |out| < limit)
  }

  method EmitNextLocal(self: string, limit: nat, local: seq<AddrInfo>, i: nat, out: seq<AddrInfo>, seen: set<string>)
    returns (out': seq<AddrInfo>, seen': set<string>, full: bool)
    requires i < |local| && LocalPhase(self, limit, local, i, out, seen, false) && local[i].addrs != []
    ensures LocalPhase(self, limit, local, i + 1, out', seen', full)
    ensures out' == out || out' == out + [local[i]]
  {
    var isNew;
    out', seen', isNew := EmitIfNew(self, out, seen, local[i]);
    SeenCount(self, out', seen');
    full := isNew && |seen'| - 1 >= limit;
  }

  /** The local phase: stops as soon as the limit is reached. */
  method EmitLocal(self: string, limit: nat, local: seq<AddrInfo>)
    returns (out: seq<AddrInfo>, seen: set<string>, full: bool)
    requires limit > 0
    requires forall e :: e in local ==> e.addrs != []
    ensures Emitted(self, out, seen) && Elements(out) <= Elements(local)
    ensures full <==> |Ids(local) - {self}| >= limit
    ensures if full then |out| == limit && Ids(out) <= Ids(local) else Ids(out) == Ids(local) - {self}
  {
    out, seen, full := [], {self}, false;
    var i := 0;
    while i < |local| && !full
      invariant i <= |local| && LocalPhase(self, limit, local, i, out, seen, full)
      invariant Elements(out) <= Elements(local)
    {
      out, seen, full := EmitNextLocal(self, limit, local, i, out, seen);
      i := i + 1;
    }
    LocalCount(self, local, i, out, seen);
  }

  ghost function FirstIds(xs: seq<AddrInfo>, n: nat): set<string>
    requires n <= |xs|
  {
    if n == 0 then {} else FirstIds(xs, n - 1) + {xs[n - 1].id}
  }

  lemma {:induction false} FirstIdsBound(xs: seq<AddrInfo>, n: nat)
    requires n <= |xs|
    ensures FirstIds(xs, n) <= Ids(xs)
    ensures forall i :: 0 <= i < n ==> xs[i].id in FirstIds(xs, n)
  {
    if n > 0 {
      FirstIdsBound(xs, n - 1);
      assert xs[n - 1] in xs;
    }
  }

  lemma LocalCount(self: string, local: seq<AddrInfo>, n: nat, out: seq<AddrInfo>, seen: set<string>)
    requires n <= |local| && Emitted(self, out, seen) && Ids(out) == FirstIds(local, n) - {self}
    ensures |seen| == |out| + 1
    ensures Ids(out) <= Ids(local) && |out| <= |Ids(local) - {self}|
    ensures n == |local| ==> Ids(out) == Ids(local) - {self} && |out| == |Ids(local) - {self}|
  {
    SeenCount(self, out, seen);
    FirstIdsBound(local, n);
    SubsetSize(Ids(out), Ids(local) - {self});
  }

  /** Merges one reply, under the mutex. */
  method MergeReply(self: string, out: seq<AddrInfo>, seen: set<string>, peers: seq<AddrInfo>)
    returns (out': seq<AddrInfo>, seen': set<string>)
    requires Emitted(self, out, seen)
    ensures Emitted(self, out', seen')
    ensures forall id :: id in Ids(out') <==> id in Ids(out) || (id != self && Offers(peers, id))
    ensures forall e :: e in out' ==> e in out || (e.id !in Ids(out) && FirstOffer(peers, e))
  {
    out', seen' := out, seen;
    for k := 0 to |peers|
      invariant Emitted(self, out', seen')
      invariant forall id :: id in Ids(out') <==> id in Ids(out) || (id != self && Offers(peers[..k], id))
      invariant forall e :: e in out' ==> e in out || (e.id !in Ids(out) && FirstOffer(peers, e))
    {
      var found := peers[k];
      assert peers[..k + 1] == peers[..k] + [found];
      OffersSnoc(peers[..k], found);
      if |found.addrs| > 0 {
        FreshOfferIsFirst(peers, k);
        var isNew;
        out', seen', isNew := EmitIfNew(self, out', seen', found);
      }
    }
    assert peers[..|peers|] == peers;
  }

  lemma FreshOfferIsFirst(peers: seq<AddrInfo>, k: nat)
    requires k < |peers| && peers[k].addrs != []
    ensures !Offers(peers[..k], peers[k].id) ==> FirstOffer(peers, peers[k])
  {
    if !Offers(peers[..k], peers[k].id) {
      forall j | 0 <= j < k ensures peers[j].addrs == [] || peers[j].id != peers[k].id {
        assert peers[j] in peers[..k];
      }
    }
  }

  /** e has addresses, and the list offers none under the same ID before it. */
  ghost predicate FirstOffer(peers: seq<AddrInfo>, e: AddrInfo) {
    e.addrs != [] &&
    exists k :: 0 <= k < |peers| && peers[k] == e
                && forall j :: 0 <= j < k ==> peers[j].addrs == [] || peers[j].id != e.id
  }

  /** Of all offers under its ID in the first n replies, in order of arrival, e is the first. */
  ghost predicate FirstReply(replies: seq<Reply>, n: nat, e: AddrInfo)
    requires n <= |replies|
  {
    exists r :: 0 <= r < n && replies[r].Answer? && FirstOffer(replies[r].peers, e) && !Replied(replies, r, e.id)
  }

  /** Emits each provider once: first the local ones, stopping at the limit, then, in order of
      arrival, those of the replies. */
  method MergeProviders(self: string, limit: nat, local: seq<AddrInfo>, replies: seq<Reply>)
    returns (out: seq<AddrInfo>)
    requires limit > 0
    requires forall e :: e in local ==> e.addrs != []
    ensures DistinctIds(out)
    ensures forall e :: e in out ==> e.id != self && e.addrs != []
    ensures |Ids(local) - {self}| < limit ==>
              forall id :: id in Ids(out) <==> id != self && (id in Ids(local) || Replied(replies, |replies|, id))
    ensures |Ids(local) - {self}| >= limit ==> |out| == limit && Ids(out) <= Ids(local)
    ensures forall e :: e in out ==> e in local || (e.id !in Ids(local) && FirstReply(replies, |replies|, e))
  {
    var seen, full;
    out, seen, full := EmitLocal(self, limit, local);
    assert forall e :: e in out ==> e in Elements(local);
    if full {
      return;
    }
    for r := 0 to |replies|
      invariant Emitted(self, out, seen)
      invariant forall id :: id in Ids(out) <==> id != self && (id in Ids(local) || Replied(replies, r, id))
      invariant forall e :: e in out ==> e in local || (e.id !in Ids(local) && FirstReply(replies, r, e))
    {
      RepliedNext(replies, r);
      FirstReplyNext(replies, r);
      if replies[r].Answer? {
        ghost var before := out;
        out, seen := MergeReply(self, out, seen, replies[r].peers);
        StillFirst(self, local, replies, r, before, out);
      }
    }
  }

  lemma FirstReplyNext(replies: seq<Reply>, r: nat)
    requires r < |replies|
    ensures forall e :: FirstReply(replies, r, e) ==> FirstReply(replies, r + 1, e)
    ensures replies[r].Answer? ==>
              forall e :: FirstOffer(replies[r].peers, e) && !Replied(replies, r, e.id) ==> FirstReply(replies, r + 1, e)
  {}

  lemma StillFirst(self: string, local: seq<AddrInfo>, replies: seq<Reply>, r: nat,
                   before: seq<AddrInfo>, out: seq<AddrInfo>)
    requires r < |replies| && replies[r].Answer?
    requires forall id :: id in Ids(before) <==> id != self && (id in Ids(local) || Replied(replies, r, id))
    requires forall e :: e in before ==> e in local || (e.id !in Ids(local) && FirstReply(replies, r, e))
    requires forall e :: e in out ==> e.id != self && (e in before || (e.id !in Ids(before) && FirstOffer(replies[r].peers, e)))
    ensures forall e :: e in out ==> e in local || (e.id !in Ids(local) && FirstReply(replies, r + 1, e))
  {
    FirstReplyNext(replies, r);
  }

  ghost predicate Offers(peers: seq<AddrInfo>, id: string) {
    exists e :: e in peers && e.addrs != [] && e.id == id
  }

  lemma OffersSnoc(peers: seq<AddrInfo>, e: AddrInfo)
    ensures forall id :: Offers(peers + [e], id) <==> Offers(peers, id) || (e.addrs != [] && e.id == id)
  {
    forall id ensures Offers(peers + [e], id) <==> Offers(peers, id) || (e.addrs != [] && e.id == id) {
      assert e in peers + [e];
      if Offers(peers, id) {
        var x :| x in peers && x.addrs != [] && x.id == id;
        assert x in peers + [e];
      }
    }
  }

  lemma RepliedNext(replies: seq<Reply>, r: nat)
    requires r < |replies|
    ensures forall id :: Replied(replies, r + 1, id) <==>
              Replied(replies, r, id) || (replies[r].Answer? && Offers(replies[r].peers, id))
  {
    forall id
      ensures Replied(replies, r + 1, id) <==>
                Replied(replies, r, id) || (replies[r].Answer? && Offers(replies[r].peers, id))
    {
      if Replied(replies, r + 1, id) {
        var k, e :| 0 <= k < r + 1 && replies[k].Answer? && e in replies[k].peers && e.addrs != [] && e.id == id;
      }
    }
  }

  lemma IdsSnoc(xs: seq<AddrInfo>, e: AddrInfo)
    ensures Ids(xs + [e]) == Ids(xs) + {e.id}
    ensures DistinctIds(xs) && e.id !in Ids(xs) ==> DistinctIds(xs + [e])
  {
    assert forall i :: 0 <= i < |xs| ==> xs[i] in xs && xs[i].id in Ids(xs);
    forall x | x in xs ensures x.id in Ids(xs + [e]) {
      assert x in xs + [e];
    }
    assert e in xs + [e];
  }

  // ---- One lookup's walk through a bucket ----

  /** Expired records met so far are gone from the bucket, all others are there. */
  ghost predicate Pruning(start: Bucket, bucket: Bucket, todo: set<string>, now: int) {
    && (forall p :: p in bucket <==> p in start && (p in todo || !Expired(start[p], now)))
    && (forall p :: p in bucket ==> bucket[p] == start[p])
  }

  /** out lists the records of the bucket met so far, each once. */
  ghost predicate Collected(bucket: Bucket, todo: set<string>, out: seq<AddrInfo>) {
    && DistinctIds(out)
    && (forall e :: e in out ==> e.id in bucket && e.id !in todo && bucket[e.id].info == e)
    && (forall p :: p in bucket && p !in todo ==> bucket[p].info in out)
  }

  lemma CollectOneMore(bucket: Bucket, todo: set<string>, out: seq<AddrInfo>, pid: string)
    requires Collected(bucket, todo + {pid}, out) && pid in bucket && bucket[pid].info.id == pid && pid !in todo
    ensures Collected(bucket, todo, out + [bucket[pid].info])
  {
    assert forall i :: 0 <= i < |out| ==> out[i] in out;
    assert forall e :: e in out ==> e in out + [bucket[pid].info];
  }

  method ScanBucket(start: Bucket, now: int) returns (out: seq<AddrInfo>, bucket: Bucket)
    requires forall p :: p in start ==> start[p].info.id == p
    ensures bucket == map p | p in start && !Expired(start[p], now) :: start[p]
    ensures Enumerates(out, map p | p in start && !Expired(start[p], now) :: start[p].info)
  {
    out, bucket := [], start;
    var todo := bucket.Keys;
    while todo != {}
      invariant todo <= bucket.Keys
      invariant Pruning(start, bucket, todo, now)
      invariant Collected(bucket, todo, out)
      decreases todo
    {
      var pid :| pid in todo;
      todo := todo - {pid};
      if now > bucket[pid].expires {
        bucket := bucket - {pid};
      } else {
        CollectOneMore(bucket, todo, out, pid);
        out := out + [bucket[pid].info];
      }
    }
  }

  // ---- The manager ----

  class DHTManager {
    const self: string
    const namespace: string
    const hash: string -> XorMetric.Hash
    var routingTable: map<string, AddrInfo>
    var providers: Table

    ghost predicate Valid()
      reads this
    {
      && (forall p :: p in routingTable ==>
            p != self && routingTable[p].id == p && routingTable[p].addrs != [])
      && (forall ns, p :: ns in providers && p in providers[ns] ==>
            Accepted(ns, providers[ns][p].info) && providers[ns][p].info.id == p)
    }

    constructor (self: string, namespace: string, hash: string -> XorMetric.Hash)
      ensures Valid() && this.self == self && this.namespace == namespace && this.hash == hash
      ensures routingTable == map[] && providers == map[]
    {
      this.self := self;
      this.namespace := namespace;
      this.hash := hash;
      routingTable := map[];
      providers := map[];
    }

    method AddPeer(pi: AddrInfo)
      requires Valid()
      modifies this`routingTable
      ensures Valid()
      ensures routingTable ==
                if pi.id == self || pi.addrs == [] then old(routingTable) else old(routingTable)[pi.id := pi]
    {
      if pi.id == self || |pi.addrs| == 0 {
        return;
      }
      routingTable := routingTable[pi.id := pi];
    }

    method RemovePeer(pid: string)
      requires Valid()
      modifies this
      ensures Valid()
      ensures routingTable == old(routingTable) - {pid}
      ensures providers == Drop(old(providers), pid)
    {
      routingTable := routingTable - {pid};
      var todo := providers.Keys;
      while todo != {}
        invariant todo <= providers.Keys == old(providers).Keys
        invariant routingTable == old(routingTable) - {pid}
        invariant forall ns :: ns in providers ==>
                    providers[ns] == if ns in todo then old(providers)[ns] else old(providers)[ns] - {pid}
        decreases todo
      {
        var ns :| ns in todo;
        todo := todo - {ns};
        providers := providers[ns := providers[ns] - {pid}];
      }
    }

    method StoreProvider(ns: string, pi: AddrInfo, ttl: int, now: int)
      requires Valid()
      modifies this`providers
      ensures Valid()
      ensures providers == Put(old(providers), ns, pi, ttl, now)
    {
      if ns == "" || pi.id == "" || |pi.addrs| == 0 {
        return;
      }
      if ns !in providers {
        providers := providers[ns := map[]];
      }
      providers := providers[ns := providers[ns][pi.id := Record(pi, now + ttl)]];
    }

    /** Answers with the unexpired records and deletes the expired ones it meets. */
    method GetLocalProviders(ns: string, now: int) returns (out: seq<AddrInfo>)
      requires Valid()
      modifies this`providers
      ensures Valid()
      ensures providers == Prune(old(providers), ns, now)
      ensures Enumerates(out, Live(old(providers), ns, now))
    {
      if ns !in providers {
        return [];
      }
      var bucket;
      out, bucket := ScanBucket(providers[ns], now);
      providers := providers[ns := bucket];
    }

    method ClosestPeers(target: string, count: int) returns (out: seq<AddrInfo>)
      requires Valid()
      ensures count <= 0 ==> out == []
      ensures count > 0 ==> Closest(routingTable, DistanceTo(hash, target), count, out)
      ensures forall i, j :: 0 <= i < j < |out| ==>
                XorMetric.Distance(hash(target), hash(out[i].id)) <= XorMetric.Distance(hash(target), hash(out[j].id))
      ensures forall e, p :: count > 0 && e in out && p in routingTable && p !in Ids(out) ==>
                XorMetric.Distance(hash(target), hash(e.id)) <= XorMetric.Distance(hash(target), hash(p))
    {
      if count <= 0 {
        return [];
      }
      ghost var dist := DistanceTo(hash, target);
      var dists := Distances(target);
      dists := SortByDistance(dists);
      ghost var all := dists;
      if |dists| > count {
        dists := dists[..count];
      }
      out := [];
      for i := 0 to |dists|
        invariant |out| == i
        invariant forall k :: 0 <= k < i ==> out[k] == dists[k].info
      {
        out := out + [dists[i].info];
      }
      SortedPrefixIsClosest(routingTable, dist, count, all, out);
      ClosestToTarget(routingTable, hash, target, count, out);
    }

    /** One distance per table entry, in the arbitrary order of a map iteration. */
    method Distances(target: string) returns (dists: seq<PeerDist>)
      requires Valid()
      ensures Distinct(dists) && |dists| == |routingTable|
      ensures forall d :: d in dists <==>
                d.info.id in routingTable
                && d == PeerDist(routingTable[d.info.id], XorMetric.Distance(hash(target), hash(d.info.id)))
    {
      dists := [];
      var todo := routingTable.Keys;
      ghost var dist := DistanceTo(hash, target);
      while todo != {}
        invariant todo <= routingTable.Keys
        invariant |dists| + |todo| == |routingTable|
        invariant Distinct(dists)
        invariant forall d :: d in dists ==> Measured(d, todo, dist)
        invariant forall p :: p in routingTable && p !in todo ==> PeerDist(routingTable[p], dist(p)) in dists
        decreases todo
      {
        var pid :| pid in todo;
        var d := XorMetric.XorKeyDistance(hash(target), hash(pid));
        var entry := PeerDist(routingTable[pid], d);
        assert entry !in dists by {
          assert !Measured(entry, todo, dist);
        }
        todo := todo - {pid};
        dists := dists + [entry];
      }
    }

    ghost predicate Measured(d: PeerDist, todo: set<string>, dist: string -> nat)
      reads this
    {
      var id := d.info.id;
      id in routingTable && id !in todo && d == PeerDist(routingTable[id], dist(id))
    }

    /** A find without cancellation; replies are listed in their order of arrival. */
    method FindPeers(ns: string, limit: int, now: int, replies: seq<Reply>) returns (out: seq<AddrInfo>)
      requires Valid()
      modifies this`providers
      ensures Valid()
      ensures var space := if ns == "" then namespace else ns;
              && providers == Prune(old(providers), space, now)
              && FoundPeers(self, if limit <= 0 then 20 else limit,
                            Live(old(providers), space, now), replies, out)
    {
      var space := if ns == "" then namespace else ns;
      var cap := if limit <= 0 then DEFAULT_K_BUCKET_SIZE else limit;
      ghost var live := Live(providers, space, now);
      var local := GetLocalProviders(space, now);
      assert Ids(local) == live.Keys;
      out := MergeProviders(self, cap, local, replies);
      assert Ids(local) - {self} == live.Keys - {self};
    }
  }

  /** What a find answers, when these providers are alive locally: each peer once, never the local one,
      only with addresses; with local providers under the limit all of them and all that replied, else
      exactly limit local ones; a local provider with its own record, any other as it was first offered. */
  ghost predicate FoundPeers(self: string, limit: nat, live: map<string, AddrInfo>, replies: seq<Reply>, out: seq<AddrInfo>) {
    && DistinctIds(out)
    && (forall e :: e in out ==> e.id != self && e.addrs != [])
    && (if |live.Keys - {self}| < limit
        then forall id :: id in Ids(out) <==> id != self && (id in live || Replied(replies, |replies|, id))
        else |out| == limit && Ids(out) <= live.Keys)
    && (forall e :: e in out ==> if e.id in live then e == live[e.id] else FirstReply(replies, |replies|, e))
  }
}
