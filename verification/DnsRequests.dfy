/** The bookkeeping of the resolver, libevent/evdns.c: requests in flight in hash buckets by
    transaction id, requests that wait, and the counters of both and of each nameserver. */
module DnsRequests {
  import opened Pointers
  import opened DnsRings

  type Ns = int
  const NONE: Ns := 0
  const NO_ID: nat := 0xffff
  const MAX_INFLIGHT := 65000   // the largest value the option max-inflight can set

  datatype Req = Req(transId: nat, ns: Ns, txCount: nat, reissueCount: nat)

  // global_max_retransmits, global_max_reissues and global_max_nameserver_timeout
  datatype Limits = Limits(retransmits: int, reissues: int, timeouts: int)

  type Info = map<Ptr, Req>
  type Load = map<Ns, int>

  // ----- where the requests are -----

  // The requests in flight are exactly those in the buckets, each in the bucket of its id and with a
  // nameserver; those that wait have none.
  ghost predicate Placing(bs: seq<seq<Ptr>>, ws: seq<Ptr>, info: Info, inflight: set<Ptr>) {
    && |bs| > 0
    && (forall i, k :: 0 <= i < |bs| && 0 <= k < |bs[i]| ==> bs[i][k] in inflight && bs[i][k] in info && info[bs[i][k]].transId % |bs| == i)
    && (forall p :: p in inflight ==> p in info && info[p].ns != NONE && p in bs[info[p].transId % |bs|])
    && (forall k :: 0 <= k < |ws| ==> ws[k] !in inflight && ws[k] in info && info[ws[k]].ns == NONE)
    && (forall p, q :: p in inflight && q in inflight && p != q ==> info[p].transId != info[q].transId)
  }

  // The links agree with that.
  ghost predicate Linked(nodes: Nodes, heads: seq<Ptr>, bs: seq<seq<Ptr>>, waitingHead: Ptr, ws: seq<Ptr>) {
    && |heads| == |bs| && (forall i :: 0 <= i < |bs| ==> Ring(nodes, heads[i], bs[i]))
    && Ring(nodes, waitingHead, ws)
  }

  // The requests in flight that are assigned to s.
  ghost function Of(inflight: set<Ptr>, info: Info, s: Ns): set<Ptr> {
    set p | p in inflight && p in info && info[p].ns == s
  }

  ghost predicate Counted(inflight: set<Ptr>, ws: seq<Ptr>, info: Info, load: Load, nInflight: int, nWaiting: int) {
    && nInflight == |inflight| && nWaiting == |ws| && NONE !in load
    && (forall p :: p in inflight ==> p in info && info[p].ns in load)
    && (forall s :: s in load ==> load[s] == |Of(inflight, info, s)|)
  }

  // ----- one step of each kind -----

  lemma PlaceInflight(bs: seq<seq<Ptr>>, ws: seq<Ptr>, info: Info, inflight: set<Ptr>, p: Ptr)
    requires Placing(bs, ws, info, inflight) && p in info && p !in inflight && p !in ws && info[p].ns != NONE
    requires IsFree(inflight, info, info[p].transId)
    ensures var b := info[p].transId % |bs|;
            Placing(bs[b := bs[b] + [p]], ws, info, inflight + {p})
  {
    var b := info[p].transId % |bs|;
    var bs' := bs[b := bs[b] + [p]];
    assert bs'[b][|bs[b]|] == p;
    forall q | q in inflight + {p} ensures q in bs'[info[q].transId % |bs|] {
      if q != p { assert q in bs[info[q].transId % |bs|]; }
    }
  }

  lemma UnplaceInflight(bs: seq<seq<Ptr>>, ws: seq<Ptr>, info: Info, inflight: set<Ptr>, b: nat, k: nat)
    requires Placing(bs, ws, info, inflight) && b < |bs| && k < |bs[b]| && Distinct(bs[b])
    ensures Placing(bs[b := bs[b][..k] + bs[b][k + 1..]], ws, info, inflight - {bs[b][k]})
  {
    var p, ps := bs[b][k], bs[b][..k] + bs[b][k + 1..];
    var bs' := bs[b := ps];
    assert forall i :: 0 <= i < |ps| ==> ps[i] == bs[b][if i < k then i else i + 1];
    forall q | q in inflight - {p} ensures q in bs'[info[q].transId % |bs|] {
      var c := info[q].transId % |bs|;
      assert q in bs[c];
      var i :| 0 <= i < |bs[c]| && bs[c][i] == q;
      if c == b { assert ps[if i < k then i else i - 1] == q; }
    }
    forall i, m | 0 <= i < |bs'| && 0 <= m < |bs'[i]| ensures bs'[i][m] in inflight - {p} && info[bs'[i][m]].transId % |bs| == i {
      if i == b {
        assert bs'[i][m] == bs[b][if m < k then m else m + 1];
      } else {
        assert bs'[i][m] == bs[i][m];
      }
    }
  }

  // Bucket b was rewritten; the other lists are untouched.
  lemma LinkBucket(nodes: Nodes, heads: seq<Ptr>, bs: seq<seq<Ptr>>, waitingHead: Ptr, ws: seq<Ptr>, b: nat,
                   nodes': Nodes, head': Ptr, ps: seq<Ptr>, changed: seq<Ptr>)
    requires Linked(nodes, heads, bs, waitingHead, ws) && b < |bs| && Ring(nodes', head', ps) && OnlyChanged(nodes, nodes', changed)
    requires forall i, k :: 0 <= i < |bs| && i != b && 0 <= k < |bs[i]| ==> bs[i][k] !in changed
    requires forall k :: 0 <= k < |ws| ==> ws[k] !in changed
    ensures Linked(nodes', heads[b := head'], bs[b := ps], waitingHead, ws)
  {
    hide Ring, OnlyChanged;
    forall i | 0 <= i < |bs| && i != b ensures Ring(nodes', heads[i], bs[i]) {
      RingFrame(nodes, nodes', changed, heads[i], bs[i]);
    }
    RingFrame(nodes, nodes', changed, waitingHead, ws);
  }

  // The waiting queue was rewritten.
  lemma LinkWaiting(nodes: Nodes, heads: seq<Ptr>, bs: seq<seq<Ptr>>, waitingHead: Ptr, ws: seq<Ptr>,
                    nodes': Nodes, head': Ptr, ps: seq<Ptr>, changed: seq<Ptr>)
    requires Linked(nodes, heads, bs, waitingHead, ws) && Ring(nodes', head', ps) && OnlyChanged(nodes, nodes', changed)
    requires forall i, k :: 0 <= i < |bs| && 0 <= k < |bs[i]| ==> bs[i][k] !in changed
    ensures Linked(nodes', heads, bs, head', ps)
  {
    hide Ring, OnlyChanged;
    forall i | 0 <= i < |bs| ensures Ring(nodes', heads[i], bs[i]) {
      RingFrame(nodes, nodes', changed, heads[i], bs[i]);
    }
  }

  // The nodes that an insertion of p into bucket b, or a removal from it, can touch are on no other list.
  lemma OnlyBucket(bs: seq<seq<Ptr>>, ws: seq<Ptr>, info: Info, inflight: set<Ptr>, b: nat, p: Ptr)
    requires Placing(bs, ws, info, inflight) && b < |bs| && (p in bs[b] || (p !in inflight && p !in ws))
    ensures forall i, k :: 0 <= i < |bs| && i != b && 0 <= k < |bs[i]| ==> bs[i][k] !in bs[b] + [p]
    ensures forall k :: 0 <= k < |ws| ==> ws[k] !in bs[b] + [p]
  {
  }

  lemma OnlyWaiting(bs: seq<seq<Ptr>>, ws: seq<Ptr>, info: Info, inflight: set<Ptr>, p: Ptr)
    requires Placing(bs, ws, info, inflight) && p !in inflight
    ensures forall i, k :: 0 <= i < |bs| && 0 <= k < |bs[i]| ==> bs[i][k] !in ws + [p]
  {
  }

  // ----- the counters -----

  lemma OfAdd(inflight: set<Ptr>, info: Info, p: Ptr, s: Ns)
    requires p in info && p !in inflight
    ensures Of(inflight + {p}, info, s) == if info[p].ns == s then Of(inflight, info, s) + {p} else Of(inflight, info, s)
    ensures |Of(inflight + {p}, info, s)| == |Of(inflight, info, s)| + if info[p].ns == s then 1 else 0
  {
    assert p !in Of(inflight, info, s);
  }

  lemma CountAdd(inflight: set<Ptr>, ws: seq<Ptr>, info: Info, load: Load, nInflight: int, nWaiting: int, p: Ptr)
    requires Counted(inflight, ws, info, load, nInflight, nWaiting) && p in info && p !in inflight && info[p].ns in load
    ensures Counted(inflight + {p}, ws, info, load[info[p].ns := load[info[p].ns] + 1], nInflight + 1, nWaiting)
  {
    hide Of;
    var load' := load[info[p].ns := load[info[p].ns] + 1];
    forall s | s in load' ensures load'[s] == |Of(inflight + {p}, info, s)| {
      OfAdd(inflight, info, p, s);
    }
  }

  lemma CountDrop(inflight: set<Ptr>, ws: seq<Ptr>, info: Info, load: Load, nInflight: int, nWaiting: int, p: Ptr)
    requires Counted(inflight, ws, info, load, nInflight, nWaiting) && p in inflight
    ensures p in info && info[p].ns in load && load[info[p].ns] > 0
    ensures Counted(inflight - {p}, ws, info, load[info[p].ns := load[info[p].ns] - 1], nInflight - 1, nWaiting)
  {
    hide Of;
    var load' := load[info[p].ns := load[info[p].ns] - 1];
    assert (inflight - {p}) + {p} == inflight;
    forall s | s in load' ensures load'[s] == |Of(inflight - {p}, info, s)| {
      OfAdd(inflight - {p}, info, p, s);
    }
    OfAdd(inflight - {p}, info, p, info[p].ns);
  }

  // The counters do not depend on what else is known, nor on requests that are not in flight.
  lemma CountFrame(inflight: set<Ptr>, ws: seq<Ptr>, info: Info, load: Load, nInflight: int, nWaiting: int,
                   ws': seq<Ptr>, info': Info, nWaiting': int)
    requires Counted(inflight, ws, info, load, nInflight, nWaiting) && nWaiting' == |ws'|
    requires forall p :: p in inflight ==> p in info && p in info' && info'[p].ns == info[p].ns
    ensures Counted(inflight, ws', info', load, nInflight, nWaiting')
  {
    forall s | s in load ensures load[s] == |Of(inflight, info', s)| {
      forall p ensures p in Of(inflight, info', s) <==> p in Of(inflight, info, s) {
        assert p in inflight ==> p in info && p in info' && info'[p].ns == info[p].ns;
      }
      assert Of(inflight, info', s) == Of(inflight, info, s);
    }
  }

  // Moving a request from one nameserver to another.
  lemma CountSwap(inflight: set<Ptr>, ws: seq<Ptr>, info: Info, load: Load, nInflight: int, nWaiting: int, p: Ptr, s: Ns)
    requires Counted(inflight, ws, info, load, nInflight, nWaiting) && p in inflight && p in info && s in load && info[p].ns != s
    ensures info[p].ns in load && load[info[p].ns] > 0
    ensures var load1 := load[info[p].ns := load[info[p].ns] - 1];
            s in load1 && Counted(inflight, ws, info[p := info[p].(ns := s)], load1[s := load1[s] + 1], nInflight, nWaiting)
  {
    hide Counted;
    CountDrop(inflight, ws, info, load, nInflight, nWaiting, p);
    SwapFrame(inflight - {p}, ws, info, load[info[p].ns := load[info[p].ns] - 1], nInflight - 1, nWaiting, p, s);
    CountAdd(inflight - {p}, ws, info[p := info[p].(ns := s)], load[info[p].ns := load[info[p].ns] - 1], nInflight - 1, nWaiting, p);
    assert (inflight - {p}) + {p} == inflight;
  }

  lemma SwapFrame(inflight: set<Ptr>, ws: seq<Ptr>, info: Info, load: Load, nInflight: int, nWaiting: int, p: Ptr, s: Ns)
    requires Counted(inflight, ws, info, load, nInflight, nWaiting) && p !in inflight && p in info
    ensures Counted(inflight, ws, info[p := info[p].(ns := s)], load, nInflight, nWaiting)
  {
    CountFrame(inflight, ws, info, load, nInflight, nWaiting, ws, info[p := info[p].(ns := s)], nWaiting);
  }

  // Every id comes up again and again.
  ghost predicate Fair(rng: nat -> nat) {
    forall id: nat, m: nat :: id <= NO_ID ==> DrawnLater(rng, id, m)
  }

  ghost predicate DrawnLater(rng: nat -> nat, id: nat, m: nat) {
    exists n: nat :: n >= m && Draws(rng, n, id)
  }

  predicate Draws(rng: nat -> nat, n: nat, id: nat) {
    rng(n) % (NO_ID + 1) == id
  }

  ghost predicate IsFree(inflight: set<Ptr>, info: Info, id: nat) {
    forall q :: q in inflight && q in info ==> info[q].transId != id
  }

  // A request that has an id and a nameserver keeps its id, and does not go back to waiting.
  ghost predicate KeepsSent(info: Info, info': Info) {
    forall p :: p in info && p in info' && info[p].ns != NONE ==> info'[p].ns != NONE && info'[p].transId == info[p].transId
  }

  // Of the requests seen, those that were assigned to s and had not been sent are assigned to
  // nameservers that are up; nothing else has changed.
  ghost predicate Reassigned(info: Info, info': Info, s: Ns, up: set<Ns>, seen: set<Ptr>) {
    && info'.Keys == info.Keys
    && forall p :: p in info ==>
         if p in seen && info[p].ns == s && info[p].txCount == 0 then info'[p] == info[p].(ns := info'[p].ns) && info'[p].ns in up
         else info'[p] == info[p]
  }

  // The ring of nameservers.
  ghost predicate ServersOk(servers: seq<Ns>, known: set<Ns>, up: set<Ns>, good: int) {
    && Distinct(servers) && (forall i :: 0 <= i < |servers| ==> servers[i] in known && servers[i] != NONE)
    && (forall s :: s in up ==> s in servers) && good == |up|
  }

  // ----- the resolver -----

  class Base {
    const ring: RingStore
    const rng: nat -> nat        // the random numbers, of which drawn have been used
    var drawn: nat
    var info: Info
    var reqHeads: seq<Ptr>
    var waitingHead: Ptr
    var nInflight: int
    var nWaiting: int
    var maxInflight: int
    var load: Load               // requests_inflight of each nameserver
    var servers: seq<Ns>         // the ring of nameservers, from server_head on
    var up: set<Ns>              // those in state 1
    var good: int                // global_good_nameservers
    const limits: Limits
    var timedOut: map<Ns, nat>   // the timeouts of each nameserver that has had one
    ghost var buckets: seq<seq<Ptr>>
    ghost var queue: seq<Ptr>
    ghost var inflight: set<Ptr>

    ghost predicate Valid()
      reads this, ring
    {
      && Linked(ring.nodes, reqHeads, buckets, waitingHead, queue)
      && Placing(buckets, queue, info, inflight)
      && Counted(inflight, queue, info, load, nInflight, nWaiting)
      && Fair(rng) && ring.nodes.Keys == info.Keys && NULL !in info && 1 <= maxInflight && ServersOk(servers, load.Keys, up, good)
    }

    constructor (maxInflight: int, rng: nat -> nat, limits: Limits)
      requires 1 <= maxInflight && Fair(rng)
      ensures Valid() && inflight == {} && queue == [] && servers == [] && fresh(ring) && this.maxInflight == maxInflight && this.limits == limits
    {
      this.limits, timedOut := limits, map[];
      ring := new RingStore();
      info, reqHeads, waitingHead, nInflight, nWaiting := map[], seq((maxInflight + 4) / 5, _ => NULL), NULL, 0, 0;
      load, servers, up, good := map[], [], {}, 0;
      this.maxInflight, this.rng, drawn := maxInflight, rng, 0;
      buckets, queue, inflight := seq((maxInflight + 4) / 5, _ => []), [], {};
    }

    // evdns_request_insert on the bucket of the request's id
    method LinkInflight(p: Ptr)
      requires Linked(ring.nodes, reqHeads, buckets, waitingHead, queue) && Placing(buckets, queue, info, inflight)
      requires p in info && p in ring.nodes && p != NULL && p !in inflight && p !in queue && info[p].ns != NONE
      requires IsFree(inflight, info, info[p].transId)
      modifies this`reqHeads, this`buckets, ring
      ensures Linked(ring.nodes, reqHeads, buckets, waitingHead, queue) && Placing(buckets, queue, info, inflight + {p})
      ensures ring.nodes.Keys == old(ring.nodes.Keys)
    {
      hide Ring, Distinct, OnlyChanged, Placing, Linked;
      Sizes(ring.nodes, reqHeads, buckets, waitingHead, queue, info, inflight);
      var b := info[p].transId % |reqHeads|;
      ghost var nodes0, ps := ring.nodes, buckets[b];
      BucketRing(nodes0, reqHeads, buckets, waitingHead, queue, info, inflight, b, p);
      OnlyBucket(buckets, queue, info, inflight, b, p);
      PlaceInflight(buckets, queue, info, inflight, p);
      var head := ring.Insert(p, reqHeads[b], ps);
      LinkBucket(nodes0, reqHeads, buckets, waitingHead, queue, b, ring.nodes, head, ps + [p], ps + [p]);
      KeysKept(nodes0, ring.nodes, ps + [p]);
      reqHeads := reqHeads[b := head];
      buckets := buckets[b := ps + [p]];
    }

    // evdns_request_remove on that bucket
    method UnlinkInflight(p: Ptr)
      requires Linked(ring.nodes, reqHeads, buckets, waitingHead, queue) && Placing(buckets, queue, info, inflight)
      requires p in inflight && p in info
      modifies this`reqHeads, this`buckets, ring
      ensures Linked(ring.nodes, reqHeads, buckets, waitingHead, queue) && Placing(buckets, queue, info, inflight - {p})
      ensures ring.nodes.Keys == old(ring.nodes.Keys)
    {
      hide Ring, Distinct, OnlyChanged, Placing, Linked;
      Sizes(ring.nodes, reqHeads, buckets, waitingHead, queue, info, inflight);
      var b := info[p].transId % |reqHeads|;
      ghost var nodes0, ps := ring.nodes, buckets[b];
      ghost var k := PlaceOf(buckets, queue, info, inflight, p);
      BucketRing(nodes0, reqHeads, buckets, waitingHead, queue, info, inflight, b, p);
      OnlyBucket(buckets, queue, info, inflight, b, p);
      UnplaceInflight(buckets, queue, info, inflight, b, k);
      var head := ring.Remove(p, reqHeads[b], ps, k);
      LinkBucket(nodes0, reqHeads, buckets, waitingHead, queue, b, ring.nodes, head, ps[..k] + ps[k + 1..], ps);
      KeysKept(nodes0, ring.nodes, ps);
      reqHeads := reqHeads[b := head];
      buckets := buckets[b := ps[..k] + ps[k + 1..]];
    }

    // evdns_request_insert on the waiting queue
    method LinkWaiter(p: Ptr)
      requires Linked(ring.nodes, reqHeads, buckets, waitingHead, queue) && Placing(buckets, queue, info, inflight)
      requires p in info && p in ring.nodes && p != NULL && p !in inflight && p !in queue && info[p].ns == NONE
      modifies this`waitingHead, this`queue, ring
      ensures Linked(ring.nodes, reqHeads, buckets, waitingHead, queue) && Placing(buckets, queue, info, inflight)
      ensures ring.nodes.Keys == old(ring.nodes.Keys) && queue == old(queue) + [p]
    {
      hide Ring, Distinct, OnlyChanged, Placing, Linked;
      Sizes(ring.nodes, reqHeads, buckets, waitingHead, queue, info, inflight);
      ghost var nodes0 := ring.nodes;
      BucketRing(nodes0, reqHeads, buckets, waitingHead, queue, info, inflight, 0, p);
      OnlyWaiting(buckets, queue, info, inflight, p);
      PlaceWaiter(buckets, queue, info, inflight, p);
      var head := ring.Insert(p, waitingHead, queue);
      LinkWaiting(nodes0, reqHeads, buckets, waitingHead, queue, ring.nodes, head, queue + [p], queue + [p]);
      KeysKept(nodes0, ring.nodes, queue + [p]);
      waitingHead := head;
      queue := queue + [p];
    }

    // evdns_request_remove on the waiting queue
    method UnlinkWaiter(p: Ptr, ghost k: nat)
      requires Linked(ring.nodes, reqHeads, buckets, waitingHead, queue) && Placing(buckets, queue, info, inflight)
      requires k < |queue| && queue[k] == p
      modifies this`waitingHead, this`queue, ring
      ensures Linked(ring.nodes, reqHeads, buckets, waitingHead, queue) && Placing(buckets, queue, info, inflight)
      ensures ring.nodes.Keys == old(ring.nodes.Keys) && queue == old(queue)[..k] + old(queue)[k + 1..] && p !in queue
    {
      hide Ring, Distinct, OnlyChanged, Placing, Linked;
      Sizes(ring.nodes, reqHeads, buckets, waitingHead, queue, info, inflight);
      ghost var nodes0 := ring.nodes;
      BucketRing(nodes0, reqHeads, buckets, waitingHead, queue, info, inflight, 0, p);
      OnlyQueue(buckets, queue, info, inflight);
      UnplaceWaiter(buckets, queue, info, inflight, k);
      RingDistinct(nodes0, waitingHead, queue, k);
      var head := ring.Remove(p, waitingHead, queue, k);
      LinkWaiting(nodes0, reqHeads, buckets, waitingHead, queue, ring.nodes, head, queue[..k] + queue[k + 1..], queue);
      KeysKept(nodes0, ring.nodes, queue);
      waitingHead := head;
      queue := queue[..k] + queue[k + 1..];
    }

    // request_find_from_trans_id
    method FindFromTransId(id: nat) returns (r: Ptr)
      requires Valid()
      ensures r == NULL <==> IsFree(inflight, info, id)
      ensures r != NULL ==> r in inflight && r in info && info[r].transId == id
    {
      hide Linked, Counted, ServersOk, Distinct, Fair;
      Sizes(ring.nodes, reqHeads, buckets, waitingHead, queue, info, inflight);
      var b := id % |reqHeads|;
      ghost var ps := buckets[b];
      BucketRing(ring.nodes, reqHeads, buckets, waitingHead, queue, info, inflight, b, NULL);
      var req := reqHeads[b];
      if req == NULL {
        return NULL;
      }
      var startedAt := req;
      ghost var k: nat := 0;
      Neighbours(ring.nodes, startedAt, ps, 0);
      while true
        invariant k < |ps| && req == ps[k] && forall i :: 0 <= i < k ==> ps[i] in info && info[ps[i]].transId != id
        decreases |ps| - k
      {
        Neighbours(ring.nodes, startedAt, ps, k);
        if info[req].transId == id {
          return req;
        }
        req := ring.nodes[req].next;
        k := k + 1;
        if req == startedAt {
          break;
        }
        if k < |ps| { Neighbours(ring.nodes, startedAt, ps, k); }
      }
      return NULL;
    }

    // nameserver_pick: the first nameserver that is up, from server_head on, if there is one
    method NameserverPick() returns (ns: Ns)
      requires ServersOk(servers, load.Keys, up, good)
      modifies this`servers
      ensures ServersOk(servers, load.Keys, up, good)
      ensures ns == NONE <==> old(servers) == []
      ensures |servers| == |old(servers)|
      ensures ns != NONE ==> ns in load
      ensures up == {} && old(servers) != [] ==> servers == Turned(old(servers), 1) && ns == servers[0]
      ensures up != {} ==> ns in up && exists k: nat :: k < |old(servers)| && ns == old(servers)[k] && servers == Turned(old(servers), k + 1)
                                                 && forall i :: 0 <= i < k ==> old(servers)[i] !in up
    {
      hide ServersOk, Turned;
      ServerFacts(servers, load.Keys, up, good);
      if servers == [] {
        return NONE;
      }
      ghost var ss := servers;
      TurnStep(ss, 0);
      if good == 0 {
        Rotate(ss, load.Keys, up, good, 1);
        servers := servers[1..] + [servers[0]];
        ServerFacts(servers, load.Keys, up, good);
        return servers[0];
      }
      ghost var m := FirstUp(ss, load.Keys, up, good);
      ghost var k: nat := 0;
      while true
        invariant k <= m && servers == Turned(ss, k)
        decreases m - k
      {
        TurnStep(ss, k);
        ns := servers[0];
        servers := servers[1..] + [servers[0]];
        if ns in up {
          Rotate(ss, load.Keys, up, good, k + 1);
          return;
        }
        k := k + 1;
      }
    }

    // transaction_id_pick
    method TransactionIdPick() returns (id: nat)
      requires Valid() && nInflight < NO_ID
      modifies this`drawn
      ensures id < NO_ID && IsFree(inflight, info, id)
    {
      hide Linked, Placing, ServersOk, Of, Fair;
      ghost var free, n := FreeDraw(inflight, info, rng, drawn);
      while true
        invariant drawn <= n && Valid()
        decreases n - drawn
      {
        id := rng(drawn) % (NO_ID + 1);
        drawn := drawn + 1;
        if id != NO_ID {
          var req := FindFromTransId(id);
          if req == NULL {
            return;
          }
        }
      }
    }

    // request_submit
    method Submit(p: Ptr, req: Req)
      requires Valid() && p !in info && p != NULL && (req.ns != NONE ==> req.ns in load)
      requires req.ns != NONE ==> IsFree(inflight, info, req.transId)
      modifies this`info, this`reqHeads, this`waitingHead, this`nInflight, this`nWaiting, this`load, this`buckets, this`queue, this`inflight, ring
      ensures Valid() && info == old(info)[p := req]
      ensures req.ns != NONE ==> inflight == old(inflight) + {p} && queue == old(queue)
      ensures req.ns == NONE ==> inflight == old(inflight) && queue == old(queue) + [p]
    {
      hide Linked, Placing, Counted, ServersOk, Fair, IsFree;
      FreeFrame(inflight, info, req.transId, p, req);
      Alloc(p, req);
      if req.ns != NONE {
        InsertInflight(p);
      } else {
        InsertWaiter(p);
      }
    }

    // the request record
    method Alloc(p: Ptr, req: Req)
      requires Valid() && p !in info && p != NULL
      modifies this`info, ring
      ensures Valid() && info == old(info)[p := req] && p !in inflight && p !in queue
    {
      hide Linked, Placing, ServersOk, Fair, Of;
      AllocFrame(ring.nodes, reqHeads, buckets, waitingHead, queue, info, inflight, p, req);
      CountFrame(inflight, queue, info, load, nInflight, nWaiting, queue, info[p := req], nWaiting);
      info := info[p := req];
      ring.nodes := ring.nodes[p := Node(NULL, NULL)];
    }

    method InsertInflight(p: Ptr)
      requires Valid() && p in info && p !in inflight && p !in queue && info[p].ns in load
      requires IsFree(inflight, info, info[p].transId)
      modifies this`reqHeads, this`nInflight, this`load, this`buckets, this`inflight, ring
      ensures Valid() && inflight == old(inflight) + {p} && load.Keys == old(load.Keys) && nInflight == old(nInflight) + 1
    {
      hide Placing, Linked, Counted, ServersOk, Fair, IsFree;
      var s := info[p].ns;
      Facts(ring.nodes, reqHeads, buckets, waitingHead, queue, info, inflight, load, nInflight, nWaiting, p);
      CountAdd(inflight, queue, info, load, nInflight, nWaiting, p);
      ghost var known := load.Keys;
      LinkInflight(p);
      inflight := inflight + {p};
      nInflight := nInflight + 1;
      load := load[s := load[s] + 1];
      assert load.Keys == known;
    }

    method InsertWaiter(p: Ptr)
      requires Valid() && p in info && p !in inflight && p !in queue && info[p].ns == NONE
      modifies this`waitingHead, this`nWaiting, this`queue, ring
      ensures Valid() && queue == old(queue) + [p]
    {
      hide Placing, Linked, Counted, ServersOk, Fair, IsFree;
      Facts(ring.nodes, reqHeads, buckets, waitingHead, queue, info, inflight, load, nInflight, nWaiting, p);
      CountFrame(inflight, queue, info, load, nInflight, nWaiting, queue + [p], info, nWaiting + 1);
      LinkWaiter(p);
      nWaiting := nWaiting + 1;
    }

    // evdns_requests_pump_waiting_queue: the requests that have waited longest take the free places
    method Pump()
      requires Valid() && maxInflight <= MAX_INFLIGHT
      modifies this, ring
      ensures Valid() && maxInflight == old(maxInflight) && (servers == [] <==> old(servers) == []) && info.Keys == old(info.Keys)
      ensures KeepsSent(old(info), info)
      ensures exists m: nat :: m <= |old(queue)| && queue == old(queue)[m..] && inflight == old(inflight) + Elems(old(queue)[..m])
      ensures servers == [] || nInflight >= maxInflight || queue == []
    {
      hide Linked, Placing, Counted, ServersOk, Fair, IsFree, Elems;
      ghost var ws, inflight0, m: nat := queue, inflight, 0;
      Promoted0(ws, inflight);
      while nInflight < maxInflight && nWaiting != 0
        invariant Valid() && maxInflight == old(maxInflight) && (servers == [] <==> old(servers) == []) && info.Keys == old(info.Keys)
        invariant m <= |ws| && queue == ws[m..] && inflight == inflight0 + Elems(ws[..m])
        invariant KeepsSent(old(info), info)
        decreases |ws| - m
      {
        ghost var info1 := info;
        var promoted := PumpOne();
        KeepsOn(old(info), info1, info);
        if !promoted {
          return;
        }
        Promoted1(ws, inflight0, m);
        m := m + 1;
      }
      HeadFacts(ring.nodes, reqHeads, buckets, waitingHead, queue, info, inflight, load, nInflight, nWaiting);
    }

    // one turn of that loop
    method PumpOne() returns (promoted: bool)
      requires Valid() && nInflight < maxInflight <= MAX_INFLIGHT && nWaiting != 0
      modifies this, ring
      ensures Valid() && maxInflight == old(maxInflight) && (servers == [] <==> old(servers) == []) && info.Keys == old(info.Keys)
      ensures promoted <==> servers != []
      ensures KeepsSent(old(info), info)
      ensures !promoted ==> queue == old(queue) && inflight == old(inflight) && nInflight == old(nInflight)
      ensures promoted ==> old(queue) != [] && queue == old(queue)[1..] && inflight == old(inflight) + {old(queue)[0]}
    {
      hide Linked, Placing, Counted, ServersOk, Fair, IsFree;
      var p := waitingHead;
      HeadFacts(ring.nodes, reqHeads, buckets, waitingHead, queue, info, inflight, load, nInflight, nWaiting);
      WaiterFacts(buckets, queue, info, inflight, 0);
      var ns := NameserverPick();
      if ns == NONE {
        return false;
      }
      Promote(p, ns);
      return true;
    }

    // the request that has waited longest is assigned to a nameserver and gets an id
    method Promote(p: Ptr, ns: Ns)
      requires Valid() && nInflight < NO_ID && queue != [] && queue[0] == p && ns in load && ns != NONE
      modifies this`waitingHead, this`nWaiting, this`queue, this`drawn, this`info, this`reqHeads, this`nInflight, this`load, this`buckets, this`inflight, ring
      ensures Valid() && queue == old(queue)[1..] && inflight == old(inflight) + {p} && info.Keys == old(info.Keys)
      ensures p in info && info[p].ns == ns && info[p].transId < NO_ID && forall q :: q in info && q != p ==> info[q] == old(info)[q]
    {
      hide Linked, Placing, Counted, ServersOk, Fair, IsFree;
      assert queue[..0] + queue[1..] == queue[1..];
      DropWaiter(p, 0);
      var id := TransactionIdPick();
      ghost var keys := info.Keys;
      SetRequest(p, info[p].(transId := id, ns := ns));
      assert info.Keys == keys;
      InsertInflight(p);
    }

    // a request leaves the waiting queue
    method DropWaiter(p: Ptr, ghost k: nat)
      requires Valid() && k < |queue| && queue[k] == p
      modifies this`waitingHead, this`nWaiting, this`queue, ring
      ensures Valid() && queue == old(queue)[..k] + old(queue)[k + 1..] && p !in queue && p !in inflight && p in info
      ensures nWaiting == old(nWaiting) - 1
    {
      hide Linked, Placing, ServersOk, Fair, IsFree, Of;
      WaiterFacts(buckets, queue, info, inflight, k);
      CountFrame(inflight, queue, info, load, nInflight, nWaiting, queue[..k] + queue[k + 1..], info, nWaiting - 1);
      UnlinkWaiter(p, k);
      nWaiting := nWaiting - 1;
    }

    // the fields of a request that is on no list
    method SetRequest(p: Ptr, req: Req)
      requires Valid() && p in info && p !in inflight && p !in queue
      modifies this`info
      ensures Valid() && info == old(info)[p := req]
      ensures forall id: nat :: old(IsFree(inflight, info, id)) ==> IsFree(inflight, info, id)
    {
      hide Linked, Placing, ServersOk, Fair, Of;
      InfoFrame(buckets, queue, info, info[p := req], inflight, p);
      CountFrame(inflight, queue, info, load, nInflight, nWaiting, queue, info[p := req], nWaiting);
      info := info[p := req];
    }

    // request_finished for a request in flight
    method FinishInflight(p: Ptr)
      requires Valid() && p in inflight && maxInflight <= MAX_INFLIGHT
      modifies this, ring
      ensures Valid() && info.Keys == old(info.Keys) - {p} && maxInflight == old(maxInflight) && KeepsSent(old(info), info)
      ensures exists m: nat :: m <= |old(queue)| && queue == old(queue)[m..] && inflight == old(inflight) - {p} + Elems(old(queue)[..m])
      ensures servers == [] || nInflight >= maxInflight || queue == []
    {
      hide Linked, Placing, Counted, ServersOk, Fair, Elems;
      DropInflight(p);
      Free(p);
      ghost var info1 := info;
      Pump();
      KeepsOn(old(info), info1, info);
    }

    // request_finished for one that waits
    method FinishWaiting(p: Ptr, ghost k: nat)
      requires Valid() && k < |queue| && queue[k] == p && maxInflight <= MAX_INFLIGHT
      modifies this, ring
      ensures Valid() && info.Keys == old(info.Keys) - {p} && maxInflight == old(maxInflight) && KeepsSent(old(info), info)
      ensures var ws := old(queue)[..k] + old(queue)[k + 1..];
              exists m: nat :: m <= |ws| && queue == ws[m..] && inflight == old(inflight) + Elems(ws[..m])
      ensures servers == [] || nInflight >= maxInflight || queue == []
    {
      hide Linked, Placing, Counted, ServersOk, Fair, Elems;
      DropWaiter(p, k);
      Free(p);
      ghost var info1 := info;
      Pump();
      KeepsOn(old(info), info1, info);
    }

    // a request leaves its bucket, and its nameserver has one less
    method DropInflight(p: Ptr)
      requires Valid() && p in inflight
      modifies this`reqHeads, this`nInflight, this`load, this`buckets, this`inflight, ring
      ensures Valid() && inflight == old(inflight) - {p} && nInflight == old(nInflight) - 1 && p in info && p !in queue
    {
      hide Linked, Placing, Counted, ServersOk, Fair;
      InflightFacts(buckets, queue, info, inflight, p);
      CountDrop(inflight, queue, info, load, nInflight, nWaiting, p);
      var s := info[p].ns;
      ghost var known := load.Keys;
      UnlinkInflight(p);
      inflight := inflight - {p};
      nInflight := nInflight - 1;
      load := load[s := load[s] - 1];
      assert load.Keys == known;
    }

    // mm_free of a request that is on no list
    method Free(p: Ptr)
      requires Valid() && p in info && p !in inflight && p !in queue
      modifies this`info, ring
      ensures Valid() && info == old(info) - {p}
    {
      hide Linked, Placing, ServersOk, Fair, Of;
      InfoFrame(buckets, queue, info, info - {p}, inflight, p);
      RingsShrink(ring.nodes, reqHeads, buckets, waitingHead, queue, info, inflight, p);
      CountFrame(inflight, queue, info, load, nInflight, nWaiting, queue, info - {p}, nWaiting);
      info := info - {p};
      ring.nodes := ring.nodes - {p};
    }

    // request_swap_ns
    method SwapNs(p: Ptr, ns: Ns)
      requires Valid() && p in inflight && (ns != NONE ==> ns in load)
      modifies this`info, this`load
      ensures Valid() && info.Keys == old(info.Keys) && p in info && p in old(info)
      ensures info[p] == old(info)[p].(ns := if ns == NONE then old(info)[p].ns else ns)
      ensures forall q :: q in info && q != p ==> info[q] == old(info)[q]
    {
      hide Linked, Placing, Counted, ServersOk, Fair;
      InflightFacts(buckets, queue, info, inflight, p);
      if ns != NONE && info[p].ns != ns {
        CountSwap(inflight, queue, info, load, nInflight, nWaiting, p, ns);
        SwapPlacing(buckets, queue, info, inflight, p, ns);
        ghost var known := load.Keys;
        CountDrop(inflight, queue, info, load, nInflight, nWaiting, p);
        load := load[info[p].ns := load[info[p].ns] - 1];
        load := load[ns := load[ns] + 1];
        info := info[p := info[p].(ns := ns)];
        assert load.Keys == known;
      }
    }

    // evdns_base_set_max_requests_inflight: every request in flight is moved to its new bucket
    method SetMaxInflight(m: int)
      requires Valid()
      modifies this`reqHeads, this`buckets, this`maxInflight, ring
      ensures Valid() && maxInflight == (if m < 1 then 1 else m) && |reqHeads| == (maxInflight + 4) / 5
    {
      hide Linked, Placing, Counted, ServersOk, Fair;
      var max := if m < 1 then 1 else m;
      var n := (max + 4) / 5;
      var newHeads := seq(n, _ => NULL);
      ghost var newBuckets := seq(n, _ => []);
      ghost var moved: set<Ptr> := {};
      EmptyBuckets(ring.nodes, newHeads, newBuckets, waitingHead, queue, info, reqHeads, buckets, inflight);
      assert inflight - {} == inflight;
      var i, oldN := 0, |reqHeads|;
      while i < oldN
        invariant i <= oldN == |reqHeads| == |buckets| && ring.nodes.Keys == info.Keys && |newHeads| == n && moved <= inflight
        invariant Linked(ring.nodes, reqHeads, buckets, waitingHead, queue) && Placing(buckets, queue, info, inflight - moved)
        invariant Linked(ring.nodes, newHeads, newBuckets, waitingHead, queue) && Placing(newBuckets, queue, info, moved)
        invariant Placing(old(buckets), queue, info, inflight)
        invariant forall j :: 0 <= j < i ==> buckets[j] == []
      {
        while reqHeads[i] != NULL
          invariant i < oldN == |reqHeads| == |buckets| && ring.nodes.Keys == info.Keys && |newHeads| == n && moved <= inflight
          invariant Linked(ring.nodes, reqHeads, buckets, waitingHead, queue) && Placing(buckets, queue, info, inflight - moved)
          invariant Linked(ring.nodes, newHeads, newBuckets, waitingHead, queue) && Placing(newBuckets, queue, info, moved)
          invariant Placing(old(buckets), queue, info, inflight)
          invariant forall j :: 0 <= j < i ==> buckets[j] == []
          decreases |buckets[i]|
        {
          newHeads, newBuckets, moved := MoveOne(i, newHeads, newBuckets, moved, old(buckets));
        }
        EmptyBucket(ring.nodes, reqHeads, buckets, waitingHead, queue, i);
        i := i + 1;
      }
      AllMoved(buckets, queue, info, inflight - moved);
      assert moved == inflight;
      reqHeads := newHeads;
      buckets := newBuckets;
      maxInflight := max;
    }

    // the first request of old bucket i goes to its new bucket
    method MoveOne(i: nat, heads: seq<Ptr>, ghost bs: seq<seq<Ptr>>, ghost moved: set<Ptr>, ghost all: seq<seq<Ptr>>)
      returns (heads': seq<Ptr>, ghost bs': seq<seq<Ptr>>, ghost moved': set<Ptr>)
      requires i < |reqHeads| == |buckets| && ring.nodes.Keys == info.Keys && moved <= inflight && reqHeads[i] != NULL
      requires Linked(ring.nodes, reqHeads, buckets, waitingHead, queue) && Placing(buckets, queue, info, inflight - moved)
      requires Linked(ring.nodes, heads, bs, waitingHead, queue) && Placing(bs, queue, info, moved)
      requires NULL !in info && Placing(all, queue, info, inflight)
      modifies this`reqHeads, this`buckets, ring
      ensures |reqHeads| == |buckets| == |old(reqHeads)| && ring.nodes.Keys == info.Keys && |heads'| == |heads| && moved' <= inflight
      ensures Linked(ring.nodes, reqHeads, buckets, waitingHead, queue) && Placing(buckets, queue, info, inflight - moved')
      ensures Linked(ring.nodes, heads', bs', waitingHead, queue) && Placing(bs', queue, info, moved')
      ensures |buckets[i]| < |old(buckets)[i]| && forall j :: 0 <= j < |buckets| && j != i ==> buckets[j] == old(buckets)[j]
    {
      hide Linked, Placing, IsFree;
      var p := TakeOld(i, heads, bs, moved);
      IdsApart(all, queue, info, inflight, moved, p);
      heads', bs' := PutNew(p, heads, bs, moved);
      moved' := moved + {p};
      assert inflight - moved' == inflight - moved - {p};
    }

    // evdns_request_remove on the old bucket
    method TakeOld(i: nat, ghost heads: seq<Ptr>, ghost bs: seq<seq<Ptr>>, ghost moved: set<Ptr>) returns (p: Ptr)
      requires i < |reqHeads| == |buckets| && ring.nodes.Keys == info.Keys && reqHeads[i] != NULL
      requires Linked(ring.nodes, reqHeads, buckets, waitingHead, queue) && Placing(buckets, queue, info, inflight - moved)
      requires Linked(ring.nodes, heads, bs, waitingHead, queue) && Placing(bs, queue, info, moved)
      modifies this`reqHeads, this`buckets, ring
      ensures |reqHeads| == |buckets| == |old(reqHeads)| && ring.nodes.Keys == info.Keys
      ensures p in inflight && p !in moved && p in info && p !in queue && info[p].ns != NONE
      ensures Linked(ring.nodes, reqHeads, buckets, waitingHead, queue) && Placing(buckets, queue, info, inflight - moved - {p})
      ensures Linked(ring.nodes, heads, bs, waitingHead, queue)
      ensures |buckets[i]| < |old(buckets)[i]| && forall j :: 0 <= j < |buckets| && j != i ==> buckets[j] == old(buckets)[j]
    {
      hide Linked, Placing, OnlyChanged, Ring, Distinct;
      p := reqHeads[i];
      ghost var nodes0, ps := ring.nodes, buckets[i];
      BucketRing(nodes0, reqHeads, buckets, waitingHead, queue, info, inflight - moved, i, p);
      FirstOf(nodes0, reqHeads[i], ps);
      OnlyBucket(buckets, queue, info, inflight - moved, i, p);
      Across(buckets, bs, queue, info, inflight - moved, moved, i);
      InBucket(buckets, queue, info, inflight - moved, i, 0);
      UnplaceInflight(buckets, queue, info, inflight - moved, i, 0);
      var head := ring.Remove(p, reqHeads[i], ps, 0);
      LinkBucket(nodes0, reqHeads, buckets, waitingHead, queue, i, ring.nodes, head, ps[..0] + ps[1..], ps);
      LinkOther(nodes0, heads, bs, waitingHead, queue, ring.nodes, ps);
      KeysKept(nodes0, ring.nodes, ps);
      reqHeads := reqHeads[i := head];
      buckets := buckets[i := ps[..0] + ps[1..]];
    }

    // evdns_request_insert on the new one
    method PutNew(p: Ptr, heads: seq<Ptr>, ghost bs: seq<seq<Ptr>>, ghost moved: set<Ptr>) returns (heads': seq<Ptr>, ghost bs': seq<seq<Ptr>>)
      requires ring.nodes.Keys == info.Keys && p in info && p != NULL && info[p].ns != NONE && p !in moved && p !in queue
      requires Linked(ring.nodes, reqHeads, buckets, waitingHead, queue) && Placing(buckets, queue, info, inflight - moved - {p})
      requires Linked(ring.nodes, heads, bs, waitingHead, queue) && Placing(bs, queue, info, moved) && IsFree(moved, info, info[p].transId)
      modifies ring
      ensures |heads'| == |heads| && ring.nodes.Keys == info.Keys
      ensures Linked(ring.nodes, reqHeads, buckets, waitingHead, queue)
      ensures Linked(ring.nodes, heads', bs', waitingHead, queue) && Placing(bs', queue, info, moved + {p})
    {
      hide Linked, Placing, OnlyChanged, Ring, Distinct, IsFree;
      Sizes(ring.nodes, heads, bs, waitingHead, queue, info, moved);
      var b := info[p].transId % |heads|;
      ghost var nodes0, ps := ring.nodes, bs[b];
      BucketRing(nodes0, heads, bs, waitingHead, queue, info, moved, b, p);
      OnlyBucket(bs, queue, info, moved, b, p);
      AcrossNew(buckets, bs, queue, info, inflight - moved - {p}, moved, b, p);
      PlaceInflight(bs, queue, info, moved, p);
      var head := ring.Insert(p, heads[b], ps);
      LinkBucket(nodes0, heads, bs, waitingHead, queue, b, ring.nodes, head, ps + [p], ps + [p]);
      LinkOther(nodes0, reqHeads, buckets, waitingHead, queue, ring.nodes, ps + [p]);
      KeysKept(nodes0, ring.nodes, ps + [p]);
      heads' := heads[b := head];
      bs' := bs[b := ps + [p]];
    }

    // evdns_nameserver_add_impl_: a new nameserver, behind server_head
    method AddServer(s: Ns)
      requires Valid() && s !in load && s != NONE
      modifies this`servers, this`load, this`up, this`good
      ensures Valid() && s in servers && up == old(up) + {s} && load == old(load)[s := 0]
      ensures servers == if old(servers) == [] then [s] else [old(servers)[0], s] + old(servers)[1..]
    {
      hide Linked, Placing, Fair;
      NewServer(servers, load, up, good, inflight, queue, info, nInflight, nWaiting, s);
      servers := if servers == [] then [s] else [servers[0], s] + servers[1..];
      load, up, good := load[s := 0], up + {s}, good + 1;
    }

    // nameserver_up
    method ServerUp(s: Ns)
      requires Valid() && s in servers
      modifies this`up, this`good, this`timedOut
      ensures Valid() && up == old(up) + {s} && timedOut == if s in old(up) then old(timedOut) else old(timedOut)[s := 0]
    {
      hide Linked, Placing, Counted, Fair;
      if s !in up {
        timedOut := timedOut[s := 0];
        up, good := up + {s}, good + 1;
      }
    }

    // nameserver_failed: what has not been sent to s yet goes to other nameservers, if one is up
    method ServerFailed(s: Ns)
      requires Valid()
      modifies this`up, this`good, this`servers, this`info, this`load
      ensures Valid() && up == old(up) - {s} && (servers == [] <==> old(servers) == [])
      ensures Reassigned(old(info), info, s, up, if s in old(up) && up != {} then inflight else {})
    {
      hide Linked, Placing, Counted, Fair, ServersOk;
      if s !in up {
        return;
      }
      Down(s);
      UpFacts(servers, load.Keys, up, good);
      if good == 0 {
        return;
      }
      ghost var seen: set<Ptr> := {};
      var i := 0;
      Sizes(ring.nodes, reqHeads, buckets, waitingHead, queue, info, inflight);
      while i < |reqHeads|
        invariant Valid() && i <= |reqHeads| == |buckets| && up == old(up) - {s} && (servers == [] <==> old(servers) == [])
        invariant Reassigned(old(info), info, s, up, seen) && seen <= inflight
        invariant forall j, k :: 0 <= j < i && 0 <= k < |buckets[j]| ==> buckets[j][k] in seen
      {
        seen := ReassignBucket(i, s, old(info), seen);
        i := i + 1;
      }
      AllSeen(buckets, queue, info, inflight, seen);
    }

    // the state of a nameserver that has failed
    method Down(s: Ns)
      requires Valid() && s in up
      modifies this`up, this`good
      ensures Valid() && up == old(up) - {s}
    {
      hide Linked, Placing, Counted, Fair;
      up, good := up - {s}, good - 1;
    }

    // the walk along one bucket
    method ReassignBucket(b: nat, s: Ns, ghost info0: Info, ghost seen: set<Ptr>) returns (ghost seen': set<Ptr>)
      requires Valid() && b < |reqHeads| == |buckets| && up != {} && s !in up
      requires Reassigned(info0, info, s, up, seen) && seen <= inflight
      modifies this`servers, this`info, this`load
      ensures Valid() && (servers == [] <==> old(servers) == [])
      ensures Reassigned(info0, info, s, up, seen') && seen <= seen' <= inflight
      ensures forall k :: 0 <= k < |buckets[b]| ==> buckets[b][k] in seen'
    {
      hide Linked, Placing, Counted, Fair, ServersOk, Reassigned, Distinct;
      seen' := seen;
      ghost var ps := buckets[b];
      BucketRing(ring.nodes, reqHeads, buckets, waitingHead, queue, info, inflight, b, NULL);
      var req, startedAt := reqHeads[b], reqHeads[b];
      if req == NULL {
        EmptyBucket(ring.nodes, reqHeads, buckets, waitingHead, queue, b);
        return;
      }
      ghost var k: nat := 0;
      FirstOf(ring.nodes, startedAt, ps);
      AllInflight(buckets, queue, info, inflight, b);
      hide Base.Valid, Ring;
      while true
        invariant Valid() && k < |ps| && req == ps[k] && (servers == [] <==> old(servers) == [])
        invariant Reassigned(info0, info, s, up, seen') && seen <= seen' <= inflight
        invariant forall m :: 0 <= m < k ==> ps[m] in seen'
        decreases |ps| - k
      {
        ReassignOne(req, s, info0, seen');
        seen' := seen' + {req};
        Neighbours(ring.nodes, startedAt, ps, k);
        req := ring.nodes[req].next;
        k := k + 1;
        if req == startedAt {
          break;
        }
        if k < |ps| { Neighbours(ring.nodes, startedAt, ps, k); }
      }
    }

    method ReassignOne(p: Ptr, s: Ns, ghost info0: Info, ghost seen: set<Ptr>)
      requires Valid() && up != {} && s !in up && p in inflight && Reassigned(info0, info, s, up, seen)
      modifies this`servers, this`info, this`load
      ensures Valid() && (servers == [] <==> old(servers) == []) && Reassigned(info0, info, s, up, seen + {p})
    {
      hide Linked, Placing, Counted, Fair, ServersOk;
      InflightFacts(buckets, queue, info, inflight, p);
      if info[p].txCount == 0 && info[p].ns == s {
        var ns := NameserverPick();
        UpFacts(servers, load.Keys, up, good);
        SwapNs(p, ns);
      }
    }

    // request_reissue
    method Reissue(p: Ptr) returns (again: bool)
      requires Valid() && p in inflight
      modifies this`servers, this`info, this`load
      ensures Valid() && info.Keys == old(info.Keys) && KeepsSent(old(info), info) && (servers == [] <==> old(servers) == [])
      ensures p in info && p in old(info) && (again <==> info[p].ns != old(info)[p].ns)
      ensures again ==> info[p].txCount == 0 && info[p].reissueCount == old(info)[p].reissueCount + 1
      ensures forall q :: q in info && q != p ==> info[q] == old(info)[q]
    {
      hide Linked, Placing, Counted, Fair, ServersOk;
      InflightFacts(buckets, queue, info, inflight, p);
      var lastNs := info[p].ns;
      var ns := NameserverPick();
      SwapNs(p, ns);
      if info[p].ns == lastNs {
        return false;
      }
      SetSent(p, 0, info[p].reissueCount + 1);
      return true;
    }

    // the numbers of times that the packet of a request has been sent, and the request reissued
    method SetSent(p: Ptr, txCount: nat, reissueCount: nat)
      requires Valid() && p in inflight && p in info
      modifies this`info
      ensures Valid() && info == old(info)[p := old(info)[p].(txCount := txCount, reissueCount := reissueCount)]
    {
      hide Linked, Placing, Counted, Fair, ServersOk;
      SentPlacing(buckets, queue, info, inflight, p, txCount, reissueCount);
      Facts(ring.nodes, reqHeads, buckets, waitingHead, queue, info, inflight, load, nInflight, nWaiting, p);
      CountFrame(inflight, queue, info, load, nInflight, nWaiting, queue, info[p := info[p].(txCount := txCount, reissueCount := reissueCount)], nWaiting);
      info := info[p := info[p].(txCount := txCount, reissueCount := reissueCount)];
    }

    // one more timeout of a nameserver, which may be one too many
    method CountTimeout(s: Ns) returns (failed: bool)
      requires Valid()
      modifies this`timedOut
      ensures Valid()
      ensures var n := (if s in old(timedOut) then old(timedOut)[s] else 0) + 1;
              (failed <==> n > limits.timeouts) && timedOut == old(timedOut)[s := if failed then 0 else n]
    {
      hide Linked, Placing, Counted, Fair, ServersOk;
      var n := (if s in timedOut then timedOut[s] else 0) + 1;
      failed := n > limits.timeouts;
      timedOut := timedOut[s := if failed then 0 else n];
    }

    // request_new and request_submit: straight into flight if there is room and a nameserver
    method Resolve(p: Ptr)
      requires Valid() && p !in info && p != NULL && maxInflight <= MAX_INFLIGHT
      modifies this, ring
      ensures Valid() && maxInflight == old(maxInflight) && p in info && info.Keys == old(info.Keys) + {p}
      ensures if old(nInflight) < maxInflight && old(servers) != [] then inflight == old(inflight) + {p} && queue == old(queue)
              else inflight == old(inflight) && queue == old(queue) + [p]
      ensures forall q :: q in old(info) ==> q in info && info[q] == old(info)[q]
      ensures info[p].transId < NO_ID <==> old(nInflight) < maxInflight
    {
      hide Linked, Placing, ServersOk, Fair, IsFree, Of;
      var id, ns := NO_ID, NONE;
      if nInflight < maxInflight {
        id := TransactionIdPick();
        ns := NameserverPick();
      }
      Submit(p, Req(id, ns, 0, 0));
    }
  }

  lemma Sizes(nodes: Nodes, heads: seq<Ptr>, bs: seq<seq<Ptr>>, waitingHead: Ptr, ws: seq<Ptr>, info: Info, inflight: set<Ptr>)
    requires Linked(nodes, heads, bs, waitingHead, ws) && Placing(bs, ws, info, inflight)
    ensures |heads| == |bs| > 0
  {
  }

  lemma PlaceOf(bs: seq<seq<Ptr>>, ws: seq<Ptr>, info: Info, inflight: set<Ptr>, p: Ptr) returns (k: nat)
    requires Placing(bs, ws, info, inflight) && p in inflight && p in info
    ensures var b := info[p].transId % |bs|; k < |bs[b]| && bs[b][k] == p
  {
    var b := info[p].transId % |bs|;
    assert p in bs[b];
    k :| 0 <= k < |bs[b]| && bs[b][k] == p;
  }

  lemma PlaceWaiter(bs: seq<seq<Ptr>>, ws: seq<Ptr>, info: Info, inflight: set<Ptr>, p: Ptr)
    requires Placing(bs, ws, info, inflight) && p in info && p !in inflight && info[p].ns == NONE
    ensures Placing(bs, ws + [p], info, inflight)
  {
  }

  lemma UnplaceWaiter(bs: seq<seq<Ptr>>, ws: seq<Ptr>, info: Info, inflight: set<Ptr>, k: nat)
    requires Placing(bs, ws, info, inflight) && k < |ws|
    ensures Placing(bs, ws[..k] + ws[k + 1..], info, inflight)
  {
    var ws' := ws[..k] + ws[k + 1..];
    assert forall i :: 0 <= i < |ws'| ==> ws'[i] == ws[if i < k then i else i + 1];
  }

  lemma OnlyQueue(bs: seq<seq<Ptr>>, ws: seq<Ptr>, info: Info, inflight: set<Ptr>)
    requires Placing(bs, ws, info, inflight)
    ensures forall i, k :: 0 <= i < |bs| && 0 <= k < |bs[i]| ==> bs[i][k] !in ws
  {
  }

  lemma RingDistinct(nodes: Nodes, head: Ptr, ps: seq<Ptr>, k: nat)
    requires Ring(nodes, head, ps) && k < |ps|
    ensures ps[k] !in ps[..k] + ps[k + 1..]
  {
    hide Placed;
  }

  lemma Facts(nodes: Nodes, heads: seq<Ptr>, bs: seq<seq<Ptr>>, waitingHead: Ptr, ws: seq<Ptr>, info: Info, inflight: set<Ptr>,
              load: Load, nInflight: int, nWaiting: int, p: Ptr)
    requires Linked(nodes, heads, bs, waitingHead, ws) && Placing(bs, ws, info, inflight)
    requires Counted(inflight, ws, info, load, nInflight, nWaiting) && p in info
    ensures |heads| == |bs| > 0 && NONE !in load && nInflight == |inflight| && nWaiting == |ws|
    ensures p in inflight ==> info[p].ns != NONE && info[p].ns in load
    ensures forall q :: q in inflight ==> q in info
  {
  }

  lemma BucketRing(nodes: Nodes, heads: seq<Ptr>, bs: seq<seq<Ptr>>, waitingHead: Ptr, ws: seq<Ptr>, info: Info, inflight: set<Ptr>, b: nat, p: Ptr)
    requires Linked(nodes, heads, bs, waitingHead, ws) && Placing(bs, ws, info, inflight) && b < |bs|
    ensures |heads| == |bs| && Ring(nodes, heads[b], bs[b]) && Ring(nodes, waitingHead, ws) && Distinct(bs[b])
    ensures p !in inflight ==> p !in bs[b]
  {
  }

  lemma KeysKept(nodes: Nodes, nodes': Nodes, ps: seq<Ptr>)
    requires OnlyChanged(nodes, nodes', ps)
    ensures nodes'.Keys == nodes.Keys
  {
  }

  // The ring seen from its node k.
  function Turned(ss: seq<Ns>, k: nat): seq<Ns>
    requires k <= |ss|
  {
    ss[k..] + ss[..k]
  }

  lemma TurnStep(ss: seq<Ns>, k: nat)
    requires k < |ss|
    ensures Turned(ss, 0) == ss && |Turned(ss, k)| == |ss|
    ensures Turned(ss, k) != [] && Turned(ss, k)[0] == ss[k] && Turned(ss, k)[1..] + [ss[k]] == Turned(ss, k + 1)
  {
  }

  lemma ServerFacts(ss: seq<Ns>, known: set<Ns>, up: set<Ns>, good: int)
    requires ServersOk(ss, known, up, good)
    ensures forall i :: 0 <= i < |ss| ==> ss[i] in known && ss[i] != NONE
    ensures (up == {} <==> good == 0) && (ss == [] ==> up == {})
  {
    if ss == [] {
      assert forall s :: s in up ==> s in ss;
      assert up == {};
    }
  }

  lemma FirstUp(ss: seq<Ns>, known: set<Ns>, up: set<Ns>, good: int) returns (m: nat)
    requires ServersOk(ss, known, up, good) && good != 0
    ensures m < |ss| && ss[m] in up && forall i :: 0 <= i < m ==> ss[i] !in up
  {
    EmptyIf(up);
    var s: Ns :| s in up;
    var last :| 0 <= last < |ss| && ss[last] == s;
    m := 0;
    while ss[m] !in up
      invariant m <= last && forall i :: 0 <= i < m ==> ss[i] !in up
      decreases last - m
    {
      m := m + 1;
    }
  }

  lemma EmptyIf(up: set<Ns>)
    ensures (forall s :: s !in up) ==> up == {}
  {
    if forall s :: s !in up {
      assert up == {};
    }
  }

  lemma Rotate(ss: seq<Ns>, known: set<Ns>, up: set<Ns>, good: int, k: nat)
    requires ServersOk(ss, known, up, good) && k <= |ss|
    ensures ServersOk(Turned(ss, k), known, up, good)
  {
    var ts := Turned(ss, k);
    assert forall i :: 0 <= i < |ts| ==> ts[i] == ss[if i < |ss| - k then i + k else i - (|ss| - k)];
    forall s | s in up ensures s in ts {
      var i :| 0 <= i < |ss| && ss[i] == s;
      assert ts[if i >= k then i - k else i + (|ss| - k)] == s;
    }
  }

  // With fewer requests in flight than ids, some id is free, and will be drawn.
  lemma FreeDraw(inflight: set<Ptr>, info: Info, rng: nat -> nat, drawn: nat) returns (id: nat, n: nat)
    requires |inflight| < NO_ID && Fair(rng)
    ensures id < NO_ID && n >= drawn && Draws(rng, n, id) && IsFree(inflight, info, id)
  {
    UsedIds(inflight, info);
    AllIds(NO_ID);
    if Ids(NO_ID) <= Used(inflight, info) {
      Subset(Ids(NO_ID), Used(inflight, info));
    }
    id := SomeElem(Ids(NO_ID) - Used(inflight, info));
    assert DrawnLater(rng, id, drawn);
    n :| n >= drawn && Draws(rng, n, id);
  }

  ghost function Used(inflight: set<Ptr>, info: Info): set<nat> {
    set q | q in inflight && q in info :: info[q].transId
  }

  ghost function Ids(n: nat): set<nat> {
    if n == 0 then {} else Ids(n - 1) + {n - 1}
  }

  lemma {:induction false} UsedIds(inflight: set<Ptr>, info: Info)
    ensures |Used(inflight, info)| <= |inflight|
    decreases |inflight|
  {
    if inflight != {} {
      var p := SomeElem(inflight);
      var rest := inflight - {p};
      UsedIds(rest, info);
      if p in info {
        Subset(Used(inflight, info), Used(rest, info) + {info[p].transId});
      } else {
        assert Used(inflight, info) == Used(rest, info);
      }
    }
  }

  lemma {:induction false} AllIds(n: nat)
    ensures |Ids(n)| == n
    ensures forall id: nat :: id in Ids(n) <==> id < n
  {
    if n > 0 {
      AllIds(n - 1);
      assert n - 1 !in Ids(n - 1);
      forall id: nat ensures id in Ids(n) <==> id < n {
        assert id in Ids(n) <==> id in Ids(n - 1) || id == n - 1;
      }
    }
  }

  lemma {:induction false} Subset<T>(a: set<T>, b: set<T>)
    requires a <= b
    ensures |a| <= |b|
    decreases |a|
  {
    if a != {} {
      var x :| x in a;
      Subset(a - {x}, b - {x});
    }
  }

  lemma AllocFrame(nodes: Nodes, heads: seq<Ptr>, bs: seq<seq<Ptr>>, waitingHead: Ptr, ws: seq<Ptr>, info: Info, inflight: set<Ptr>, p: Ptr, req: Req)
    requires Linked(nodes, heads, bs, waitingHead, ws) && Placing(bs, ws, info, inflight) && p !in info && p !in nodes
    ensures Linked(nodes[p := Node(NULL, NULL)], heads, bs, waitingHead, ws)
    ensures Placing(bs, ws, info[p := req], inflight)
    ensures p !in inflight && p !in ws && forall q :: q in inflight ==> q in info
  {
    RingsGrow(nodes, heads, bs, waitingHead, ws, p);
    hide Linked;
    InfoFrame(bs, ws, info, info[p := req], inflight, p);
  }

  // What is known of a request that is on no list does not matter.
  lemma InfoFrame(bs: seq<seq<Ptr>>, ws: seq<Ptr>, info: Info, info': Info, inflight: set<Ptr>, p: Ptr)
    requires Placing(bs, ws, info, inflight) && p !in inflight && p !in ws
    requires forall q :: q in info && q != p ==> q in info' && info'[q] == info[q]
    ensures Placing(bs, ws, info', inflight)
  {
    forall i, k | 0 <= i < |bs| && 0 <= k < |bs[i]|
      ensures bs[i][k] in inflight && bs[i][k] in info' && info'[bs[i][k]].transId % |bs| == i
    {
      var q := bs[i][k];
      assert q in info && q != p;
    }
    forall k | 0 <= k < |ws| ensures ws[k] !in inflight && ws[k] in info' && info'[ws[k]].ns == NONE {
      var q := ws[k];
      assert q in info && q != p;
    }
    forall q | q in inflight ensures q in info' && info'[q].ns != NONE && q in bs[info'[q].transId % |bs|] {
      assert q in info;
    }
  }

  lemma RingsGrow(nodes: Nodes, heads: seq<Ptr>, bs: seq<seq<Ptr>>, waitingHead: Ptr, ws: seq<Ptr>, p: Ptr)
    requires Linked(nodes, heads, bs, waitingHead, ws) && p !in nodes
    ensures Linked(nodes[p := Node(NULL, NULL)], heads, bs, waitingHead, ws)
  {
    hide Ring;
    forall i | 0 <= i < |bs| ensures Ring(nodes[p := Node(NULL, NULL)], heads[i], bs[i]) {
      RingGrow(nodes, heads[i], bs[i], p);
    }
    RingGrow(nodes, waitingHead, ws, p);
  }

  lemma RingGrow(nodes: Nodes, head: Ptr, ps: seq<Ptr>, p: Ptr)
    requires Ring(nodes, head, ps) && p !in nodes
    ensures Ring(nodes[p := Node(NULL, NULL)], head, ps)
  {
    hide Placed;
  }

  lemma FreeFrame(inflight: set<Ptr>, info: Info, id: nat, p: Ptr, req: Req)
    requires p !in info
    ensures p !in inflight && IsFree(inflight, info, id) ==> IsFree(inflight, info[p := req], id)
  {
  }

  lemma KeepsOn(info: Info, info1: Info, info2: Info)
    requires KeepsSent(info, info1) && KeepsSent(info1, info2) && info2.Keys <= info1.Keys
    ensures KeepsSent(info, info2)
  {
  }

  lemma Promoted0(ws: seq<Ptr>, inflight: set<Ptr>)
    ensures ws[0..] == ws && inflight == inflight + Elems(ws[..0])
  {
  }

  lemma Promoted1(ws: seq<Ptr>, inflight: set<Ptr>, m: nat)
    requires m < |ws|
    ensures inflight + Elems(ws[..m]) + {ws[m]} == inflight + Elems(ws[..m + 1]) && ws[m..][1..] == ws[m + 1..] && ws[m..][0] == ws[m]
  {
    assert ws[..m + 1] == ws[..m] + [ws[m]];
  }

  lemma HeadFacts(nodes: Nodes, heads: seq<Ptr>, bs: seq<seq<Ptr>>, waitingHead: Ptr, ws: seq<Ptr>, info: Info, inflight: set<Ptr>,
                  load: Load, nInflight: int, nWaiting: int)
    requires Linked(nodes, heads, bs, waitingHead, ws) && Placing(bs, ws, info, inflight)
    requires Counted(inflight, ws, info, load, nInflight, nWaiting)
    ensures nInflight == |inflight| && nWaiting == |ws| && (ws != [] ==> ws[0] == waitingHead)
    ensures forall q :: q in inflight ==> q in info
  {
  }

  lemma WaiterFacts(bs: seq<seq<Ptr>>, ws: seq<Ptr>, info: Info, inflight: set<Ptr>, k: nat)
    requires Placing(bs, ws, info, inflight) && k < |ws|
    ensures ws[k] in info && ws[k] !in inflight && info[ws[k]].ns == NONE
  {
  }

  lemma InflightFacts(bs: seq<seq<Ptr>>, ws: seq<Ptr>, info: Info, inflight: set<Ptr>, p: Ptr)
    requires Placing(bs, ws, info, inflight) && p in inflight
    ensures p in info && p !in ws && info[p].ns != NONE
  {
  }

  lemma SwapPlacing(bs: seq<seq<Ptr>>, ws: seq<Ptr>, info: Info, inflight: set<Ptr>, p: Ptr, s: Ns)
    requires Placing(bs, ws, info, inflight) && p in inflight && p in info && s != NONE
    ensures Placing(bs, ws, info[p := info[p].(ns := s)], inflight)
  {
    var info' := info[p := info[p].(ns := s)];
    forall i, k | 0 <= i < |bs| && 0 <= k < |bs[i]|
      ensures bs[i][k] in inflight && bs[i][k] in info' && info'[bs[i][k]].transId % |bs| == i
    {
      var q := bs[i][k];
      assert q in info && info'[q].transId == info[q].transId;
    }
    forall k | 0 <= k < |ws| ensures ws[k] !in inflight && ws[k] in info' && info'[ws[k]].ns == NONE {
      var q := ws[k];
      assert q in info && q != p;
    }
    forall q | q in inflight ensures q in info' && info'[q].ns != NONE && q in bs[info'[q].transId % |bs|] {
      assert q in info && info'[q].transId == info[q].transId;
    }
  }

  lemma SentPlacing(bs: seq<seq<Ptr>>, ws: seq<Ptr>, info: Info, inflight: set<Ptr>, p: Ptr, n: nat, r: nat)
    requires Placing(bs, ws, info, inflight) && p in inflight && p in info
    ensures Placing(bs, ws, info[p := info[p].(txCount := n, reissueCount := r)], inflight)
  {
    var info' := info[p := info[p].(txCount := n, reissueCount := r)];
    forall i, k | 0 <= i < |bs| && 0 <= k < |bs[i]|
      ensures bs[i][k] in inflight && bs[i][k] in info' && info'[bs[i][k]].transId % |bs| == i
    {
      var q := bs[i][k];
      assert q in info && info'[q].transId == info[q].transId;
    }
    forall k | 0 <= k < |ws| ensures ws[k] !in inflight && ws[k] in info' && info'[ws[k]].ns == NONE {
      var q := ws[k];
      assert q in info && q != p;
    }
    forall q | q in inflight ensures q in info' && info'[q].ns != NONE && q in bs[info'[q].transId % |bs|] {
      assert q in info && info'[q].transId == info[q].transId;
    }
  }

  lemma UpFacts(servers: seq<Ns>, known: set<Ns>, up: set<Ns>, good: int)
    requires ServersOk(servers, known, up, good)
    ensures up == {} <==> good == 0
    ensures NONE !in up && up <= known
  {
    ServerFacts(servers, known, up, good);
    forall s | s in up ensures s != NONE && s in known {
      var i :| 0 <= i < |servers| && servers[i] == s;
    }
  }

  lemma AllSeen(bs: seq<seq<Ptr>>, ws: seq<Ptr>, info: Info, inflight: set<Ptr>, seen: set<Ptr>)
    requires Placing(bs, ws, info, inflight) && seen <= inflight
    requires forall j, k :: 0 <= j < |bs| && 0 <= k < |bs[j]| ==> bs[j][k] in seen
    ensures seen == inflight
  {
    forall p | p in inflight ensures p in seen {
      var k := PlaceOf(bs, ws, info, inflight, p);
    }
  }

  lemma RingsShrink(nodes: Nodes, heads: seq<Ptr>, bs: seq<seq<Ptr>>, waitingHead: Ptr, ws: seq<Ptr>, info: Info, inflight: set<Ptr>, p: Ptr)
    requires Linked(nodes, heads, bs, waitingHead, ws) && Placing(bs, ws, info, inflight) && p !in inflight && p !in ws
    ensures Linked(nodes - {p}, heads, bs, waitingHead, ws)
  {
    hide Ring;
    forall i | 0 <= i < |bs| ensures Ring(nodes - {p}, heads[i], bs[i]) {
      RingShrink(nodes, heads[i], bs[i], p);
    }
    RingShrink(nodes, waitingHead, ws, p);
  }

  lemma RingShrink(nodes: Nodes, head: Ptr, ps: seq<Ptr>, p: Ptr)
    requires Ring(nodes, head, ps) && forall k :: 0 <= k < |ps| ==> ps[k] != p
    ensures Ring(nodes - {p}, head, ps)
  {
    hide Placed;
  }

  lemma FirstOf(nodes: Nodes, head: Ptr, ps: seq<Ptr>)
    requires Ring(nodes, head, ps) && head != NULL
    ensures ps != [] && ps[0] == head
  {
  }

  lemma InBucket(bs: seq<seq<Ptr>>, ws: seq<Ptr>, info: Info, inflight: set<Ptr>, i: nat, k: nat)
    requires Placing(bs, ws, info, inflight) && i < |bs| && k < |bs[i]|
    ensures bs[i][k] in inflight && bs[i][k] in info && bs[i][k] !in ws && info[bs[i][k]].ns != NONE
  {
    var p := bs[i][k];
    assert p in inflight;
  }

  lemma AllInflight(bs: seq<seq<Ptr>>, ws: seq<Ptr>, info: Info, inflight: set<Ptr>, b: nat)
    requires Placing(bs, ws, info, inflight) && b < |bs|
    ensures forall k :: 0 <= k < |bs[b]| ==> bs[b][k] in inflight
  {
  }

  // Old and new buckets have no request in common.
  lemma Across(bs: seq<seq<Ptr>>, bs': seq<seq<Ptr>>, ws: seq<Ptr>, info: Info, inflight: set<Ptr>, moved: set<Ptr>, i: nat)
    requires Placing(bs, ws, info, inflight) && Placing(bs', ws, info, moved) && inflight !! moved && i < |bs|
    ensures forall j, k :: 0 <= j < |bs'| && 0 <= k < |bs'[j]| ==> bs'[j][k] !in bs[i]
    ensures forall k :: 0 <= k < |ws| ==> ws[k] !in bs[i]
  {
    forall j, k | 0 <= j < |bs'| && 0 <= k < |bs'[j]| ensures bs'[j][k] !in bs[i] {
      var q := bs'[j][k];
      assert q in moved;
    }
  }

  lemma AcrossNew(bs: seq<seq<Ptr>>, bs': seq<seq<Ptr>>, ws: seq<Ptr>, info: Info, inflight: set<Ptr>, moved: set<Ptr>, b: nat, p: Ptr)
    requires Placing(bs, ws, info, inflight) && Placing(bs', ws, info, moved) && inflight !! moved && b < |bs'| && p !in inflight && p !in ws
    ensures forall j, k :: 0 <= j < |bs| && 0 <= k < |bs[j]| ==> bs[j][k] !in bs'[b] + [p]
    ensures forall k :: 0 <= k < |ws| ==> ws[k] !in bs'[b] + [p]
  {
    forall j, k | 0 <= j < |bs| && 0 <= k < |bs[j]| ensures bs[j][k] !in bs'[b] + [p] {
      var q := bs[j][k];
      assert q in inflight;
    }
  }

  lemma LinkOther(nodes: Nodes, heads: seq<Ptr>, bs: seq<seq<Ptr>>, waitingHead: Ptr, ws: seq<Ptr>, nodes': Nodes, changed: seq<Ptr>)
    requires Linked(nodes, heads, bs, waitingHead, ws) && OnlyChanged(nodes, nodes', changed)
    requires forall i, k :: 0 <= i < |bs| && 0 <= k < |bs[i]| ==> bs[i][k] !in changed
    requires forall k :: 0 <= k < |ws| ==> ws[k] !in changed
    ensures Linked(nodes', heads, bs, waitingHead, ws)
  {
    hide Ring, OnlyChanged;
    forall i | 0 <= i < |bs| ensures Ring(nodes', heads[i], bs[i]) {
      RingFrame(nodes, nodes', changed, heads[i], bs[i]);
    }
    RingFrame(nodes, nodes', changed, waitingHead, ws);
  }

  lemma IdsApart(bs: seq<seq<Ptr>>, ws: seq<Ptr>, info: Info, inflight: set<Ptr>, moved: set<Ptr>, p: Ptr)
    requires Placing(bs, ws, info, inflight) && moved <= inflight && p in inflight && p !in moved && p in info
    ensures IsFree(moved, info, info[p].transId)
  {
  }

  lemma EmptyBuckets(nodes: Nodes, heads': seq<Ptr>, bs': seq<seq<Ptr>>, waitingHead: Ptr, ws: seq<Ptr>, info: Info,
                     heads: seq<Ptr>, bs: seq<seq<Ptr>>, inflight: set<Ptr>)
    requires Linked(nodes, heads, bs, waitingHead, ws) && Placing(bs, ws, info, inflight)
    requires |heads'| == |bs'| > 0 && (forall i :: 0 <= i < |heads'| ==> heads'[i] == NULL && bs'[i] == [])
    ensures Linked(nodes, heads', bs', waitingHead, ws) && Placing(bs', ws, info, {}) && |heads| == |bs|
  {
  }

  lemma EmptyBucket(nodes: Nodes, heads: seq<Ptr>, bs: seq<seq<Ptr>>, waitingHead: Ptr, ws: seq<Ptr>, i: nat)
    requires Linked(nodes, heads, bs, waitingHead, ws) && i < |heads| && heads[i] == NULL
    ensures i < |bs| && bs[i] == []
  {
    assert Ring(nodes, heads[i], bs[i]);
  }

  lemma AllMoved(bs: seq<seq<Ptr>>, ws: seq<Ptr>, info: Info, left: set<Ptr>)
    requires Placing(bs, ws, info, left) && forall i :: 0 <= i < |bs| ==> bs[i] == []
    ensures left == {}
  {
    forall p ensures p !in left {
      assert p in info ==> p !in bs[info[p].transId % |bs|];
    }
    assert left == {};
  }

  // ----- the counters are the sizes of the lists -----

  function Total(bs: seq<seq<Ptr>>): nat {
    if bs == [] then 0 else Total(bs[..|bs| - 1]) + |bs[|bs| - 1]|
  }

  // The requests in flight in the first n buckets.
  ghost function Below(inflight: set<Ptr>, info: Info, buckets: nat, n: nat): set<Ptr>
    requires buckets > 0
  {
    set p | p in inflight && p in info && info[p].transId % buckets < n
  }

  lemma {:induction false} TotalBelow(nodes: Nodes, heads: seq<Ptr>, bs: seq<seq<Ptr>>, waitingHead: Ptr, ws: seq<Ptr>, info: Info, inflight: set<Ptr>, n: nat)
    requires Linked(nodes, heads, bs, waitingHead, ws) && Placing(bs, ws, info, inflight) && n <= |bs|
    ensures Total(bs[..n]) == |Below(inflight, info, |bs|, n)|
  {
    if n > 0 {
      TotalBelow(nodes, heads, bs, waitingHead, ws, info, inflight, n - 1);
      assert bs[..n][..n - 1] == bs[..n - 1];
      BucketRing(nodes, heads, bs, waitingHead, ws, info, inflight, n - 1, NULL);
      OneMore(bs, ws, info, inflight, n - 1);
      ElemsCount(bs[n - 1]);
    } else {
      assert Below(inflight, info, |bs|, 0) == {};
    }
  }

  lemma OneMore(bs: seq<seq<Ptr>>, ws: seq<Ptr>, info: Info, inflight: set<Ptr>, i: nat)
    requires Placing(bs, ws, info, inflight) && i < |bs|
    ensures Below(inflight, info, |bs|, i + 1) == Below(inflight, info, |bs|, i) + Elems(bs[i])
    ensures Below(inflight, info, |bs|, i) !! Elems(bs[i])
  {
    forall p ensures p in Elems(bs[i]) <==> p in inflight && p in info && info[p].transId % |bs| == i {
      if p in bs[i] {
        var k :| 0 <= k < |bs[i]| && bs[i][k] == p;
      }
    }
  }

  lemma {:induction false} ElemsCount(ps: seq<Ptr>)
    requires Distinct(ps)
    ensures |Elems(ps)| == |ps|
  {
    if ps != [] {
      var m, x := ps[..|ps| - 1], ps[|ps| - 1];
      assert ps == m + [x];
      ElemsCount(m);
      assert Elems(ps) == Elems(m) + {x} && x !in Elems(m);
    }
  }

  // In every valid state the counters are the sizes of the lists, each request in flight is in the
  // bucket of its id, and a nameserver's counter is the number of requests in flight assigned to it.
  lemma Exact(base: Base)
    requires base.Valid()
    ensures base.nInflight == Total(base.buckets) && base.nWaiting == |base.queue|
    ensures forall i, k :: 0 <= i < |base.buckets| && 0 <= k < |base.buckets[i]| ==>
              base.buckets[i][k] in base.info && base.info[base.buckets[i][k]].transId % |base.reqHeads| == i && base.info[base.buckets[i][k]].ns != NONE
    ensures forall k :: 0 <= k < |base.queue| ==> base.queue[k] in base.info && base.info[base.queue[k]].ns == NONE
    ensures forall s :: s in base.load ==> base.load[s] == |set p | p in base.inflight && p in base.info && base.info[p].ns == s|
  {
    hide Linked, Counted, Of, ServersOk, Fair, Placing;
    Sizes(base.ring.nodes, base.reqHeads, base.buckets, base.waitingHead, base.queue, base.info, base.inflight);
    TotalIs(base.ring.nodes, base.reqHeads, base.buckets, base.waitingHead, base.queue, base.info, base.inflight);
    CountIs(base.inflight, base.queue, base.info, base.load, base.nInflight, base.nWaiting);
    PlaceIs(base.buckets, base.queue, base.info, base.inflight);
  }

  lemma TotalIs(nodes: Nodes, heads: seq<Ptr>, bs: seq<seq<Ptr>>, waitingHead: Ptr, ws: seq<Ptr>, info: Info, inflight: set<Ptr>)
    requires Linked(nodes, heads, bs, waitingHead, ws) && Placing(bs, ws, info, inflight)
    ensures Total(bs) == |inflight|
  {
    hide Linked, Total;
    TotalBelow(nodes, heads, bs, waitingHead, ws, info, inflight, |bs|);
    assert bs[..|bs|] == bs;
    forall p ensures p in Below(inflight, info, |bs|, |bs|) <==> p in inflight {
      assert p in inflight ==> p in info;
    }
    assert Below(inflight, info, |bs|, |bs|) == inflight;
  }

  lemma CountIs(inflight: set<Ptr>, ws: seq<Ptr>, info: Info, load: Load, nInflight: int, nWaiting: int)
    requires Counted(inflight, ws, info, load, nInflight, nWaiting)
    ensures nInflight == |inflight| && nWaiting == |ws|
    ensures forall s :: s in load ==> load[s] == |set p | p in inflight && p in info && info[p].ns == s|
  {
    forall s | s in load ensures load[s] == |set p | p in inflight && p in info && info[p].ns == s| {
      assert Of(inflight, info, s) == set p | p in inflight && p in info && info[p].ns == s;
    }
  }

  lemma PlaceIs(bs: seq<seq<Ptr>>, ws: seq<Ptr>, info: Info, inflight: set<Ptr>)
    requires Placing(bs, ws, info, inflight)
    ensures forall i, k :: 0 <= i < |bs| && 0 <= k < |bs[i]| ==>
              bs[i][k] in info && info[bs[i][k]].transId % |bs| == i && info[bs[i][k]].ns != NONE
    ensures forall k :: 0 <= k < |ws| ==> ws[k] in info && info[ws[k]].ns == NONE
  {
    forall i, k | 0 <= i < |bs| && 0 <= k < |bs[i]| ensures bs[i][k] in info && info[bs[i][k]].ns != NONE {
      InBucket(bs, ws, info, inflight, i, k);
    }
  }

  lemma NewServer(servers: seq<Ns>, load: Load, up: set<Ns>, good: int, inflight: set<Ptr>, ws: seq<Ptr>, info: Info, nInflight: int, nWaiting: int, s: Ns)
    requires ServersOk(servers, load.Keys, up, good) && Counted(inflight, ws, info, load, nInflight, nWaiting) && s !in load && s != NONE
    ensures var servers' := if servers == [] then [s] else [servers[0], s] + servers[1..];
            s in servers' && ServersOk(servers', load[s := 0].Keys, up + {s}, good + 1)
    ensures Counted(inflight, ws, info, load[s := 0], nInflight, nWaiting)
  {
    NewInRing(servers, load.Keys, up, good, s);
    var load' := load[s := 0];
    assert load'.Keys == load.Keys + {s};
    forall p ensures p !in Of(inflight, info, s) {
      assert p in inflight ==> p in info && info[p].ns in load;
    }
    assert Of(inflight, info, s) == {};
  }

  lemma NewInRing(servers: seq<Ns>, known: set<Ns>, up: set<Ns>, good: int, s: Ns)
    requires ServersOk(servers, known, up, good) && s !in known && s != NONE
    ensures var servers' := if servers == [] then [s] else [servers[0], s] + servers[1..];
            s in servers' && ServersOk(servers', known + {s}, up + {s}, good + 1)
  {
    var servers' := if servers == [] then [s] else [servers[0], s] + servers[1..];
    assert s !in up;
    if servers != [] {
      assert forall i :: 0 <= i < |servers'| ==> servers'[i] == if i == 0 then servers[0] else if i == 1 then s else servers[i - 1];
      forall t | t in up ensures t in servers' {
        var i :| 0 <= i < |servers| && servers[i] == t;
        assert servers'[if i == 0 then 0 else i + 1] == t;
      }
    }
    assert servers'[if servers == [] then 0 else 1] == s;
  }

  // ----- every run -----

  datatype Op =
    | DoResolve(p: Ptr)
    | DoTransmit(p: Ptr)
    | DoReply(id: nat)
    | DoBadReply(id: nat)
    | DoTimeout(p: Ptr, sent: bool)
    | DoCancel(p: Ptr)
    | DoPump
    | DoResize(max: int)
    | DoAddServer(s: Ns)
    | DoServerUp(s: Ns)
    | DoServerFailed(s: Ns)

  // The operation may end the request: a reply to its own id, its last timeout, or a cancellation.
  ghost predicate Ends(limits: Limits, op: Op, info: Info, p: Ptr) {
    || op == DoCancel(p)
    || (p in info && info[p].ns != NONE
        && (|| op == DoReply(info[p].transId) || op == DoBadReply(info[p].transId)
            || (op.DoTimeout? && op.p == p && info[p].txCount >= limits.retransmits)))
  }

  // The request whose id it is has been reissued as often as it may be.
  ghost predicate LastReply(limits: Limits, op: Op, info: Info, p: Ptr) {
    && p in info && info[p].ns != NONE
    && (op == DoReply(info[p].transId) || (op == DoBadReply(info[p].transId) && info[p].reissueCount >= limits.reissues))
  }

  // What an operation makes of the requests: none ends or begins but by it, and those that it ends or
  // begins for certain do.
  ghost predicate StepOk(limits: Limits, op: Op, info: Info, info': Info) {
    && (forall p :: p in info && p !in info' ==> Ends(limits, op, info, p))
    && (forall p :: p in info' && p !in info ==> op == DoResolve(p) && p != NULL)
    && KeepsSent(info, info')
    && (op.DoResolve? && op.p != NULL ==> op.p in info')
    && (op.DoCancel? ==> op.p !in info')
    && (forall p :: LastReply(limits, op, info, p) ==> p !in info')
    && (op.DoTimeout? && Ends(limits, op, info, op.p) ==> op.p !in info')
  }

  // The requests before and after each operation.
  ghost predicate History(limits: Limits, ops: seq<Op>, infos: seq<Info>) {
    |infos| == |ops| + 1 && forall i, j :: 0 <= i < |ops| && j == i + 1 ==> StepOk(limits, ops[i], infos[i], infos[j])
  }

  // No request is lost: one that is there at some time and gone at the end was ended in between, by a
  // reply to its own id, by its timeout or by a cancellation.
  lemma {:induction false} NeverLost(limits: Limits, ops: seq<Op>, infos: seq<Info>, p: Ptr, i: nat, n: nat) returns (j: nat)
    requires History(limits, ops, infos) && i <= n <= |ops| && p in infos[i] && p !in infos[n]
    ensures i <= j < n && p in infos[j] && Ends(limits, ops[j], infos[j], p)
    decreases n - i
  {
    hide Ends;
    assert StepOk(limits, ops[i], infos[i], infos[i + 1]);
    if p in infos[i + 1] {
      j := NeverLost(limits, ops, infos, p, i + 1, n);
    } else {
      j := i;
    }
  }

  // And none is invented.
  lemma {:induction false} NeverInvented(limits: Limits, ops: seq<Op>, infos: seq<Info>, p: Ptr, n: nat) returns (j: nat)
    requires History(limits, ops, infos) && n <= |ops| && p !in infos[0] && p in infos[n]
    ensures j < n && ops[j] == DoResolve(p) && p != NULL
  {
    hide Ends;
    assert StepOk(limits, ops[n - 1], infos[n - 1], infos[n]);
    if p in infos[n - 1] {
      j := NeverInvented(limits, ops, infos, p, n - 1);
    } else {
      j := n - 1;
    }
  }

  ghost function Resolved(ops: seq<Op>): set<Ptr> {
    set i | 0 <= i < |ops| && ops[i].DoResolve? && ops[i].p != NULL :: ops[i].p
  }

  // So the requests at the end are those at the start and those resolved, without those that an
  // operation of the run has ended.
  lemma Accounts(limits: Limits, ops: seq<Op>, infos: seq<Info>) returns (done: set<Ptr>)
    requires History(limits, ops, infos)
    ensures infos[|ops|].Keys == infos[0].Keys + Resolved(ops) - done
    ensures forall p :: p in done ==> exists j :: 0 <= j < |ops| && p in infos[j] && Ends(limits, ops[j], infos[j], p)
  {
    hide Ends;
    var n := |ops|;
    done := infos[0].Keys + Resolved(ops) - infos[n].Keys;
    forall p | p in infos[n] ensures p in infos[0].Keys + Resolved(ops) {
      if p !in infos[0] {
        var j := NeverInvented(limits, ops, infos, p, n);
        assert ops[j].p in Resolved(ops);
      }
    }
    forall p | p in done ensures exists j :: 0 <= j < |ops| && p in infos[j] && Ends(limits, ops[j], infos[j], p) {
      var i := 0;
      if p !in infos[0] {
        var k :| 0 <= k < |ops| && ops[k].DoResolve? && ops[k].p != NULL && ops[k].p == p;
        i := k + 1;
        assert StepOk(limits, ops[k], infos[k], infos[i]);
      }
      var j := NeverLost(limits, ops, infos, p, i, n);
    }
  }

  // The id under which a request is answered is the one it was sent with.
  lemma {:induction false} SameId(limits: Limits, ops: seq<Op>, infos: seq<Info>, p: Ptr, i: nat, n: nat)
    requires History(limits, ops, infos) && i <= n <= |ops| && (forall k :: i <= k <= n ==> p in infos[k]) && infos[i][p].ns != NONE
    ensures infos[n][p].ns != NONE && infos[n][p].transId == infos[i][p].transId
    decreases n - i
  {
    hide Ends;
    if i < n {
      assert StepOk(limits, ops[i], infos[i], infos[i + 1]);
      assert p in infos[i + 1];
      SameId(limits, ops, infos, p, i + 1, n);
    }
  }

  // Every request is in flight or waits.
  ghost predicate Listed(known: set<Ptr>, inflight: set<Ptr>, ws: seq<Ptr>) {
    forall p :: p in known ==> p in inflight || p in ws
  }

  lemma ListedMove(known: set<Ptr>, inflight: set<Ptr>, ws: seq<Ptr>, m: nat)
    requires Listed(known, inflight, ws) && m <= |ws|
    ensures Listed(known, inflight + Elems(ws[..m]), ws[m..])
  {
    forall p | p in known ensures p in inflight + Elems(ws[..m]) || p in ws[m..] {
      if p !in inflight {
        var k :| 0 <= k < |ws| && ws[k] == p;
        if k < m { assert ws[..m][k] == p; } else { assert ws[m..][k - m] == p; }
      }
    }
  }

  lemma ListedCut(known: set<Ptr>, inflight: set<Ptr>, ws: seq<Ptr>, k: nat)
    requires Listed(known, inflight, ws) && k < |ws|
    ensures Listed(known - {ws[k]}, inflight, ws[..k] + ws[k + 1..])
  {
    var qs := ws[..k] + ws[k + 1..];
    forall p | p in known - {ws[k]} ensures p in inflight || p in qs {
      if p !in inflight {
        var i :| 0 <= i < |ws| && ws[i] == p;
        assert qs[if i < k then i else i - 1] == p;
      }
    }
  }

  // The books are exact and every request is on a list.
  ghost predicate Ready(base: Base)
    reads base, base.ring
  {
    base.Valid() && base.maxInflight <= MAX_INFLIGHT && Listed(base.info.Keys, base.inflight, base.queue)
  }

  lemma SentInflight(base: Base, p: Ptr)
    requires Ready(base) && p in base.info
    ensures p in base.inflight <==> base.info[p].ns != NONE
  {
    hide Linked, Counted, ServersOk, Fair;
  }

  // At most one request has the id.
  lemma Matches(base: Base, id: nat, r: Ptr)
    requires Ready(base)
    requires r == NULL <==> IsFree(base.inflight, base.info, id)
    requires r != NULL ==> r in base.inflight && r in base.info && base.info[r].transId == id
    ensures forall p :: p in base.info && base.info[p].ns != NONE && base.info[p].transId == id ==> p == r
  {
    hide Linked, Counted, ServersOk, Fair, Placing;
    forall p | p in base.info && base.info[p].ns != NONE && base.info[p].transId == id ensures p == r {
      SentInflight(base, p);
      if p != r {
        Apart(base.buckets, base.queue, base.info, base.inflight, p, r);
      }
    }
  }

  lemma Apart(bs: seq<seq<Ptr>>, ws: seq<Ptr>, info: Info, inflight: set<Ptr>, p: Ptr, q: Ptr)
    requires Placing(bs, ws, info, inflight) && p in inflight && p != q
    ensures p in info && (q in inflight ==> q in info && info[p].transId != info[q].transId)
  {
  }

  lemma ReassignedKeeps(info: Info, info': Info, s: Ns, up: set<Ns>, seen: set<Ptr>)
    requires Reassigned(info, info', s, up, seen) && NONE !in up
    ensures KeepsSent(info, info') && info'.Keys == info.Keys
  {
  }

  // Every run of submissions, transmissions, replies, timeouts, cancellations, pumps, resizes and
  // changes of the nameservers keeps the books exact, and every request on a list; the history says
  // which requests have begun and ended.
  method Run(base: Base, ops: seq<Op>) returns (ghost infos: seq<Info>)
    requires Ready(base)
    modifies base, base.ring
    ensures Ready(base)
    ensures History(base.limits, ops, infos) && infos[0] == old(base.info) && infos[|ops|] == base.info
  {
    hide StepOk, Ready;
    var i := 0;
    infos := [base.info];
    while i < |ops|
      invariant i <= |ops| && Ready(base)
      invariant History(base.limits, ops[..i], infos) && infos[0] == old(base.info) && infos[i] == base.info
    {
      ghost var before := base.info;
      RunOne(base, ops[i]);
      HistoryOn(base.limits, ops, i, infos, base.info);
      infos := infos + [base.info];
      i := i + 1;
    }
    assert ops[..i] == ops;
  }

  lemma HistoryOn(limits: Limits, ops: seq<Op>, i: nat, infos: seq<Info>, info: Info)
    requires i < |ops| && History(limits, ops[..i], infos) && StepOk(limits, ops[i], infos[i], info)
    ensures History(limits, ops[..i + 1], infos + [info])
  {
    hide StepOk;
    var now := infos + [info];
    forall m, j | 0 <= m < i + 1 && j == m + 1 ensures StepOk(limits, ops[..i + 1][m], now[m], now[j]) {
      if m < i {
        assert StepOk(limits, ops[..i][m], infos[m], infos[j]);
      }
    }
  }

  method RunOne(base: Base, op: Op)
    requires Ready(base)
    modifies base, base.ring
    ensures Ready(base)
    ensures StepOk(base.limits, op, old(base.info), base.info)
  {
    hide Linked, Placing, Counted, ServersOk, Fair, IsFree, Elems, Reassigned;
    match op {
      case DoResolve(p) => if p !in base.info && p != NULL { base.Resolve(p); }
      case DoTransmit(p) => if p in base.info && base.info[p].ns != NONE { Sent(base, p); }
      case DoReply(id) => Reply(base, id);
      case DoBadReply(id) => BadReply(base, id);
      case DoTimeout(p, sent) => if p in base.info && base.info[p].ns != NONE { TimeOut(base, p, sent); }
      case DoCancel(p) => if p in base.info { Cancel(base, p); }
      case DoPump => PumpAll(base);
      case DoResize(max) => if max <= MAX_INFLIGHT { base.SetMaxInflight(max); }
      case DoAddServer(s) => if s !in base.load && s != NONE { base.AddServer(s); }
      case DoServerUp(s) => if s in base.servers { base.ServerUp(s); }
      case DoServerFailed(s) => Fail(base, s);
    }
  }

  // A nameserver fails.
  method Fail(base: Base, s: Ns)
    requires Ready(base)
    modifies base, base.ring
    ensures Ready(base) && base.info.Keys == old(base.info.Keys) && KeepsSent(old(base.info), base.info)
    ensures base.inflight == old(base.inflight)
  {
    hide Linked, Placing, Counted, ServersOk, Fair, Reassigned;
    base.ServerFailed(s);
    UpFacts(base.servers, base.load.Keys, base.up, base.good);
    ReassignedKeeps(old(base.info), base.info, s, base.up, if s in old(base.up) && base.up != {} then base.inflight else {});
  }

  // A request has been sent once more.
  method Sent(base: Base, p: Ptr)
    requires Ready(base) && p in base.info && base.info[p].ns != NONE
    modifies base
    ensures Ready(base) && base.info.Keys == old(base.info.Keys) && KeepsSent(old(base.info), base.info)
    ensures base.inflight == old(base.inflight)
  {
    hide Linked, Placing, Counted, ServersOk, Fair;
    SentInflight(base, p);
    base.SetSent(p, base.info[p].txCount + 1, base.info[p].reissueCount);
  }

  // A good reply, or an error that is passed on to the user.
  method Reply(base: Base, id: nat)
    requires Ready(base)
    modifies base, base.ring
    ensures Ready(base) && StepOk(base.limits, DoReply(id), old(base.info), base.info)
  {
    hide Linked, Placing, Counted, ServersOk, Fair, IsFree, Listed;
    var p := base.FindFromTransId(id);
    Matches(base, id, p);
    if p != NULL {
      SentInflight(base, p);
      Finish(base, p);
    }
  }

  // A reply that speaks against the nameserver: the request goes to another one, unless it has been
  // reissued too often or there is no other; otherwise it ends.
  method BadReply(base: Base, id: nat)
    requires Ready(base)
    modifies base, base.ring
    ensures Ready(base) && StepOk(base.limits, DoBadReply(id), old(base.info), base.info)
  {
    hide Linked, Placing, Counted, ServersOk, Fair, IsFree, Listed;
    var p := base.FindFromTransId(id);
    Matches(base, id, p);
    if p != NULL {
      SentInflight(base, p);
      if base.info[p].reissueCount < base.limits.reissues {
        Fail(base, base.info[p].ns);
        ghost var info1 := base.info;
        var again := base.Reissue(p);
        KeepsOn(old(base.info), info1, base.info);
        if again {
          return;
        }
      }
      ghost var info2 := base.info;
      Finish(base, p);
      KeepsOn(old(base.info), info2, base.info);
    }
  }

  // evdns_request_timeout_callback: after its last transmission the request ends and the nameserver
  // has failed; before that it is sent again, and the nameserver has failed if it was once too often.
  // sent says whether the packet goes out.
  method TimeOut(base: Base, p: Ptr, sent: bool)
    requires Ready(base) && p in base.info && base.info[p].ns != NONE
    modifies base, base.ring
    ensures Ready(base) && StepOk(base.limits, DoTimeout(p, sent), old(base.info), base.info)
  {
    hide Linked, Placing, Counted, ServersOk, Fair, IsFree, Listed;
    SentInflight(base, p);
    var ns := base.info[p].ns;
    if base.info[p].txCount >= base.limits.retransmits {
      Finish(base, p);
      ghost var info1 := base.info;
      Fail(base, ns);
      KeepsOn(old(base.info), info1, base.info);
    } else {
      Retransmit(base, p, sent);
    }
  }

  method Retransmit(base: Base, p: Ptr, sent: bool)
    requires Ready(base) && p in base.info && base.info[p].ns != NONE
    modifies base, base.ring
    ensures Ready(base) && base.info.Keys == old(base.info.Keys) && KeepsSent(old(base.info), base.info)
  {
    hide Linked, Placing, Counted, ServersOk, Fair, IsFree, Listed;
    SentInflight(base, p);
    var other := base.NameserverPick();
    base.SwapNs(p, other);
    ghost var info1 := base.info;
    if sent {
      Sent(base, p);
      KeepsOn(old(base.info), info1, base.info);
    }
    ghost var info2 := base.info;
    var failed := base.CountTimeout(base.info[p].ns);
    if failed {
      Fail(base, base.info[p].ns);
      KeepsOn(old(base.info), info2, base.info);
    }
  }

  method PumpAll(base: Base)
    requires Ready(base)
    modifies base, base.ring
    ensures Ready(base) && base.info.Keys == old(base.info.Keys) && KeepsSent(old(base.info), base.info)
  {
    hide Linked, Placing, Counted, ServersOk, Fair, Elems, Listed;
    ghost var known, inflight, ws := base.info.Keys, base.inflight, base.queue;
    base.Pump();
    ghost var m: nat :| m <= |ws| && base.queue == ws[m..] && base.inflight == inflight + Elems(ws[..m]);
    ListedMove(known, inflight, ws, m);
  }

  // A reply ends a request in flight.
  method Finish(base: Base, p: Ptr)
    requires Ready(base) && p in base.inflight
    modifies base, base.ring
    ensures Ready(base)
    ensures base.info.Keys == old(base.info.Keys) - {p} && KeepsSent(old(base.info), base.info)
  {
    hide Linked, Placing, Counted, ServersOk, Fair, Elems;
    ghost var known, inflight, ws := base.info.Keys, base.inflight, base.queue;
    base.FinishInflight(p);
    ghost var m: nat :| m <= |ws| && base.queue == ws[m..] && base.inflight == inflight - {p} + Elems(ws[..m]);
    assert Listed(known - {p}, inflight - {p}, ws);
    ListedMove(known - {p}, inflight - {p}, ws, m);
  }

  // evdns_cancel_request: the nameserver tells which list the request is on
  method Cancel(base: Base, p: Ptr)
    requires Ready(base) && p in base.info
    modifies base, base.ring
    ensures Ready(base)
    ensures base.info.Keys == old(base.info.Keys) - {p} && KeepsSent(old(base.info), base.info)
  {
    hide Linked, Counted, ServersOk, Fair, Elems;
    if base.info[p].ns != NONE {
      Finish(base, p);
    } else {
      ghost var known, inflight, ws := base.info.Keys, base.inflight, base.queue;
      ghost var k: nat :| k < |ws| && ws[k] == p;
      ListedCut(known, inflight, ws, k);
      base.FinishWaiting(p, k);
      ghost var qs := ws[..k] + ws[k + 1..];
      ghost var m: nat :| m <= |qs| && base.queue == qs[m..] && base.inflight == inflight + Elems(qs[..m]);
      ListedMove(known - {p}, inflight, qs, m);
    }
  }
}
