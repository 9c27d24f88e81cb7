/** Leases of one endpoint per service: svc_cache::imp of src/http/http_svc_keeper.cpp. Every
    region held under a lock is one atomic step; requests take their steps in any order. */
module LeaseQueue {
  import opened Wrappers

  /** host:service */
  type Service = string

  /** The identity of an endpoint, and of a request and its channel. */
  type Endpoint = nat
  type Id = nat

  /** A channel for one message. */
  datatype Channel = Channel(open: bool, got: Option<Endpoint>) {
    /** try_send succeeds: the channel is open and has room. */
    predicate CanTake() { open && got.None? }
  }

  const FRESH := Channel(true, None)

  datatype Shared = Shared(cache: map<Service, Endpoint>, queues: map<Service, seq<Id>>, channels: map<Id, Channel>)

  predicate CanTake(channels: map<Id, Channel>, id: Id) {
    id in channels && channels[id].CanTake()
  }

  function Sent(channels: map<Id, Channel>, id: Id, m: Endpoint): map<Id, Channel> {
    if CanTake(channels, id) then channels[id := channels[id].(got := Some(m))] else channels
  }

  function Closed(channels: map<Id, Channel>, id: Id): map<Id, Channel> {
    if id in channels then channels[id := channels[id].(open := false)] else channels
  }

  function AllClosed(channels: map<Id, Channel>, ids: seq<Id>): map<Id, Channel> {
    if ids == [] then channels else Closed(AllClosed(channels, ids[..|ids| - 1]), ids[|ids| - 1])
  }

  // ---------- the regions under a lock ----------

  function Inserted(s: Shared, v: Service, m: Endpoint): Shared {
    if v in s.cache then s else s.(cache := s.cache[v := m])
  }

  function Enqueued(s: Shared, v: Service, id: Id): Shared {
    s.(queues := s.queues[v := if v in s.queues then s.queues[v] + [id] else [id]])
  }

  /** The queue from its first member that can still be sent to. */
  function SkipDead(channels: map<Id, Channel>, q: seq<Id>): seq<Id> {
    if q == [] || CanTake(channels, q[0]) then q else SkipDead(channels, q[1..])
  }

  function HandedOver(s: Shared, v: Service, m: Endpoint): Shared
    requires v in s.queues && s.queues[v] != []
  {
    var q := SkipDead(s.channels, s.queues[v][1..]);
    if q == [] then s.(queues := s.queues - {v})
    else s.(queues := s.queues[v := q], channels := Sent(s.channels, q[0], m))
  }

  function QueueOf(s: Shared, v: Service): seq<Id> {
    if v in s.queues then s.queues[v] else []
  }

  class SvcCache {
    var cache: map<Service, Endpoint>
    var requestQueue: map<Service, seq<Id>>
    var channels: map<Id, Channel>

    ghost function View(): Shared
      reads this
    {
      Shared(cache, requestQueue, channels)
    }

    constructor ()
      ensures View() == Shared(map[], map[], map[])
    {
      cache, requestQueue, channels := map[], map[], map[];
    }

    /** A request's own channel. */
    method Open(id: Id)
      modifies this
      ensures View() == old(View()).(channels := old(channels)[id := FRESH])
    {
      channels := channels[id := FRESH];
    }

    method Close(id: Id)
      modifies this
      ensures View() == old(View()).(channels := Closed(old(channels), id))
    {
      if id in channels {
        channels := channels[id := channels[id].(open := false)];
      }
    }

    /** What the channel was sent. */
    method Received(id: Id) returns (got: Option<Endpoint>)
      ensures got == if id in channels then channels[id].got else None
    {
      got := if id in channels then channels[id].got else None;
    }

    /** get_endpoint, first region. */
    method Find(v: Service) returns (hit: Option<Endpoint>)
      ensures hit.Some? <==> v in cache
      ensures hit.Some? ==> hit.value == cache[v]
    {
      if v in cache {
        return Some(cache[v]);
      }
      return None;
    }

    /** get_endpoint, after a creation: whether the endpoint goes in does not matter. */
    method Insert(v: Service, m: Endpoint)
      modifies this
      ensures View() == Inserted(old(View()), v, m)
    {
      if v !in cache {
        cache := cache[v := m];
      }
    }

    /** get_endpoint, last region: behind the others, or at the front of a new queue. */
    method Enqueue(v: Service, id: Id) returns (justWait: bool)
      modifies this
      ensures View() == Enqueued(old(View()), v, id) && justWait == (v in old(requestQueue))
    {
      justWait := v in requestQueue;
      if justWait {
        requestQueue := requestQueue[v := requestQueue[v] + [id]];
      } else {
        requestQueue := requestQueue[v := [id]];
      }
    }

    method TrySend(id: Id, m: Endpoint) returns (sent: bool)
      modifies this
      ensures View() == old(View()).(channels := Sent(old(channels), id, m)) && sent == CanTake(old(channels), id)
    {
      sent := CanTake(channels, id);
      if sent {
        channels := channels[id := channels[id].(got := Some(m))];
      }
    }

    /** return_back of an endpoint that can be used again. The requires are its assertions. */
    method HandOver(v: Service, m: Endpoint)
      requires v in requestQueue && requestQueue[v] != []
      modifies this
      ensures View() == HandedOver(old(View()), v, m)
    {
      ghost var rest := requestQueue[v][1..];
      requestQueue := requestQueue[v := requestQueue[v][1..]];
      while requestQueue[v] != []
        invariant v in requestQueue && requestQueue == old(requestQueue)[v := requestQueue[v]]
        invariant cache == old(cache) && channels == old(channels)
        invariant SkipDead(channels, requestQueue[v]) == SkipDead(channels, rest)
        decreases |requestQueue[v]|
      {
        var c := requestQueue[v][0];
        var sent := TrySend(c, m);
        if sent {
          return;
        }
        requestQueue := requestQueue[v := requestQueue[v][1..]];
      }
      requestQueue := requestQueue - {v};
    }

    /** return_back of an endpoint that cannot: the queue is taken away, ... */
    method TakeQueue(v: Service) returns (q: seq<Id>)
      modifies this
      ensures q == QueueOf(old(View()), v) && View() == old(View()).(queues := old(requestQueue) - {v})
    {
      q := [];
      if v in requestQueue {
        q := requestQueue[v];
        requestQueue := requestQueue - {v};
      }
    }

    /** ... and its channels are closed. */
    method CloseAll(q: seq<Id>)
      modifies this
      ensures View() == old(View()).(channels := AllClosed(old(channels), q))
    {
      var i := 0;
      while i < |q|
        invariant 0 <= i <= |q| && cache == old(cache) && requestQueue == old(requestQueue)
        invariant channels == AllClosed(old(channels), q[..i])
      {
        assert q[..i + 1][..i] == q[..i];
        if q[i] in channels {
          channels := channels[q[i] := channels[q[i]].(open := false)];
        }
        i := i + 1;
      }
      assert q[..|q|] == q;
    }

    method RemoveEndpoint(v: Service) returns (removed: bool)
      modifies this
      ensures View() == old(View()).(cache := old(cache) - {v}) && removed == (v in old(cache))
    {
      removed := v in cache;
      cache := cache - {v};
    }
  }

  /** Everyone skipped can no longer be sent to, the first who can be is now at the front,
      and nobody changes places. */
  lemma {:induction false} SkipsOnlyDead(channels: map<Id, Channel>, q: seq<Id>)
    ensures var r := SkipDead(channels, q);
            && |r| <= |q| && q[|q| - |r|..] == r
            && (forall k :: 0 <= k < |q| - |r| ==> !CanTake(channels, q[k]))
            && (r != [] ==> CanTake(channels, r[0]))
  {
    if q != [] && !CanTake(channels, q[0]) {
      SkipsOnlyDead(channels, q[1..]);
      var r := SkipDead(channels, q);
      assert q[|q| - |r|..] == q[1..][|q| - 1 - |r|..];
      forall k | 0 <= k < |q| - |r| ensures !CanTake(channels, q[k]) {
        if k > 0 { assert q[k] == q[1..][k - 1]; }
      }
    }
  }

  // ---------- all requests together ----------

  /** Where a request is. `Front` still has to send itself the endpoint; `Granting` has tried
      to; `Closing` holds the queue it took away. */
  datatype Phase = Looking | Stale | Creating | Created(m: Endpoint) | Ready(m: Endpoint)
                 | Front(m: Endpoint) | Queued | Granting | Closing(q: seq<Id>) | Ended

  datatype Request = Request(service: Service, phase: Phase, refused: bool)

  /** `enqueued` and `granted` remember in what order; `broken` for which services an assertion
      of return_back failed. */
  datatype State = State(shared: Shared, requests: map<Id, Request>,
                         enqueued: map<Service, seq<Id>>, granted: map<Service, seq<Id>>, broken: set<Service>)

  datatype Step =
    | Arrive(id: Id, service: Service)
    | Lookup(id: Id, ok: bool)
    | EraseStale(id: Id)
    | CreateOk(id: Id, m: Endpoint)
    | CreateFail(id: Id)
    | CacheInsert(id: Id)
    | Enqueue(id: Id)
    | Send(id: Id)
    | Return(id: Id, usable: bool)
    | CloseAll(id: Id)
    | Close(id: Id)
    | Remove(service: Service)

  /** The endpoint was sent to the request and is not back yet. */
  predicate Holds(s: State, id: Id) {
    && id in s.requests && id in s.shared.channels && s.shared.channels[id].got.Some?
    && (s.requests[id].phase == Queued || s.requests[id].phase == Granting)
  }

  predicate Enabled(s: State, step: Step) {
    match step
    case Arrive(id, v) => id !in s.requests
    case Lookup(id, ok) => id in s.requests && s.requests[id].phase == Looking
    case EraseStale(id) => id in s.requests && s.requests[id].phase == Stale
    case CreateOk(id, m) => id in s.requests && s.requests[id].phase == Creating
    case CreateFail(id) => id in s.requests && s.requests[id].phase == Creating
    case CacheInsert(id) => id in s.requests && s.requests[id].phase.Created?
    case Enqueue(id) => id in s.requests && s.requests[id].phase.Ready?
    case Send(id) => id in s.requests && s.requests[id].phase.Front?
    case Return(id, usable) => Holds(s, id)
    case CloseAll(id) => id in s.requests && s.requests[id].phase.Closing?
    case Close(id) => id in s.shared.channels
    case Remove(v) => true
  }

  function Entries(m: map<Service, seq<Id>>, v: Service): seq<Id> {
    if v in m then m[v] else []
  }

  function Note(m: map<Service, seq<Id>>, v: Service, id: Id): map<Service, seq<Id>> {
    m[v := Entries(m, v) + [id]]
  }

  function SetPhase(s: State, id: Id, p: Phase): State
    requires id in s.requests
  {
    s.(requests := s.requests[id := s.requests[id].(phase := p)])
  }

  function DoArrive(s: State, id: Id, v: Service): State {
    s.(requests := s.requests[id := Request(v, Looking, false)],
       shared := s.shared.(channels := s.shared.channels[id := FRESH]))
  }

  function DoLookup(s: State, id: Id, ok: bool): State
    requires id in s.requests
  {
    var v := s.requests[id].service;
    SetPhase(s, id, if v !in s.shared.cache then Creating else if ok then Ready(s.shared.cache[v]) else Stale)
  }

  function DoEraseStale(s: State, id: Id): State
    requires id in s.requests
  {
    SetPhase(s, id, Creating).(shared := s.shared.(cache := s.shared.cache - {s.requests[id].service}))
  }

  /** The request that took the queue, and those in it. */
  function Taken(requests: map<Id, Request>, id: Id, q: seq<Id>): map<Id, Request> {
    map k | k in requests :: if k == id then requests[k].(phase := Closing(q))
                             else if k in q then requests[k].(refused := true)
                             else requests[k]
  }

  /** return_back of what cannot be used again, up to the closing. */
  function DoTake(s: State, id: Id): State
    requires id in s.requests
  {
    var v := s.requests[id].service;
    var q := QueueOf(s.shared, v);
    s.(shared := s.shared.(queues := s.shared.queues - {v}),
       requests := Taken(s.requests, id, q))
  }

  function DoCreateFail(s: State, id: Id): State
    requires id in s.requests
  {
    DoTake(s.(shared := s.shared.(channels := Closed(s.shared.channels, id))), id)
  }

  function DoCacheInsert(s: State, id: Id): State
    requires id in s.requests && s.requests[id].phase.Created?
  {
    var m := s.requests[id].phase.m;
    SetPhase(s, id, Ready(m)).(shared := Inserted(s.shared, s.requests[id].service, m))
  }

  function DoEnqueue(s: State, id: Id): State
    requires id in s.requests && s.requests[id].phase.Ready?
  {
    var v := s.requests[id].service;
    SetPhase(s, id, if v in s.shared.queues then Queued else Front(s.requests[id].phase.m))
    .(shared := Enqueued(s.shared, v, id), enqueued := Note(s.enqueued, v, id))
  }

  function DoSend(s: State, id: Id): State
    requires id in s.requests && s.requests[id].phase.Front?
  {
    SetPhase(s, id, Granting)
    .(shared := s.shared.(channels := Sent(s.shared.channels, id, s.requests[id].phase.m)),
      granted := if CanTake(s.shared.channels, id) then Note(s.granted, s.requests[id].service, id) else s.granted)
  }

  function DoHandOver(s: State, id: Id): State
    requires Holds(s, id)
  {
    var v := s.requests[id].service;
    if v !in s.shared.queues || s.shared.queues[v] == [] then SetPhase(s, id, Ended).(broken := s.broken + {v})
    else
      var t := SetPhase(s, id, Ended).(shared := HandedOver(s.shared, v, s.shared.channels[id].got.value));
      var q := SkipDead(s.shared.channels, s.shared.queues[v][1..]);
      if q == [] then t else t.(granted := Note(s.granted, v, q[0]))
  }

  /** One step; a step that is not possible changes nothing. */
  function Next(s: State, step: Step): State {
    if !Enabled(s, step) then s else
    match step
    case Arrive(id, v) => DoArrive(s, id, v)
    case Lookup(id, ok) => DoLookup(s, id, ok)
    case EraseStale(id) => DoEraseStale(s, id)
    case CreateOk(id, m) => SetPhase(s, id, Created(m))
    case CreateFail(id) => DoCreateFail(s, id)
    case CacheInsert(id) => DoCacheInsert(s, id)
    case Enqueue(id) => DoEnqueue(s, id)
    case Send(id) => DoSend(s, id)
    case Return(id, usable) => if usable then DoHandOver(s, id) else DoTake(s, id)
    case CloseAll(id) =>
      SetPhase(s, id, Ended).(shared := s.shared.(channels := AllClosed(s.shared.channels, s.requests[id].phase.q)))
    case Close(id) => s.(shared := s.shared.(channels := Closed(s.shared.channels, id)))
    case Remove(v) => s.(shared := s.shared.(cache := s.shared.cache - {v}))
  }

  const START := State(Shared(map[], map[], map[]), map[], map[], map[], {})

  /** The state after any steps of any requests in any order. */
  function Run(steps: seq<Step>): State {
    if steps == [] then START else Next(Run(steps[..|steps| - 1]), steps[|steps| - 1])
  }

  // ---------- what every step keeps ----------

  /** Those of the ids whose channel got the endpoint. */
  function Served(channels: map<Id, Channel>, ids: seq<Id>): seq<Id> {
    if ids == [] then [] else
      var id := ids[|ids| - 1];
      Served(channels, ids[..|ids| - 1]) + if id in channels && channels[id].got.Some? then [id] else []
  }

  predicate BeforeQueue(p: Phase) {
    p.Looking? || p.Stale? || p.Creating? || p.Created? || p.Ready?
  }

  /** A request of this service that has been queued. */
  predicate WasQueued(s: State, v: Service, id: Id) {
    && id in s.requests && s.requests[id].service == v && id in s.shared.channels
    && !BeforeQueue(s.requests[id].phase)
  }

  /** The one send to the front found its channel closed. */
  predicate Lost(s: State, id: Id) {
    && id in s.requests && id in s.shared.channels && s.requests[id].phase == Granting
    && s.shared.channels[id].got.None? && !s.shared.channels[id].open
  }

  /** Out of the queue: the endpoint is back, or never came because the channel was closed or
      the queue taken away, and will not come. */
  predicate Gone(s: State, id: Id) {
    && id in s.requests && id in s.shared.channels && !Holds(s, id)
    && (s.requests[id].phase.Front? || Lost(s, id) ==> s.requests[id].refused && !s.shared.channels[id].open)
    && (s.shared.channels[id].got.None? ==> !s.shared.channels[id].open || s.requests[id].refused)
  }

  /** At the front: about to be sent the endpoint, sent it, or closed too early to be sent it. */
  predicate AtFront(s: State, id: Id) {
    && id in s.requests && id in s.shared.channels && !s.requests[id].refused
    && (|| (s.requests[id].phase.Front? && s.shared.channels[id].got.None?)
        || Holds(s, id) || Lost(s, id))
  }

  predicate Behind(s: State, id: Id) {
    && id in s.requests && id in s.shared.channels && !s.requests[id].refused
    && s.requests[id].phase == Queued && s.shared.channels[id].got.None?
  }

  predicate Distinct(ids: seq<Id>) {
    forall j, k :: 0 <= j < k < |ids| ==> ids[j] != ids[k]
  }

  /** The queue is the end of what was queued; all before it is gone. */
  predicate QueueOk(s: State, v: Service, e: seq<Id>, q: seq<Id>) {
    && |q| <= |e| && e[|e| - |q|..] == q && Distinct(e)
    && (forall k :: 0 <= k < |e| ==> WasQueued(s, v, e[k]))
    && (forall k :: 0 <= k < |e| - |q| ==> Gone(s, e[k]))
    && (q != [] ==> AtFront(s, q[0]))
    && (forall k :: 0 < k < |q| ==> Behind(s, q[k]))
  }

  ghost predicate ServiceOk(s: State, v: Service) {
    && QueueOk(s, v, Entries(s.enqueued, v), QueueOf(s.shared, v))
    && (v in s.shared.queues ==> s.shared.queues[v] != [])
    && Entries(s.granted, v) == Served(s.shared.channels, Entries(s.enqueued, v))
  }

  predicate RequestOk(s: State, id: Id) {
    && id in s.requests && id in s.shared.channels
    && (BeforeQueue(s.requests[id].phase) ==> s.shared.channels[id].got.None? && !s.requests[id].refused)
    && (s.requests[id].phase.Front? ==> s.shared.channels[id].got.None?)
    && (s.requests[id].phase.Front? || s.requests[id].phase == Queued || s.requests[id].phase == Granting ==>
          id in Entries(s.enqueued, s.requests[id].service))
  }

  /** Every queue holds requests of its own service. */
  ghost predicate Own(s: State) {
    && (forall v :: v in s.shared.queues ==> OwnQueue(s, v, s.shared.queues[v]))
    && (forall id :: id in s.requests ==> id in s.shared.channels)
  }

  predicate OwnQueue(s: State, v: Service, q: seq<Id>) {
    forall k :: 0 <= k < |q| ==> q[k] in s.requests && s.requests[q[k]].service == v
  }

  /** What concerns one service. */
  ghost predicate InvFor(s: State, v: Service) {
    && Own(s) && v !in s.broken && ServiceOk(s, v)
    && (forall id :: id in s.requests && s.requests[id].service == v ==> RequestOk(s, id))
  }

  /** What matters of a request to its queue is unchanged; its channel may have been closed. */
  predicate Agree(s: State, t: State, id: Id) {
    && id in s.requests && id in t.requests && id in s.shared.channels && id in t.shared.channels
    && s.requests[id].service == t.requests[id].service && s.requests[id].refused == t.requests[id].refused
    && (s.requests[id].phase == t.requests[id].phase || Later(s, t, id))
    && s.shared.channels[id].got == t.shared.channels[id].got
    && (t.shared.channels[id].open ==> s.shared.channels[id].open)
  }

  /** Closing what it took away, or sending, after its queue was taken away, in vain. */
  predicate Later(s: State, t: State, id: Id)
    requires id in s.requests && id in t.requests && id in s.shared.channels
  {
    || (s.requests[id].phase.Closing? && t.requests[id].phase == Ended)
    || (s.requests[id].phase.Front? && t.requests[id].phase == Granting && s.requests[id].refused
        && !s.shared.channels[id].open && s.shared.channels[id].got.None?)
  }

  lemma {:induction false} ServedSame(c: map<Id, Channel>, d: map<Id, Channel>, ids: seq<Id>)
    requires forall id :: id in ids ==> id in c && id in d && c[id].got == d[id].got
    ensures Served(c, ids) == Served(d, ids)
  {
    if ids != [] { ServedSame(c, d, ids[..|ids| - 1]); }
  }

  lemma AgreeQueue(s: State, t: State, v: Service, e: seq<Id>, q: seq<Id>)
    requires QueueOk(s, v, e, q) && forall id :: id in e ==> Agree(s, t, id)
    ensures QueueOk(t, v, e, q)
  {
    forall k | 0 <= k < |e| ensures WasQueued(t, v, e[k]) && (Gone(s, e[k]) ==> Gone(t, e[k])) {
      assert e[k] in e && WasQueued(s, v, e[k]);
    }
    forall k | 0 <= k < |q| ensures (AtFront(s, q[k]) ==> AtFront(t, q[k])) && (Behind(s, q[k]) ==> Behind(t, q[k])) {
      assert q[k] == e[|e| - |q| + k] && q[k] in e;
    }
  }

  /** A service that a step does not concern. */
  predicate Untouched(s: State, t: State, v: Service) {
    && Entries(s.enqueued, v) == Entries(t.enqueued, v) && Entries(s.granted, v) == Entries(t.granted, v)
    && (v in s.shared.queues <==> v in t.shared.queues) && QueueOf(s.shared, v) == QueueOf(t.shared, v)
    && forall id :: id in Entries(s.enqueued, v) ==> Agree(s, t, id)
  }

  lemma UntouchedKeeps(s: State, t: State, v: Service)
    requires ServiceOk(s, v) && Untouched(s, t, v)
    ensures ServiceOk(t, v)
  {
    var e := Entries(s.enqueued, v);
    AgreeQueue(s, t, v, e, QueueOf(s.shared, v));
    hide QueueOk, Served, Agree;
    forall id | id in e ensures id in s.shared.channels && id in t.shared.channels && s.shared.channels[id].got == t.shared.channels[id].got {
      AgreeGot(s, t, id);
    }
    ServedSame(s.shared.channels, t.shared.channels, e);
  }

  lemma AgreeGot(s: State, t: State, id: Id)
    requires Agree(s, t, id)
    ensures id in s.shared.channels && id in t.shared.channels && s.shared.channels[id].got == t.shared.channels[id].got
  {
  }

  /** Ids of the record are requests past the queueing. */
  lemma Recorded(s: State, v: Service, id: Id)
    requires ServiceOk(s, v) && id in Entries(s.enqueued, v)
    ensures WasQueued(s, v, id)
  {
    var e := Entries(s.enqueued, v);
    var k :| 0 <= k < |e| && e[k] == id;
    assert WasQueued(s, v, e[k]);
  }

  /** A request a step may touch without touching the queue of its service. */
  predicate Calm(s: State, t: State, id: Id) {
    && id in t.requests && id in t.shared.channels
    && if id !in s.requests then
         BeforeQueue(t.requests[id].phase) && t.shared.channels[id].got.None? && !t.requests[id].refused
       else
         && id in s.shared.channels && s.requests[id].service == t.requests[id].service
         && s.requests[id].refused == t.requests[id].refused && s.shared.channels[id].got == t.shared.channels[id].got
         && (t.shared.channels[id].open ==> s.shared.channels[id].open)
         && (|| t.requests[id].phase == s.requests[id].phase
             || Later(s, t, id)
             || (BeforeQueue(s.requests[id].phase)
                 && (BeforeQueue(t.requests[id].phase) || t.requests[id].phase.Closing?)))
  }

  /** A step that leaves the queue of a service, and its requests past the queueing, alone. */
  ghost predicate QuietFor(s: State, t: State, v: Service) {
    && Entries(s.enqueued, v) == Entries(t.enqueued, v) && Entries(s.granted, v) == Entries(t.granted, v)
    && (v in s.shared.queues <==> v in t.shared.queues) && QueueOf(s.shared, v) == QueueOf(t.shared, v)
    && (v in t.broken ==> v in s.broken)
    && (forall id :: id in s.requests ==> id in t.requests)
    && (forall id :: id in t.requests && t.requests[id].service == v ==> Calm(s, t, id))
    && (forall id :: id in s.requests && s.requests[id].service == v ==> t.requests[id].service == v)
  }

  lemma QuietKeeps(s: State, t: State, v: Service)
    requires InvFor(s, v) && Own(t) && QuietFor(s, t, v)
    ensures InvFor(t, v)
  {
    hide ServiceOk, QueueOk, Served, Own;
    forall k | k in Entries(s.enqueued, v) ensures Agree(s, t, k) {
      Recorded(s, v, k);
      assert Calm(s, t, k);
    }
    UntouchedKeeps(s, t, v);
    forall k | k in t.requests && t.requests[k].service == v ensures RequestOk(t, k) {
      assert Calm(s, t, k);
      if k in s.requests { assert RequestOk(s, k); }
    }
  }

  // ---------- enqueueing ----------

  lemma EnqueueService(s: State, id: Id)
    requires id in s.requests && s.requests[id].phase.Ready? && RequestOk(s, id) && ServiceOk(s, s.requests[id].service)
    ensures ServiceOk(DoEnqueue(s, id), s.requests[id].service)
  {
    hide QueueOk, Served;
    var v, t := s.requests[id].service, DoEnqueue(s, id);
    var e, q := Entries(s.enqueued, v), QueueOf(s.shared, v);
    forall k | k in e ensures k != id && Agree(s, t, k) { Recorded(s, v, k); }
    AgreeQueue(s, t, v, e, q);
    AddedQueue(t, v, e, q, id);
    ServedEnd(s.shared.channels, e, id);
    assert Entries(t.enqueued, v) == e + [id] && QueueOf(t.shared, v) == q + [id];
  }

  lemma ServedEnd(c: map<Id, Channel>, e: seq<Id>, id: Id)
    requires id in c && c[id].got.None?
    ensures Served(c, e + [id]) == Served(c, e)
  {
    assert (e + [id])[..|e|] == e;
  }

  lemma AddedQueue(t: State, v: Service, e: seq<Id>, q: seq<Id>, id: Id)
    requires QueueOk(t, v, e, q) && id !in e && WasQueued(t, v, id)
    requires if q == [] then AtFront(t, id) else Behind(t, id)
    ensures QueueOk(t, v, e + [id], q + [id])
  {
    var f, r := e + [id], q + [id];
    hide WasQueued, Gone, AtFront, Behind;
    assert f[|f| - |r|..] == e[|e| - |q|..] + [id];
  }

  // ---------- the first send ----------

  /** A request at its first send, or after it, or with the lease, is at the front. */
  lemma FrontIs(s: State, id: Id)
    requires id in s.requests && RequestOk(s, id) && ServiceOk(s, s.requests[id].service)
    requires Holds(s, id) || ((s.requests[id].phase.Front? || Lost(s, id)) && !s.requests[id].refused)
    ensures var q := QueueOf(s.shared, s.requests[id].service); q != [] && q[0] == id
  {
    var v := s.requests[id].service;
    var e, q := Entries(s.enqueued, v), QueueOf(s.shared, v);
    var k :| 0 <= k < |e| && e[k] == id;
    var p := |e| - |q|;
    assert k >= p;
    assert q[k - p] == id;
  }

  /** A channel is served whose id has no served one after it. */
  lemma {:induction false} ServedMore(c: map<Id, Channel>, d: map<Id, Channel>, ids: seq<Id>, p: nat)
    requires p < |ids| && Distinct(ids) && ids[p] in c && c[ids[p]].got.None? && ids[p] in d && d[ids[p]].got.Some?
    requires forall id :: id in ids && id != ids[p] ==> id in c && id in d && c[id].got == d[id].got
    requires forall k :: p < k < |ids| ==> c[ids[k]].got.None?
    ensures Served(d, ids) == Served(c, ids) + [ids[p]]
  {
    var n := |ids| - 1;
    if p == n {
      forall id | id in ids[..n] ensures id in c && id in d && c[id].got == d[id].got {
        var k :| 0 <= k < n && ids[k] == id;
      }
      ServedSame(c, d, ids[..n]);
    } else {
      assert ids[n] != ids[p];
      ServedMore(c, d, ids[..n], p);
    }
  }

  lemma SendService(s: State, id: Id)
    requires id in s.requests && s.requests[id].phase.Front? && RequestOk(s, id) && ServiceOk(s, s.requests[id].service)
    requires !s.requests[id].refused
    ensures ServiceOk(DoSend(s, id), s.requests[id].service)
  {
    var v, t := s.requests[id].service, DoSend(s, id);
    var e, q := Entries(s.enqueued, v), QueueOf(s.shared, v);
    var p := |e| - |q|;
    FrontIs(s, id);
    FrontQueue(s, t, v, e, q, q);
    ServedFront(s, v, e, q, q, s.requests[id].phase.m);
  }

  lemma ServedSent(c: map<Id, Channel>, ids: seq<Id>, p: nat, m: Endpoint)
    requires p < |ids| && Distinct(ids) && forall id :: id in ids ==> id in c
    requires forall k :: p < k < |ids| ==> c[ids[k]].got.None?
    ensures Served(Sent(c, ids[p], m), ids) == Served(c, ids) + if CanTake(c, ids[p]) then [ids[p]] else []
  {
    if CanTake(c, ids[p]) { ServedMore(c, Sent(c, ids[p], m), ids, p); }
  }

  /** Sending to the front of what is left of a queue grants at most to it, after all others. */
  lemma ServedFront(s: State, v: Service, e: seq<Id>, q: seq<Id>, r: seq<Id>, m: Endpoint)
    requires QueueOk(s, v, e, q) && r != [] && |r| <= |q| && q[|q| - |r|..] == r
    ensures Served(Sent(s.shared.channels, r[0], m), e)
            == Served(s.shared.channels, e) + if CanTake(s.shared.channels, r[0]) then [r[0]] else []
  {
    var p := |e| - |r|;
    assert e[p..] == r;
    assert e[p] == r[0];
    forall k | p < k < |e| ensures s.shared.channels[e[k]].got.None? {
      assert e[k] == r[k - p] == q[|q| - |r| + k - p];
      assert Behind(s, q[|q| - |r| + k - p]);
    }
    forall id | id in e ensures id in s.shared.channels {
      var k :| 0 <= k < |e| && e[k] == id;
      assert WasQueued(s, v, e[k]);
    }
    ServedSent(s.shared.channels, e, p, m);
  }

  /** From one queue to what is left of it: nobody overtakes. Those before are gone, the first
      one is at the front, the rest is as it was. */
  lemma FrontQueue(s: State, t: State, v: Service, e: seq<Id>, q: seq<Id>, r: seq<Id>)
    requires QueueOk(s, v, e, q) && |r| <= |q| && q[|q| - |r|..] == r
    requires forall k :: 0 <= k < |e| - |q| ==> Agree(s, t, e[k])
    requires forall k :: 0 <= k < |q| - |r| ==> Gone(t, q[k]) && WasQueued(t, v, q[k])
    requires r != [] ==> AtFront(t, r[0]) && WasQueued(t, v, r[0])
    requires forall k :: 0 < k < |r| ==> Agree(s, t, r[k])
    ensures QueueOk(t, v, e, r)
  {
    var p := |e| - |q|;
    assert e[|e| - |r|..] == r;
    forall k | 0 <= k < |e| ensures WasQueued(t, v, e[k]) {
      assert WasQueued(s, v, e[k]);
      if k >= p {
        assert e[k] == q[k - p];
        if k > |e| - |r| { assert e[k] == r[k - (|e| - |r|)]; }
        if k == |e| - |r| { assert e[k] == r[0]; }
      }
    }
    forall k | 0 <= k < |e| - |r| ensures Gone(t, e[k]) {
      if k >= p { assert e[k] == q[k - p]; }
    }
    forall k | 0 < k < |r| ensures Behind(t, r[k]) {
      assert r[k] == q[|q| - |r| + k];
    }
  }

  // ---------- handing over ----------

  /** What is left of the queue when the endpoint comes back. */
  function Left(s: State, id: Id): seq<Id>
    requires id in s.requests
  {
    var q := QueueOf(s.shared, s.requests[id].service);
    if q == [] then [] else SkipDead(s.shared.channels, q[1..])
  }

  lemma LeftIs(s: State, id: Id)
    requires Holds(s, id) && RequestOk(s, id) && ServiceOk(s, s.requests[id].service)
    ensures var v := s.requests[id].service; var q := QueueOf(s.shared, v); var r := Left(s, id);
            && v in s.shared.queues && q != [] && q[0] == id && |r| < |q| && q[|q| - |r|..] == r
            && (r != [] ==> WasQueued(s, v, r[0]) && Behind(s, r[0]) && CanTake(s.shared.channels, r[0]))
            && (forall k :: 0 < k < |q| - |r| ==>
                  WasQueued(s, v, q[k]) && Behind(s, q[k]) && !CanTake(s.shared.channels, q[k]))
            && WasQueued(s, v, id)
  {
    hide SkipDead, Behind, WasQueued, Gone, AtFront, Served, RequestOk;
    FrontIs(s, id);
    var v := s.requests[id].service;
    var e, q, r := Entries(s.enqueued, v), QueueOf(s.shared, v), Left(s, id);
    SkipsOnlyDead(s.shared.channels, q[1..]);
    assert q[1..][|q| - 1 - |r|..] == q[|q| - |r|..];
    forall k | 0 <= k < |q| ensures WasQueued(s, v, q[k]) {
      assert q[k] == e[|e| - |q| + k];
    }
    if r != [] { assert r[0] == q[|q| - |r|]; }
    forall k | 0 < k < |q| - |r| ensures !CanTake(s.shared.channels, q[k]) {
      assert q[k] == q[1..][k - 1];
    }
  }

  /** What handing over changes. */
  lemma HandedOverIs(s: State, id: Id)
    requires Holds(s, id) && RequestOk(s, id) && ServiceOk(s, s.requests[id].service)
    ensures var v := s.requests[id].service; var t := DoHandOver(s, id); var r := Left(s, id);
            && t.requests == s.requests[id := s.requests[id].(phase := Ended)]
            && t.enqueued == s.enqueued && t.broken == s.broken && t.shared.cache == s.shared.cache
            && QueueOf(t.shared, v) == r && (v in t.shared.queues ==> r != [])
            && t.shared.queues - {v} == s.shared.queues - {v}
            && t.shared.channels
               == (if r == [] then s.shared.channels
                   else Sent(s.shared.channels, r[0], s.shared.channels[id].got.value))
            && t.granted == if r == [] then s.granted else Note(s.granted, v, r[0])
  {
    LeftIs(s, id);
    hide SkipDead, ServiceOk, WasQueued, Behind, CanTake, RequestOk;
  }

  lemma HandOverService(s: State, id: Id)
    requires Holds(s, id) && RequestOk(s, id) && ServiceOk(s, s.requests[id].service)
    ensures ServiceOk(DoHandOver(s, id), s.requests[id].service)
  {
    hide SkipDead, Left, DoHandOver, Served, RequestOk;
    LeftIs(s, id);
    HandedOverIs(s, id);
    var v, t, r := s.requests[id].service, DoHandOver(s, id), Left(s, id);
    var e, q := Entries(s.enqueued, v), QueueOf(s.shared, v);
    forall k | 0 <= k < |e| - |q| ensures Agree(s, t, e[k]) {
      PastAgrees(s, id, k);
    }
    forall k | 0 <= k < |q| - |r| ensures Gone(t, q[k]) && WasQueued(t, v, q[k]) {
      SkippedGone(s, id, k);
    }
    forall k | 0 < k < |r| ensures Agree(s, t, r[k]) {
      RestAgrees(s, id, k);
    }
    FrontQueue(s, t, v, e, q, r);
    if r != [] { ServedFront(s, v, e, q, r, s.shared.channels[id].got.value); }
  }

  /** The places of the queue are different requests. */
  lemma Places(s: State, v: Service, e: seq<Id>, q: seq<Id>)
    requires QueueOk(s, v, e, q)
    ensures forall j, k :: 0 <= j < k < |q| ==> q[j] != q[k]
    ensures forall j, k :: 0 <= j < |e| - |q| && 0 <= k < |q| ==> e[j] != q[k]
  {
    forall k | 0 <= k < |q| ensures q[k] == e[|e| - |q| + k] {
    }
  }

  lemma PastAgrees(s: State, id: Id, k: nat)
    requires Holds(s, id) && RequestOk(s, id) && ServiceOk(s, s.requests[id].service)
    requires var v := s.requests[id].service; k < |Entries(s.enqueued, v)| - |QueueOf(s.shared, v)|
    ensures Agree(s, DoHandOver(s, id), Entries(s.enqueued, s.requests[id].service)[k])
  {
    hide SkipDead, Left, DoHandOver, Served, RequestOk;
    LeftIs(s, id);
    HandedOverIs(s, id);
    var v, r := s.requests[id].service, Left(s, id);
    var e, q := Entries(s.enqueued, v), QueueOf(s.shared, v);
    Places(s, v, e, q);
    assert WasQueued(s, v, e[k]);
    if r != [] { assert r[0] == q[|q| - |r|]; }
  }

  lemma SkippedGone(s: State, id: Id, k: nat)
    requires Holds(s, id) && RequestOk(s, id) && ServiceOk(s, s.requests[id].service)
    requires k < |QueueOf(s.shared, s.requests[id].service)| - |Left(s, id)|
    ensures var t := DoHandOver(s, id); var v := s.requests[id].service;
            Gone(t, QueueOf(s.shared, v)[k]) && WasQueued(t, v, QueueOf(s.shared, v)[k])
  {
    hide SkipDead, Left, DoHandOver, Served, RequestOk;
    LeftIs(s, id);
    HandedOverIs(s, id);
    var v, r := s.requests[id].service, Left(s, id);
    var q := QueueOf(s.shared, v);
    Places(s, v, Entries(s.enqueued, v), q);
    if r != [] { assert r[0] == q[|q| - |r|]; }
  }

  lemma RestAgrees(s: State, id: Id, k: nat)
    requires Holds(s, id) && RequestOk(s, id) && ServiceOk(s, s.requests[id].service)
    requires 0 < k < |Left(s, id)|
    ensures Agree(s, DoHandOver(s, id), Left(s, id)[k])
  {
    hide SkipDead, Left, DoHandOver, Served, RequestOk;
    LeftIs(s, id);
    HandedOverIs(s, id);
    var v, r := s.requests[id].service, Left(s, id);
    var q := QueueOf(s.shared, v);
    Places(s, v, Entries(s.enqueued, v), q);
    assert r[0] == q[|q| - |r|] && r[k] == q[|q| - |r| + k];
    assert Behind(s, q[|q| - |r| + k]);
  }

  lemma HandedRequest(s: State, t: State, id: Id, k: Id, next: Id, m: Endpoint)
    requires id in s.requests && k in s.requests && RequestOk(s, k)
    requires t.requests == s.requests[id := s.requests[id].(phase := Ended)] && t.enqueued == s.enqueued
    requires t.shared.channels == s.shared.channels
             || (t.shared.channels == Sent(s.shared.channels, next, m) && next in s.requests
                 && s.requests[next].phase == Queued)
    ensures RequestOk(t, k)
  {
  }

  // ---------- the queue taken away ----------

  lemma QueueMates(s: State, v: Service, k: Id)
    requires ServiceOk(s, v)
    ensures k in QueueOf(s.shared, v) ==> WasQueued(s, v, k)
  {
  }

  /** What may take a queue away: its holder, or a failed creation that finds no live lease. */
  predicate TakeOk(s: State, id: Id) {
    || Holds(s, id)
    || (&& id in s.requests && s.requests[id].phase == Creating
        && var q := QueueOf(s.shared, s.requests[id].service); q == [] || !LiveLease(s, q[0]))
  }

  /** The endpoint is out, or can still be sent to the front. */
  predicate LiveLease(s: State, id: Id) {
    && id in s.requests && id in s.shared.channels
    && (Holds(s, id) || (s.requests[id].phase.Front? && s.shared.channels[id].open))
  }

  lemma TakeService(s: State, id: Id)
    requires TakeOk(s, id) && RequestOk(s, id) && ServiceOk(s, s.requests[id].service)
    ensures ServiceOk(DoTake(s, id), s.requests[id].service)
  {
    hide Served, Agree, Gone, WasQueued, AtFront, Behind, ServiceOk, DoTake, QueueOk;
    var v, t := s.requests[id].service, DoTake(s, id);
    var e, q := Entries(s.enqueued, v), QueueOf(s.shared, v);
    ServiceQueue(s, v);
    assert q[|q|..] == [];
    forall k | 0 <= k < |e| - |q| ensures Agree(s, t, e[k]) {
      TakenBefore(s, id, k);
    }
    forall k | 0 <= k < |q| ensures Gone(t, q[k]) && WasQueued(t, v, q[k]) {
      TakenAt(s, id, k);
    }
    FrontQueue(s, t, v, e, q, []);
    TakenRest(s, id);
  }

  lemma ServiceQueue(s: State, v: Service)
    requires ServiceOk(s, v)
    ensures var e, q := Entries(s.enqueued, v), QueueOf(s.shared, v); |q| <= |e| && QueueOk(s, v, e, q)
  {
    hide Served, WasQueued, Gone, AtFront, Behind;
  }

  lemma TakenRest(s: State, id: Id)
    requires id in s.requests && ServiceOk(s, s.requests[id].service)
    requires QueueOk(DoTake(s, id), s.requests[id].service, Entries(s.enqueued, s.requests[id].service), [])
    ensures ServiceOk(DoTake(s, id), s.requests[id].service)
  {
    hide QueueOk, Served, Taken;
  }

  lemma TakenBefore(s: State, id: Id, k: nat)
    requires TakeOk(s, id) && RequestOk(s, id) && ServiceOk(s, s.requests[id].service)
    requires var v := s.requests[id].service; k < |Entries(s.enqueued, v)| - |QueueOf(s.shared, v)|
    ensures Agree(s, DoTake(s, id), Entries(s.enqueued, s.requests[id].service)[k])
  {
    hide Served;
    if Holds(s, id) { FrontIs(s, id); }
    var v := s.requests[id].service;
    var e, q := Entries(s.enqueued, v), QueueOf(s.shared, v);
    Places(s, v, e, q);
    assert WasQueued(s, v, e[k]) && Gone(s, e[k]);
  }

  lemma TakenAt(s: State, id: Id, k: nat)
    requires TakeOk(s, id) && RequestOk(s, id) && ServiceOk(s, s.requests[id].service)
    requires k < |QueueOf(s.shared, s.requests[id].service)|
    ensures var v, t := s.requests[id].service, DoTake(s, id);
            Gone(t, QueueOf(s.shared, v)[k]) && WasQueued(t, v, QueueOf(s.shared, v)[k])
  {
    hide Served;
    if Holds(s, id) { FrontIs(s, id); }
    var v := s.requests[id].service;
    var q := QueueOf(s.shared, v);
    Places(s, v, Entries(s.enqueued, v), q);
    QueueMates(s, v, q[k]);
    if k > 0 { assert Behind(s, q[k]); }
  }

  lemma TakenRequest(s: State, id: Id, k: Id)
    requires TakeOk(s, id) && k in s.requests && RequestOk(s, k)
    requires k in QueueOf(s.shared, s.requests[id].service) ==> !BeforeQueue(s.requests[k].phase)
    ensures RequestOk(DoTake(s, id), k)
  {
  }

  // ---------- every step, for one service ----------

  /** The one step that can spoil the protocol of a service: a creation that fails while a
      lease of the service is live. */
  predicate Harmless(s: State, step: Step, v: Service) {
    step.CreateFail? && Enabled(s, step) && s.requests[step.id].service == v ==> TakeOk(s, step.id)
  }

  lemma {:induction false} AllClosedIs(c: map<Id, Channel>, ids: seq<Id>, id: Id)
    ensures id in AllClosed(c, ids) <==> id in c
    ensures id in c ==> AllClosed(c, ids)[id].got == c[id].got && (AllClosed(c, ids)[id].open ==> c[id].open)
  {
    if ids != [] { AllClosedIs(c, ids[..|ids| - 1], id); }
  }

  // That queues stay with their services needs nothing else.

  lemma SkipIsSuffix(s: State, v: Service, q: seq<Id>)
    requires OwnQueue(s, v, q) && q != []
    ensures OwnQueue(s, v, SkipDead(s.shared.channels, q[1..]))
  {
    hide SkipDead;
    var r := SkipDead(s.shared.channels, q[1..]);
    SkipsOnlyDead(s.shared.channels, q[1..]);
    forall k | 0 <= k < |r| ensures r[k] in s.requests && s.requests[r[k]].service == v {
      assert r[k] == q[1..][|q| - 1 - |r| + k] == q[|q| - |r| + k];
    }
  }

  lemma OwnCalm(s: State, t: State)
    requires Own(s) && forall v :: v in t.shared.queues ==> v in s.shared.queues && t.shared.queues[v] == s.shared.queues[v]
    requires forall id :: id in s.requests ==> id in t.requests && t.requests[id].service == s.requests[id].service
    requires forall id :: id in t.requests ==> id in t.shared.channels
    ensures Own(t)
  {
    forall v | v in t.shared.queues ensures OwnQueue(t, v, t.shared.queues[v]) {
      assert OwnQueue(s, v, s.shared.queues[v]);
    }
  }

  lemma OwnHandOver(s: State, id: Id)
    requires Own(s) && Holds(s, id)
    ensures Own(DoHandOver(s, id))
  {
    hide SkipDead;
    var v, t := s.requests[id].service, DoHandOver(s, id);
    if v in s.shared.queues && s.shared.queues[v] != [] {
      SkipIsSuffix(s, v, s.shared.queues[v]);
      forall w | w in t.shared.queues ensures OwnQueue(t, w, t.shared.queues[w]) {
        if w != v { assert OwnQueue(s, w, s.shared.queues[w]); }
      }
    } else {
      OwnCalm(s, t);
    }
  }

  lemma OwnEnqueue(s: State, id: Id)
    requires Own(s) && id in s.requests && s.requests[id].phase.Ready?
    ensures Own(DoEnqueue(s, id))
  {
    var v, t := s.requests[id].service, DoEnqueue(s, id);
    forall w | w in t.shared.queues ensures OwnQueue(t, w, t.shared.queues[w]) {
      if w in s.shared.queues { assert OwnQueue(s, w, s.shared.queues[w]); }
    }
  }

  lemma OwnStep(s: State, step: Step)
    requires Own(s)
    ensures Own(Next(s, step))
  {
    hide OwnQueue, SkipDead, AllClosed, DoHandOver, DoEnqueue, Own;
    OwnChannels(s);
    var t := Next(s, step);
    if Enabled(s, step) {
      match step
      case Enqueue(id) => OwnEnqueue(s, id);
      case Return(id, usable) => if usable { OwnHandOver(s, id); } else { OwnCalm(s, t); }
      case CloseAll(id) => OwnCloseAll(s, id);
      case _ => OwnRest(s, step);
    }
  }

  lemma OwnCloseAll(s: State, id: Id)
    requires Own(s) && Enabled(s, CloseAll(id))
    ensures Own(Next(s, CloseAll(id)))
  {
    hide OwnQueue, AllClosed, Own;
    var t := Next(s, CloseAll(id));
    OwnChannels(s);
    forall k | k in s.shared.channels ensures k in t.shared.channels {
      AllClosedIs(s.shared.channels, s.requests[id].phase.q, k);
    }
    OwnCalm(s, t);
  }

  /** The steps that add nobody to a queue. */
  lemma OwnRest(s: State, step: Step)
    requires Own(s) && Enabled(s, step) && !step.Enqueue? && !step.CloseAll? && !step.Return?
    ensures Own(Next(s, step))
  {
    hide OwnQueue, Own;
    OwnChannels(s);
    OwnCalm(s, Next(s, step));
  }

  lemma OwnChannels(s: State)
    requires Own(s)
    ensures forall id :: id in s.requests ==> id in s.shared.channels
  {
  }

  lemma RequestsOk(s: State, v: Service, id: Id)
    requires InvFor(s, v) && id in s.requests && s.requests[id].service == v
    ensures RequestOk(s, id) && ServiceOk(s, v)
  {
  }

  lemma EnqueueFor(s: State, id: Id)
    requires id in s.requests && s.requests[id].phase.Ready? && InvFor(s, s.requests[id].service)
    ensures InvFor(DoEnqueue(s, id), s.requests[id].service)
  {
    hide ServiceOk, QueueOk, Own;
    var t, v := DoEnqueue(s, id), s.requests[id].service;
    OwnEnqueue(s, id);
    EnqueueService(s, id);
    forall k | k in t.requests && t.requests[k].service == v ensures RequestOk(t, k) {
      assert RequestOk(s, k);
    }
  }

  /** A request whose queue was taken away before its first send has a closed channel. */
  lemma RefusedFront(s: State, id: Id)
    requires id in s.requests && RequestOk(s, id) && ServiceOk(s, s.requests[id].service)
    requires s.requests[id].phase.Front? && s.requests[id].refused
    ensures !s.shared.channels[id].open && s.shared.channels[id].got.None?
  {
    var v := s.requests[id].service;
    var e, q := Entries(s.enqueued, v), QueueOf(s.shared, v);
    var k :| 0 <= k < |e| && e[k] == id;
    var p := |e| - |q|;
    if k >= p { assert q[k - p] == id; }
  }

  lemma SendFor(s: State, id: Id)
    requires id in s.requests && s.requests[id].phase.Front? && InvFor(s, s.requests[id].service)
    ensures InvFor(DoSend(s, id), s.requests[id].service)
  {
    hide ServiceOk, QueueOk, Own;
    var t, v := DoSend(s, id), s.requests[id].service;
    OwnChannels(s);
    OwnCalm(s, t);
    if s.requests[id].refused {
      RefusedFront(s, id);
      forall k | k in t.requests && t.requests[k].service == v ensures Calm(s, t, k) {
        assert RequestOk(s, k);
      }
      QuietKeeps(s, t, v);
    } else {
      SendService(s, id);
      forall k | k in t.requests && t.requests[k].service == v ensures RequestOk(t, k) {
        assert RequestOk(s, k);
      }
    }
  }

  lemma HandOverFor(s: State, id: Id)
    requires Holds(s, id) && InvFor(s, s.requests[id].service)
    ensures InvFor(DoHandOver(s, id), s.requests[id].service)
  {
    hide ServiceOk, QueueOk, Served, SkipDead, Left, DoHandOver, RequestOk, Own;
    var t, v := DoHandOver(s, id), s.requests[id].service;
    RequestsOk(s, v, id);
    OwnHandOver(s, id);
    LeftIs(s, id);
    HandedOverIs(s, id);
    HandOverService(s, id);
    forall k | k in t.requests && t.requests[k].service == v ensures RequestOk(t, k) {
      RequestsOk(s, v, k);
      HandedRequest(s, t, id, k, if Left(s, id) == [] then id else Left(s, id)[0], s.shared.channels[id].got.value);
    }
  }

  lemma TakeFor(s: State, id: Id)
    requires TakeOk(s, id) && InvFor(s, s.requests[id].service)
    ensures InvFor(DoTake(s, id), s.requests[id].service)
  {
    hide ServiceOk, QueueOk, Served, RequestOk, Own;
    var t, v := DoTake(s, id), s.requests[id].service;
    OwnChannels(s);
    OwnCalm(s, t);
    RequestsOk(s, v, id);
    TakeService(s, id);
    forall k | k in t.requests && t.requests[k].service == v ensures RequestOk(t, k) {
      RequestsOk(s, v, k);
      QueueMates(s, v, k);
      TakenRequest(s, id, k);
    }
  }

  lemma CreateFailFor(s: State, id: Id)
    requires id in s.requests && s.requests[id].phase == Creating && TakeOk(s, id) && InvFor(s, s.requests[id].service)
    ensures InvFor(DoCreateFail(s, id), s.requests[id].service)
  {
    hide ServiceOk, QueueOk, Served, Own;
    var v := s.requests[id].service;
    var u := s.(shared := s.shared.(channels := Closed(s.shared.channels, id)));
    OwnChannels(s);
    OwnCalm(s, u);
    forall k | k in u.requests && u.requests[k].service == v ensures Calm(s, u, k) {
    }
    QuietKeeps(s, u, v);
    var q := QueueOf(s.shared, v);
    if q != [] { QueueMates(s, v, q[0]); }
    TakeFor(u, id);
  }

  lemma QueueIsOwn(s: State, w: Service)
    requires Own(s)
    ensures forall k :: k in QueueOf(s.shared, w) ==> k in s.requests && s.requests[k].service == w
  {
    if w in s.shared.queues { assert OwnQueue(s, w, s.shared.queues[w]); }
  }

  // What happens to one service does not concern another.

  lemma OtherHandOver(s: State, id: Id, v: Service)
    requires InvFor(s, v) && Holds(s, id) && s.requests[id].service != v
    ensures InvFor(DoHandOver(s, id), v)
  {
    hide ServiceOk, QueueOk, Served, Own, OwnQueue, SkipDead;
    var t, w := DoHandOver(s, id), s.requests[id].service;
    OwnHandOver(s, id);
    OwnChannels(s);
    QueueIsOwn(s, w);
    var q := QueueOf(s.shared, w);
    if q != [] { HeirIn(s.shared.channels, q); }
    forall k | k in t.requests && t.requests[k].service == v ensures Calm(s, t, k) {
    }
    QuietKeeps(s, t, v);
  }

  lemma HeirIn(channels: map<Id, Channel>, q: seq<Id>)
    requires q != []
    ensures var r := SkipDead(channels, q[1..]); r != [] ==> r[0] in q
  {
    hide SkipDead;
    var r := SkipDead(channels, q[1..]);
    SkipsOnlyDead(channels, q[1..]);
    if r != [] { assert r[0] == q[1..][|q| - 1 - |r|] == q[|q| - |r|]; }
  }

  lemma OtherTake(s: State, id: Id, v: Service)
    requires InvFor(s, v) && id in s.requests && s.requests[id].service != v
    ensures InvFor(DoTake(s, id), v)
  {
    hide ServiceOk, QueueOk, Served, Own, OwnQueue;
    var t := DoTake(s, id);
    OwnChannels(s);
    OwnCalm(s, t);
    QueueIsOwn(s, s.requests[id].service);
    forall k | k in t.requests && t.requests[k].service == v ensures Calm(s, t, k) {
    }
    QuietKeeps(s, t, v);
  }

  lemma OtherCreateFail(s: State, id: Id, v: Service)
    requires InvFor(s, v) && id in s.requests && s.requests[id].service != v
    ensures InvFor(DoCreateFail(s, id), v)
  {
    hide ServiceOk, QueueOk, Served, Own, OwnQueue;
    var t := DoCreateFail(s, id);
    OwnChannels(s);
    OwnCalm(s, t);
    QueueIsOwn(s, s.requests[id].service);
    forall k | k in t.requests && t.requests[k].service == v ensures Calm(s, t, k) {
    }
    QuietKeeps(s, t, v);
  }

  lemma OtherEnqueue(s: State, id: Id, v: Service)
    requires InvFor(s, v) && id in s.requests && s.requests[id].phase.Ready? && s.requests[id].service != v
    ensures InvFor(DoEnqueue(s, id), v)
  {
    hide ServiceOk, QueueOk, Served, Own;
    var t := DoEnqueue(s, id);
    OwnEnqueue(s, id);
    OwnChannels(s);
    forall k | k in t.requests && t.requests[k].service == v ensures Calm(s, t, k) {
    }
    QuietKeeps(s, t, v);
  }

  lemma OtherSend(s: State, id: Id, v: Service)
    requires InvFor(s, v) && id in s.requests && s.requests[id].phase.Front? && s.requests[id].service != v
    ensures InvFor(DoSend(s, id), v)
  {
    hide ServiceOk, QueueOk, Served, Own;
    var t := DoSend(s, id);
    OwnChannels(s);
    OwnCalm(s, t);
    forall k | k in t.requests && t.requests[k].service == v ensures Calm(s, t, k) {
    }
    QuietKeeps(s, t, v);
  }

  lemma CloseAllFor(s: State, id: Id, v: Service)
    requires InvFor(s, v) && id in s.requests && s.requests[id].phase.Closing?
    ensures InvFor(Next(s, CloseAll(id)), v)
  {
    hide ServiceOk, QueueOk, Served, Own, AllClosed;
    var t := Next(s, CloseAll(id));
    OwnStep(s, CloseAll(id));
    OwnChannels(s);
    forall k | k in t.requests && t.requests[k].service == v ensures Calm(s, t, k) {
      AllClosedIs(s.shared.channels, s.requests[id].phase.q, k);
    }
    QuietKeeps(s, t, v);
  }

  /** The steps that are not of a queue. */
  lemma PlainFor(s: State, step: Step, v: Service)
    requires InvFor(s, v) && Enabled(s, step)
    requires !step.Enqueue? && !step.Send? && !step.Return? && !step.CreateFail? && !step.CloseAll?
    ensures InvFor(Next(s, step), v)
  {
    hide ServiceOk, QueueOk, Served, Own, OwnQueue;
    var t := Next(s, step);
    OwnStep(s, step);
    OwnChannels(s);
    forall k | k in t.requests && t.requests[k].service == v ensures Calm(s, t, k) {
      if k in s.requests { assert RequestOk(s, k); }
    }
    QuietKeeps(s, t, v);
  }

  lemma StepKeeps(s: State, step: Step, v: Service)
    requires InvFor(s, v) && Harmless(s, step, v)
    ensures InvFor(Next(s, step), v)
  {
    hide InvFor, DoEnqueue, DoSend, DoHandOver, DoTake, DoCreateFail, Holds, Closed, TakeOk;
    if Enabled(s, step) {
      match step
      case CreateFail(id) => if s.requests[id].service == v { CreateFailFor(s, id); } else { OtherCreateFail(s, id, v); }
      case Enqueue(id) => if s.requests[id].service == v { EnqueueFor(s, id); } else { OtherEnqueue(s, id, v); }
      case Send(id) => if s.requests[id].service == v { SendFor(s, id); } else { OtherSend(s, id, v); }
      case Return(id, usable) =>
        HolderTakes(s, id);
        if s.requests[id].service == v {
          if usable { HandOverFor(s, id); } else { TakeFor(s, id); }
        } else {
          if usable { OtherHandOver(s, id, v); } else { OtherTake(s, id, v); }
        }
      case CloseAll(id) => CloseAllFor(s, id, v);
      case _ => PlainFor(s, step, v);
    }
  }

  lemma HolderTakes(s: State, id: Id)
    requires Holds(s, id)
    ensures TakeOk(s, id) && id in s.requests
  {
  }

  /** No step so far broke this rule for the service. */
  ghost predicate Kept(steps: seq<Step>, v: Service) {
    steps != [] ==>
      && Kept(steps[..|steps| - 1], v)
      && Harmless(Run(steps[..|steps| - 1]), steps[|steps| - 1], v)
  }

  lemma StartKeeps(v: Service)
    ensures InvFor(START, v)
  {
  }

  lemma {:induction false} RunKeeps(steps: seq<Step>, v: Service)
    requires Kept(steps, v)
    ensures InvFor(Run(steps), v)
  {
    hide Next, InvFor, Harmless;
    if steps == [] {
      StartKeeps(v);
    } else {
      RunKeeps(steps[..|steps| - 1], v);
      StepKeeps(Run(steps[..|steps| - 1]), steps[|steps| - 1], v);
    }
  }

  // ---------- what holds of every run ----------

  /** A lease that is out: about to be sent, sent and not back, or sent in vain. */
  predicate Outstanding(s: State, v: Service, id: Id) {
    && id in s.requests && s.requests[id].service == v
    && (Holds(s, id) || ((s.requests[id].phase.Front? || Lost(s, id)) && !s.requests[id].refused))
  }

  lemma OutstandingFirst(s: State, v: Service, id: Id)
    requires InvFor(s, v) && Outstanding(s, v, id)
    ensures v in s.shared.queues && s.shared.queues[v] != [] && s.shared.queues[v][0] == id
  {
    hide ServiceOk, RequestOk;
    RequestsOk(s, v, id);
    FrontIs(s, id);
  }

  lemma FirstOutstanding(s: State, v: Service)
    requires InvFor(s, v) && v in s.shared.queues
    ensures s.shared.queues[v] != [] && Outstanding(s, v, s.shared.queues[v][0])
  {
    QueueMates(s, v, s.shared.queues[v][0]);
  }

  /** Each service has at most one lease out; its queue exists exactly while it has one, with
      the holder at the front; so both assertions of return_back have held for it. */
  lemma OneLease(steps: seq<Step>, v: Service)
    requires Kept(steps, v)
    ensures var s := Run(steps);
            && v !in s.broken
            && (v in s.shared.queues <==> exists id :: Outstanding(s, v, id))
            && (forall id :: Outstanding(s, v, id) ==>
                  v in s.shared.queues && s.shared.queues[v] != [] && s.shared.queues[v][0] == id)
  {
    RunKeeps(steps, v);
    var s := Run(steps);
    hide Run, Outstanding;
    if v in s.shared.queues { FirstOutstanding(s, v); }
    forall id | Outstanding(s, v, id)
      ensures v in s.shared.queues && s.shared.queues[v] != [] && s.shared.queues[v][0] == id
    {
      OutstandingFirst(s, v, id);
    }
  }

  /** First in, first out: the queue is the end of what was ever queued; everyone before it
      had the lease and gave it back, or had a closed channel, or saw the queue taken away;
      and leases were granted in the order of queueing. */
  lemma Fifo(steps: seq<Step>, v: Service) returns (past: seq<Id>)
    requires Kept(steps, v)
    ensures var s := Run(steps); var q := QueueOf(s.shared, v); var e := Entries(s.enqueued, v);
            && e == past + q && Distinct(e)
            && (forall k :: 0 <= k < |past| ==> Gone(s, past[k]))
            && (forall k :: 0 < k < |q| ==> Behind(s, q[k]))
            && Entries(s.granted, v) == Served(s.shared.channels, e)
  {
    hide Run, ServiceOk, Distinct, Gone, Behind, Served;
    RunKeeps(steps, v);
    past := PastOf(Run(steps), v);
  }

  lemma PastOf(s: State, v: Service) returns (past: seq<Id>)
    requires ServiceOk(s, v)
    ensures var q := QueueOf(s.shared, v); var e := Entries(s.enqueued, v);
            && e == past + q && Distinct(e)
            && (forall k :: 0 <= k < |past| ==> Gone(s, past[k]))
            && (forall k :: 0 < k < |q| ==> Behind(s, q[k]))
            && Entries(s.granted, v) == Served(s.shared.channels, e)
  {
    hide QueueOk, Distinct, Gone, Behind, Served;
    var e, q := Entries(s.enqueued, v), QueueOf(s.shared, v);
    past := GonePart(s, v, e, q);
  }

  lemma GonePart(s: State, v: Service, e: seq<Id>, q: seq<Id>) returns (past: seq<Id>)
    requires QueueOk(s, v, e, q)
    ensures e == past + q && Distinct(e)
    ensures forall k :: 0 <= k < |past| ==> Gone(s, past[k])
    ensures forall k :: 0 < k < |q| ==> Behind(s, q[k])
  {
    hide Distinct, Gone, Behind, WasQueued, AtFront;
    past := e[..|e| - |q|];
    Apart(e, q);
    forall k | 0 <= k < |past| ensures Gone(s, past[k]) {
      assert past[k] == e[k];
    }
  }

  lemma Apart(e: seq<Id>, q: seq<Id>)
    requires |q| <= |e| && e[|e| - |q|..] == q
    ensures e == e[..|e| - |q|] + q
  {
  }

  /** The first send is in vain exactly when the channel was closed before it. */
  lemma LostExactly(steps: seq<Step>, id: Id)
    requires Enabled(Run(steps), Send(id)) && Kept(steps, Run(steps).requests[id].service)
    ensures id in Run(steps).shared.channels
    ensures Lost(Next(Run(steps), Send(id)), id) <==> !Run(steps).shared.channels[id].open
  {
    var s := Run(steps);
    hide Run, ServiceOk;
    RunKeeps(steps, s.requests[id].service);
    RequestsOk(s, s.requests[id].service, id);
  }

  // ---------- no send in vain ----------

  // The step Close is an environment that closes any channel at any time. The source closes
  // only the channel of a failed creation and those of a queue taken away.

  /** Not waiting for an endpoint any more: its queue was taken away, or it took it. */
  predicate Over(s: State, id: Id) {
    id in s.requests && (s.requests[id].refused || s.requests[id].phase.Closing? || s.requests[id].phase.Ended?)
  }

  /** Only channels of such requests are closed, or about to be. */
  ghost predicate ClosedOver(s: State) {
    && (forall id :: id in s.requests && id in s.shared.channels && !s.shared.channels[id].open ==> Over(s, id))
    && (forall id :: id in s.requests && s.requests[id].phase.Closing? ==> ListOver(s, s.requests[id].phase.q))
  }

  predicate ListOver(s: State, q: seq<Id>) {
    forall j :: 0 <= j < |q| ==> Over(s, q[j])
  }

  ghost predicate NoClose(steps: seq<Step>) {
    forall j :: 0 <= j < |steps| ==> !steps[j].Close?
  }

  lemma {:induction false} ClosedOnly(c: map<Id, Channel>, ids: seq<Id>, id: Id)
    requires id in AllClosed(c, ids) && !AllClosed(c, ids)[id].open
    ensures id in c && (!c[id].open || id in ids)
  {
    if ids != [] {
      var before := ids[..|ids| - 1];
      assert forall k :: k in before ==> k in ids;
      if id in AllClosed(c, before) && !AllClosed(c, before)[id].open { ClosedOnly(c, before, id); }
      AllClosedIs(c, before, id);
    }
  }

  lemma OverStays(s: State, step: Step, id: Id)
    requires Over(s, id)
    ensures Over(Next(s, step), id)
  {
    hide SkipDead, AllClosed, QueueOf;
  }

  /** A channel that is closed after a step was closed before, or by it. */
  lemma ClosedBy(s: State, step: Step, id: Id)
    requires Enabled(s, step) && !step.Close? && id in Next(s, step).shared.channels && !Next(s, step).shared.channels[id].open
    ensures || (id in s.shared.channels && !s.shared.channels[id].open && !(step.Arrive? && step.id == id))
            || (step.CreateFail? && step.id == id)
            || (step.CloseAll? && id in s.requests[step.id].phase.q)
  {
    hide SkipDead, AllClosed, QueueOf, Taken, Served;
    match step
    case CloseAll(k) => ClosedOnly(s.shared.channels, s.requests[k].phase.q, id);
    case _ =>
  }

  /** A queue that is about to be closed was so before, or was taken away by the step. */
  lemma ClosingBy(s: State, step: Step, id: Id)
    requires Enabled(s, step) && id in Next(s, step).requests && Next(s, step).requests[id].phase.Closing?
    ensures id in s.requests
    ensures || (s.requests[id].phase.Closing? && Next(s, step).requests[id].phase == s.requests[id].phase)
            || ((step.CreateFail? || step.Return?) && step.id == id
                && Next(s, step).requests == Taken(s.requests, id, QueueOf(s.shared, s.requests[id].service))
                && Next(s, step).requests[id].phase.q == QueueOf(s.shared, s.requests[id].service))
  {
    hide SkipDead, AllClosed, Served;
  }

  lemma TakenOver(s: State, t: State, id: Id, q: seq<Id>)
    requires id in s.requests && t.requests == Taken(s.requests, id, q)
    requires forall j :: 0 <= j < |q| ==> q[j] in s.requests
    ensures ListOver(t, q)
  {
    forall j | 0 <= j < |q| ensures Over(t, q[j]) {
      assert q[j] in q;
    }
  }

  lemma ListStays(s: State, step: Step, q: seq<Id>)
    requires ListOver(s, q)
    ensures ListOver(Next(s, step), q)
  {
    hide Next, Over;
    forall j | 0 <= j < |q| ensures Over(Next(s, step), q[j]) {
      OverStays(s, step, q[j]);
    }
  }

  /** Every step but Close keeps it. */
  lemma ClosedOverStep(s: State, step: Step)
    requires Own(s) && ClosedOver(s) && !step.Close?
    ensures ClosedOver(Next(s, step))
  {
    if Enabled(s, step) {
      var t := Next(s, step);
      forall id | id in t.requests && id in t.shared.channels && !t.shared.channels[id].open ensures Over(t, id) {
        ClosedOverAt(s, step, id);
      }
      forall id | id in t.requests && t.requests[id].phase.Closing? ensures ListOver(t, t.requests[id].phase.q) {
        ListOverAt(s, step, id);
      }
    }
  }

  lemma ClosedOverAt(s: State, step: Step, id: Id)
    requires Own(s) && ClosedOver(s) && !step.Close? && Enabled(s, step)
    requires var t := Next(s, step); id in t.requests && id in t.shared.channels && !t.shared.channels[id].open
    ensures Over(Next(s, step), id)
  {
    ClosedBy(s, step, id);
    RequestsBefore(s, step, id);
    if step.CreateFail? && step.id == id {
      FailedOver(s, id);
    } else {
      hide Next, Over, OwnQueue;
      if step.CloseAll? && id in s.requests[step.id].phase.q {
        var q := s.requests[step.id].phase.q;
        var j :| 0 <= j < |q| && q[j] == id;
        assert ListOver(s, q) && Over(s, q[j]);
      }
      OverStays(s, step, id);
    }
  }

  lemma RequestsBefore(s: State, step: Step, id: Id)
    requires Enabled(s, step) && id in Next(s, step).requests
    ensures id in s.requests || (step.Arrive? && step.id == id)
  {
    hide SkipDead, AllClosed, QueueOf, Served;
  }

  lemma FailedOver(s: State, id: Id)
    requires Enabled(s, CreateFail(id))
    ensures Over(Next(s, CreateFail(id)), id)
  {
  }

  lemma ListOverAt(s: State, step: Step, id: Id)
    requires Own(s) && ClosedOver(s) && Enabled(s, step)
    requires var t := Next(s, step); id in t.requests && t.requests[id].phase.Closing?
    ensures ListOver(Next(s, step), Next(s, step).requests[id].phase.q)
  {
    ClosingBy(s, step, id);
    var t := Next(s, step);
    hide Next, ListOver, Taken;
    if s.requests[id].phase.Closing? && t.requests[id].phase == s.requests[id].phase {
      ListStays(s, step, s.requests[id].phase.q);
    } else {
      QueueIsOwn(s, s.requests[id].service);
      TakenOver(s, t, id, QueueOf(s.shared, s.requests[id].service));
    }
  }

  lemma {:induction false} RunClosedOver(steps: seq<Step>)
    requires NoClose(steps)
    ensures Own(Run(steps)) && ClosedOver(Run(steps))
  {
    hide Next, Own, ClosedOver;
    if steps == [] {
      StartClosedOver();
    } else {
      var before := steps[..|steps| - 1];
      assert forall j :: 0 <= j < |before| ==> before[j] == steps[j];
      RunClosedOver(before);
      OwnStep(Run(before), steps[|steps| - 1]);
      ClosedOverStep(Run(before), steps[|steps| - 1]);
    }
  }

  lemma StartClosedOver()
    ensures Own(START) && ClosedOver(START)
  {
  }

  /** In every run in which channels are closed where the source closes them, whatever fails
      or races, a request that is still to be sent its endpoint can be sent it, and no lease
      is lost but of a queue that was taken away. */
  lemma NeverInVain(steps: seq<Step>, id: Id)
    requires NoClose(steps)
    ensures Enabled(Run(steps), Send(id)) && !Run(steps).requests[id].refused ==>
              id in Run(steps).shared.channels && Run(steps).shared.channels[id].open
    ensures Lost(Run(steps), id) ==> Run(steps).requests[id].refused
  {
    hide Run, OwnQueue, ListOver;
    RunClosedOver(steps);
  }

  // ---------- endpoints and what they were made for ----------

  /** What a step makes, and for which service. */
  function MadeNow(s: State, step: Step): set<(Service, Endpoint)> {
    if step.CreateOk? && Enabled(s, step) then {(s.requests[step.id].service, step.m)} else {}
  }

  function MadeBy(steps: seq<Step>): set<(Service, Endpoint)> {
    if steps == [] then {} else
      var n := |steps| - 1;
      MadeBy(steps[..n]) + MadeNow(Run(steps[..n]), steps[n])
  }

  predicate PhaseMade(r: Request, made: set<(Service, Endpoint)>) {
    r.phase.Created? || r.phase.Ready? || r.phase.Front? ==> (r.service, r.phase.m) in made
  }

  /** Every endpoint that is cached, about to be granted or granted was made for its service. */
  ghost predicate AllMade(s: State, made: set<(Service, Endpoint)>) {
    && (forall v :: v in s.shared.cache ==> (v, s.shared.cache[v]) in made)
    && (forall id :: id in s.requests ==> PhaseMade(s.requests[id], made))
    && (forall id :: id in s.requests && id in s.shared.channels ==> GotMade(s, id, made))
  }

  predicate GotMade(s: State, id: Id, made: set<(Service, Endpoint)>)
    requires id in s.requests && id in s.shared.channels
  {
    s.shared.channels[id].got.Some? ==> (s.requests[id].service, s.shared.channels[id].got.value) in made
  }

  lemma MadeStep(s: State, step: Step, made: set<(Service, Endpoint)>)
    requires Own(s) && AllMade(s, made)
    ensures AllMade(Next(s, step), made + MadeNow(s, step))
  {
    hide AllMade, AllClosed, SkipDead, Own, Next, PhaseMade, GotMade;
    var t, more := Next(s, step), made + MadeNow(s, step);
    if !Enabled(s, step) {
      NextNothing(s, step);
      MadeMore(s, made, more);
    } else {
      MadeFacts(s, made);
      CacheMade(s, step, made);
      forall id | id in t.requests ensures PhaseMade(t.requests[id], more) && (id in t.shared.channels ==> GotMade(t, id, more)) {
        RequestMade(s, step, id, made);
        if id in t.shared.channels { ChannelMade(s, step, id, made); }
      }
      MadeIs(t, more);
    }
  }

  lemma NextNothing(s: State, step: Step)
    requires !Enabled(s, step)
    ensures Next(s, step) == s
  {
  }

  lemma MadeMore(s: State, made: set<(Service, Endpoint)>, more: set<(Service, Endpoint)>)
    requires AllMade(s, made) && made <= more
    ensures AllMade(s, more)
  {
  }

  lemma MadeFacts(s: State, made: set<(Service, Endpoint)>)
    requires AllMade(s, made)
    ensures forall v :: v in s.shared.cache ==> (v, s.shared.cache[v]) in made
    ensures forall id :: id in s.requests ==> PhaseMade(s.requests[id], made)
    ensures forall id :: id in s.requests && id in s.shared.channels ==> GotMade(s, id, made)
  {
  }

  lemma MadeIs(s: State, made: set<(Service, Endpoint)>)
    requires forall v :: v in s.shared.cache ==> (v, s.shared.cache[v]) in made
    requires forall id :: id in s.requests ==> PhaseMade(s.requests[id], made) && (id in s.shared.channels ==> GotMade(s, id, made))
    ensures AllMade(s, made)
  {
  }

  lemma CacheMade(s: State, step: Step, made: set<(Service, Endpoint)>)
    requires Enabled(s, step) && AllMade(s, made)
    ensures forall v :: v in Next(s, step).shared.cache ==> (v, Next(s, step).shared.cache[v]) in made + MadeNow(s, step)
  {
    hide AllClosed, SkipDead, QueueOf, GotMade;
    if step.CacheInsert? { assert PhaseMade(s.requests[step.id], made); }
  }

  lemma RequestMade(s: State, step: Step, id: Id, made: set<(Service, Endpoint)>)
    requires Enabled(s, step) && id in Next(s, step).requests
    requires forall v :: v in s.shared.cache ==> (v, s.shared.cache[v]) in made
    requires forall k :: k in s.requests ==> PhaseMade(s.requests[k], made)
    ensures PhaseMade(Next(s, step).requests[id], made + MadeNow(s, step))
  {
    hide AllClosed, SkipDead, QueueOf, Closed, Sent, Inserted, Enqueued, HandedOver;
    if id in s.requests { assert PhaseMade(s.requests[id], made); }
  }

  lemma ChannelMade(s: State, step: Step, id: Id, made: set<(Service, Endpoint)>)
    requires Own(s) && Enabled(s, step) && id in Next(s, step).requests && id in Next(s, step).shared.channels
    requires forall k :: k in s.requests ==> PhaseMade(s.requests[k], made)
    requires forall k :: k in s.requests && k in s.shared.channels ==> GotMade(s, k, made)
    ensures GotMade(Next(s, step), id, made + MadeNow(s, step))
  {
    OwnChannels(s);
    if step.CloseAll? {
      AllClosedGot(s.shared.channels, s.requests[step.id].phase.q, id);
    } else if step.Return? && step.usable {
      HandedMade(s, step.id, id, made);
    } else {
      hide AllClosed, SkipDead, QueueOf, Own, Next;
      if id in s.requests { assert GotMade(s, id, made); }
      if step.Send? {
        assert PhaseMade(s.requests[step.id], made);
        SendGives(s, step.id, id);
      } else {
        ChannelSame(s, step, id);
      }
    }
  }

  lemma SendGives(s: State, from: Id, id: Id)
    requires Enabled(s, Send(from))
    ensures var t := Next(s, Send(from));
            && (id in t.requests ==> id in s.requests && t.requests[id].service == s.requests[id].service)
            && (id in t.shared.channels ==>
                  && id in s.shared.channels
                  && (t.shared.channels[id].got == s.shared.channels[id].got
                      || (id == from && t.shared.channels[id].got == Some(s.requests[from].phase.m))))
  {
  }

  /** The other steps send nothing. */
  lemma ChannelSame(s: State, step: Step, id: Id)
    requires Enabled(s, step) && !step.Send? && !step.CloseAll? && !(step.Return? && step.usable)
    requires id in Next(s, step).requests && id in Next(s, step).shared.channels
    requires id in s.requests ==> id in s.shared.channels
    ensures var t := Next(s, step);
            || (step.Arrive? && step.id == id && t.shared.channels[id].got == None)
            || (id in s.requests && t.requests[id].service == s.requests[id].service
                && id in s.shared.channels && t.shared.channels[id].got == s.shared.channels[id].got)
  {
    hide AllClosed, SkipDead, QueueOf, Served;
  }

  lemma {:induction false} AllClosedGot(channels: map<Id, Channel>, ids: seq<Id>, id: Id)
    ensures id in AllClosed(channels, ids) <==> id in channels
    ensures id in channels ==> AllClosed(channels, ids)[id].got == channels[id].got
  {
    if ids != [] { AllClosedGot(channels, ids[..|ids| - 1], id); }
  }

  lemma HandedMade(s: State, from: Id, id: Id, made: set<(Service, Endpoint)>)
    requires Own(s) && Holds(s, from) && id in s.requests && id in s.shared.channels && GotMade(s, from, made) && GotMade(s, id, made)
    ensures var t := DoHandOver(s, from); id in t.requests && id in t.shared.channels && GotMade(t, id, made)
  {
    hide SkipDead;
    var v := s.requests[from].service;
    if v in s.shared.queues && s.shared.queues[v] != [] {
      var q := s.shared.queues[v];
      SkipIsSuffix(s, v, q);
    }
  }

  lemma {:induction false} RunMade(steps: seq<Step>)
    ensures Own(Run(steps)) && AllMade(Run(steps), MadeBy(steps))
  {
    hide Next, Own, AllMade;
    if steps == [] {
      StartClosedOver();
      StartMade();
    } else {
      var n := |steps| - 1;
      RunMade(steps[..n]);
      OwnStep(Run(steps[..n]), steps[n]);
      MadeStep(Run(steps[..n]), steps[n], MadeBy(steps[..n]));
    }
  }

  lemma StartMade()
    ensures AllMade(START, {})
  {
  }

  lemma {:induction false} MadeAt(steps: seq<Step>, v: Service, m: Endpoint) returns (i: nat)
    requires (v, m) in MadeBy(steps)
    ensures i < |steps| && steps[i].CreateOk? && steps[i].m == m
    ensures var s := Run(steps[..i]); steps[i].id in s.requests && s.requests[steps[i].id].service == v
  {
    hide Run;
    var n := |steps| - 1;
    if (v, m) in MadeBy(steps[..n]) {
      i := MadeAt(steps[..n], v, m);
      assert steps[..n][..i] == steps[..i];
    } else {
      i := n;
    }
  }

  /** Whatever fails or races, an endpoint that a request is granted was made for its service. */
  lemma OwnEndpoint(steps: seq<Step>, id: Id) returns (i: nat)
    requires Holds(Run(steps), id)
    ensures i < |steps| && steps[i].CreateOk? && steps[i].m == Run(steps).shared.channels[id].got.value
    ensures var s := Run(steps[..i]);
            steps[i].id in s.requests && s.requests[steps[i].id].service == Run(steps).requests[id].service
  {
    RunMade(steps);
    var s := Run(steps);
    assert GotMade(s, id, MadeBy(steps));
    i := MadeAt(steps, s.requests[id].service, s.shared.channels[id].got.value);
  }

  /** A cached endpoint stays until its service is found stale or removed; a new one is the one
      a request for the service made. */
  lemma CacheStep(s: State, step: Step, v: Service)
    ensures var before, after := s.shared.cache, Next(s, step).shared.cache;
            && (v in before && step != Remove(v)
                && !(step.EraseStale? && Enabled(s, step) && s.requests[step.id].service == v) ==>
                  v in after && after[v] == before[v])
            && (step == Remove(v) || (step.EraseStale? && Enabled(s, step) && s.requests[step.id].service == v) ==> v !in after)
            && (v !in before && v in after ==>
                  step.CacheInsert? && Enabled(s, step) && s.requests[step.id].service == v
                  && s.requests[step.id].phase == Created(after[v]))
            && (step.CacheInsert? && Enabled(s, step) && s.requests[step.id].service == v ==> v in after)
  {
    hide AllClosed, SkipDead, QueueOf, Taken;
  }

  // ---------- what a request is sent ----------

  /** A cached endpoint that is in order is the one the request goes on with; one that is not is
      erased, and without one a new one is made. */
  lemma LookedUp(s: State, id: Id, ok: bool)
    requires Enabled(s, Lookup(id, ok))
    ensures var t, v := Next(s, Lookup(id, ok)), s.requests[id].service;
            && t.shared == s.shared
            && (v in s.shared.cache && ok ==> Enabled(t, Enqueue(id)) && t.requests[id].phase.m == s.shared.cache[v])
            && (v in s.shared.cache && !ok ==>
                  var u := Next(t, EraseStale(id)); v !in u.shared.cache && forall m :: Enabled(u, CreateOk(id, m)))
            && (v !in s.shared.cache ==> forall m :: Enabled(t, CreateOk(id, m)))
  {
  }

  /** A request that made an endpoint goes on with that one, whichever the cache keeps. */
  lemma MadeForItself(s: State, id: Id, m: Endpoint)
    requires Enabled(s, CreateOk(id, m))
    ensures var u := Next(Next(s, CreateOk(id, m)), CacheInsert(id));
            Enabled(u, Enqueue(id)) && u.requests[id].phase.m == m && s.requests[id].service in u.shared.cache
  {
  }

  /** It waits behind the others; without others it sends itself the endpoint it went on with. */
  lemma QueuedOrSent(s: State, id: Id)
    requires Enabled(s, Enqueue(id))
    ensures var t, v, m := Next(s, Enqueue(id)), s.requests[id].service, s.requests[id].phase.m;
            if v in s.shared.queues then
              t.requests[id].phase == Queued && t.shared.queues[v] == s.shared.queues[v] + [id]
            else
              && t.shared.queues[v] == [id] && Enabled(t, Send(id))
              && (CanTake(s.shared.channels, id) ==> Next(t, Send(id)).shared.channels[id].got == Some(m))
  {
  }

  // ---------- what a return does ----------

  /** A usable endpoint that is given back goes on to the first that can still be sent to, and
      nobody else is sent anything; without one the queue ends. */
  lemma HandsOn(s: State, id: Id)
    requires Holds(s, id)
    requires s.requests[id].service in s.shared.queues && s.shared.queues[s.requests[id].service] != []
    ensures var t, v, m := Next(s, Return(id, true)), s.requests[id].service, s.shared.channels[id].got.value;
            var rest := s.shared.queues[v][1..];
            if forall k :: 0 <= k < |rest| ==> !CanTake(s.shared.channels, rest[k]) then
              v !in t.shared.queues && t.shared.channels == s.shared.channels
            else
              v in t.shared.queues && t.shared.queues[v] != []
              && var heir := t.shared.queues[v][0];
                 && heir in rest && CanTake(s.shared.channels, heir)
                 && t.shared.channels == s.shared.channels[heir := Channel(true, Some(m))]
                 && exists k :: 0 <= k < |rest| && rest[k..] == t.shared.queues[v]
                                && forall j :: 0 <= j < k ==> !CanTake(s.shared.channels, rest[j])
  {
    hide SkipDead;
    var rest := s.shared.queues[s.requests[id].service][1..];
    var r := SkipDead(s.shared.channels, rest);
    SkipsOnlyDead(s.shared.channels, rest);
    if r != [] {
      assert rest[|rest| - |r|] == r[0];
    } else {
      assert forall k :: 0 <= k < |rest| ==> !CanTake(s.shared.channels, rest[k]);
    }
  }

  /** One that is not usable, or that could not be made, ends the queue, and all that wait in it
      find their channels closed. */
  lemma WaitersClosed(s: State, step: Step)
    requires Enabled(s, step) && (step.CreateFail? || (step.Return? && !step.usable))
    ensures var t, v := Next(Next(s, step), CloseAll(step.id)), s.requests[step.id].service;
            && v !in t.shared.queues
            && forall k :: k in QueueOf(s.shared, v) && k in t.shared.channels ==> !t.shared.channels[k].open
  {
    var id, v := step.id, s.requests[step.id].service;
    var u, q := Next(s, step), QueueOf(s.shared, s.requests[step.id].service);
    TakenAway(s, step);
    forall k | k in q && k in AllClosed(u.shared.channels, q) ensures !AllClosed(u.shared.channels, q)[k].open {
      AllClosedIn(u.shared.channels, q, k);
    }
  }

  lemma TakenAway(s: State, step: Step)
    requires Enabled(s, step) && (step.CreateFail? || (step.Return? && !step.usable))
    ensures var u, v := Next(s, step), s.requests[step.id].service;
            && v !in u.shared.queues && step.id in u.requests && u.requests[step.id].phase == Closing(QueueOf(s.shared, v))
            && u.requests[step.id].service == v
  {
    hide SkipDead, AllClosed;
  }

  lemma {:induction false} AllClosedIn(channels: map<Id, Channel>, ids: seq<Id>, id: Id)
    requires id in ids && id in AllClosed(channels, ids)
    ensures !AllClosed(channels, ids)[id].open
  {
    var before := ids[..|ids| - 1];
    if ids[|ids| - 1] != id {
      assert id in before;
      AllClosedIn(channels, before, id);
    }
  }

  // ---------- a lease that is kept ----------

  /** The request has the endpoint of this service, in a queue that was not taken away. */
  predicate Keeps(s: State, v: Service, id: Id) {
    Holds(s, id) && s.requests[id].service == v && !s.requests[id].refused
  }

  /** A creation for this service fails. */
  predicate FailsFor(s: State, step: Step, v: Service) {
    step.CreateFail? && Enabled(s, step) && s.requests[step.id].service == v
  }

  /** What ends the lease: its holder gives it back, or such a failure. */
  predicate EndsLease(s: State, step: Step, v: Service, id: Id) {
    FailsFor(s, step, v) || (step.Return? && step.id == id)
  }

  /** None of the later steps does that. */
  ghost predicate NoEnd(steps: seq<Step>, more: seq<Step>, v: Service, id: Id) {
    more != [] ==>
      && NoEnd(steps, more[..|more| - 1], v, id)
      && !EndsLease(Run(steps + more[..|more| - 1]), more[|more| - 1], v, id)
  }

  lemma KeepsStep(s: State, step: Step, v: Service, id: Id)
    requires InvFor(s, v) && Keeps(s, v, id) && !EndsLease(s, step, v, id)
    ensures Keeps(Next(s, step), v, id) && Entries(Next(s, step).granted, v) == Entries(s.granted, v)
  {
    hide InvFor, ServiceOk, SkipDead, AllClosed, QueueOk, DoHandOver, DoTake;
    if Enabled(s, step) {
      if (step.Send? || step.Return?) && s.requests[step.id].service == v && step.id != id {
        NobodyElse(s, v, id, step.id);
      }
      match step
      case Return(k, usable) => if usable { KeepsHandOver(s, v, id, k); } else { KeepsTake(s, v, id, k); }
      case CreateFail(k) => KeepsTake(s, v, id, k);
      case CloseAll(k) => AllClosedIs(s.shared.channels, s.requests[k].phase.q, id);
      case _ =>
    }
  }

  /** Nobody else of the service holds a lease, and who still sends does so in vain. */
  lemma NobodyElse(s: State, v: Service, id: Id, k: Id)
    requires InvFor(s, v) && Keeps(s, v, id) && k in s.requests && s.requests[k].service == v && k != id
    ensures !Holds(s, k)
    ensures s.requests[k].phase.Front? ==> !CanTake(s.shared.channels, k)
  {
    hide ServiceOk, RequestOk;
    OutstandingFirst(s, v, id);
    RequestsOk(s, v, k);
    if s.requests[k].phase.Front? && s.requests[k].refused {
      RefusedFront(s, k);
    } else if Outstanding(s, v, k) {
      OutstandingFirst(s, v, k);
    }
  }

  lemma KeepsHandOver(s: State, v: Service, id: Id, k: Id)
    requires InvFor(s, v) && Keeps(s, v, id) && Holds(s, k) && s.requests[k].service != v
    ensures Keeps(DoHandOver(s, k), v, id) && Entries(DoHandOver(s, k).granted, v) == Entries(s.granted, v)
  {
    hide ServiceOk, SkipDead, QueueOk, Own;
    QueueIsOwn(s, s.requests[k].service);
    var q := QueueOf(s.shared, s.requests[k].service);
    if q != [] { HeirIn(s.shared.channels, q); }
  }

  lemma KeepsTake(s: State, v: Service, id: Id, k: Id)
    requires InvFor(s, v) && Keeps(s, v, id) && k in s.requests && s.requests[k].service != v
    ensures Keeps(DoTake(s, k), v, id) && Entries(DoTake(s, k).granted, v) == Entries(s.granted, v)
    ensures Keeps(DoCreateFail(s, k), v, id) && Entries(DoCreateFail(s, k).granted, v) == Entries(s.granted, v)
  {
    hide ServiceOk, QueueOk, Own;
    QueueIsOwn(s, s.requests[k].service);
  }

  lemma HarmlessIf(s: State, step: Step, v: Service)
    requires !FailsFor(s, step, v)
    ensures Harmless(s, step, v)
  {
  }

  /** Until its holder gives it back, or a creation for the service fails, nobody else is
      granted the service's endpoint, whatever else happens to any service; so a holder that
      goes away without giving it back keeps it. */
  lemma {:induction false} HeldUntilReturn(steps: seq<Step>, more: seq<Step>, v: Service, id: Id)
    requires Kept(steps, v) && Keeps(Run(steps), v, id) && NoEnd(steps, more, v, id)
    ensures Kept(steps + more, v) && Keeps(Run(steps + more), v, id)
    ensures Entries(Run(steps + more).granted, v) == Entries(Run(steps).granted, v)
    decreases |more|
  {
    hide Next, Keeps, Harmless, InvFor, Entries, FailsFor;
    if more == [] {
      assert steps + more == steps;
    } else {
      var n := |more| - 1;
      var before := steps + more[..n];
      assert (steps + more)[..|steps + more| - 1] == before;
      HeldUntilReturn(steps, more[..n], v, id);
      RunKeeps(before, v);
      HarmlessIf(Run(before), more[n], v);
      KeepsStep(Run(before), more[n], v, id);
    }
  }

  /** A request comes, its creation fails, ... */
  function FailSteps(v: Service, b: Id): seq<Step> {
    [Remove(v), Arrive(b, v), Lookup(b, false), CreateFail(b)]
  }

  /** ... another one comes and creates an endpoint. */
  function GrantSteps(v: Service, c: Id, m: Endpoint): seq<Step> {
    [Arrive(c, v), Lookup(c, false), CreateOk(c, m), CacheInsert(c), Enqueue(c), Send(c)]
  }

  /** After any run at all a failed creation can be followed by a grant: so it always can
      end the wait. */
  lemma GrantedAfterFailure(steps: seq<Step>, v: Service, b: Id, c: Id, m: Endpoint)
    requires b !in Run(steps).requests && c !in Run(steps).requests && b != c
    ensures FailsFor(Run(steps + FailSteps(v, b)[..3]), CreateFail(b), v)
    ensures var t := Run(steps + FailSteps(v, b) + GrantSteps(v, c, m));
            Entries(t.granted, v) == Entries(Run(steps).granted, v) + [c] && t.broken == Run(steps).broken
  {
    hide Run;
    var done := steps + FailSteps(v, b);
    var s := Failed(steps, v, b);
    Granted(done, v, c, m);
  }

  lemma RunSnoc(steps: seq<Step>, step: Step)
    ensures Run(steps + [step]) == Next(Run(steps), step)
  {
    assert (steps + [step])[..|steps|] == steps;
  }

  lemma Failed(steps: seq<Step>, v: Service, b: Id) returns (s: State)
    requires b !in Run(steps).requests
    ensures s == Run(steps + FailSteps(v, b)) && v !in s.shared.queues
    ensures FailsFor(Run(steps + FailSteps(v, b)[..3]), CreateFail(b), v)
    ensures v !in s.shared.cache && s.requests.Keys == Run(steps).requests.Keys + {b}
    ensures s.granted == Run(steps).granted && s.broken == Run(steps).broken
  {
    hide Run, Next;
    BeforeFailure(Run(steps), v, b);
    var f := FailSteps(v, b);
    var s1, s2, s3 := steps + [f[0]], steps + [f[0]] + [f[1]], steps + [f[0]] + [f[1]] + [f[2]];
    assert s3 == steps + f[..3] && s3 + [f[3]] == steps + f;
    RunSnoc(steps, f[0]);
    RunSnoc(s1, f[1]);
    RunSnoc(s2, f[2]);
    RunSnoc(s3, f[3]);
    s := Run(steps + f);
  }

  lemma BeforeFailure(s: State, v: Service, b: Id)
    requires b !in s.requests
    ensures var t := Next(Next(Next(s, Remove(v)), Arrive(b, v)), Lookup(b, false));
            var u := Next(t, CreateFail(b));
            && FailsFor(t, CreateFail(b), v) && v !in u.shared.cache && v !in u.shared.queues
            && u.requests.Keys == s.requests.Keys + {b} && u.granted == s.granted && u.broken == s.broken
  {
    hide Closed, Taken;
    var t := Next(Next(Next(s, Remove(v)), Arrive(b, v)), Lookup(b, false));
    CreatingNow(s, v, b);
    hide Next;
    CreationFails(t, b);
  }

  lemma CreatingNow(s: State, v: Service, b: Id)
    requires b !in s.requests
    ensures var t := Next(Next(Next(s, Remove(v)), Arrive(b, v)), Lookup(b, false));
            && t.requests == s.requests[b := Request(v, Creating, false)] && b in t.shared.channels
            && v !in t.shared.cache && t.granted == s.granted && t.broken == s.broken
  {
  }

  lemma CreationFails(t: State, b: Id)
    requires b in t.requests && t.requests[b].phase == Creating && b in t.shared.channels
    ensures var u, v := Next(t, CreateFail(b)), t.requests[b].service;
            && FailsFor(t, CreateFail(b), v) && v !in u.shared.queues && u.shared.cache == t.shared.cache
            && u.requests.Keys == t.requests.Keys && u.granted == t.granted && u.broken == t.broken
  {
    hide Closed;
  }

  lemma Granted(steps: seq<Step>, v: Service, c: Id, m: Endpoint)
    requires c !in Run(steps).requests && v !in Run(steps).shared.cache && v !in Run(steps).shared.queues
    ensures var t := Run(steps + GrantSteps(v, c, m));
            Entries(t.granted, v) == Entries(Run(steps).granted, v) + [c] && t.broken == Run(steps).broken
  {
    hide Run;
    var f := GrantSteps(v, c, m);
    var s3 := CreatedFor(steps, v, c, m);
    var t3 := steps + f[..3];
    var t4, t5 := t3 + [f[3]], t3 + [f[3]] + [f[4]];
    assert t5 + [f[5]] == steps + f;
    RunSnoc(t3, f[3]);
    RunSnoc(t4, f[4]);
    RunSnoc(t5, f[5]);
  }

  lemma CreatedFor(steps: seq<Step>, v: Service, c: Id, m: Endpoint) returns (s: State)
    requires c !in Run(steps).requests && v !in Run(steps).shared.cache && v !in Run(steps).shared.queues
    ensures s == Run(steps + GrantSteps(v, c, m)[..3])
    ensures s.shared.queues == Run(steps).shared.queues && s.granted == Run(steps).granted && s.broken == Run(steps).broken
    ensures c in s.requests && s.requests[c] == Request(v, Created(m), false)
    ensures c in s.shared.channels && s.shared.channels[c] == FRESH
  {
    hide Run;
    var f := GrantSteps(v, c, m);
    var s1, s2 := steps + [f[0]], steps + [f[0]] + [f[1]];
    assert s2 + [f[2]] == steps + f[..3];
    RunSnoc(steps, f[0]);
    RunSnoc(s1, f[1]);
    RunSnoc(s2, f[2]);
    s := Run(steps + f[..3]);
  }

  // ---------- a failed creation ----------

  /** What the first send of a request, and its return after it, do to the assertions for a
      service. */
  predicate ThenBroken(t: State, v: Service, a: Id) {
    v in Next(Next(t, Send(a)), Return(a, true)).broken
  }

  /** Exactly the creations that fail while a lease of the service is live break return_back:
      they take the queue away, and the holder's return looks for it. All others are Harmless,
      and the service goes on as OneLease says. */
  lemma FailureBreaks(steps: seq<Step>, b: Id)
    requires Enabled(Run(steps), CreateFail(b)) && Kept(steps, Run(steps).requests[b].service)
    ensures var s := Run(steps); var v := s.requests[b].service;
            && ((exists a :: ThenBroken(Next(s, CreateFail(b)), v, a)) <==> !Harmless(s, CreateFail(b), v))
            && (Harmless(s, CreateFail(b), v) <==> Kept(steps + [CreateFail(b)], v))
  {
    var s := Run(steps);
    var v := s.requests[b].service;
    RunKeeps(steps, v);
    KeptSnoc(steps, CreateFail(b), v);
    hide Run, ThenBroken, LiveLease, InvFor, Kept;
    var q := QueueOf(s.shared, v);
    if !Harmless(s, CreateFail(b), v) {
      LiveBreaks(s, b, q[0]);
    } else {
      forall a ensures !ThenBroken(Next(s, CreateFail(b)), v, a) {
        HarmlessSafe(s, b, a);
      }
    }
  }

  lemma KeptSnoc(steps: seq<Step>, step: Step, v: Service)
    ensures Kept(steps + [step], v) <==> Kept(steps, v) && Harmless(Run(steps), step, v)
  {
    assert (steps + [step])[..|steps|] == steps;
    hide Harmless, Run;
  }

  lemma LiveBreaks(s: State, b: Id, a: Id)
    requires Enabled(s, CreateFail(b)) && InvFor(s, s.requests[b].service) && LiveLease(s, a)
    requires var q := QueueOf(s.shared, s.requests[b].service); q != [] && q[0] == a
    ensures ThenBroken(Next(s, CreateFail(b)), s.requests[b].service, a)
  {
    hide ServiceOk, QueueOk;
    var v := s.requests[b].service;
    QueueIsOwn(s, v);
    RequestsOk(s, v, a);
    var t := Next(s, CreateFail(b));
    assert a != b && t.requests[a].phase == s.requests[a].phase && t.shared.channels[a] == s.shared.channels[a];
    hide Next, QueueOf, DoCreateFail;
    SendThenReturn(t, v, a);
  }

  lemma SendThenReturn(t: State, v: Service, a: Id)
    requires LiveLease(t, a) && t.requests[a].service == v && v !in t.shared.queues
    requires t.requests[a].phase.Front? ==> t.shared.channels[a].got.None?
    ensures ThenBroken(t, v, a)
  {
  }

  lemma HarmlessSafe(s: State, b: Id, a: Id)
    requires Enabled(s, CreateFail(b)) && InvFor(s, s.requests[b].service) && TakeOk(s, b)
    ensures !ThenBroken(Next(s, CreateFail(b)), s.requests[b].service, a)
  {
    var v := s.requests[b].service;
    var t := Next(s, CreateFail(b));
    CreateFailFor(s, b);
    hide InvFor, Next, DoCreateFail;
    StepKeeps(t, Send(a), v);
    var u := Next(t, Send(a));
    StepKeeps(u, Return(a, true), v);
    NotBroken(Next(u, Return(a, true)), v);
  }

  lemma NotBroken(s: State, v: Service)
    requires InvFor(s, v)
    ensures v !in s.broken
  {
  }

  /** Two requests miss the cache together, one is granted its endpoint, ... */
  const RACE := [Arrive(0, "a:80"), Arrive(1, "a:80"), Lookup(0, false), Lookup(1, false), CreateOk(0, 7), CacheInsert(0),
                 Enqueue(0), Send(0)]

  lemma RunTo(steps: seq<Step>, k: nat)
    requires k < |steps|
    ensures Run(steps[..k + 1]) == Next(Run(steps[..k]), steps[k])
  {
    assert steps[..k + 1][..k] == steps[..k];
  }

  /** ... the other fails to create one, and the assertion fails at the first one's return. */
  lemma RaceBreaks()
    ensures "a:80" in Run(RACE + [CreateFail(1), Return(0, true)]).broken
  {
    hide Run;
    var steps := RACE + [CreateFail(1), Return(0, true)];
    var s := RaceState();
    assert steps[..8] == RACE && steps[..10] == steps;
    RunTo(steps, 8);
    RunTo(steps, 9);
    var t := Next(s, CreateFail(1));
    assert "a:80" !in t.shared.queues && Holds(t, 0);
  }

  /** Both create, then one is granted its endpoint. */
  lemma RaceState() returns (s: State)
    ensures s == Run(RACE) && "a:80" in s.shared.queues
    ensures 0 in s.requests && s.requests[0] == Request("a:80", Granting, false)
    ensures 1 in s.requests && s.requests[1] == Request("a:80", Creating, false)
    ensures 0 in s.shared.channels && s.shared.channels[0].got == Some(7)
  {
    hide Run;
    assert RACE[..8] == RACE;
    var d := FirstReady();
    RunTo(RACE, 6);
    RunTo(RACE, 7);
    s := Next(Next(d, RACE[6]), RACE[7]);
  }

  lemma FirstReady() returns (s: State)
    ensures s == Run(RACE[..6])
    ensures s.shared == Shared(map["a:80" := 7], map[], map[0 := FRESH, 1 := FRESH])
    ensures s.requests == map[0 := Request("a:80", Ready(7), false), 1 := Request("a:80", Creating, false)]
  {
    hide Run;
    var c := BothCreate();
    RunTo(RACE, 4);
    RunTo(RACE, 5);
    s := Next(Next(c, RACE[4]), RACE[5]);
  }

  lemma BothCreate() returns (s: State)
    ensures s == Run(RACE[..4]) && s.shared == Shared(map[], map[], map[0 := FRESH, 1 := FRESH])
    ensures s.requests == map[0 := Request("a:80", Creating, false), 1 := Request("a:80", Creating, false)]
  {
    StartRun();
    hide Run;
    assert RACE[..0] == [];
    RunTo(RACE, 0);
    RunTo(RACE, 1);
    RunTo(RACE, 2);
    RunTo(RACE, 3);
    s := Next(Next(Next(Next(START, RACE[0]), RACE[1]), RACE[2]), RACE[3]);
  }

  // ---------- the object, driven through a run ----------

  /** The object's methods, called by any requests in any order without a harmful failure, keep
      to the run; in particular both assertions of return_back hold at every call. */
  method Interleave(steps: seq<Step>) returns (svc: SvcCache, requests: map<Id, Request>)
    requires forall v :: Kept(steps, v)
    ensures fresh(svc) && svc.View() == Run(steps).shared && requests == Run(steps).requests
  {
    hide Run, InvFor, Kept;
    svc := new SvcCache();
    requests := map[];
    StartRun();
    var i := 0;
    while i < |steps|
      invariant 0 <= i <= |steps| && fresh(svc)
      invariant svc.View() == Run(steps[..i]).shared && requests == Run(steps[..i]).requests
    {
      ghost var s := Run(steps[..i]);
      forall v ensures InvFor(s, v) {
        KeptPrefix(steps, i, v);
        RunKeeps(steps[..i], v);
      }
      RunTo(steps, i);
      requests := Perform(svc, s, requests, steps[i]);
      i := i + 1;
    }
    assert steps[..|steps|] == steps;
  }

  lemma StartRun()
    ensures Run([]) == START
  {
  }

  lemma {:induction false} KeptPrefix(steps: seq<Step>, n: nat, v: Service)
    requires Kept(steps, v) && n <= |steps|
    ensures Kept(steps[..n], v)
  {
    if n == |steps| {
      assert steps[..n] == steps;
    } else {
      KeptPrefix(steps[..|steps| - 1], n, v);
      assert steps[..|steps| - 1][..n] == steps[..n];
    }
  }

  method ReturnFailed(svc: SvcCache, frames: map<Id, Request>, id: Id) returns (requests: map<Id, Request>)
    requires id in frames
    modifies svc
    ensures var v := frames[id].service;
            && svc.View() == old(svc.View()).(queues := old(svc.requestQueue) - {v})
            && requests == Taken(frames, id, QueueOf(old(svc.View()), v))
  {
    var q := svc.TakeQueue(frames[id].service);
    requests := Taken(frames, id, q);
  }

  method PerformReturn(svc: SvcCache, ghost s: State, frames: map<Id, Request>, id: Id, usable: bool)
    returns (requests: map<Id, Request>)
    requires (id in s.requests ==> InvFor(s, s.requests[id].service)) && svc.View() == s.shared && frames == s.requests
    modifies svc
    ensures var t := Next(s, Return(id, usable)); svc.View() == t.shared && requests == t.requests
  {
    hide InvFor, SkipDead, ServiceOk, RequestOk, Taken;
    requests := frames;
    if id in requests && (requests[id].phase == Queued || requests[id].phase == Granting) {
      var got := svc.Received(id);
      if got.Some? {
        if usable {
          Asserted(s, id);
          svc.HandOver(requests[id].service, got.value);
          requests := requests[id := requests[id].(phase := Ended)];
        } else {
          requests := ReturnFailed(svc, requests, id);
        }
      }
    }
  }

  /** The end of get_endpoint. */
  method PerformGrant(svc: SvcCache, ghost s: State, frames: map<Id, Request>, step: Step)
    returns (requests: map<Id, Request>)
    requires (step.Enqueue? || step.Send?) && svc.View() == s.shared && frames == s.requests
    modifies svc
    ensures svc.View() == Next(s, step).shared && requests == Next(s, step).requests
  {
    hide InvFor, ServiceOk, RequestOk, DoHandOver, Taken, Holds, Sent;
    requests := frames;
    match step {
      case Enqueue(id) =>
        if id in requests && requests[id].phase.Ready? {
          var justWait := svc.Enqueue(requests[id].service, id);
          var p := if justWait then Queued else Front(requests[id].phase.m);
          requests := requests[id := requests[id].(phase := p)];
        }
      case Send(id) =>
        if id in requests && requests[id].phase.Front? {
          var _ := svc.TrySend(id, requests[id].phase.m);
          requests := requests[id := requests[id].(phase := Granting)];
        }
    }
  }

  /** The start of get_endpoint. */
  method PerformLookup(svc: SvcCache, ghost s: State, frames: map<Id, Request>, step: Step)
    returns (requests: map<Id, Request>)
    requires (step.Arrive? || step.Lookup? || step.EraseStale?) && svc.View() == s.shared && frames == s.requests
    modifies svc
    ensures svc.View() == Next(s, step).shared && requests == Next(s, step).requests
  {
    requests := frames;
    match step {
      case Arrive(id, v) =>
        if id !in requests {
          svc.Open(id);
          requests := requests[id := Request(v, Looking, false)];
        }
      case Lookup(id, ok) =>
        if id in requests && requests[id].phase == Looking {
          var hit := svc.Find(requests[id].service);
          var p := if hit.None? then Creating else if ok then Ready(hit.value) else Stale;
          requests := requests[id := requests[id].(phase := p)];
        }
      case EraseStale(id) =>
        if id in requests && requests[id].phase == Stale {
          var _ := svc.RemoveEndpoint(requests[id].service);
          requests := requests[id := requests[id].(phase := Creating)];
        }
    }
  }

  method Perform(svc: SvcCache, ghost s: State, frames: map<Id, Request>, step: Step) returns (requests: map<Id, Request>)
    requires (forall v :: InvFor(s, v)) && svc.View() == s.shared && frames == s.requests
    modifies svc
    ensures svc.View() == Next(s, step).shared && requests == Next(s, step).requests
  {
    hide InvFor, AllClosed, SkipDead, ServiceOk, RequestOk, DoHandOver, DoEnqueue, DoSend, Taken, Holds, Sent;
    requests := frames;
    match step {
      case Arrive(id, v) => requests := PerformLookup(svc, s, frames, step);
      case Lookup(id, ok) => requests := PerformLookup(svc, s, frames, step);
      case EraseStale(id) => requests := PerformLookup(svc, s, frames, step);
      case CreateOk(id, m) =>
        if id in requests && requests[id].phase == Creating {
          requests := requests[id := requests[id].(phase := Created(m))];
        }
      case CreateFail(id) =>
        if id in requests && requests[id].phase == Creating {
          svc.Close(id);
          requests := ReturnFailed(svc, requests, id);
        }
      case CacheInsert(id) =>
        if id in requests && requests[id].phase.Created? {
          svc.Insert(requests[id].service, requests[id].phase.m);
          requests := requests[id := requests[id].(phase := Ready(requests[id].phase.m))];
        }
      case Enqueue(id) => requests := PerformGrant(svc, s, frames, step);
      case Send(id) => requests := PerformGrant(svc, s, frames, step);
      case Return(id, usable) =>
        requests := PerformReturn(svc, s, frames, id, usable);
      case CloseAll(id) =>
        if id in requests && requests[id].phase.Closing? {
          svc.CloseAll(requests[id].phase.q);
          requests := requests[id := requests[id].(phase := Ended)];
        }
      case Close(id) => svc.Close(id);
      case Remove(v) => var _ := svc.RemoveEndpoint(v);
    }
  }

  /** The assertions of return_back. */
  lemma Asserted(s: State, id: Id)
    requires Holds(s, id) && InvFor(s, s.requests[id].service)
    ensures var v := s.requests[id].service; v in s.shared.queues && s.shared.queues[v] != []
  {
    OutstandingFirst(s, s.requests[id].service, id);
  }
}
