/** One lookup per host at a time: slow_dns_imp::resolve, async_resolve and remove of
    src/dns.cpp. Every region held under a lock is one atomic step; between two steps any
    other call may take any number of its own. */
module SingleFlight {
  import opened Wrappers

  datatype Host = Host(name: string, service: string)
  datatype Endpoint = Endpoint(ip: string, port: nat)
  type Endpoints = seq<Endpoint>

  /** The identity of a call and of the channel made for it. */
  type Id = nat

  const CAPACITY := 1

  /** A channel: what waits in its buffer, and what was taken out of it. */
  datatype Channel = Channel(buffer: seq<Endpoints>, taken: seq<Endpoints>) {
    /** Everything the channel ever accepted. */
    function Accepted(): seq<Endpoints> { taken + buffer }

    /** A full channel refuses. */
    function TrySend(el: Endpoints): Channel {
      if |buffer| < CAPACITY then this.(buffer := buffer + [el]) else this
    }
  }

  const FRESH := Channel([], [])

  /** A channel holds one list and refuses the next, until that is taken. */
  lemma FullRefuses(first: Endpoints, next: Endpoints)
    ensures FRESH.TrySend(first) == Channel([first], []) && FRESH.TrySend(first).TrySend(next) == FRESH.TrySend(first)
  {
  }

  /** What the locks protect, and the channels. */
  datatype Shared = Shared(cache: map<Host, Endpoints>, running: map<Host, seq<Id>>, channels: map<Id, Channel>, hasInit: bool)

  // ---------- the regions under a lock ----------

  function Cached(s: Shared, h: Host): Option<Endpoints> {
    if h in s.cache then Some(s.cache[h]) else None
  }

  /** Configured hosts go in once, and where a path for them is set; those already there
      keep their lists. */
  function Configured(s: Shared, dnsPath: string, hm: map<Host, Endpoints>): Shared {
    if dnsPath == "" || s.hasInit then s else s.(cache := hm + s.cache, hasInit := true)
  }

  function Registered(s: Shared, id: Id, h: Host): Shared {
    s.(running := s.running[h := if h in s.running then s.running[h] + [id] else [id]])
  }

  function Erased(s: Shared, h: Host): Shared {
    s.(running := s.running - {h})
  }

  function Inserted(s: Shared, h: Host, el: Endpoints): Shared {
    if h in s.cache then s else s.(cache := s.cache[h := el])
  }

  function SendAll(channels: map<Id, Channel>, ids: seq<Id>, el: Endpoints): map<Id, Channel> {
    if ids == [] then channels else
      var c := SendAll(channels, ids[..|ids| - 1], el);
      var id := ids[|ids| - 1];
      if id in c then c[id := c[id].TrySend(el)] else c
  }

  function Woken(s: Shared, h: Host, el: Endpoints): Shared
    requires h in s.running
  {
    Erased(s.(channels := SendAll(s.channels, s.running[h], el)), h)
  }

  class SlowDns {
    var edpCache: map<Host, Endpoints>
    var resolveRunning: map<Host, seq<Id>>
    var channels: map<Id, Channel>
    var hasInit: bool

    ghost function View(): Shared
      reads this
    {
      Shared(edpCache, resolveRunning, channels, hasInit)
    }

    constructor ()
      ensures View() == Shared(map[], map[], map[], false)
    {
      edpCache, resolveRunning, channels, hasInit := map[], map[], map[], false;
    }

    /** resolve, up to the spawn: the cached list, or a new channel. */
    method Resolve(id: Id, h: Host) returns (hit: Option<Endpoints>)
      modifies this
      ensures hit == Cached(old(View()), h)
      ensures View() == if hit.Some? then old(View()) else old(View()).(channels := old(channels)[id := FRESH])
    {
      if h in edpCache {
        return Some(edpCache[h]);
      }
      channels := channels[id := FRESH];
      return None;
    }

    /** async_resolve, first region: join the list of the host or start it. */
    method Register(id: Id, h: Host) returns (needResolve: bool)
      modifies this
      ensures View() == Registered(old(View()), id, h) && needResolve == (h !in old(resolveRunning))
    {
      needResolve := false;
      if h in resolveRunning {
        resolveRunning := resolveRunning[h := resolveRunning[h] + [id]];
      } else {
        resolveRunning := resolveRunning[h := [id]];
        needResolve := true;
      }
    }

    /** async_resolve, after a failed lookup. */
    method Fail(h: Host)
      modifies this
      ensures View() == Erased(old(View()), h)
    {
      resolveRunning := resolveRunning - {h};
    }

    /** async_resolve, second region: the list the cache holds from now on. */
    method Insert(h: Host, looked: Endpoints) returns (el: Endpoints)
      modifies this
      ensures View() == Inserted(old(View()), h, looked) && Cached(View(), h) == Some(el)
    {
      el := looked;
      if h in edpCache {
        el := edpCache[h];
      } else {
        edpCache := edpCache[h := looked];
      }
    }

    /** async_resolve, last region: the lookup in the map is not checked. */
    method Wake(h: Host, el: Endpoints)
      requires h in resolveRunning && forall id :: id in resolveRunning[h] ==> id in channels
      modifies this
      ensures View() == Woken(old(View()), h, el)
    {
      var list := resolveRunning[h];
      var i := 0;
      while i < |list|
        invariant 0 <= i <= |list| && channels.Keys == old(channels).Keys
        invariant edpCache == old(edpCache) && resolveRunning == old(resolveRunning) && hasInit == old(hasInit)
        invariant channels == SendAll(old(channels), list[..i], el)
      {
        assert list[..i + 1][..i] == list[..i];
        channels := channels[list[i] := channels[list[i]].TrySend(el)];
        i := i + 1;
      }
      assert list[..|list|] == list;
      resolveRunning := resolveRunning - {h};
    }

    /** The caller's end of its channel. */
    method Receive(id: Id) returns (el: Option<Endpoints>)
      modifies this
      ensures id in old(channels) && old(channels)[id].buffer != [] ==>
                var ch := old(channels)[id];
                && el == Some(ch.buffer[0])
                && View() == old(View()).(channels := old(channels)[id := Channel(ch.buffer[1..], ch.taken + [ch.buffer[0]])])
      ensures !(id in old(channels) && old(channels)[id].buffer != []) ==> el == None && View() == old(View())
    {
      if id !in channels || channels[id].buffer == [] {
        return None;
      }
      var ch := channels[id];
      channels := channels[id := Channel(ch.buffer[1..], ch.taken + [ch.buffer[0]])];
      return Some(ch.buffer[0]);
    }

    method Remove(h: Host)
      modifies this
      ensures View() == old(View()).(cache := old(edpCache) - {h})
    {
      edpCache := edpCache - {h};
    }

    /** load_hm, with the path it finds in the object. */
    method LoadHm(dnsPath: string, hm: map<Host, Endpoints>)
      modifies this
      ensures View() == Configured(old(View()), dnsPath, hm)
    {
      if dnsPath == "" {
        return;
      }
      if hasInit {
        return;
      }
      edpCache := hm + edpCache;
      hasInit := true;
    }
  }

  // ---------- all calls together ----------

  /** Where the coroutine of a call is. `Joined` names the first of the list it joined. */
  datatype Phase = Hit | Spawned | Joined(leader: Id) | Leading | Looked(el: Endpoints) | Stored(el: Endpoints)
                 | Done(el: Endpoints) | Failed

  datatype Client = Waiting | Answered(el: Endpoints) | TimedOut

  datatype Call = Call(host: Host, client: Client, phase: Phase)

  /** `produced` remembers every list a lookup or the configuration gave for a host; `missed`
      that the unchecked lookup before waking found nothing. */
  datatype State = State(shared: Shared, calls: map<Id, Call>, produced: set<(Host, Endpoints)>, missed: bool)

  datatype Step =
    | Resolve(id: Id, host: Host)
    | Register(id: Id)
    | LookupOk(id: Id, el: Endpoints)
    | LookupFail(id: Id)
    | Insert(id: Id)
    | Wake(id: Id)
    | Receive(id: Id)
    | Timeout(id: Id)
    | Remove(host: Host)
    | LoadHm(dnsPath: string, hm: map<Host, Endpoints>)

  predicate Enabled(s: State, step: Step) {
    match step
    case Resolve(id, h) => id !in s.calls
    case Register(id) => id in s.calls && s.calls[id].phase == Spawned
    case LookupOk(id, el) => id in s.calls && s.calls[id].phase == Leading
    case LookupFail(id) => id in s.calls && s.calls[id].phase == Leading
    case Insert(id) => id in s.calls && s.calls[id].phase.Looked?
    case Wake(id) => id in s.calls && s.calls[id].phase.Stored?
    case Receive(id) =>
      id in s.calls && s.calls[id].client == Waiting && id in s.shared.channels && s.shared.channels[id].buffer != []
    case Timeout(id) => id in s.calls && s.calls[id].client == Waiting
    case Remove(h) => true
    case LoadHm(path, hm) => true
  }

  function SetPhase(s: State, id: Id, p: Phase): State
    requires id in s.calls
  {
    s.(calls := s.calls[id := s.calls[id].(phase := p)])
  }

  function DoResolve(s: State, id: Id, h: Host): State {
    match Cached(s.shared, h)
    case Some(el) => s.(calls := s.calls[id := Call(h, Answered(el), Hit)])
    case None => s.(shared := s.shared.(channels := s.shared.channels[id := FRESH]),
                    calls := s.calls[id := Call(h, Waiting, Spawned)])
  }

  function DoRegister(s: State, id: Id): State
    requires id in s.calls
  {
    var h := s.calls[id].host;
    var shared := Registered(s.shared, id, h);
    var p := if h in s.shared.running then Joined(shared.running[h][0]) else Leading;
    SetPhase(s, id, p).(shared := shared)
  }

  function DoLookupOk(s: State, id: Id, el: Endpoints): State
    requires id in s.calls
  {
    SetPhase(s, id, Looked(el)).(produced := s.produced + {(s.calls[id].host, el)})
  }

  function DoLookupFail(s: State, id: Id): State
    requires id in s.calls
  {
    SetPhase(s, id, Failed).(shared := Erased(s.shared, s.calls[id].host))
  }

  function DoInsert(s: State, id: Id): State
    requires id in s.calls && s.calls[id].phase.Looked?
  {
    var h := s.calls[id].host;
    var shared := Inserted(s.shared, h, s.calls[id].phase.el);
    SetPhase(s, id, Stored(shared.cache[h])).(shared := shared)
  }

  function DoWake(s: State, id: Id): State
    requires id in s.calls && s.calls[id].phase.Stored?
  {
    var h, el := s.calls[id].host, s.calls[id].phase.el;
    if h !in s.shared.running then s.(missed := true)
    else SetPhase(s, id, Done(el)).(shared := Woken(s.shared, h, el))
  }

  function DoReceive(s: State, id: Id): State
    requires id in s.calls && id in s.shared.channels && s.shared.channels[id].buffer != []
  {
    var ch := s.shared.channels[id];
    s.(calls := s.calls[id := s.calls[id].(client := Answered(ch.buffer[0]))],
       shared := s.shared.(channels := s.shared.channels[id := Channel(ch.buffer[1..], ch.taken + [ch.buffer[0]])]))
  }

  function DoTimeout(s: State, id: Id): State
    requires id in s.calls
  {
    s.(calls := s.calls[id := s.calls[id].(client := TimedOut)])
  }

  predicate Loads(s: State, path: string) { path != "" && !s.shared.hasInit }

  /** One step; a step that is not possible changes nothing. */
  function Next(s: State, step: Step): State {
    if !Enabled(s, step) then s else
    match step
    case Resolve(id, h) => DoResolve(s, id, h)
    case Register(id) => DoRegister(s, id)
    case LookupOk(id, el) => DoLookupOk(s, id, el)
    case LookupFail(id) => DoLookupFail(s, id)
    case Insert(id) => DoInsert(s, id)
    case Wake(id) => DoWake(s, id)
    case Receive(id) => DoReceive(s, id)
    case Timeout(id) => DoTimeout(s, id)
    case Remove(h) => s.(shared := s.shared.(cache := s.shared.cache - {h}))
    case LoadHm(path, hm) =>
      s.(shared := Configured(s.shared, path, hm),
         produced := if Loads(s, path) then s.produced + hm.Items else s.produced)
  }

  const START := State(Shared(map[], map[], map[], false), map[], {}, false)

  /** The state after any steps of any calls in any order. */
  function Run(steps: seq<Step>): State {
    if steps == [] then START else Next(Run(steps[..|steps| - 1]), steps[|steps| - 1])
  }

  // ---------- what every step keeps ----------

  /** Between registering as the first and erasing the list. */
  predicate Leads(p: Phase) { p.Leading? || p.Looked? || p.Stored? }

  predicate HasLed(p: Phase) { Leads(p) || p.Done? || p.Failed? }

  /** A list starts with its leader's own channel, then those that joined it, each once. */
  predicate ListOk(s: State, h: Host, ids: seq<Id>) {
    && ids != [] && ids[0] in s.calls && s.calls[ids[0]].host == h && Leads(s.calls[ids[0]].phase)
    && (forall k :: 0 < k < |ids| ==>
          ids[k] in s.calls && s.calls[ids[k]].host == h && s.calls[ids[k]].phase == Joined(ids[0]))
    && forall j, k :: 0 <= j < k < |ids| ==> ids[j] != ids[k]
  }

  /** What the channel of a call was sent, by how far its leader got. */
  function Due(s: State, p: Phase): seq<Endpoints> {
    match p
    case Done(el) => [el]
    case Joined(l) => if l in s.calls && s.calls[l].phase.Done? then [s.calls[l].phase.el] else []
    case _ => []
  }

  predicate LeaderOk(s: State, id: Id, c: Call) {
    && (Leads(c.phase) ==>
          c.host in s.shared.running && s.shared.running[c.host] != [] && s.shared.running[c.host][0] == id)
    && (c.phase.Joined? ==>
          var l := c.phase.leader;
          && l in s.calls && s.calls[l].host == c.host && HasLed(s.calls[l].phase)
          && (Leads(s.calls[l].phase) ==> c.host in s.shared.running && id in s.shared.running[c.host]))
  }

  predicate ChannelOk(s: State, id: Id, c: Call) {
    if c.phase == Hit then c.client.Answered? && (c.host, c.client.el) in s.produced
    else
      && id in s.shared.channels && s.shared.channels[id].Accepted() == Due(s, c.phase)
      && s.shared.channels[id].taken == if c.client.Answered? then [c.client.el] else []
  }

  predicate ListProduced(s: State, c: Call) {
    c.phase.Looked? || c.phase.Stored? || c.phase.Done? ==> (c.host, c.phase.el) in s.produced
  }

  ghost predicate Lists(s: State) {
    forall h :: h in s.shared.running ==> ListOk(s, h, s.shared.running[h])
  }

  ghost predicate Leaders(s: State) {
    forall id :: id in s.calls ==> LeaderOk(s, id, s.calls[id])
  }

  ghost predicate Channels(s: State) {
    forall id :: id in s.calls ==> ChannelOk(s, id, s.calls[id])
  }

  ghost predicate Produced(s: State) {
    && (forall id :: id in s.calls ==> ListProduced(s, s.calls[id]))
    && (forall h :: h in s.shared.cache ==> (h, s.shared.cache[h]) in s.produced)
  }

  ghost predicate Inv(s: State) {
    !s.missed && Lists(s) && Leaders(s) && Channels(s) && Produced(s)
  }

  lemma {:induction false} SendAllOnce(channels: map<Id, Channel>, ids: seq<Id>, el: Endpoints, id: Id)
    requires forall j, k :: 0 <= j < k < |ids| ==> ids[j] != ids[k]
    ensures SendAll(channels, ids, el).Keys == channels.Keys
    ensures id in channels ==>
              SendAll(channels, ids, el)[id] == if id in ids then channels[id].TrySend(el) else channels[id]
  {
    if ids != [] {
      SendAllOnce(channels, ids[..|ids| - 1], el, id);
      assert ids == ids[..|ids| - 1] + [ids[|ids| - 1]];
    }
  }

  // Each step is followed list by list and call by call.

  lemma ResolveKeeps(s: State, id: Id, h: Host)
    requires Inv(s) && id !in s.calls
    ensures Inv(DoResolve(s, id, h))
  {
    hide ListOk, LeaderOk, ChannelOk;
    var t := DoResolve(s, id, h);
    forall g | g in t.shared.running ensures ListOk(t, g, t.shared.running[g]) {
      ResolveList(s, id, h, g);
    }
    forall other | other in t.calls ensures LeaderOk(t, other, t.calls[other]) && ChannelOk(t, other, t.calls[other]) {
      ResolveCall(s, id, h, other);
    }
  }

  lemma ResolveList(s: State, id: Id, h: Host, g: Host)
    requires id !in s.calls && g in s.shared.running && ListOk(s, g, s.shared.running[g])
    ensures ListOk(DoResolve(s, id, h), g, s.shared.running[g])
  {
  }

  lemma ResolveCall(s: State, id: Id, h: Host, other: Id)
    requires id !in s.calls && other in DoResolve(s, id, h).calls
    requires other in s.calls ==> LeaderOk(s, other, s.calls[other]) && ChannelOk(s, other, s.calls[other])
    requires h in s.shared.cache ==> (h, s.shared.cache[h]) in s.produced
    ensures var t := DoResolve(s, id, h); LeaderOk(t, other, t.calls[other]) && ChannelOk(t, other, t.calls[other])
  {
  }

  lemma RegisterKeeps(s: State, id: Id)
    requires Inv(s) && id in s.calls && s.calls[id].phase == Spawned
    ensures Inv(DoRegister(s, id))
  {
    hide ListOk, LeaderOk, ChannelOk;
    var t := DoRegister(s, id);
    var h := s.calls[id].host;
    forall g | g in t.shared.running ensures ListOk(t, g, t.shared.running[g]) {
      RegisterList(s, id, g);
    }
    forall other | other in t.calls ensures LeaderOk(t, other, t.calls[other]) && ChannelOk(t, other, t.calls[other]) {
      RegisterLeader(s, id, other);
      RegisterChannel(s, id, other);
    }
  }

  /** Registering puts a channel that is in no list at the end of one. */
  lemma RegisterList(s: State, id: Id, g: Host)
    requires id in s.calls && s.calls[id].phase == Spawned && g in DoRegister(s, id).shared.running
    requires g in s.shared.running ==> ListOk(s, g, s.shared.running[g])
    ensures ListOk(DoRegister(s, id), g, DoRegister(s, id).shared.running[g])
  {
    if g in s.shared.running {
      assert id !in s.shared.running[g];
    }
  }

  lemma RegisterLeader(s: State, id: Id, other: Id)
    requires id in s.calls && s.calls[id].phase == Spawned && other in s.calls
    requires var h := s.calls[id].host; h in s.shared.running ==> ListOk(s, h, s.shared.running[h])
    requires LeaderOk(s, other, s.calls[other])
    ensures LeaderOk(DoRegister(s, id), other, DoRegister(s, id).calls[other])
  {
  }

  lemma RegisterChannel(s: State, id: Id, other: Id)
    requires id in s.calls && s.calls[id].phase == Spawned && other in s.calls
    requires var h := s.calls[id].host; h in s.shared.running ==> ListOk(s, h, s.shared.running[h])
    requires ChannelOk(s, other, s.calls[other])
    ensures ChannelOk(DoRegister(s, id), other, DoRegister(s, id).calls[other])
  {
  }

  lemma LookupOkKeeps(s: State, id: Id, el: Endpoints)
    requires Inv(s) && id in s.calls && s.calls[id].phase == Leading
    ensures Inv(DoLookupOk(s, id, el))
  {
    hide ListOk, LeaderOk, ChannelOk;
    var t := DoLookupOk(s, id, el);
    forall g | g in t.shared.running ensures ListOk(t, g, t.shared.running[g]) {
      LookupOkList(s, id, el, g);
    }
    forall other | other in t.calls ensures LeaderOk(t, other, t.calls[other]) && ChannelOk(t, other, t.calls[other]) {
      LookupOkCall(s, id, el, other);
    }
  }

  lemma LookupOkList(s: State, id: Id, el: Endpoints, g: Host)
    requires id in s.calls && s.calls[id].phase == Leading && g in s.shared.running && ListOk(s, g, s.shared.running[g])
    ensures ListOk(DoLookupOk(s, id, el), g, s.shared.running[g])
  {
  }

  lemma LookupOkCall(s: State, id: Id, el: Endpoints, other: Id)
    requires id in s.calls && s.calls[id].phase == Leading && other in s.calls
    requires LeaderOk(s, other, s.calls[other]) && ChannelOk(s, other, s.calls[other])
    ensures var t := DoLookupOk(s, id, el); LeaderOk(t, other, t.calls[other]) && ChannelOk(t, other, t.calls[other])
  {
  }

  /** Once a leader erased its list, nothing else in the map or among the calls is changed. */
  lemma LookupFailKeeps(s: State, id: Id)
    requires Inv(s) && id in s.calls && s.calls[id].phase == Leading
    ensures Inv(DoLookupFail(s, id))
  {
    hide ListOk, LeaderOk, ChannelOk;
    var t := DoLookupFail(s, id);
    forall g | g in t.shared.running ensures ListOk(t, g, t.shared.running[g]) {
      EndList(s, t, id, g);
    }
    forall other | other in t.calls ensures LeaderOk(t, other, t.calls[other]) && ChannelOk(t, other, t.calls[other]) {
      LeaderFound(s, other);
      EndLeader(s, t, id, other);
      FailChannel(s, id, other);
    }
  }

  /** The leader of a call that joined is itself in order. */
  lemma LeaderFound(s: State, other: Id)
    requires Leaders(s) && other in s.calls
    ensures s.calls[other].phase.Joined? ==>
              var l := s.calls[other].phase.leader; l in s.calls && LeaderOk(s, l, s.calls[l])
  {
    assert LeaderOk(s, other, s.calls[other]);
  }

  /** The leader's list is gone and the leader is done, or failed. */
  predicate Ended(s: State, t: State, id: Id) {
    && id in s.calls && Leads(s.calls[id].phase)
    && t.shared.running == s.shared.running - {s.calls[id].host}
    && t.calls.Keys == s.calls.Keys
    && HasLed(t.calls[id].phase) && !Leads(t.calls[id].phase) && t.calls[id].host == s.calls[id].host
    && t.calls == s.calls[id := t.calls[id]]
  }

  lemma EndList(s: State, t: State, id: Id, g: Host)
    requires Ended(s, t, id) && g in t.shared.running && ListOk(s, g, s.shared.running[g])
    ensures ListOk(t, g, t.shared.running[g])
  {
  }

  lemma EndLeader(s: State, t: State, id: Id, other: Id)
    requires Ended(s, t, id) && other in s.calls
    requires LeaderOk(s, id, s.calls[id]) && LeaderOk(s, other, s.calls[other])
    requires s.calls[other].phase.Joined? ==>
               var l := s.calls[other].phase.leader; l in s.calls && LeaderOk(s, l, s.calls[l])
    ensures other in t.calls && LeaderOk(t, other, t.calls[other])
  {
  }

  lemma FailChannel(s: State, id: Id, other: Id)
    requires id in s.calls && s.calls[id].phase == Leading && other in s.calls && ChannelOk(s, other, s.calls[other])
    ensures var t := DoLookupFail(s, id); ChannelOk(t, other, t.calls[other])
  {
  }

  lemma InsertKeeps(s: State, id: Id)
    requires Inv(s) && id in s.calls && s.calls[id].phase.Looked?
    ensures Inv(DoInsert(s, id))
  {
    hide ListOk, LeaderOk, ChannelOk;
    var t := DoInsert(s, id);
    forall g | g in t.shared.running ensures ListOk(t, g, t.shared.running[g]) {
      InsertList(s, id, g);
    }
    forall other | other in t.calls ensures LeaderOk(t, other, t.calls[other]) && ChannelOk(t, other, t.calls[other]) {
      InsertCall(s, id, other);
    }
  }

  lemma InsertList(s: State, id: Id, g: Host)
    requires id in s.calls && s.calls[id].phase.Looked? && g in s.shared.running && ListOk(s, g, s.shared.running[g])
    ensures ListOk(DoInsert(s, id), g, s.shared.running[g])
  {
  }

  lemma InsertCall(s: State, id: Id, other: Id)
    requires id in s.calls && s.calls[id].phase.Looked? && other in s.calls
    requires LeaderOk(s, other, s.calls[other]) && ChannelOk(s, other, s.calls[other])
    ensures var t := DoInsert(s, id); LeaderOk(t, other, t.calls[other]) && ChannelOk(t, other, t.calls[other])
  {
  }

  lemma WakeKeeps(s: State, id: Id)
    requires Inv(s) && id in s.calls && s.calls[id].phase.Stored?
    ensures Inv(DoWake(s, id))
  {
    hide ListOk, ChannelOk, LeaderOk, SendAll;
    LeaderListed(s, id);
    var t := DoWake(s, id);
    forall g | g in t.shared.running ensures ListOk(t, g, t.shared.running[g]) {
      EndList(s, t, id, g);
    }
    forall other | other in t.calls ensures LeaderOk(t, other, t.calls[other]) && ChannelOk(t, other, t.calls[other]) {
      LeaderFound(s, other);
      EndLeader(s, t, id, other);
      WakeChannel(s, id, other);
    }
  }

  lemma LeaderListed(s: State, id: Id)
    requires Leaders(s) && Lists(s) && id in s.calls && Leads(s.calls[id].phase)
    ensures var h := s.calls[id].host;
            h in s.shared.running && ListOk(s, h, s.shared.running[h]) && s.shared.running[h][0] == id
  {
    assert LeaderOk(s, id, s.calls[id]);
  }

  /** Every channel of the list was empty and gets the list of endpoints; no other does. */
  lemma WakeChannel(s: State, id: Id, other: Id)
    requires id in s.calls && s.calls[id].phase.Stored? && other in s.calls
    requires var h := s.calls[id].host;
             h in s.shared.running && ListOk(s, h, s.shared.running[h]) && s.shared.running[h][0] == id
    requires LeaderOk(s, other, s.calls[other]) && ChannelOk(s, other, s.calls[other])
    ensures var t := DoWake(s, id); ChannelOk(t, other, t.calls[other])
  {
    hide SendAll, ListOk, LeaderOk;
    var h, el := s.calls[id].host, s.calls[id].phase.el;
    var ids := s.shared.running[h];
    InList(s, id, other);
    SendAllOnce(s.shared.channels, ids, el, other);
  }

  lemma InList(s: State, id: Id, other: Id)
    requires id in s.calls && s.calls[id].phase.Stored? && other in s.calls
    requires var h := s.calls[id].host;
             h in s.shared.running && ListOk(s, h, s.shared.running[h]) && s.shared.running[h][0] == id
    requires LeaderOk(s, other, s.calls[other])
    ensures var ids := s.shared.running[s.calls[id].host];
            && (other in ids <==> other == id || s.calls[other].phase == Joined(id))
            && forall j, k :: 0 <= j < k < |ids| ==> ids[j] != ids[k]
  {
  }

  /** A step of a client touches no phase and no list. */
  lemma ClientKeeps(s: State, t: State, id: Id)
    requires Lists(s) && Leaders(s) && id in s.calls && id in t.calls
    requires t.shared.running == s.shared.running && t.calls == s.calls[id := t.calls[id]]
    requires t.calls[id].phase == s.calls[id].phase && t.calls[id].host == s.calls[id].host
    ensures Lists(t) && Leaders(t)
  {
    forall g | g in t.shared.running ensures ListOk(t, g, t.shared.running[g]) {
      assert ListOk(s, g, s.shared.running[g]);
    }
    forall other | other in t.calls ensures LeaderOk(t, other, t.calls[other]) {
      assert LeaderOk(s, other, s.calls[other]);
    }
  }

  lemma ReceiveKeeps(s: State, id: Id)
    requires Inv(s) && Enabled(s, Receive(id))
    ensures Inv(DoReceive(s, id))
  {
    hide ListOk, LeaderOk, ChannelOk;
    var t := DoReceive(s, id);
    ClientKeeps(s, t, id);
    forall other | other in t.calls ensures ChannelOk(t, other, t.calls[other]) {
      assert ChannelOk(s, other, s.calls[other]);
      ReceivedOk(s, id, other);
    }
  }

  lemma ReceivedOk(s: State, id: Id, other: Id)
    requires id in s.calls && s.calls[id].client == Waiting && id in s.shared.channels && s.shared.channels[id].buffer != []
    requires other in s.calls && ChannelOk(s, other, s.calls[other]) && ChannelOk(s, id, s.calls[id])
    ensures var t := DoReceive(s, id); ChannelOk(t, other, t.calls[other])
  {
  }

  lemma TimeoutKeeps(s: State, id: Id)
    requires Inv(s) && Enabled(s, Timeout(id))
    ensures Inv(DoTimeout(s, id))
  {
    hide ListOk, LeaderOk, ChannelOk;
    var t := DoTimeout(s, id);
    ClientKeeps(s, t, id);
    forall other | other in t.calls ensures ChannelOk(t, other, t.calls[other]) {
      assert ChannelOk(s, other, s.calls[other]);
      TimedOutOk(s, id, other);
    }
  }

  lemma TimedOutOk(s: State, id: Id, other: Id)
    requires id in s.calls && s.calls[id].client == Waiting
    requires other in s.calls && ChannelOk(s, other, s.calls[other])
    ensures var t := DoTimeout(s, id); ChannelOk(t, other, t.calls[other])
  {
  }

  lemma CacheKeeps(s: State, t: State)
    requires Inv(s) && t == s.(shared := s.shared.(cache := t.shared.cache, hasInit := t.shared.hasInit), produced := t.produced)
    requires s.produced <= t.produced
    requires forall h :: h in t.shared.cache ==> (h, t.shared.cache[h]) in t.produced
    ensures Inv(t)
  {
  }

  lemma StepKeeps(s: State, step: Step)
    requires Inv(s)
    ensures Inv(Next(s, step))
  {
    hide Inv, DoResolve, DoRegister, DoLookupOk, DoLookupFail, DoInsert, DoWake, DoReceive, DoTimeout;
    if Enabled(s, step) {
      match step
      case Resolve(id, h) => ResolveKeeps(s, id, h);
      case Register(id) => RegisterKeeps(s, id);
      case LookupOk(id, el) => LookupOkKeeps(s, id, el);
      case LookupFail(id) => LookupFailKeeps(s, id);
      case Insert(id) => InsertKeeps(s, id);
      case Wake(id) => WakeKeeps(s, id);
      case Receive(id) => ReceiveKeeps(s, id);
      case Timeout(id) => TimeoutKeeps(s, id);
      case Remove(h) =>
        InCache(s);
        CacheKeeps(s, Next(s, step));
      case LoadHm(path, hm) =>
        InCache(s);
        CacheKeeps(s, Next(s, step));
    }
  }

  lemma InCache(s: State)
    requires Inv(s)
    ensures forall h :: h in s.shared.cache ==> (h, s.shared.cache[h]) in s.produced
  {
  }

  lemma {:induction false} RunKeeps(steps: seq<Step>)
    ensures Inv(Run(steps))
  {
    hide Next;
    if steps == [] {
      StartKeeps();
    } else {
      RunKeeps(steps[..|steps| - 1]);
      StepKeeps(Run(steps[..|steps| - 1]), steps[|steps| - 1]);
    }
  }

  lemma StartKeeps()
    ensures Inv(START)
  {
  }

  // ---------- what holds of every run ----------

  /** A host is being looked up exactly when one call leads it; that call's own channel is
      the first of the host's list, and the lookup before waking has never missed. */
  lemma OneLeader(steps: seq<Step>, h: Host)
    ensures var s := Run(steps);
            && !s.missed
            && (h in s.shared.running <==> exists id :: id in s.calls && s.calls[id].host == h && Leads(s.calls[id].phase))
            && (forall id :: id in s.calls && s.calls[id].host == h && Leads(s.calls[id].phase) ==>
                  s.shared.running[h] != [] && s.shared.running[h][0] == id)
  {
    RunKeeps(steps);
    var s := Run(steps);
    hide Run;
    if h in s.shared.running {
      assert ListOk(s, h, s.shared.running[h]);
    }
    forall id | id in s.calls && s.calls[id].host == h && Leads(s.calls[id].phase)
      ensures h in s.shared.running && s.shared.running[h] != [] && s.shared.running[h][0] == id
    {
      LeaderListed(s, id);
    }
  }

  /** The calls answered together: a leader, and those that joined its list. */
  predicate InRound(s: State, leader: Id, id: Id) {
    && leader in s.calls && HasLed(s.calls[leader].phase)
    && id in s.calls && (id == leader || s.calls[id].phase == Joined(leader))
  }

  /** No wake-up is lost or mixed: until its leader ends a call is in the leader's list and was
      sent nothing; after the leader's last step every call of the round was sent exactly one
      list, the leader's; only when the lookup failed was none sent. */
  lemma RoundAnswer(steps: seq<Step>, leader: Id, id: Id)
    requires InRound(Run(steps), leader, id)
    ensures var s := Run(steps);
            && s.calls[id].host == s.calls[leader].host && id in s.shared.channels
            && match s.calls[leader].phase
               case Done(el) => s.shared.channels[id].Accepted() == [el] && (s.calls[leader].host, el) in s.produced
               case Failed => s.shared.channels[id].Accepted() == []
               case _ =>
                 && s.shared.channels[id].Accepted() == []
                 && s.calls[id].host in s.shared.running && id in s.shared.running[s.calls[id].host]
  {
    RunKeeps(steps);
    var s := Run(steps);
    hide Run;
    assert LeaderOk(s, leader, s.calls[leader]) && LeaderOk(s, id, s.calls[id]);
    assert ChannelOk(s, id, s.calls[id]) && ListProduced(s, s.calls[leader]);
  }

  /** Every call that registered belongs to one round. */
  lemma HasRound(steps: seq<Step>, id: Id) returns (leader: Id)
    requires id in Run(steps).calls && Run(steps).calls[id].phase !in {Hit, Spawned}
    ensures InRound(Run(steps), leader, id)
    ensures forall l :: InRound(Run(steps), l, id) ==> l == leader
  {
    RunKeeps(steps);
    var s := Run(steps);
    hide Run;
    assert LeaderOk(s, id, s.calls[id]);
    leader := if s.calls[id].phase.Joined? then s.calls[id].phase.leader else id;
  }

  /** A list a leader stored. */
  predicate HasStored(s: State, l: Id, el: Endpoints) {
    l in s.calls && (s.calls[l].phase == Stored(el) || s.calls[l].phase == Done(el))
  }

  lemma StoredStep(s: State, step: Step, l: Id, el: Endpoints)
    requires HasStored(Next(s, step), l, el)
    ensures || HasStored(s, l, el)
            || (&& step == Insert(l) && l in s.calls && s.calls[l].host == Next(s, step).calls[l].host
                && Cached(Next(s, step).shared, s.calls[l].host) == Some(el))
    ensures l in s.calls && s.calls[l].host == Next(s, step).calls[l].host
  {
  }

  lemma NothingYet(steps: seq<Step>)
    ensures steps == [] ==> Run(steps).calls == map[] && Run(steps).produced == {}
  {
  }

  /** What a leader sends is what the cache held for its host right after its insert. */
  lemma {:induction false} StoredInCache(steps: seq<Step>, l: Id, el: Endpoints) returns (i: nat)
    requires HasStored(Run(steps), l, el)
    ensures i < |steps| && steps[i] == Insert(l)
    ensures Cached(Run(steps[..i + 1]).shared, Run(steps).calls[l].host) == Some(el)
  {
    hide Next;
    assert steps != [] by { NothingYet(steps); }
    var n := |steps| - 1;
    StoredStep(Run(steps[..n]), steps[n], l, el);
    if HasStored(Run(steps[..n]), l, el) {
      i := StoredInCache(steps[..n], l, el);
      assert steps[..n][..i + 1] == steps[..i + 1];
    } else {
      i := n;
      assert steps[..n + 1] == steps;
    }
  }

  /** The list a waiting caller gets is the one the cache held right after the insert of the
      leader of its round. */
  lemma AnswerFromCache(steps: seq<Step>, id: Id) returns (leader: Id, i: nat)
    requires id in Run(steps).calls && Run(steps).calls[id].client.Answered? && Run(steps).calls[id].phase != Hit
    ensures InRound(Run(steps), leader, id) && i < |steps| && steps[i] == Insert(leader)
    ensures Cached(Run(steps[..i + 1]).shared, Run(steps).calls[id].host) == Some(Run(steps).calls[id].client.el)
  {
    var s := Run(steps);
    RunKeeps(steps);
    TakenIsSent(s, id);
    leader := HasRound(steps, id);
    RoundAnswer(steps, leader, id);
    i := StoredInCache(steps, leader, s.calls[id].client.el);
  }

  lemma TakenIsSent(s: State, id: Id)
    requires Inv(s) && id in s.calls && s.calls[id].client.Answered? && s.calls[id].phase != Hit
    ensures id in s.shared.channels && s.shared.channels[id].Accepted() != []
    ensures s.shared.channels[id].Accepted()[0] == s.calls[id].client.el && s.calls[id].phase != Spawned
  {
    assert ChannelOk(s, id, s.calls[id]);
  }

  /** A cached list stays until the host is removed; a new one is the list of a lookup, the
      first that ends, or of the configuration. */
  lemma CacheStep(s: State, step: Step, h: Host)
    ensures var before, after := Cached(s.shared, h), Cached(Next(s, step).shared, h);
            && (step == Remove(h) ==> after == None)
            && (before.Some? && step != Remove(h) ==> after == before)
            && (before.None? && after.Some? ==>
                  match step
                  case Insert(id) => id in s.calls && s.calls[id].host == h && s.calls[id].phase == Looked(after.value)
                  case LoadHm(path, hm) => path != "" && !s.shared.hasInit && h in hm && hm[h] == after.value
                  case _ => false)
  {
  }

  /** After an insert, and after the configuration is loaded, the host is cached. */
  lemma CachedThen(s: State, step: Step, h: Host)
    requires match step
             case Insert(id) => id in s.calls && s.calls[id].host == h && s.calls[id].phase.Looked?
             case LoadHm(path, hm) => path != "" && !s.shared.hasInit && h in hm
             case _ => false
    ensures Cached(Next(s, step).shared, h).Some?
    ensures step.LoadHm? ==> Next(s, step).shared.hasInit
  {
  }

  /** The configuration is loaded once. */
  lemma LoadedOnce(s: State, step: Step)
    ensures s.shared.hasInit ==> Next(s, step).shared.hasInit
    ensures s.shared.hasInit && step.LoadHm? ==> Next(s, step).shared == s.shared
  {
  }

  lemma {:induction false} CacheRun(steps: seq<Step>, more: seq<Step>, h: Host)
    requires Cached(Run(steps).shared, h).Some? && Remove(h) !in more
    ensures Cached(Run(steps + more).shared, h) == Cached(Run(steps).shared, h)
    decreases |more|
  {
    hide Next, Cached;
    if more == [] {
      assert steps + more == steps;
    } else {
      var n := |more| - 1;
      CacheRun(steps, more[..n], h);
      assert (steps + more)[..|steps + more| - 1] == steps + more[..n];
      CacheStep(Run(steps + more[..n]), more[n], h);
    }
  }

  /** Once a leader has put its list into the cache, and until the host is removed, every caller
      of resolve gets that list at once, whatever else happens. */
  lemma HitAfterInsert(steps: seq<Step>, l: Id, more: seq<Step>, id: Id)
    requires l in Run(steps).calls && Run(steps).calls[l].phase.Looked?
    requires var h := Run(steps).calls[l].host;
             Remove(h) !in more && id !in Run(steps + [Insert(l)] + more).calls
    ensures var s, h := Run(steps), Run(steps).calls[l].host;
            var el := if h in s.shared.cache then s.shared.cache[h] else s.calls[l].phase.el;
            var t := Run(steps + [Insert(l)] + more + [Resolve(id, h)]);
            id in t.calls && t.calls[id] == Call(h, Answered(el), Hit)
  {
    var s, h := Run(steps), Run(steps).calls[l].host;
    var stored := steps + [Insert(l)];
    RunMore(steps, Insert(l));
    CachedThen(s, Insert(l), h);
    CacheStep(s, Insert(l), h);
    CacheRun(stored, more, h);
    RunMore(stored + more, Resolve(id, h));
    hide Run;
  }

  lemma RunMore(steps: seq<Step>, step: Step)
    ensures Run(steps + [step]) == Next(Run(steps), step)
  {
    assert (steps + [step])[..|steps|] == steps;
  }

  /** A step that gives a list for a host: a lookup for that host, or the configuration. */
  predicate Gives(s: State, step: Step, h: Host, el: Endpoints) {
    match step
    case LookupOk(l, e) => l in s.calls && s.calls[l].host == h && e == el
    case LoadHm(path, hm) => path != "" && !s.shared.hasInit && h in hm && hm[h] == el
    case _ => false
  }

  lemma ProducedStep(s: State, step: Step, h: Host, el: Endpoints)
    requires (h, el) in Next(s, step).produced
    ensures (h, el) in s.produced || Gives(s, step, h, el)
  {
  }

  lemma {:induction false} ProducedBy(steps: seq<Step>, h: Host, el: Endpoints) returns (i: nat)
    requires (h, el) in Run(steps).produced
    ensures i < |steps| && Gives(Run(steps[..i]), steps[i], h, el)
  {
    hide Next;
    assert steps != [] by { NothingYet(steps); }
    var n := |steps| - 1;
    ProducedStep(Run(steps[..n]), steps[n], h, el);
    if (h, el) in Run(steps[..n]).produced {
      i := ProducedBy(steps[..n], h, el);
      assert steps[..n][..i] == steps[..i];
    } else {
      i := n;
    }
  }

  /** Whatever a caller of resolve gets was looked up, or configured, for its own host. */
  lemma AnswerForHost(steps: seq<Step>, id: Id) returns (i: nat)
    requires id in Run(steps).calls && Run(steps).calls[id].client.Answered?
    ensures i < |steps|
    ensures Gives(Run(steps[..i]), steps[i], Run(steps).calls[id].host, Run(steps).calls[id].client.el)
  {
    var s := Run(steps);
    RunKeeps(steps);
    AnswerProduced(s, id);
    i := ProducedBy(steps, s.calls[id].host, s.calls[id].client.el);
  }

  lemma AnswerProduced(s: State, id: Id)
    requires Inv(s) && id in s.calls && s.calls[id].client.Answered?
    ensures (s.calls[id].host, s.calls[id].client.el) in s.produced
  {
    var c := s.calls[id];
    assert ChannelOk(s, id, c) && LeaderOk(s, id, c);
    if c.phase != Hit {
      var ch := s.shared.channels[id];
      assert ch.Accepted()[0] == c.client.el;
      if c.phase.Joined? { assert ListProduced(s, s.calls[c.phase.leader]); }
    }
  }

  // ---------- the object, driven through a run ----------

  /** The object's methods, called by any coroutines in any order, keep to the run; in
      particular the list Wake looks for is always there. */
  method Interleave(steps: seq<Step>) returns (dns: SlowDns, calls: map<Id, Call>)
    ensures fresh(dns) && dns.View() == Run(steps).shared && calls == Run(steps).calls
  {
    hide Run, Inv, SendAll, ListOk;
    dns := new SlowDns();
    calls := map[];
    StartRun();
    var i := 0;
    while i < |steps|
      invariant 0 <= i <= |steps| && fresh(dns)
      invariant dns.View() == Run(steps[..i]).shared && calls == Run(steps[..i]).calls
    {
      ghost var s := Run(steps[..i]);
      assert steps[..i + 1][..i] == steps[..i];
      RunStep(steps[..i + 1]);
      calls := Perform(dns, s, calls, steps[i]);
      i := i + 1;
    }
    assert steps[..|steps|] == steps;
  }

  lemma StartRun()
    ensures Run([]) == START
  {
  }

  lemma RunStep(steps: seq<Step>)
    requires steps != []
    ensures Inv(Run(steps[..|steps| - 1]))
    ensures Run(steps) == Next(Run(steps[..|steps| - 1]), steps[|steps| - 1])
  {
    RunKeeps(steps[..|steps| - 1]);
  }

  lemma ListFound(s: State, id: Id)
    requires Inv(s) && id in s.calls && s.calls[id].phase.Stored?
    ensures var h := s.calls[id].host;
            h in s.shared.running && forall k :: k in s.shared.running[h] ==> k in s.shared.channels
  {
    LeaderListed(s, id);
    var h := s.calls[id].host;
    forall k | k in s.shared.running[h] ensures k in s.shared.channels {
      assert ChannelOk(s, k, s.calls[k]);
    }
  }

  method Perform(dns: SlowDns, ghost s: State, frames: map<Id, Call>, step: Step) returns (calls: map<Id, Call>)
    requires Inv(s) && dns.View() == s.shared && frames == s.calls
    modifies dns
    ensures dns.View() == Next(s, step).shared && calls == Next(s, step).calls
  {
    hide Inv, SendAll;
    calls := frames;
    match step {
      case Resolve(id, h) =>
        if id !in calls {
          var hit := dns.Resolve(id, h);
          calls := calls[id := if hit.Some? then Call(h, Answered(hit.value), Hit) else Call(h, Waiting, Spawned)];
        }
      case Register(id) =>
        if id in calls && calls[id].phase == Spawned {
          var h := calls[id].host;
          var needResolve := dns.Register(id, h);
          var p := if needResolve then Leading else Joined(dns.resolveRunning[h][0]);
          calls := calls[id := calls[id].(phase := p)];
        }
      case LookupOk(id, el) =>
        if id in calls && calls[id].phase == Leading {
          calls := calls[id := calls[id].(phase := Looked(el))];
        }
      case LookupFail(id) =>
        if id in calls && calls[id].phase == Leading {
          dns.Fail(calls[id].host);
          calls := calls[id := calls[id].(phase := Failed)];
        }
      case Insert(id) =>
        if id in calls && calls[id].phase.Looked? {
          var el := dns.Insert(calls[id].host, calls[id].phase.el);
          calls := calls[id := calls[id].(phase := Stored(el))];
        }
      case Wake(id) =>
        if id in calls && calls[id].phase.Stored? {
          ListFound(s, id);
          dns.Wake(calls[id].host, calls[id].phase.el);
          calls := calls[id := calls[id].(phase := Done(calls[id].phase.el))];
        }
      case Receive(id) =>
        if id in calls && calls[id].client == Waiting {
          var el := dns.Receive(id);
          if el.Some? { calls := calls[id := calls[id].(client := Answered(el.value))]; }
        }
      case Timeout(id) =>
        if id in calls && calls[id].client == Waiting {
          calls := calls[id := calls[id].(client := TimedOut)];
        }
      case Remove(h) => dns.Remove(h);
      case LoadHm(path, hm) => dns.LoadHm(path, hm);
    }
  }
}
