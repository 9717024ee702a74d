/**
 The lazy per-chain connection cache of clients/web3.py. `ChainRpcManager` is
 the code as one caller sees it; the step system runs any number of callers
 at once, one bytecode-visible action at a time.
 */
module ChainClients {
  import opened Options

  datatype Kind = Standard | Archive
  datatype Key = Key(chain: nat, kind: Kind)

  /** A connection: a distinct object, its endpoint, and the chain id its probe reported. */
  datatype Client = Client(id: nat, url: string, reported: nat)

  const GNOSIS := 100

  /** The registry and the endpoint settings; an absent setting reads as the empty string. */
  datatype Config =
    Config(chains: set<nat>, rpc: map<nat, string>, rpcArchive: map<nat, string>,
           gnosisRpc: string, gnosisArchive: string)
  {
    function Setting(m: map<nat, string>, chain: nat): string {
      if chain in m then m[chain] else ""
    }

    function Or(a: string, b: string): string {
      if a != "" then a else b
    }

    /** `chain_rpc_urls`: the legacy Gnosis pair wins, and archive falls back to standard. */
    function Urls(chain: nat): (string, string) {
      var standard := if chain == GNOSIS then Or(gnosisRpc, Setting(rpc, chain)) else Setting(rpc, chain);
      var archive :=
        if chain == GNOSIS then Or(gnosisArchive, Setting(rpcArchive, chain)) else Setting(rpcArchive, chain);
      (standard, Or(archive, standard))
    }

    function Url(k: Key): string {
      if k.kind == Archive then Urls(k.chain).1 else Urls(k.chain).0
    }
  }

  /** How a call ends. */
  datatype Outcome = Returned(client: Client) | UnknownChain | NoEndpoint | WrongChain(actual: nat) | Unreachable

  /** What the chain-id probe of a new connection answers; `None` when the request fails. */
  type Probe = Option<nat>

  type Cache = map<Key, Client>

  // ----- one caller

  /** `_make`. */
  function Make(id: nat, url: string, chain: nat, probe: Probe): Outcome {
    match probe
    case None => Unreachable
    case Some(actual) => if actual == chain then Returned(Client(id, url, actual)) else WrongChain(actual)
  }

  /** `_client` with no other caller around. */
  function ClientFor(cfg: Config, clients: Cache, id: nat, k: Key, probe: Probe): (Cache, Outcome) {
    if k.chain !in cfg.chains then (clients, UnknownChain)
    else if k in clients then (clients, Returned(clients[k]))
    else if cfg.Url(k) == "" then (clients, NoEndpoint)
    else
      match Make(id, cfg.Url(k), k.chain, probe)
      case Returned(c) => (clients[k := c], Returned(c))
      case failure => (clients, failure)
  }

  /** The setting of a chain, when there is one that is not empty. */
  ghost predicate Configured(m: map<nat, string>, chain: nat) {
    chain in m && m[chain] != ""
  }

  /** The endpoints are the configured ones; an archive client falls back to the standard endpoint. */
  lemma UrlExactly(cfg: Config, chain: nat)
    ensures var standard, archive := cfg.Url(Key(chain, Standard)), cfg.Url(Key(chain, Archive));
            && (chain == 100 && cfg.gnosisRpc != "" ==> standard == cfg.gnosisRpc)
            && (chain != 100 || cfg.gnosisRpc == "" ==>
                  if Configured(cfg.rpc, chain) then standard == cfg.rpc[chain] else standard == "")
            && (chain == 100 && cfg.gnosisArchive != "" ==> archive == cfg.gnosisArchive)
            && (chain != 100 || cfg.gnosisArchive == "" ==>
                  if Configured(cfg.rpcArchive, chain) then archive == cfg.rpcArchive[chain] else archive == standard)
  {
  }

  /** How one call ends, outcome by outcome, and what it leaves in the cache. */
  lemma ClientForExactly(cfg: Config, clients: Cache, id: nat, k: Key, probe: Probe)
    ensures var (after, r) := ClientFor(cfg, clients, id, k, probe);
            && (r == UnknownChain <==> k.chain !in cfg.chains)
            && (k.chain in cfg.chains && k in clients ==> r == Returned(clients[k]))
            && (k.chain in cfg.chains && k !in clients ==>
                  && (r == NoEndpoint <==> cfg.Url(k) == "")
                  && (cfg.Url(k) != "" ==>
                        && (r == Unreachable <==> probe == None)
                        && (forall actual :: r == WrongChain(actual) <==> probe == Some(actual) && actual != k.chain)
                        && (probe == Some(k.chain) ==> r == Returned(Client(id, cfg.Url(k), k.chain)))))
            && (forall other :: other != k && other in clients ==> other in after && after[other] == clients[other])
            && (forall other :: other in after <==>
                  other in clients
                  || (other == k && k.chain in cfg.chains && cfg.Url(k) != "" && probe == Some(k.chain)))
            && (k in after && k.chain in cfg.chains ==> r == Returned(after[k]))
  {
  }

  class ChainRpcManager {
    const cfg: Config
    var clients: Cache

    constructor (cfg: Config)
      ensures this.cfg == cfg && clients == map[]
    {
      this.cfg := cfg;
      clients := map[];
    }

    /** `_client`; `id` is the identity a new connection would get. */
    method GetClient(k: Key, id: nat, probe: Probe) returns (r: Outcome)
      modifies this
      ensures (clients, r) == ClientFor(cfg, old(clients), id, k, probe)
    {
      if k.chain !in cfg.chains {
        return UnknownChain;
      }
      if k in clients {
        return Returned(clients[k]);
      }
      var url := if k.kind == Archive then cfg.Urls(k.chain).1 else cfg.Urls(k.chain).0;
      if url == "" {
        return NoEndpoint;
      }
      r := Build(k, url, id, probe);
    }

    /** The block under the lock: look again, then build. */
    method Build(k: Key, url: string, id: nat, probe: Probe) returns (r: Outcome)
      modifies this
      ensures k in old(clients) ==> clients == old(clients) && r == Returned(clients[k])
      ensures k !in old(clients) ==> r == Make(id, url, k.chain, probe)
      ensures k !in old(clients) ==> clients == if r.Returned? then old(clients)[k := r.client] else old(clients)
    {
      if k in clients {
        return Returned(clients[k]);
      }
      r := Make(id, url, k.chain, probe);
      if r.Returned? {
        clients := clients[k := r.client];
      }
    }
  }

  // ----- any number of callers

  /** Where a call to `_client` stands. */
  datatype Pc =
    | Start
    | FastRead
    | Resolve
    | Waiting(url: string)
    | Recheck(url: string)
    | Making(url: string)
    | Storing(made: Client)
    | Releasing(result: Outcome)
    | Done(outcome: Outcome)

  datatype Thread = Thread(key: Key, pc: Pc)

  /** A successful construction. */
  datatype Built = Built(key: Key, client: Client)

  datatype State =
    State(clients: Cache, lock: Option<nat>, threads: seq<Thread>, nextId: nat, built: seq<Built>) {
    function At(t: nat, pc: Pc): State
      requires t < |threads|
    {
      this.(threads := threads[t := threads[t].(pc := pc)])
    }
  }

  const IDLE := State(map[], None, [], 0, [])

  /** A new call arrives, or call `t` takes its next action; `probe` is used only while making. */
  datatype Action = Arrive(key: Key) | Next(t: nat, probe: Probe)

  predicate Enabled(s: State, a: Action) {
    match a
    case Arrive(_) => true
    case Next(t, _) => t < |s.threads| && !s.threads[t].pc.Done? && (s.threads[t].pc.Waiting? ==> s.lock == None)
  }

  function Step(cfg: Config, s: State, a: Action): State {
    if !Enabled(s, a) then s
    else
      match a
      case Arrive(k) => s.(threads := s.threads + [Thread(k, Start)])
      case Next(t, probe) => Advance(cfg, s, t, probe)
  }

  function Advance(cfg: Config, s: State, t: nat, probe: Probe): State
    requires Enabled(s, Next(t, probe))
  {
    var k := s.threads[t].key;
    match s.threads[t].pc
    case Start => s.At(t, if k.chain in cfg.chains then FastRead else Done(UnknownChain))
    case FastRead => s.At(t, if k in s.clients then Done(Returned(s.clients[k])) else Resolve)
    case Resolve => s.At(t, if cfg.Url(k) == "" then Done(NoEndpoint) else Waiting(cfg.Url(k)))
    case Waiting(url) => s.(lock := Some(t)).At(t, Recheck(url))
    case Recheck(url) => s.At(t, if k in s.clients then Releasing(Returned(s.clients[k])) else Making(url))
    case Making(url) =>
      (match Make(s.nextId, url, k.chain, probe)
       case Returned(c) => Made(s, t, c)
       case failure => s.At(t, Releasing(failure)))
    case Storing(c) => Filed(s, t, c)
    case Releasing(r) => s.(lock := None).At(t, Done(r))
    case Done(_) => s
  }

  function RunFrom(cfg: Config, s: State, actions: seq<Action>): State
    decreases |actions|
  {
    if actions == [] then s else RunFrom(cfg, Step(cfg, s, actions[0]), actions[1..])
  }

  function Run(cfg: Config, actions: seq<Action>): State {
    RunFrom(cfg, IDLE, actions)
  }

  // ----- the invariant

  predicate HoldsLock(pc: Pc) {
    pc.Recheck? || pc.Making? || pc.Storing? || pc.Releasing?
  }

  /** Exactly the holder is inside the locked region. */
  ghost predicate LockHeld(s: State) {
    && (forall t :: 0 <= t < |s.threads| ==> (HoldsLock(s.threads[t].pc) <==> s.lock == Some(t)))
    && (s.lock.Some? ==> s.lock.value < |s.threads|)
  }

  /** The connection is the right one for its key. */
  predicate Fits(cfg: Config, k: Key, c: Client) {
    c.reported == k.chain && c.url == cfg.Url(k) != ""
  }

  ghost predicate ThreadFits(cfg: Config, s: State, th: Thread) {
    match th.pc
    case Waiting(url) => url == cfg.Url(th.key) != ""
    case Recheck(url) => url == cfg.Url(th.key) != ""
    case Making(url) => url == cfg.Url(th.key) != "" && th.key !in s.clients
    case Storing(c) => th.key !in s.clients && s.built != [] && s.built[|s.built| - 1] == Built(th.key, c)
    case Releasing(Returned(c)) => th.key in s.clients && s.clients[th.key] == c
    case Done(Returned(c)) => th.key in s.clients && s.clients[th.key] == c
    case _ => true
  }

  /** A finished construction is in the cache, unless its maker is about to put it there. */
  ghost predicate BuiltStored(cfg: Config, s: State) {
    && (forall i :: 0 <= i < |s.built| ==>
          && Fits(cfg, s.built[i].key, s.built[i].client)
          && (if s.built[i].key in s.clients then s.clients[s.built[i].key] == s.built[i].client
              else i == |s.built| - 1 && s.lock.Some? && s.lock.value < |s.threads|
                   && s.threads[s.lock.value] == Thread(s.built[i].key, Storing(s.built[i].client))))
    && (forall i, j :: 0 <= i < j < |s.built| ==> s.built[i].key != s.built[j].key)
    && (forall k :: k in s.clients ==> Built(k, s.clients[k]) in s.built)
  }

  ghost predicate Inv(cfg: Config, s: State) {
    && LockHeld(s)
    && (forall t :: 0 <= t < |s.threads| ==> ThreadFits(cfg, s, s.threads[t]))
    && BuiltStored(cfg, s)
  }

  /** The call moves on without touching the cache, the lock or the log. */
  lemma MoveInv(cfg: Config, s: State, t: nat, pc: Pc)
    requires Inv(cfg, s) && t < |s.threads| && !s.threads[t].pc.Storing? && !pc.Storing?
    requires HoldsLock(pc) <==> HoldsLock(s.threads[t].pc)
    requires ThreadFits(cfg, s, Thread(s.threads[t].key, pc))
    ensures Inv(cfg, s.At(t, pc))
  {
    var r := s.At(t, pc);
    forall u | 0 <= u < |r.threads| ensures ThreadFits(cfg, r, r.threads[u]) {
      assert u != t ==> ThreadFits(cfg, s, s.threads[u]);
    }
    assert LockHeld(r);
  }

  lemma AcquireInv(cfg: Config, s: State, t: nat, url: string)
    requires Inv(cfg, s) && t < |s.threads| && s.threads[t].pc == Waiting(url) && s.lock == None
    ensures Inv(cfg, s.(lock := Some(t)).At(t, Recheck(url)))
  {
    assert ThreadFits(cfg, s, s.threads[t]);
    var r := s.(lock := Some(t)).At(t, Recheck(url));
    forall u | 0 <= u < |r.threads| ensures ThreadFits(cfg, r, r.threads[u]) {
      assert ThreadFits(cfg, s, s.threads[u]);
    }
  }

  lemma ReleaseInv(cfg: Config, s: State, t: nat, result: Outcome)
    requires Inv(cfg, s) && t < |s.threads| && s.threads[t].pc == Releasing(result)
    ensures Inv(cfg, s.(lock := None).At(t, Done(result)))
  {
    assert ThreadFits(cfg, s, s.threads[t]);
    var r := s.(lock := None).At(t, Done(result));
    forall u | 0 <= u < |r.threads| ensures ThreadFits(cfg, r, r.threads[u]) {
      assert ThreadFits(cfg, s, s.threads[u]);
    }
  }

  lemma MadeThreads(cfg: Config, s: State, t: nat, url: string, c: Client)
    requires Inv(cfg, s) && t < |s.threads| && s.threads[t].pc == Making(url)
    ensures var r := Made(s, t, c); forall u :: 0 <= u < |r.threads| ==> ThreadFits(cfg, r, r.threads[u])
  {
    var r := Made(s, t, c);
    assert ThreadFits(cfg, s, s.threads[t]);
    forall u | 0 <= u < |r.threads| ensures ThreadFits(cfg, r, r.threads[u]) {
      if u != t {
        assert ThreadFits(cfg, s, s.threads[u]);
        // the lock leaves no room for a second maker
        assert !HoldsLock(s.threads[u].pc);
      }
    }
  }

  lemma MadeBuilt(cfg: Config, s: State, t: nat, url: string, c: Client)
    requires Inv(cfg, s) && t < |s.threads| && s.threads[t].pc == Making(url)
    requires c.reported == s.threads[t].key.chain && c.url == url
    ensures BuiltStored(cfg, Made(s, t, c))
  {
    var r, k := Made(s, t, c), s.threads[t].key;
    assert ThreadFits(cfg, s, s.threads[t]);
    assert s.lock == Some(t);
    forall i | 0 <= i < |s.built| ensures r.built[i] == s.built[i] && s.built[i].key in s.clients {
      assert !(s.threads[t] == Thread(s.built[i].key, Storing(s.built[i].client)));
    }
    assert r.threads[t] == Thread(k, Storing(c)) && r.built[|s.built|] == Built(k, c);
    assert forall x :: x in s.built ==> x in r.built;
  }

  /** Call `t` has made its client. */
  function Made(s: State, t: nat, c: Client): State
    requires t < |s.threads|
  {
    s.(nextId := s.nextId + 1, built := s.built + [Built(s.threads[t].key, c)]).At(t, Storing(c))
  }

  /** Call `t` has put its client in the cache. */
  function Filed(s: State, t: nat, c: Client): State
    requires t < |s.threads|
  {
    s.(clients := s.clients[s.threads[t].key := c]).At(t, Releasing(Returned(c)))
  }

  lemma MadeInv(cfg: Config, s: State, t: nat, url: string, c: Client)
    requires Inv(cfg, s) && t < |s.threads| && s.threads[t].pc == Making(url)
    requires c.reported == s.threads[t].key.chain && c.url == url
    ensures Inv(cfg, Made(s, t, c))
  {
    MadeThreads(cfg, s, t, url, c);
    MadeBuilt(cfg, s, t, url, c);
  }

  lemma FiledThreads(cfg: Config, s: State, t: nat, c: Client)
    requires Inv(cfg, s) && t < |s.threads| && s.threads[t].pc == Storing(c)
    ensures var r := Filed(s, t, c); forall u :: 0 <= u < |r.threads| ==> ThreadFits(cfg, r, r.threads[u])
  {
    var r := Filed(s, t, c);
    assert ThreadFits(cfg, s, s.threads[t]);
    forall u | 0 <= u < |r.threads| ensures ThreadFits(cfg, r, r.threads[u]) {
      if u != t {
        assert ThreadFits(cfg, s, s.threads[u]);
        assert !HoldsLock(s.threads[u].pc);
      }
    }
  }

  lemma FiledBuilt(cfg: Config, s: State, t: nat, c: Client)
    requires Inv(cfg, s) && t < |s.threads| && s.threads[t].pc == Storing(c)
    ensures BuiltStored(cfg, Filed(s, t, c))
  {
    var r, k := Filed(s, t, c), s.threads[t].key;
    assert ThreadFits(cfg, s, s.threads[t]);
    assert s.lock == Some(t) && s.built[|s.built| - 1] == Built(k, c);
    forall i | 0 <= i < |s.built|
      ensures s.built[i].key in r.clients && r.clients[s.built[i].key] == s.built[i].client
    {
      assert i < |s.built| - 1 ==> s.built[i].key != k && s.built[i].key in s.clients;
    }
  }

  lemma StoreInv(cfg: Config, s: State, t: nat, c: Client)
    requires Inv(cfg, s) && t < |s.threads| && s.threads[t].pc == Storing(c)
    ensures Inv(cfg, Filed(s, t, c))
  {
    FiledThreads(cfg, s, t, c);
    FiledBuilt(cfg, s, t, c);
  }

  /** The actions that only move the program counter. */
  lemma QuietInv(cfg: Config, s: State, t: nat)
    requires Inv(cfg, s) && t < |s.threads|
    requires var pc := s.threads[t].pc; pc.Start? || pc.FastRead? || pc.Resolve? || pc.Recheck?
    ensures Inv(cfg, Advance(cfg, s, t, None))
  {
    var k := s.threads[t].key;
    assert ThreadFits(cfg, s, s.threads[t]);
    match s.threads[t].pc
    case Start => MoveInv(cfg, s, t, if k.chain in cfg.chains then FastRead else Done(UnknownChain));
    case FastRead => MoveInv(cfg, s, t, if k in s.clients then Done(Returned(s.clients[k])) else Resolve);
    case Resolve => MoveInv(cfg, s, t, if cfg.Url(k) == "" then Done(NoEndpoint) else Waiting(cfg.Url(k)));
    case Recheck(url) =>
      MoveInv(cfg, s, t, if k in s.clients then Releasing(Returned(s.clients[k])) else Making(url));
  }

  lemma MakingInv(cfg: Config, s: State, t: nat, probe: Probe)
    requires Inv(cfg, s) && t < |s.threads| && s.threads[t].pc.Making?
    ensures Inv(cfg, Advance(cfg, s, t, probe))
  {
    var url := s.threads[t].pc.url;
    assert ThreadFits(cfg, s, s.threads[t]);
    var made := Make(s.nextId, url, s.threads[t].key.chain, probe);
    if made.Returned? {
      MadeInv(cfg, s, t, url, made.client);
    } else {
      MoveInv(cfg, s, t, Releasing(made));
    }
  }

  lemma ArriveInv(cfg: Config, s: State, k: Key)
    requires Inv(cfg, s)
    ensures Inv(cfg, s.(threads := s.threads + [Thread(k, Start)]))
  {
    var r := s.(threads := s.threads + [Thread(k, Start)]);
    forall u | 0 <= u < |s.threads| ensures ThreadFits(cfg, r, s.threads[u]) {
      assert ThreadFits(cfg, s, s.threads[u]);
    }
  }

  lemma StepInv(cfg: Config, s: State, a: Action)
    requires Inv(cfg, s)
    ensures Inv(cfg, Step(cfg, s, a))
  {
    if Enabled(s, a) {
      match a
      case Arrive(k) => ArriveInv(cfg, s, k);
      case Next(t, probe) =>
        match s.threads[t].pc
        case Waiting(url) => AcquireInv(cfg, s, t, url);
        case Making(url) => MakingInv(cfg, s, t, probe);
        case Storing(c) => StoreInv(cfg, s, t, c);
        case Releasing(r) => ReleaseInv(cfg, s, t, r);
        case _ => QuietInv(cfg, s, t);
    }
  }

  lemma {:induction false} RunInv(cfg: Config, s: State, actions: seq<Action>)
    requires Inv(cfg, s)
    ensures Inv(cfg, RunFrom(cfg, s, actions))
    decreases |actions|
  {
    if actions != [] {
      StepInv(cfg, s, actions[0]);
      RunInv(cfg, Step(cfg, s, actions[0]), actions[1..]);
    }
  }

  // ----- what it means

  /** However calls interleave, each key is successfully constructed at most once. */
  lemma ConstructedAtMostOnce(cfg: Config, actions: seq<Action>)
    ensures var s := Run(cfg, actions);
            forall i, j :: 0 <= i < |s.built| && 0 <= j < |s.built| && s.built[i].key == s.built[j].key ==> i == j
  {
    RunInv(cfg, IDLE, actions);
  }

  /** All calls that return for a key return one client, the stored one, and it was checked for that key. */
  lemma OneCheckedClient(cfg: Config, actions: seq<Action>, t: nat)
    requires t < |Run(cfg, actions).threads|
    ensures var s := Run(cfg, actions);
            var th := s.threads[t];
            th.pc.Done? && th.pc.outcome.Returned? ==>
              && th.key in s.clients && s.clients[th.key] == th.pc.outcome.client
              && Fits(cfg, th.key, th.pc.outcome.client)
  {
    StoredAreChecked(cfg, actions);
    RunInv(cfg, IDLE, actions);
    var s := Run(cfg, actions);
    assert ThreadFits(cfg, s, s.threads[t]);
  }

  /** Every stored client reported its key's chain and goes to its key's endpoint. */
  lemma StoredAreChecked(cfg: Config, actions: seq<Action>)
    ensures var s := Run(cfg, actions);
            forall k :: k in s.clients ==> Fits(cfg, k, s.clients[k])
  {
    RunInv(cfg, IDLE, actions);
    var s := Run(cfg, actions);
    forall k | k in s.clients ensures Fits(cfg, k, s.clients[k]) {
      assert Built(k, s.clients[k]) in s.built;
    }
  }

  lemma StepKeeps(cfg: Config, s: State, a: Action, k: Key)
    requires Inv(cfg, s) && k in s.clients
    ensures k in Step(cfg, s, a).clients && Step(cfg, s, a).clients[k] == s.clients[k]
  {
    if Enabled(s, a) && a.Next? && s.threads[a.t].pc.Storing? {
      assert ThreadFits(cfg, s, s.threads[a.t]);
      assert k != s.threads[a.t].key;
    }
  }

  lemma {:induction false} RunKeeps(cfg: Config, s: State, later: seq<Action>, k: Key)
    requires Inv(cfg, s) && k in s.clients
    ensures k in RunFrom(cfg, s, later).clients && RunFrom(cfg, s, later).clients[k] == s.clients[k]
    decreases |later|
  {
    if later != [] {
      StepInv(cfg, s, later[0]);
      StepKeeps(cfg, s, later[0], k);
      RunKeeps(cfg, Step(cfg, s, later[0]), later[1..], k);
    }
  }

  /** A stored client is never replaced, whatever happens later. */
  lemma NeverReplaced(cfg: Config, before: seq<Action>, later: seq<Action>, k: Key)
    requires k in Run(cfg, before).clients
    ensures var s := RunFrom(cfg, Run(cfg, before), later);
            k in s.clients && s.clients[k] == Run(cfg, before).clients[k]
  {
    RunInv(cfg, IDLE, before);
    RunKeeps(cfg, Run(cfg, before), later, k);
  }

  /** Nobody is stuck for good: while some call is unfinished, some unfinished call can act. */
  lemma SomeoneCanStep(cfg: Config, actions: seq<Action>, t: nat)
    requires var s := Run(cfg, actions); t < |s.threads| && !s.threads[t].pc.Done?
    ensures exists u, probe :: Enabled(Run(cfg, actions), Next(u, probe))
  {
    RunInv(cfg, IDLE, actions);
    var s := Run(cfg, actions);
    var u := if s.threads[t].pc.Waiting? && s.lock.Some? then s.lock.value else t;
    assert Enabled(s, Next(u, None));
  }

  /** A bound on the actions a call still takes. */
  function Left(pc: Pc): nat {
    match pc
    case Start => 8
    case FastRead => 7
    case Resolve => 6
    case Waiting(_) => 5
    case Recheck(_) => 4
    case Making(_) => 3
    case Storing(_) => 2
    case Releasing(_) => 1
    case Done(_) => 0
  }

  lemma OwnActionLeft(cfg: Config, s: State, t: nat, probe: Probe)
    requires Enabled(s, Next(t, probe))
    ensures |Advance(cfg, s, t, probe).threads| == |s.threads|
    ensures Left(Advance(cfg, s, t, probe).threads[t].pc) < Left(s.threads[t].pc)
  {
  }

  lemma OthersStay(cfg: Config, s: State, t: nat, probe: Probe, u: nat)
    requires Enabled(s, Next(t, probe)) && u < |s.threads| && u != t
    ensures Advance(cfg, s, t, probe).threads[u] == s.threads[u]
  {
  }

  /** An action of a call uses up one of its own, and none of any other's. */
  lemma StepLeft(cfg: Config, s: State, a: Action, t: nat)
    requires t < |s.threads|
    ensures t < |Step(cfg, s, a).threads|
    ensures Left(Step(cfg, s, a).threads[t].pc) + (if a.Next? && a.t == t && Enabled(s, a) then 1 else 0)
            <= Left(s.threads[t].pc)
  {
    if Enabled(s, a) && a.Next? {
      OwnActionLeft(cfg, s, a.t, a.probe);
      if a.t != t {
        OthersStay(cfg, s, a.t, a.probe, t);
      }
    }
  }

  /** How often call `t` acts. */
  function Moves(cfg: Config, s: State, actions: seq<Action>, t: nat): nat
    decreases |actions|
  {
    if actions == [] then 0
    else
      (if actions[0].Next? && actions[0].t == t && Enabled(s, actions[0]) then 1 else 0)
      + Moves(cfg, Step(cfg, s, actions[0]), actions[1..], t)
  }

  lemma {:induction false} MovesBounded(cfg: Config, s: State, actions: seq<Action>, t: nat)
    requires t < |s.threads|
    ensures Moves(cfg, s, actions, t) <= Left(s.threads[t].pc)
    decreases |actions|
  {
    if actions != [] {
      StepLeft(cfg, s, actions[0], t);
      MovesBounded(cfg, Step(cfg, s, actions[0]), actions[1..], t);
    }
  }

  /** Whatever the others do, a call acts at most eight times; with SomeoneCanStep every run comes to an end. */
  lemma EveryCallEnds(cfg: Config, before: seq<Action>, k: Key, later: seq<Action>)
    ensures var s := Step(cfg, Run(cfg, before), Arrive(k)); Moves(cfg, s, later, |s.threads| - 1) <= 8
  {
    var s := Step(cfg, Run(cfg, before), Arrive(k));
    MovesBounded(cfg, s, later, |s.threads| - 1);
  }

  /** Call `t` takes its next `n` actions while nobody else moves. */
  function Solo(cfg: Config, s: State, t: nat, probe: Probe, n: nat): (r: State)
    ensures |r.threads| == |s.threads|
    decreases n
  {
    if n == 0 then s else Solo(cfg, Step(cfg, s, Next(t, probe)), t, probe, n - 1)
  }

  lemma SoloDone(cfg: Config, s: State, t: nat, probe: Probe, n: nat)
    requires t < |s.threads| && s.threads[t].pc.Done?
    ensures Solo(cfg, s, t, probe, n) == s
  {
    if n > 0 {
      SoloDone(cfg, s, t, probe, n - 1);
    }
  }

  lemma SoloFromMaking(cfg: Config, s: State, t: nat, probe: Probe)
    requires t < |s.threads| && s.threads[t].pc == Making(cfg.Url(s.threads[t].key))
    ensures var k := s.threads[t].key;
            var made := Make(s.nextId, cfg.Url(k), k.chain, probe);
            var r := Solo(cfg, s, t, probe, 3);
            && r.threads[t].pc == Done(made)
            && r.clients == if made.Returned? then s.clients[k := made.client] else s.clients
  {
    var s1 := Step(cfg, s, Next(t, probe));
    var s2 := Step(cfg, s1, Next(t, probe));
    var s3 := Step(cfg, s2, Next(t, probe));
    assert Solo(cfg, s, t, probe, 3) == Solo(cfg, s1, t, probe, 2) == Solo(cfg, s2, t, probe, 1);
    assert Solo(cfg, s2, t, probe, 1) == Solo(cfg, s3, t, probe, 0) == s3;
  }

  lemma SoloFromLock(cfg: Config, s: State, t: nat, probe: Probe)
    requires s.lock == None && t < |s.threads| && s.threads[t].key !in s.clients
    requires s.threads[t].pc == Waiting(cfg.Url(s.threads[t].key))
    ensures var k := s.threads[t].key;
            var made := Make(s.nextId, cfg.Url(k), k.chain, probe);
            var r := Solo(cfg, s, t, probe, 5);
            && r.threads[t].pc == Done(made)
            && r.clients == if made.Returned? then s.clients[k := made.client] else s.clients
  {
    var s1 := Step(cfg, s, Next(t, probe));
    var s2 := Step(cfg, s1, Next(t, probe));
    assert Solo(cfg, s, t, probe, 5) == Solo(cfg, s1, t, probe, 4) == Solo(cfg, s2, t, probe, 3);
    SoloFromMaking(cfg, s2, t, probe);
  }

  /** A call that runs alone does what the one-caller code does. */
  lemma AloneIsSequential(cfg: Config, s: State, t: nat, probe: Probe)
    requires s.lock == None && t < |s.threads| && s.threads[t].pc == Start
    ensures var (clients, outcome) := ClientFor(cfg, s.clients, s.nextId, s.threads[t].key, probe);
            var r := Solo(cfg, s, t, probe, 8);
            r.threads[t].pc == Done(outcome) && r.clients == clients
  {
    var k := s.threads[t].key;
    var s1 := Step(cfg, s, Next(t, probe));
    assert Solo(cfg, s, t, probe, 8) == Solo(cfg, s1, t, probe, 7);
    if k.chain !in cfg.chains {
      SoloDone(cfg, s1, t, probe, 7);
    } else {
      var s2 := Step(cfg, s1, Next(t, probe));
      assert Solo(cfg, s1, t, probe, 7) == Solo(cfg, s2, t, probe, 6);
      if k in s.clients {
        SoloDone(cfg, s2, t, probe, 6);
      } else {
        var s3 := Step(cfg, s2, Next(t, probe));
        assert Solo(cfg, s2, t, probe, 6) == Solo(cfg, s3, t, probe, 5);
        if cfg.Url(k) == "" {
          SoloDone(cfg, s3, t, probe, 5);
        } else {
          SoloFromLock(cfg, s3, t, probe);
        }
      }
    }
  }
}
