/**
 The metadata query caches of clients/clickhouse.py: `_cache_get`,
 `_cache_set` and `execute_raw_cached`, called by any number of threads.
 */
module MetadataCache {
  import opened Options
  import opened OrderedDict

  /** The cache a call uses: `page_cache=False` or `True`. */
  datatype Which = Schema | Page

  function Ttl(w: Which): real {
    if w == Page then 60.0 else 300.0
  }

  function Capacity(w: Which): nat {
    if w == Page then 64 else 256
  }

  type Value = string
  type Cache = Dict<string, Stamped<Value>>

  // ----- one caller at a time

  datatype Outcome = Cached(value: Value) | Executed(value: Value) | Failed

  /** One call; `answer` is what `execute_raw` would give, `None` when it raises. */
  function Call(d: Cache, w: Which, key: string, t0: real, answer: Option<Value>, t1: real): (Cache, Outcome) {
    var (read, found) := Lookup(d, key, t0, Ttl(w), false);
    if found.Some? then (read, Cached(found.value))
    else if answer.None? then (read, Failed)
    else (Store(read, key, answer.value, t1, Capacity(w)).value, Executed(answer.value))
  }

  class ClickHouseManager {
    var schemaCache: Cache
    var tablePageCache: Cache

    function Contents(w: Which): Cache
      reads this
    {
      if w == Page then tablePageCache else schemaCache
    }

    constructor ()
      ensures Contents(Schema) == [] && Contents(Page) == []
    {
      schemaCache, tablePageCache := [], [];
    }

    method CacheGet(key: string, w: Which, now: real) returns (found: Option<Value>)
      modifies this
      ensures (Contents(w), found) == Lookup(old(Contents(w)), key, now, Ttl(w), false)
      ensures forall other :: other != w ==> Contents(other) == old(Contents(other))
    {
      var cache := Contents(w);
      var hit := Get(cache, key);
      if hit.Some? {
        if now - hit.value.at < Ttl(w) {
          return Some(hit.value.value);
        }
        if w == Page {
          tablePageCache := Remove(cache, key);
        } else {
          schemaCache := Remove(cache, key);
        }
      }
      return None;
    }

    method CacheSet(key: string, result: Value, w: Which, now: real)
      modifies this
      ensures Some(Contents(w)) == Store(old(Contents(w)), key, result, now, Capacity(w))
      ensures forall other :: other != w ==> Contents(other) == old(Contents(other))
    {
      var cache := Contents(w);
      if |cache| >= Capacity(w) {
        cache := cache[1..];
      }
      if w == Page {
        tablePageCache := Put(cache, key, Stamped(now, result));
      } else {
        schemaCache := Put(cache, key, Stamped(now, result));
      }
    }

    method ExecuteRawCached(key: string, w: Which, t0: real, answer: Option<Value>, t1: real) returns (r: Outcome)
      modifies this
      ensures (Contents(w), r) == Call(old(Contents(w)), w, key, t0, answer, t1)
      ensures forall other :: other != w ==> Contents(other) == old(Contents(other))
    {
      var cached := CacheGet(key, w, t0);
      if cached.Some? {
        return Cached(cached.value);
      }
      if answer.None? {
        return Failed;
      }
      CacheSet(key, answer.value, w, t1);
      return Executed(answer.value);
    }
  }

  // ----- any number of callers: each locked operation is one step

  /** What a caller passes: the cache it uses, the cache key, and the query itself. */
  datatype Request = Request(which: Which, key: string, query: string)

  datatype Phase =
    | Asked
    | Executing
    | Storing(value: Value)
    | ReturnedCached(value: Value, readAt: real)
    | ReturnedOwn(value: Value)
    | Raised

  datatype Thread = Thread(request: Request, phase: Phase)

  /** A result `execute_raw` gave to a call. */
  datatype Produced = Produced(caller: nat, request: Request, value: Value)

  /** A result entering the cache. */
  datatype Stored = Stored(result: Produced, at: real)

  datatype State =
    State(schema: Cache, page: Cache, threads: seq<Thread>, clock: real, produced: set<Produced>, stored: set<Stored>) {
    function Of(w: Which): Cache {
      if w == Page then page else schema
    }

    function With(w: Which, d: Cache): State {
      if w == Page then this.(page := d) else this.(schema := d)
    }

    function Moved(i: nat, phase: Phase): State
      requires i < |threads|
    {
      this.(threads := threads[i := threads[i].(phase := phase)])
    }
  }

  const START := State([], [], [], 0.0, {}, {})

  datatype Action =
    | Begin(request: Request)
    | Read(i: nat, now: real)
    | Execute(i: nat, answer: Option<Value>)
    | Write(i: nat, now: real)

  predicate Enabled(s: State, a: Action) {
    match a
    case Begin(_) => true
    case Read(i, now) => i < |s.threads| && s.threads[i].phase == Asked && now >= s.clock
    case Execute(i, _) => i < |s.threads| && s.threads[i].phase == Executing
    case Write(i, now) => i < |s.threads| && s.threads[i].phase.Storing? && now >= s.clock
  }

  /** One step; a step that is not enabled changes nothing. */
  function Step(s: State, a: Action): State {
    if !Enabled(s, a) then s
    else
      match a
      case Begin(request) => s.(threads := s.threads + [Thread(request, Asked)])
      case Read(i, now) =>
        var r := s.threads[i].request;
        var (d, found) := Lookup(s.Of(r.which), r.key, now, Ttl(r.which), false);
        s.(clock := now).With(r.which, d).Moved(i, if found.Some? then ReturnedCached(found.value, now) else Executing)
      case Execute(i, answer) =>
        if answer.None? then s.Moved(i, Raised)
        else
          var p := Produced(i, s.threads[i].request, answer.value);
          s.(produced := s.produced + {p}).Moved(i, Storing(answer.value))
      case Write(i, now) =>
        var r, value := s.threads[i].request, s.threads[i].phase.value;
        var d := Store(s.Of(r.which), r.key, value, now, Capacity(r.which)).value;
        var entry := Stored(Produced(i, r, value), now);
        s.(clock := now, stored := s.stored + {entry}).With(r.which, d).Moved(i, ReturnedOwn(value))
  }

  function Run(s: State, actions: seq<Action>): State {
    if actions == [] then s else Step(Run(s, actions[..|actions| - 1]), actions[|actions| - 1])
  }

  lemma RunAppend(actions: seq<Action>, a: Action)
    ensures Run(START, actions + [a]) == Step(Run(START, actions), a)
  {
    assert (actions + [a])[..|actions|] == actions;
  }

  /** Call `i` reads, executes and writes while nobody else moves. */
  function Alone(s: State, i: nat, t0: real, answer: Option<Value>, t1: real): State {
    Step(Step(Step(s, Read(i, t0)), Execute(i, answer)), Write(i, t1))
  }

  /** A call that runs alone ends as `Call` says. */
  lemma AloneIsCall(s: State, r: Request, t0: real, answer: Option<Value>, t1: real)
    requires s.clock <= t0 <= t1
    ensures var i, (d, outcome) := |s.threads|, Call(s.Of(r.which), r.which, r.key, t0, answer, t1);
            var after := Alone(Step(s, Begin(r)), i, t0, answer, t1);
            && after.Of(r.which) == d && |after.threads| == i + 1
            && after.threads[i].phase == match outcome
                                         case Cached(value) => ReturnedCached(value, t0)
                                         case Executed(value) => ReturnedOwn(value)
                                         case Failed => Raised
  {
    var i, s0 := |s.threads|, Step(s, Begin(r));
    var s1 := Step(s0, Read(i, t0));
    assert s0.threads[i] == Thread(r, Asked) && s0.Of(r.which) == s.Of(r.which);
    if s1.threads[i].phase == Executing {
      var s2 := Step(s1, Execute(i, answer));
      assert s2.threads[i] == Thread(r, if answer.None? then Raised else Storing(answer.value));
      assert s2.Of(r.which) == s1.Of(r.which);
    }
  }

  // ----- what holds after every run

  /** `x` put this value into the cache under this key. */
  predicate Supplies(x: Stored, w: Which, key: string, value: Value) {
    x.result.request.which == w && x.result.request.key == key && x.result.value == value
  }

  /** An entry was put there under its key, at the time it carries. */
  ghost predicate EntrySound(s: State, w: Which, e: Entry<string, Stamped<Value>>) {
    exists x :: x in s.stored && Supplies(x, w, e.key, e.value.value) && x.at == e.value.at
  }

  ghost predicate CacheSound(s: State, w: Which) {
    && Distinct(s.Of(w)) && |s.Of(w)| <= Capacity(w)
    && forall e :: e in s.Of(w) ==> EntrySound(s, w, e)
  }

  /** The value was stored under this key, and less than one TTL before `readAt`. */
  ghost predicate FreshlyStored(s: State, w: Which, key: string, value: Value, readAt: real) {
    exists x :: x in s.stored && Supplies(x, w, key, value) && x.at <= readAt < x.at + Ttl(w)
  }

  /** A call's own result is its own; a cached one was produced for the key it asked for. */
  ghost predicate ThreadSound(s: State, i: nat)
    requires i < |s.threads|
  {
    var t := s.threads[i];
    && (t.phase.Storing? || t.phase.ReturnedOwn? ==> Produced(i, t.request, t.phase.value) in s.produced)
    && (t.phase.ReturnedCached? ==>
          FreshlyStored(s, t.request.which, t.request.key, t.phase.value, t.phase.readAt))
  }

  ghost predicate Sound(s: State) {
    && CacheSound(s, Schema) && CacheSound(s, Page)
    && (forall i :: 0 <= i < |s.threads| ==> ThreadSound(s, i))
    && (forall x :: x in s.stored ==> x.result in s.produced && x.at <= s.clock)
    && (forall p :: p in s.produced ==> p.caller < |s.threads| && s.threads[p.caller].request == p.request)
  }

  /** Requests never change, and the logs only grow. */
  ghost predicate Later(s: State, r: State) {
    && s.stored <= r.stored && s.produced <= r.produced && |s.threads| <= |r.threads|
    && forall k :: 0 <= k < |s.threads| ==> r.threads[k].request == s.threads[k].request
  }

  /** Threads that did not move are as sound as before. */
  lemma ThreadsKept(s: State, r: State, i: nat)
    requires Sound(s) && Later(s, r)
    requires forall k :: 0 <= k < |s.threads| && k != i ==> r.threads[k] == s.threads[k]
    ensures forall k :: 0 <= k < |s.threads| && k != i ==> ThreadSound(r, k)
  {
    forall k | 0 <= k < |s.threads| && k != i ensures ThreadSound(r, k) {
      assert ThreadSound(s, k);
    }
  }

  lemma EntriesKept(s: State, r: State, w: Which)
    requires CacheSound(s, w) && s.stored <= r.stored
    ensures forall e :: e in s.Of(w) ==> EntrySound(r, w, e)
  {
    forall e | e in s.Of(w) ensures EntrySound(r, w, e) {
      assert EntrySound(s, w, e);
    }
  }

  lemma ReadFresh(s: State, i: nat, now: real)
    requires Sound(s) && Enabled(s, Read(i, now))
    ensures ThreadSound(Step(s, Read(i, now)), i)
  {
    var r := s.threads[i].request;
    var d := s.Of(r.which);
    LookupExactly(d, r.key, now, Ttl(r.which), false, r.key);
    if Get(d, r.key).Some? {
      var e := d[Find(d, r.key)];
      assert e in d;
      var x :| x in s.stored && Supplies(x, r.which, e.key, e.value.value) && x.at == e.value.at;
      assert x in Step(s, Read(i, now)).stored;
    }
  }

  lemma ReadCaches(s: State, i: nat, now: real, w: Which)
    requires Sound(s) && Enabled(s, Read(i, now))
    ensures CacheSound(Step(s, Read(i, now)), w)
  {
    var r := s.threads[i].request;
    LookupExactly(s.Of(r.which), r.key, now, Ttl(r.which), false, r.key);
    NothingLookedUp(s.Of(r.which), r.key, now, Ttl(r.which), false);
    EntriesKept(s, Step(s, Read(i, now)), w);
  }

  lemma ReadSound(s: State, i: nat, now: real)
    requires Sound(s) && Enabled(s, Read(i, now))
    ensures Sound(Step(s, Read(i, now)))
  {
    ReadFresh(s, i, now);
    ReadCaches(s, i, now, Schema);
    ReadCaches(s, i, now, Page);
    ThreadsKept(s, Step(s, Read(i, now)), i);
  }

  lemma WriteCaches(s: State, i: nat, now: real, w: Which)
    requires Sound(s) && Enabled(s, Write(i, now))
    ensures CacheSound(Step(s, Write(i, now)), w)
  {
    var t, after := s.threads[i], Step(s, Write(i, now));
    StoreExactly(s.Of(t.request.which), t.request.key, t.phase.value, now, Capacity(t.request.which), t.request.key);
    OnlyStored(s.Of(t.request.which), t.request.key, t.phase.value, now, Capacity(t.request.which));
    EntriesKept(s, after, w);
    var x := Stored(Produced(i, t.request, t.phase.value), now);
    assert x in after.stored && Supplies(x, t.request.which, t.request.key, t.phase.value);
  }

  lemma WriteSound(s: State, i: nat, now: real)
    requires Sound(s) && Enabled(s, Write(i, now))
    ensures Sound(Step(s, Write(i, now)))
  {
    assert ThreadSound(s, i);
    WriteCaches(s, i, now, Schema);
    WriteCaches(s, i, now, Page);
    ThreadsKept(s, Step(s, Write(i, now)), i);
  }

  lemma ExecuteSound(s: State, i: nat, answer: Option<Value>)
    requires Sound(s) && Enabled(s, Execute(i, answer))
    ensures Sound(Step(s, Execute(i, answer)))
  {
    var r := Step(s, Execute(i, answer));
    EntriesKept(s, r, Schema);
    EntriesKept(s, r, Page);
    ThreadsKept(s, r, i);
  }

  lemma BeginSound(s: State, request: Request)
    requires Sound(s)
    ensures Sound(Step(s, Begin(request)))
  {
    var r := Step(s, Begin(request));
    EntriesKept(s, r, Schema);
    EntriesKept(s, r, Page);
    ThreadsKept(s, r, |s.threads|);
  }

  /**
   After every run, however the calls interleave: both caches are within
   bounds, and a returned value was produced by this call itself, or by one
   with its key that stored it less than one TTL before it was read.
   */
  lemma {:induction false} EveryRunSound(actions: seq<Action>)
    ensures Sound(Run(START, actions))
  {
    if actions != [] {
      var s, a := Run(START, actions[..|actions| - 1]), actions[|actions| - 1];
      EveryRunSound(actions[..|actions| - 1]);
      if Enabled(s, a) {
        match a
        case Begin(request) => BeginSound(s, request);
        case Execute(i, answer) => ExecuteSound(s, i, answer);
        case Read(i, now) => ReadSound(s, i, now);
        case Write(i, now) => WriteSound(s, i, now);
      }
    }
  }

  /** The bounds and lifetimes as the program sets them. */
  lemma EveryRunWithin(actions: seq<Action>)
    ensures |Run(START, actions).schema| <= 256 && |Run(START, actions).page| <= 64
    ensures forall i :: 0 <= i < |Run(START, actions).threads| ==>
              var t := Run(START, actions).threads[i];
              t.phase.ReturnedCached? ==>
                exists x :: x in Run(START, actions).stored
                            && Supplies(x, t.request.which, t.request.key, t.phase.value)
                            && 0.0 <= t.phase.readAt - x.at < if t.request.which == Page then 60.0 else 300.0
  {
    EveryRunSound(actions);
    var s := Run(START, actions);
    forall i | 0 <= i < |s.threads| && s.threads[i].phase.ReturnedCached?
      ensures var t := s.threads[i];
              exists x :: x in s.stored && Supplies(x, t.request.which, t.request.key, t.phase.value)
                          && 0.0 <= t.phase.readAt - x.at < if t.request.which == Page then 60.0 else 300.0
    {
      assert ThreadSound(s, i);
    }
  }

  // ----- agreement with direct execution

  /** Every call in the run passes one of `requests`. */
  ghost predicate FromRequests(actions: seq<Action>, requests: set<Request>) {
    forall k :: 0 <= k < |actions| && actions[k].Begin? ==> actions[k].request in requests
  }

  /** What this action executes is answered as `direct` says, or fails. */
  ghost predicate AnsweredBy(direct: string -> Value, s: State, a: Action) {
    a.Execute? && a.answer.Some? && Enabled(s, a) ==> a.answer.value == direct(s.threads[a.i].request.query)
  }

  /** Throughout the run each query has one answer, whenever it is executed. */
  ghost predicate Steady(direct: string -> Value, actions: seq<Action>) {
    actions != [] ==>
      var before := actions[..|actions| - 1];
      Steady(direct, before) && AnsweredBy(direct, Run(START, before), actions[|actions| - 1])
  }

  lemma SteadyAppend(direct: string -> Value, actions: seq<Action>, a: Action)
    requires Steady(direct, actions) && AnsweredBy(direct, Run(START, actions), a)
    ensures Steady(direct, actions + [a])
  {
    assert (actions + [a])[..|actions|] == actions;
  }

  /** Every call is one of `requests`, and everything produced is the answer to the query it was produced for. */
  ghost predicate AnsweredIn(s: State, direct: string -> Value, requests: set<Request>) {
    && (forall i :: 0 <= i < |s.threads| ==> s.threads[i].request in requests)
    && (forall p :: p in s.produced ==> p.value == direct(p.request.query))
  }

  lemma StepAnswered(s: State, a: Action, direct: string -> Value, requests: set<Request>)
    requires AnsweredIn(s, direct, requests) && AnsweredBy(direct, s, a) && (a.Begin? ==> a.request in requests)
    ensures AnsweredIn(Step(s, a), direct, requests)
  {
    var r := Step(s, a);
    forall i | 0 <= i < |r.threads| ensures r.threads[i].request in requests {
      assert i < |s.threads| ==> r.threads[i].request == s.threads[i].request;
    }
  }

  lemma {:induction false} SteadyAnswered(direct: string -> Value, actions: seq<Action>, requests: set<Request>)
    requires Steady(direct, actions) && FromRequests(actions, requests)
    ensures AnsweredIn(Run(START, actions), direct, requests)
  {
    if actions != [] {
      var before := actions[..|actions| - 1];
      SteadyAnswered(direct, before, requests);
      StepAnswered(Run(START, before), actions[|actions| - 1], direct, requests);
    }
  }

  predicate Returned(phase: Phase) {
    phase.ReturnedCached? || phase.ReturnedOwn?
  }

  /** In every run of calls with these requests, each returned value is the answer to the call's own query. */
  ghost predicate Transparent(direct: string -> Value, requests: set<Request>) {
    forall actions, i ::
      FromRequests(actions, requests) && Steady(direct, actions)
      && 0 <= i < |Run(START, actions).threads| && Returned(Run(START, actions).threads[i].phase) ==>
        Run(START, actions).threads[i].phase.value == direct(Run(START, actions).threads[i].request.query)
  }

  /** Requests that share a cache and a key have the same answer. */
  ghost predicate KeysIdentify(direct: string -> Value, requests: set<Request>) {
    forall p, q :: p in requests && q in requests && p.which == q.which && p.key == q.key ==>
      direct(p.query) == direct(q.query)
  }

  lemma ReturnsOwnAnswer(direct: string -> Value, requests: set<Request>, actions: seq<Action>, i: nat)
    requires KeysIdentify(direct, requests) && FromRequests(actions, requests) && Steady(direct, actions)
    requires var s := Run(START, actions); i < |s.threads| && Returned(s.threads[i].phase)
    ensures var t := Run(START, actions).threads[i]; t.phase.value == direct(t.request.query)
  {
    EveryRunSound(actions);
    SteadyAnswered(direct, actions, requests);
    var s := Run(START, actions);
    var t := s.threads[i];
    assert ThreadSound(s, i);
    if t.phase.ReturnedCached? {
      var x :| x in s.stored && Supplies(x, t.request.which, t.request.key, t.phase.value);
      assert x.result in s.produced && s.threads[x.result.caller].request == x.result.request;
    }
  }

  /** Cached and direct execution agree exactly when the cache key determines the answer. */
  lemma TransparentExactly(direct: string -> Value, requests: set<Request>)
    ensures Transparent(direct, requests) <==> KeysIdentify(direct, requests)
  {
    if KeysIdentify(direct, requests) {
      forall actions, i |
        FromRequests(actions, requests) && Steady(direct, actions)
        && 0 <= i < |Run(START, actions).threads| && Returned(Run(START, actions).threads[i].phase)
        ensures Run(START, actions).threads[i].phase.value == direct(Run(START, actions).threads[i].request.query)
      {
        ReturnsOwnAnswer(direct, requests, actions, i);
      }
    } else {
      var p, q :| p in requests && q in requests && p.which == q.which && p.key == q.key
                  && direct(p.query) != direct(q.query);
      var actions := SharedKeyServesOtherQuery(direct, p, q);
      assert FromRequests(actions, requests);
      assert Returned(Run(START, actions).threads[1].phase);
    }
  }

  lemma BothAsked(direct: string -> Value, p: Request, q: Request)
    ensures Run(START, [Begin(p), Begin(q)]) == START.(threads := [Thread(p, Asked), Thread(q, Asked)])
    ensures Steady(direct, [Begin(p), Begin(q)])
  {
    RunAppend([], Begin(p));
    RunAppend([] + [Begin(p)], Begin(q));
    SteadyAppend(direct, [], Begin(p));
    SteadyAppend(direct, [] + [Begin(p)], Begin(q));
    assert [] + [Begin(p)] + [Begin(q)] == [Begin(p), Begin(q)];
  }

  /** The first of two calls reads, executes and writes. */
  lemma FirstStores(direct: string -> Value, p: Request, q: Request) returns (actions: seq<Action>)
    ensures FromRequests(actions, {p, q}) && Steady(direct, actions)
    ensures var s, value := Run(START, actions), direct(p.query);
            && s.threads == [Thread(p, ReturnedOwn(value)), Thread(q, Asked)] && s.clock == 2.0
            && s.Of(p.which) == [Entry(p.key, Stamped(2.0, value))]
  {
    var value := direct(p.query);
    var a2 := [Begin(p), Begin(q)];
    var a3 := a2 + [Read(0, 1.0)];
    var a4 := a3 + [Execute(0, Some(value))];
    BothAsked(direct, p, q);
    RunAppend(a2, Read(0, 1.0));
    var s3 := START.(threads := [Thread(p, Executing), Thread(q, Asked)], clock := 1.0);
    assert Run(START, a3) == s3 by { assert Get(START.Of(p.which), p.key) == None; }
    RunAppend(a3, Execute(0, Some(value)));
    assert Run(START, a4).threads == [Thread(p, Storing(value)), Thread(q, Asked)];
    RunAppend(a4, Write(0, 2.0));
    SteadyAppend(direct, a2, Read(0, 1.0));
    SteadyAppend(direct, a3, Execute(0, Some(value)));
    SteadyAppend(direct, a4, Write(0, 2.0));
    actions := a4 + [Write(0, 2.0)];
    assert Put([], p.key, Stamped(2.0, value)) == [Entry(p.key, Stamped(2.0, value))];
  }

  /** Of two calls with one cache and key, the second can be answered with the result of the first one's query. */
  lemma SharedKeyServesOtherQuery(direct: string -> Value, p: Request, q: Request) returns (actions: seq<Action>)
    requires p.which == q.which && p.key == q.key
    ensures FromRequests(actions, {p, q}) && Steady(direct, actions)
    ensures Run(START, actions).threads
            == [Thread(p, ReturnedOwn(direct(p.query))), Thread(q, ReturnedCached(direct(p.query), 3.0))]
  {
    var before := FirstStores(direct, p, q);
    RunAppend(before, Read(1, 3.0));
    SteadyAppend(direct, before, Read(1, 3.0));
    actions := before + [Read(1, 3.0)];
  }

  // ----- a repeat call does not execute again

  ghost predicate NoWrites(actions: seq<Action>) {
    forall i :: 0 <= i < |actions| ==> !actions[i].Write?
  }

  lemma StepMonotone(s: State, a: Action)
    ensures Step(s, a).clock >= s.clock
  {
  }

  lemma {:induction false} RunMonotone(s: State, actions: seq<Action>)
    ensures Run(s, actions).clock >= s.clock
  {
    if actions != [] {
      RunMonotone(s, actions[..|actions| - 1]);
      StepMonotone(Run(s, actions[..|actions| - 1]), actions[|actions| - 1]);
    }
  }

  /** Reads alone never remove an entry that is still live. */
  lemma {:induction false} EntrySurvives(s: State, actions: seq<Action>, w: Which, key: string)
    requires NoWrites(actions) && Get(s.Of(w), key).Some?
    requires Distinct(s.schema) && Distinct(s.page)
    requires Run(s, actions).clock - Get(s.Of(w), key).value.at < Ttl(w)
    ensures Get(Run(s, actions).Of(w), key) == Get(s.Of(w), key)
    ensures Distinct(Run(s, actions).schema) && Distinct(Run(s, actions).page)
  {
    if actions != [] {
      var before, a := actions[..|actions| - 1], actions[|actions| - 1];
      var r := Run(s, before);
      StepMonotone(r, a);
      EntrySurvives(s, before, w, key);
      if Enabled(r, a) && a.Read? {
        var t := r.threads[a.i].request;
        LookupExactly(r.Of(t.which), t.key, a.now, Ttl(t.which), false, key);
        LookupExactly(r.Of(t.which), t.key, a.now, Ttl(t.which), false, t.key);
      }
    }
  }

  /**
   Once a call has stored its result, a later call for the same key that reads
   within the TTL, with nothing stored in between, returns it and does not execute.
   */
  lemma RepeatDoesNotExecute(before: seq<Action>, i: nat, t: real, between: seq<Action>, j: nat, now: real)
    requires Enabled(Run(START, before), Write(i, t)) && NoWrites(between)
    requires var s := Run(Step(Run(START, before), Write(i, t)), between);
             && Enabled(s, Read(j, now)) && now - t < (if s.threads[j].request.which == Page then 60.0 else 300.0)
             && s.threads[j].request.which == Run(START, before).threads[i].request.which
             && s.threads[j].request.key == Run(START, before).threads[i].request.key
    ensures var s := Run(Step(Run(START, before), Write(i, t)), between);
            Step(s, Read(j, now)).threads[j].phase
            == ReturnedCached(Run(START, before).threads[i].phase.value, now)
  {
    var s0 := Run(START, before);
    var me, r := s0.threads[i], s0.threads[i].request;
    var s1 := Step(s0, Write(i, t));
    EveryRunSound(before);
    WriteSound(s0, i, t);
    StoreExactly(s0.Of(r.which), r.key, me.phase.value, t, Capacity(r.which), r.key);
    EntrySurvives(s1, between, r.which, r.key);
  }
}
