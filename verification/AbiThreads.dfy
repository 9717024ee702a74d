/**
 `resolve_abi` (clients/abi_resolver.py) under any number of threads: each
 operation under `_cache_lock` is one step, and the sources are asked without
 the lock. Clock readings are arbitrary.
 */
module AbiThreads {
  import opened AbiCache
  import opened Options
  import opened OrderedDict
  import opened Text

  datatype Phase =
    | Looking
    | CheckingMisses
    | Sourcing
    | Refused
    | FromCache(outcome: Outcome, at: real)
    | FromSources(outcome: Outcome, at: real)

  datatype Thread = Thread(request: Request, phase: Phase)

  datatype State = State(caches: Caches, threads: seq<Thread>)

  /** `Next(i, now)`: call `i` takes its next step, and reads the clock as `now` if it does. */
  datatype Action = Arrive(request: Request) | Next(i: nat, now: real) | ClearAll

  const IDLE := State(EMPTY, [])

  predicate Active(phase: Phase) {
    phase.Looking? || phase.CheckingMisses? || phase.Sourcing?
  }

  predicate Enabled(s: State, a: Action) {
    a.Next? ==> a.i < |s.threads| && Active(s.threads[a.i].phase)
  }

  /** What the call's next step does to the caches. */
  function NextOp(t: Thread, now: real): Op
    requires Active(t.phase)
  {
    match t.phase
    case Looking => GetHit(t.request.Key(), now)
    case CheckingMisses => GetMiss(t.request.Key(), now)
    case Sourcing =>
      match t.request.Verdict()
      case Some(record) => PutHit(t.request.Key(), record, now)
      case None => PutMiss(t.request.Key(), now)
  }

  /** Where the call stands after that step. */
  function NextPhase(cfg: Config, c: Caches, t: Thread, now: real): Phase
    requires Active(t.phase)
  {
    var k := t.request.Key();
    match t.phase
    case Looking =>
      (match Lookup(c.hits, k, now, cfg.ttl, true).1
       case Some(record) => FromCache(Resolved(record), now)
       case None => CheckingMisses)
    case CheckingMisses =>
      if Lookup(c.misses, k, now, NEGATIVE_TTL, true).1.Some? then FromCache(CachedMiss, now) else Sourcing
    case Sourcing =>
      match t.request.Verdict()
      case Some(record) =>
        FromSources(if Store(c.hits, k, record, now, cfg.capacity).Some? then Resolved(record) else CacheFull, now)
      case None => FromSources(if Store(c.misses, k, (), now, cfg.capacity).Some? then NotFound else CacheFull, now)
  }

  /** One step; a step that is not enabled changes nothing. */
  function Step(cfg: Config, s: State, a: Action): State {
    if !Enabled(s, a) then s
    else
      match a
      case Arrive(r) => s.(threads := s.threads + [Thread(r, if r.chain in cfg.known then Looking else Refused)])
      case Next(i, now) =>
        var t := s.threads[i];
        State(Apply(cfg, s.caches, NextOp(t, now)),
              s.threads[i := t.(phase := NextPhase(cfg, s.caches, t, now))])
      case ClearAll => s.(caches := EMPTY)
  }

  function RunFrom(cfg: Config, s: State, actions: seq<Action>): State
    decreases |actions|
  {
    if actions == [] then s else RunFrom(cfg, Step(cfg, s, actions[0]), actions[1..])
  }

  function Run(cfg: Config, actions: seq<Action>): State {
    RunFrom(cfg, IDLE, actions)
  }

  /** Call `j` asked for key `k`, and its sources said `verdict` when it stored that at `at`. */
  ghost predicate StoredBy(s: State, k: string, verdict: Option<Record>, at: real, j: nat) {
    && j < |s.threads| && s.threads[j].request.Key() == k && s.threads[j].request.Verdict() == verdict
    && s.threads[j].phase == FromSources(if verdict.Some? then Resolved(verdict.value) else NotFound, at)
  }

  /** Every cached verdict is what the sources told some call with its key, when it was stored. */
  ghost predicate Traced(s: State) {
    && (forall k :: Get(s.caches.hits, k).Some? ==>
          var e := Get(s.caches.hits, k).value; exists j :: StoredBy(s, k, Some(e.value), e.at, j))
    && (forall k :: Get(s.caches.misses, k).Some? ==>
          exists j :: StoredBy(s, k, None, Get(s.caches.misses, k).value.at, j))
  }

  /** Some call with key `k` had this verdict from its sources, no more than `ttl` before `now`. */
  ghost predicate FreshFor(s: State, k: string, verdict: Option<Record>, now: real, ttl: real) {
    exists j, at :: StoredBy(s, k, verdict, at, j) && now - at <= ttl
  }

  /** What a call returned comes from its own sources, or from a fresh cached verdict for its key. */
  ghost predicate ThreadSound(cfg: Config, s: State, t: Thread) {
    && (t.phase.Refused? <==> t.request.chain !in cfg.known)
    && (t.phase.FromSources? ==>
          || (t.phase.outcome == CacheFull && cfg.capacity < 1)
          || t.phase.outcome == match t.request.Verdict() case Some(record) => Resolved(record) case None => NotFound)
    && (t.phase.FromCache? ==>
          match t.phase.outcome
          case Resolved(record) => FreshFor(s, t.request.Key(), Some(record), t.phase.at, cfg.ttl)
          case CachedMiss => FreshFor(s, t.request.Key(), None, t.phase.at, NEGATIVE_TTL)
          case _ => false)
  }

  ghost predicate RunSound(cfg: Config, s: State) {
    && Sound(cfg, s.caches) && Traced(s)
    && forall i :: 0 <= i < |s.threads| ==> ThreadSound(cfg, s, s.threads[i])
  }

  /** Finished calls stay as they are. */
  ghost predicate Grows(s: State, r: State) {
    && |s.threads| <= |r.threads|
    && forall i :: 0 <= i < |s.threads| && !Active(s.threads[i].phase) ==> r.threads[i] == s.threads[i]
  }

  lemma StoredByKept(s: State, r: State, k: string, verdict: Option<Record>, at: real, j: nat)
    requires Grows(s, r) && StoredBy(s, k, verdict, at, j)
    ensures StoredBy(r, k, verdict, at, j)
  {
  }

  lemma ThreadKept(cfg: Config, s: State, r: State, t: Thread)
    requires Grows(s, r) && ThreadSound(cfg, s, t)
    ensures ThreadSound(cfg, r, t)
  {
    forall k, verdict, at, j | StoredBy(s, k, verdict, at, j) ensures StoredBy(r, k, verdict, at, j) {
      StoredByKept(s, r, k, verdict, at, j);
    }
  }

  /** What a call stores is usable and on the chain of its key: no hypothesis on the caller. */
  lemma NextOpGood(t: Thread, now: real)
    requires Active(t.phase)
    ensures GoodOp(NextOp(t, now))
  {
    VerdictFits(t.request);
  }

  lemma NextTraced(cfg: Config, s: State, i: nat, now: real)
    requires RunSound(cfg, s) && Enabled(s, Next(i, now))
    ensures Traced(Step(cfg, s, Next(i, now)))
  {
    var t, r := s.threads[i], Step(cfg, s, Next(i, now));
    forall k | Get(r.caches.hits, k).Some?
      ensures var e := Get(r.caches.hits, k).value; exists j :: StoredBy(r, k, Some(e.value), e.at, j)
    {
      var e := Get(r.caches.hits, k).value;
      ApplyChanges(cfg, s.caches, NextOp(t, now), k);
      if Get(s.caches.hits, k) == Some(e) {
        var j :| StoredBy(s, k, Some(e.value), e.at, j);
        StoredByKept(s, r, k, Some(e.value), e.at, j);
      } else {
        StoreFits(cfg, s.caches, t, now);
        assert StoredBy(r, k, Some(e.value), e.at, i);
      }
    }
    forall k | Get(r.caches.misses, k).Some?
      ensures exists j :: StoredBy(r, k, None, Get(r.caches.misses, k).value.at, j)
    {
      var at := Get(r.caches.misses, k).value.at;
      ApplyChanges(cfg, s.caches, NextOp(t, now), k);
      if Get(s.caches.misses, k) == Get(r.caches.misses, k) {
        var j :| StoredBy(s, k, None, at, j);
        StoredByKept(s, r, k, None, at, j);
      } else {
        StoreFits(cfg, s.caches, t, now);
        assert StoredBy(r, k, None, at, i);
      }
    }
  }

  /** A write that changes anything is one that succeeded. */
  lemma StoreFits(cfg: Config, c: Caches, t: Thread, now: real)
    requires t.phase.Sourcing? && Apply(cfg, c, NextOp(t, now)) != c
    ensures NextPhase(cfg, c, t, now)
            == FromSources(match t.request.Verdict() case Some(record) => Resolved(record) case None => NotFound, now)
  {
  }

  lemma NextThreadSound(cfg: Config, s: State, i: nat, now: real)
    requires RunSound(cfg, s) && Enabled(s, Next(i, now))
    ensures ThreadSound(cfg, s, Step(cfg, s, Next(i, now)).threads[i])
  {
    var t := s.threads[i];
    var k := t.request.Key();
    assert ThreadSound(cfg, s, t);
    LookupExactly(s.caches.hits, k, now, cfg.ttl, true, k);
    LookupExactly(s.caches.misses, k, now, NEGATIVE_TTL, true, k);
  }

  lemma StepSound(cfg: Config, s: State, a: Action)
    requires RunSound(cfg, s)
    ensures RunSound(cfg, Step(cfg, s, a))
  {
    if Enabled(s, a) {
      var r := Step(cfg, s, a);
      match a
      case Arrive(_) =>
        TracedKept(s, r);
        ThreadsKept(cfg, s, r, |s.threads|);
      case ClearAll =>
        ThreadsKept(cfg, s, r, |s.threads|);
      case Next(i, now) =>
        NextOpGood(s.threads[i], now);
        ApplySound(cfg, s.caches, NextOp(s.threads[i], now));
        NextTraced(cfg, s, i, now);
        NextThreadSound(cfg, s, i, now);
        ThreadKept(cfg, s, r, r.threads[i]);
        ThreadsKept(cfg, s, r, i);
    }
  }

  lemma TracedKept(s: State, r: State)
    requires Traced(s) && Grows(s, r) && r.caches == s.caches
    ensures Traced(r)
  {
    forall k, verdict, at, j | StoredBy(s, k, verdict, at, j) ensures StoredBy(r, k, verdict, at, j) {
      StoredByKept(s, r, k, verdict, at, j);
    }
  }

  lemma ThreadsKept(cfg: Config, s: State, r: State, moved: nat)
    requires RunSound(cfg, s) && Grows(s, r)
    requires forall i :: 0 <= i < |s.threads| && i != moved ==> r.threads[i] == s.threads[i]
    ensures forall i :: 0 <= i < |s.threads| && i != moved ==> ThreadSound(cfg, r, r.threads[i])
  {
    forall i | 0 <= i < |s.threads| && i != moved ensures ThreadSound(cfg, r, r.threads[i]) {
      ThreadKept(cfg, s, r, s.threads[i]);
    }
  }

  lemma {:induction false} RunIsSound(cfg: Config, s: State, actions: seq<Action>)
    requires RunSound(cfg, s)
    ensures RunSound(cfg, RunFrom(cfg, s, actions))
    decreases |actions|
  {
    if actions != [] {
      StepSound(cfg, s, actions[0]);
      RunIsSound(cfg, Step(cfg, s, actions[0]), actions[1..]);
    }
  }

  /**
   However calls and clears interleave: both caches are within capacity, every
   record is usable and on the chain of its key, and every cached verdict is
   what the sources told a call with its key.
   */
  lemma EveryInterleavingSound(cfg: Config, actions: seq<Action>)
    ensures Sound(cfg, Run(cfg, actions).caches) && Traced(Run(cfg, actions))
  {
    RunIsSound(cfg, IDLE, actions);
  }

  /** Call `j` asked the same question as `r`, no more than `ttl` before `now`, and its sources said `verdict`. */
  ghost predicate AskedByOther(s: State, r: Request, verdict: Option<Record>, now: real, ttl: real, j: nat) {
    && j < |s.threads| && SameQuestion(s.threads[j].request, r)
    && s.threads[j].request.Verdict() == verdict
    && s.threads[j].phase.FromSources? && now - s.threads[j].phase.at <= ttl
  }

  /**
   Under any interleaving an answer comes from the call's own sources, or from
   a call that asked the same question no more than one TTL ago.
   */
  lemma InterleavedAnswersOwnQuestion(cfg: Config, actions: seq<Action>, i: nat)
    requires var s := Run(cfg, actions);
             && i < |s.threads| && !Active(s.threads[i].phase)
             && forall j :: 0 <= j < |s.threads| ==> IsAddress(s.threads[j].request.address)
    ensures var s := Run(cfg, actions);
            var t := s.threads[i];
            match t.phase
            case FromCache(Resolved(record), now) =>
              exists j :: AskedByOther(s, t.request, Some(record), now, cfg.ttl, j)
            case FromCache(outcome, now) =>
              outcome == CachedMiss && exists j :: AskedByOther(s, t.request, None, now, 120.0, j)
            case FromSources(Resolved(record), _) => t.request.Verdict() == Some(record)
            case FromSources(outcome, _) =>
              (outcome == NotFound && t.request.Verdict() == None) || (outcome == CacheFull && cfg.capacity < 1)
            case _ => t.request.chain !in cfg.known
  {
    RunIsSound(cfg, IDLE, actions);
    var s := Run(cfg, actions);
    var t := s.threads[i];
    assert ThreadSound(cfg, s, t);
    if t.phase.FromCache? {
      var verdict := if t.phase.outcome.Resolved? then Some(t.phase.outcome.record) else None;
      var ttl := if t.phase.outcome.Resolved? then cfg.ttl else NEGATIVE_TTL;
      assert FreshFor(s, t.request.Key(), verdict, t.phase.at, ttl);
      var j: nat, at :| StoredBy(s, t.request.Key(), verdict, at, j) && t.phase.at - at <= ttl;
      SameKeySameQuestion(s.threads[j].request, t.request);
      assert AskedByOther(s, t.request, verdict, t.phase.at, ttl, j);
    }
  }

  // ----- a lone call

  /** Call `i` reads the clock three times and nobody else moves. */
  function Alone(cfg: Config, s: State, i: nat, c: Call): State {
    Step(cfg, Step(cfg, Step(cfg, s, Next(i, c.t0)), Next(i, c.t1)), Next(i, c.t2))
  }

  lemma LastStep(cfg: Config, s: State, i: nat, c: Call)
    requires i < |s.threads| && s.threads[i] == Thread(c.request, Sourcing)
    ensures var r := SourceAndStore(cfg, s.caches, c);
            Step(cfg, s, Next(i, c.t2)) == State(r.0, s.threads[i := Thread(c.request, FromSources(r.1, c.t2))])
  {
  }

  /** A call that runs alone ends as `Resolve` says. */
  lemma AloneIsResolve(cfg: Config, s: State, c: Call)
    ensures var i, r := |s.threads|, Resolve(cfg, s.caches, c);
            var after := Alone(cfg, Step(cfg, s, Arrive(c.request)), i, c);
            && after.caches == r.0 && |after.threads| == i + 1
            && (if r.1 == UnknownChain then after.threads[i].phase == Refused
                else
                  && (after.threads[i].phase.FromCache? || after.threads[i].phase.FromSources?)
                  && after.threads[i].phase.outcome == r.1)
  {
    var i, s0 := |s.threads|, Step(cfg, s, Arrive(c.request));
    var s1 := Step(cfg, s0, Next(i, c.t0));
    var s2 := Step(cfg, s1, Next(i, c.t1));
    if c.request.chain in cfg.known {
      assert s0.threads[i] == Thread(c.request, Looking);
      if s1.threads[i].phase.CheckingMisses? {
        assert s1.threads[i] == Thread(c.request, CheckingMisses);
        if s2.threads[i].phase.Sourcing? {
          LastStep(cfg, s2, i, c);
        }
      }
    }
  }

  // ----- when a key can be in both caches

  /** Every call in the run is one of `requests`. */
  ghost predicate FromRequests(actions: seq<Action>, requests: set<Request>) {
    forall k :: 0 <= k < |actions| && actions[k].Arrive? ==> actions[k].request in requests
  }

  ghost predicate AllFrom(s: State, requests: set<Request>) {
    forall i :: 0 <= i < |s.threads| ==> s.threads[i].request in requests
  }

  lemma {:induction false} RunAllFrom(cfg: Config, s: State, actions: seq<Action>, requests: set<Request>)
    requires AllFrom(s, requests) && FromRequests(actions, requests)
    ensures AllFrom(RunFrom(cfg, s, actions), requests)
    decreases |actions|
  {
    if actions != [] {
      RunAllFrom(cfg, Step(cfg, s, actions[0]), actions[1..], requests);
    }
  }

  /** In no run of calls with these requests is a key ever in both caches. */
  ghost predicate AlwaysSeparate(cfg: Config, requests: set<Request>) {
    forall actions :: FromRequests(actions, requests) ==> Separate(Run(cfg, actions).caches)
  }

  /** The sources give `a` a record and `b` nothing, and both go by one key. */
  predicate Contradict(cfg: Config, a: Request, b: Request) {
    && a.chain in cfg.known && b.chain in cfg.known && a.Key() == b.Key()
    && a.Verdict().Some? && b.Verdict().None?
  }

  /** No key is ever in both caches exactly when the sources never contradict themselves about a key. */
  lemma SeparateExactly(cfg: Config, requests: set<Request>)
    ensures AlwaysSeparate(cfg, requests)
            <==> cfg.capacity < 1 || forall a, b :: a in requests && b in requests ==> !Contradict(cfg, a, b)
  {
    if a, b :| cfg.capacity >= 1 && a in requests && b in requests && Contradict(cfg, a, b) {
      var actions := InterleavedCallsShareKey(cfg, a, b);
      assert !Separate(Run(cfg, actions).caches);
    } else {
      forall actions | FromRequests(actions, requests) ensures Separate(Run(cfg, actions).caches) {
        RunIsSound(cfg, IDLE, actions);
        RunAllFrom(cfg, IDLE, actions, requests);
        SeparateUnless(cfg, Run(cfg, actions), requests);
      }
    }
  }

  lemma SeparateUnless(cfg: Config, s: State, requests: set<Request>)
    requires RunSound(cfg, s) && AllFrom(s, requests)
    requires cfg.capacity < 1 || forall a, b :: a in requests && b in requests ==> !Contradict(cfg, a, b)
    ensures Separate(s.caches)
  {
    forall k ensures !(Has(s.caches.hits, k) && Has(s.caches.misses, k)) {
      if Has(s.caches.hits, k) && Has(s.caches.misses, k) {
        var e := Get(s.caches.hits, k).value;
        var i: nat :| StoredBy(s, k, Some(e.value), e.at, i);
        var j: nat :| StoredBy(s, k, None, Get(s.caches.misses, k).value.at, j);
        assert ThreadSound(cfg, s, s.threads[i]) && ThreadSound(cfg, s, s.threads[j]);
        assert Contradict(cfg, s.threads[i].request, s.threads[j].request);
      }
    }
  }

  /** Two calls with the same key, both past the lookups. */
  function BothSourcing(a: Request, b: Request): State {
    State(EMPTY, [Thread(a, Sourcing), Thread(b, Sourcing)])
  }

  lemma BothArrive(cfg: Config, a: Request, b: Request)
    requires a.chain in cfg.known && b.chain in cfg.known
    ensures Step(cfg, Step(cfg, IDLE, Arrive(a)), Arrive(b))
            == State(EMPTY, [Thread(a, Looking), Thread(b, Looking)])
  {
  }

  lemma BothLook(cfg: Config, a: Request, b: Request)
    ensures var x, y := Next(0, 0.0), Next(1, 0.0);
            var s := State(EMPTY, [Thread(a, Looking), Thread(b, Looking)]);
            Step(cfg, Step(cfg, Step(cfg, Step(cfg, s, x), y), x), y) == BothSourcing(a, b)
  {
    var x, y := Next(0, 0.0), Next(1, 0.0);
    assert forall k :: Get(EMPTY.hits, k) == None && Get(EMPTY.misses, k) == None;
    var s := State(EMPTY, [Thread(a, Looking), Thread(b, Looking)]);
    var s1 := State(EMPTY, [Thread(a, CheckingMisses), Thread(b, Looking)]);
    var s2 := State(EMPTY, [Thread(a, CheckingMisses), Thread(b, CheckingMisses)]);
    var s3 := State(EMPTY, [Thread(a, Sourcing), Thread(b, CheckingMisses)]);
    assert Step(cfg, s, x) == s1;
    assert Step(cfg, s1, y) == s2;
    assert Step(cfg, s2, x) == s3;
    assert Step(cfg, s3, y) == BothSourcing(a, b);
  }

  lemma BothStore(cfg: Config, a: Request, b: Request)
    requires cfg.capacity >= 1 && Contradict(cfg, a, b)
    ensures var s := Step(cfg, Step(cfg, BothSourcing(a, b), Next(0, 0.0)), Next(1, 0.0)).caches;
            Has(s.hits, a.Key()) && Has(s.misses, a.Key())
  {
    var k := a.Key();
    StoreExactly([], k, a.Verdict().value, 0.0, cfg.capacity, k);
    StoreExactly([], k, (), 0.0, cfg.capacity, k);
    var s := Step(cfg, BothSourcing(a, b), Next(0, 0.0));
    assert s.threads[1] == Thread(b, Sourcing) && s.caches.misses == [];
  }

  /** Both calls look in both caches before either stores. */
  lemma InterleavedCallsShareKey(cfg: Config, a: Request, b: Request) returns (actions: seq<Action>)
    requires cfg.capacity >= 1 && Contradict(cfg, a, b)
    ensures FromRequests(actions, {a, b})
    ensures var s := Run(cfg, actions).caches; Has(s.hits, a.Key()) && Has(s.misses, a.Key())
  {
    var x, y := Next(0, 0.0), Next(1, 0.0);
    actions := [Arrive(a), Arrive(b)] + ([x, y, x, y] + ([x, y] + []));
    SharingRun(cfg, a, b);
    BothStore(cfg, a, b);
  }

  lemma SharingRun(cfg: Config, a: Request, b: Request)
    requires a.chain in cfg.known && b.chain in cfg.known
    ensures var x, y := Next(0, 0.0), Next(1, 0.0);
            Run(cfg, [Arrive(a), Arrive(b)] + ([x, y, x, y] + ([x, y] + [])))
            == Step(cfg, Step(cfg, BothSourcing(a, b), x), y)
  {
    var x, y := Next(0, 0.0), Next(1, 0.0);
    BothArrive(cfg, a, b);
    BothLook(cfg, a, b);
    TwoSteps(cfg, IDLE, Arrive(a), Arrive(b), [x, y, x, y] + ([x, y] + []));
    FourSteps(cfg, State(EMPTY, [Thread(a, Looking), Thread(b, Looking)]), x, y, x, y, [x, y] + []);
    TwoSteps(cfg, BothSourcing(a, b), x, y, []);
  }

  lemma TwoSteps(cfg: Config, s: State, a: Action, b: Action, rest: seq<Action>)
    ensures RunFrom(cfg, s, [a, b] + rest) == RunFrom(cfg, Step(cfg, Step(cfg, s, a), b), rest)
  {
    assert ([a, b] + rest)[1..] == [b] + rest;
    assert ([b] + rest)[1..] == rest;
  }

  lemma FourSteps(cfg: Config, s: State, a: Action, b: Action, c: Action, d: Action, rest: seq<Action>)
    ensures RunFrom(cfg, s, [a, b, c, d] + rest)
            == RunFrom(cfg, Step(cfg, Step(cfg, Step(cfg, Step(cfg, s, a), b), c), d), rest)
  {
    TwoSteps(cfg, s, a, b, [c, d] + rest);
    TwoSteps(cfg, Step(cfg, Step(cfg, s, a), b), c, d, rest);
    assert [a, b, c, d] + rest == [a, b] + ([c, d] + rest);
  }
}
