/**
 `RpcRouter` (clients/raw_rpc.py) under any number of threads: the lazy
 endpoint accessors, which take the non-reentrant `_lock`, and
 `lowest_available_block`, which probes without it and takes it to store.
 */
module RouterThreads {
  import opened BlockFloor
  import opened Options

  datatype Which = Std | Arc

  /** What a call was made for. */
  datatype Job = Access(which: Which) | Lowest(hi: Option<int>)

  /** Why an accessor is used: to hand the client over, or to send a request. */
  datatype Goal = HandOver(which: Which) | FetchHead | ProbeFirst | ProbeTop | ProbeMid

  /** Where a call stands; `Locked`, `Unlocking`, `Storing` and `Stored` are inside `with self._lock`. */
  datatype Pc =
    | Start
    | Want(goal: Goal)
    | Locked(goal: Goal)
    | Unlocking(goal: Goal)
    | Request(goal: Goal)
    | WantStore
    | Storing
    | Stored
    | NoArchive
    | Delivered
    | Done(result: int)

  datatype Thread = Thread(job: Job, pc: Pc, lo: int, top: int, found: int)

  datatype Config = Config(hasArchive: bool, head: int, served: int -> bool) {
    /** The endpoint a request goes to. */
    function Target(goal: Goal): Which {
      match goal
      case HandOver(w) => w
      case FetchHead => Std
      case _ => if hasArchive then Arc else Std
    }
  }

  datatype State =
    State(lowest: Option<int>, clients: map<Which, nat>, builds: map<Which, nat>, lock: Option<nat>,
          threads: seq<Thread>) {
    function At(t: nat, pc: Pc): State
      requires t < |threads|
    {
      this.(threads := threads[t := threads[t].(pc := pc)])
    }

    function Put(t: nat, th: Thread): State
      requires t < |threads|
    {
      this.(threads := threads[t := th])
    }

    function Builds(w: Which): nat {
      if w in builds then builds[w] else 0
    }
  }

  const IDLE := State(None, map[], map[], None, [])

  datatype Action = Arrive(job: Job) | Next(t: nat)

  predicate Finished(pc: Pc) {
    pc.Done? || pc.NoArchive? || pc.Delivered?
  }

  predicate Enabled(s: State, a: Action) {
    match a
    case Arrive(_) => true
    case Next(t) =>
      && t < |s.threads| && !Finished(s.threads[t].pc)
      && (s.threads[t].pc.Want? || s.threads[t].pc.WantStore? ==> s.lock == None)
  }

  function Step(cfg: Config, s: State, a: Action): State {
    if !Enabled(s, a) then s
    else
      match a
      case Arrive(job) => s.(threads := s.threads + [Thread(job, Start, 0, 0, 0)])
      case Next(t) => Advance(cfg, s, t)
  }

  function Advance(cfg: Config, s: State, t: nat): State
    requires Enabled(s, Next(t))
  {
    var th := s.threads[t];
    match th.pc
    case Start =>
      (match th.job
       case Access(w) => s.At(t, if w == Arc && !cfg.hasArchive then NoArchive else Want(HandOver(w)))
       case Lowest(_) => s.At(t, if s.lowest.Some? then Done(s.lowest.value) else Want(ProbeFirst)))
    case Want(goal) => s.(lock := Some(t)).At(t, Locked(goal))
    case Locked(goal) =>
      var w := cfg.Target(goal);
      (if w in s.clients then s
       else s.(clients := s.clients[w := t], builds := s.builds[w := s.Builds(w) + 1])).At(t, Unlocking(goal))
    case Unlocking(goal) => s.(lock := None).At(t, if goal.HandOver? then Delivered else Request(goal))
    case Request(goal) => s.Put(t, Answered(cfg, th, goal))
    case WantStore => s.(lock := Some(t)).At(t, Storing)
    case Storing => s.(lowest := Some(th.found)).At(t, Stored)
    case Stored => s.(lock := None).At(t, Done(th.found))
  }

  /** The loop test: probe the middle, or settle on `top`. */
  function Loop(th: Thread): Thread {
    if th.top - th.lo > 1 then th.(pc := Want(ProbeMid)) else th.(pc := WantStore, found := th.top)
  }

  /** The call after the answer to its request. */
  function Answered(cfg: Config, th: Thread, goal: Goal): Thread {
    match goal
    case HandOver(_) => th.(pc := Delivered)
    case FetchHead => th.(pc := Want(ProbeTop), top := cfg.head)
    case ProbeFirst =>
      if cfg.served(1) then th.(pc := WantStore, found := 1)
      else if th.job.Lowest? && th.job.hi.Some? then th.(pc := Want(ProbeTop), lo := 1, top := th.job.hi.value)
      else th.(pc := Want(FetchHead), lo := 1)
    case ProbeTop => if cfg.served(th.top) then Loop(th) else th.(pc := Done(1))
    case ProbeMid =>
      var mid := (th.lo + th.top) / 2;
      Loop(if cfg.served(mid) then th.(top := mid) else th.(lo := mid))
  }

  function RunFrom(cfg: Config, s: State, actions: seq<Action>): State
    decreases |actions|
  {
    if actions == [] then s else RunFrom(cfg, Step(cfg, s, actions[0]), actions[1..])
  }

  function Run(cfg: Config, actions: seq<Action>): State {
    RunFrom(cfg, IDLE, actions)
  }

  // ----- the lock

  predicate HoldsLock(pc: Pc) {
    pc.Locked? || pc.Unlocking? || pc.Storing? || pc.Stored?
  }

  /** Exactly the holder is inside the locked region. */
  ghost predicate LockHeld(s: State) {
    && (forall t :: 0 <= t < |s.threads| ==> (HoldsLock(s.threads[t].pc) <==> s.lock == Some(t)))
    && (s.lock.Some? ==> s.lock.value < |s.threads|)
  }

  /** An endpoint client exists when it was built, and it was built once. */
  ghost predicate BuiltOnce(s: State) {
    forall w :: s.Builds(w) == if w in s.clients then 1 else 0
  }

  lemma StepLockHeld(cfg: Config, s: State, a: Action)
    requires LockHeld(s)
    ensures LockHeld(Step(cfg, s, a))
  {
    if Enabled(s, a) && a.Next? {
      var r := Step(cfg, s, a);
      assert forall u :: 0 <= u < |s.threads| && u != a.t ==> r.threads[u] == s.threads[u];
      if s.threads[a.t].pc.Request? {
        assert !HoldsLock(r.threads[a.t].pc);
      }
    }
  }

  lemma StepBuiltOnce(cfg: Config, s: State, a: Action)
    requires BuiltOnce(s)
    ensures BuiltOnce(Step(cfg, s, a))
    ensures forall w :: w in s.clients ==> w in Step(cfg, s, a).clients && Step(cfg, s, a).clients[w] == s.clients[w]
  {
  }

  lemma {:induction false} RunLock(cfg: Config, s: State, actions: seq<Action>)
    requires LockHeld(s) && BuiltOnce(s)
    ensures LockHeld(RunFrom(cfg, s, actions)) && BuiltOnce(RunFrom(cfg, s, actions))
    ensures forall w :: w in s.clients ==>
              w in RunFrom(cfg, s, actions).clients && RunFrom(cfg, s, actions).clients[w] == s.clients[w]
    decreases |actions|
  {
    if actions != [] {
      StepLockHeld(cfg, s, actions[0]);
      StepBuiltOnce(cfg, s, actions[0]);
      RunLock(cfg, Step(cfg, s, actions[0]), actions[1..]);
    }
  }

  /** No call waits for the lock it holds, and while a call is unfinished some unfinished call can act. */
  lemma NoDeadlock(cfg: Config, actions: seq<Action>, t: nat)
    requires var s := Run(cfg, actions); t < |s.threads| && !Finished(s.threads[t].pc)
    ensures var s := Run(cfg, actions);
            && (s.threads[t].pc.Want? || s.threads[t].pc.WantStore? ==> s.lock != Some(t))
            && exists u :: Enabled(s, Next(u))
  {
    RunLock(cfg, IDLE, actions);
    var s := Run(cfg, actions);
    var u := if (s.threads[t].pc.Want? || s.threads[t].pc.WantStore?) && s.lock.Some? then s.lock.value else t;
    assert Enabled(s, Next(u));
  }

  /** Each endpoint client is built at most once and never replaced, whatever the interleaving. */
  lemma BuiltAtMostOnce(cfg: Config, before: seq<Action>, later: seq<Action>, w: Which)
    ensures var s := Run(cfg, before);
            var r := RunFrom(cfg, s, later);
            && r.Builds(w) <= 1
            && (w in s.clients ==> w in r.clients && r.clients[w] == s.clients[w])
  {
    RunLock(cfg, IDLE, before);
    RunLock(cfg, Run(cfg, before), later);
  }

  // ----- every call searches as a lone caller would

  /** The upper end a search starts from. */
  function TopOf(cfg: Config, job: Job): int {
    if job.Lowest? && job.hi.Some? then job.hi.value else cfg.head
  }

  /** What a lone caller's search finds. */
  function SearchOf(cfg: Config, job: Job): Search {
    FloorSearch(cfg.served, TopOf(cfg, job))
  }

  predicate Keeps(cfg: Config, job: Job, v: int) {
    job.Lowest? && SearchOf(cfg, job).kept && SearchOf(cfg, job).found == v
  }

  ghost predicate KeptBySome(cfg: Config, jobs: set<Job>, v: int) {
    exists j :: j in jobs && Keeps(cfg, j, v)
  }

  /** What a call with this goal knows before the answer. */
  predicate OnTheWay(cfg: Config, th: Thread, goal: Goal) {
    match goal
    case HandOver(_) => !th.pc.Request?
    case ProbeFirst => th.job.Lowest?
    case FetchHead => th.job == Lowest(None) && !cfg.served(1) && th.lo == 1
    case ProbeTop => th.job.Lowest? && !cfg.served(1) && th.lo == 1 && th.top == TopOf(cfg, th.job)
    case ProbeMid =>
      && th.job.Lowest? && !cfg.served(1) && cfg.served(TopOf(cfg, th.job)) && th.top - th.lo > 1
      && Bisect(cfg.served, th.lo, th.top) == Bisect(cfg.served, 1, TopOf(cfg, th.job))
  }

  predicate HasGoal(pc: Pc) {
    pc.Want? || pc.Locked? || pc.Unlocking? || pc.Request?
  }

  predicate Settled(pc: Pc) {
    pc.WantStore? || pc.Storing? || pc.Stored?
  }

  /** A call is on the way to what the lone search finds, has it, or took it from the cache. */
  ghost predicate ThreadInv(cfg: Config, jobs: set<Job>, th: Thread) {
    && th.job in jobs
    && (HasGoal(th.pc) ==> OnTheWay(cfg, th, th.pc.goal))
    && (Settled(th.pc) ==> Keeps(cfg, th.job, th.found))
    && (th.pc.Done? ==>
          th.job.Lowest? && (th.pc.result == SearchOf(cfg, th.job).found || KeptBySome(cfg, jobs, th.pc.result)))
  }

  ghost predicate FloorInv(cfg: Config, jobs: set<Job>, s: State) {
    && (s.lowest.Some? ==> KeptBySome(cfg, jobs, s.lowest.value))
    && (forall t :: 0 <= t < |s.threads| ==> ThreadInv(cfg, jobs, s.threads[t]))
  }

  /** Every call is made for one of `jobs`. */
  ghost predicate FromJobs(actions: seq<Action>, jobs: set<Job>) {
    forall i :: 0 <= i < |actions| && actions[i].Arrive? ==> actions[i].job in jobs
  }

  lemma AnsweredInv(cfg: Config, jobs: set<Job>, th: Thread)
    requires ThreadInv(cfg, jobs, th) && th.pc.Request?
    ensures ThreadInv(cfg, jobs, Answered(cfg, th, th.pc.goal))
  {
    match th.pc.goal
    case FetchHead =>
    case ProbeFirst =>
    case ProbeTop =>
    case ProbeMid =>
      var mid := (th.lo + th.top) / 2;
      var next := if cfg.served(mid) then th.(top := mid) else th.(lo := mid);
      assert Bisect(cfg.served, next.lo, next.top) == Bisect(cfg.served, 1, TopOf(cfg, th.job));
  }

  lemma AdvanceRequest(cfg: Config, jobs: set<Job>, s: State, t: nat)
    requires FloorInv(cfg, jobs, s) && t < |s.threads| && s.threads[t].pc.Request?
    ensures ThreadInv(cfg, jobs, Step(cfg, s, Next(t)).threads[t])
  {
    var th := s.threads[t];
    assert ThreadInv(cfg, jobs, th);
    assert Step(cfg, s, Next(t)).threads[t] == Answered(cfg, th, th.pc.goal);
    AnsweredInv(cfg, jobs, th);
  }

  lemma AdvanceLocking(cfg: Config, jobs: set<Job>, s: State, t: nat)
    requires FloorInv(cfg, jobs, s) && Enabled(s, Next(t))
    requires HasGoal(s.threads[t].pc) && !s.threads[t].pc.Request?
    ensures ThreadInv(cfg, jobs, Step(cfg, s, Next(t)).threads[t])
  {
    var th, after := s.threads[t], Step(cfg, s, Next(t)).threads[t];
    assert ThreadInv(cfg, jobs, th);
    assert after == th.(pc := after.pc);
  }

  lemma AdvanceOther(cfg: Config, jobs: set<Job>, s: State, t: nat)
    requires FloorInv(cfg, jobs, s) && Enabled(s, Next(t)) && !HasGoal(s.threads[t].pc)
    ensures ThreadInv(cfg, jobs, Step(cfg, s, Next(t)).threads[t])
  {
    var th, after := s.threads[t], Step(cfg, s, Next(t)).threads[t];
    assert ThreadInv(cfg, jobs, th);
    assert after == th.(pc := after.pc);
  }

  /** The searches that keep a result all keep the same one. */
  ghost predicate Agree(cfg: Config, jobs: set<Job>) {
    forall j, k, v, w :: j in jobs && k in jobs && Keeps(cfg, j, v) && Keeps(cfg, k, w) ==> v == w
  }

  lemma AdvanceLowest(cfg: Config, jobs: set<Job>, s: State, t: nat)
    requires FloorInv(cfg, jobs, s) && Enabled(s, Next(t))
    ensures var r := Step(cfg, s, Next(t));
            && (r.lowest.Some? ==> KeptBySome(cfg, jobs, r.lowest.value))
            && (s.lowest.Some? && Agree(cfg, jobs) ==> r.lowest == s.lowest)
  {
    assert ThreadInv(cfg, jobs, s.threads[t]);
  }

  lemma StepFloor(cfg: Config, jobs: set<Job>, s: State, a: Action)
    requires FloorInv(cfg, jobs, s) && (a.Arrive? ==> a.job in jobs)
    ensures FloorInv(cfg, jobs, Step(cfg, s, a))
    ensures s.lowest.Some? && Agree(cfg, jobs) ==> Step(cfg, s, a).lowest == s.lowest
  {
    if Enabled(s, a) && a.Next? {
      if s.threads[a.t].pc.Request? {
        AdvanceRequest(cfg, jobs, s, a.t);
      } else if HasGoal(s.threads[a.t].pc) {
        AdvanceLocking(cfg, jobs, s, a.t);
      } else {
        AdvanceOther(cfg, jobs, s, a.t);
      }
      AdvanceLowest(cfg, jobs, s, a.t);
      assert forall u :: 0 <= u < |s.threads| && u != a.t ==> Step(cfg, s, a).threads[u] == s.threads[u];
    }
  }

  lemma {:induction false} RunFloor(cfg: Config, jobs: set<Job>, s: State, actions: seq<Action>)
    requires FloorInv(cfg, jobs, s) && FromJobs(actions, jobs)
    ensures FloorInv(cfg, jobs, RunFrom(cfg, s, actions))
    ensures s.lowest.Some? && Agree(cfg, jobs) ==> RunFrom(cfg, s, actions).lowest == s.lowest
    decreases |actions|
  {
    if actions != [] {
      StepFloor(cfg, jobs, s, actions[0]);
      RunFloor(cfg, jobs, Step(cfg, s, actions[0]), actions[1..]);
    }
  }

  /** Whatever the endpoint serves, each call returns what a lone search finds: its own, or a cached one. */
  lemma CallsSearchAsAlone(cfg: Config, jobs: set<Job>, actions: seq<Action>, t: nat)
    requires FromJobs(actions, jobs)
    requires var s := Run(cfg, actions); t < |s.threads| && s.threads[t].pc.Done?
    ensures var th := Run(cfg, actions).threads[t];
            && th.job in jobs && th.job.Lowest?
            && (th.pc.result == SearchOf(cfg, th.job).found || KeptBySome(cfg, jobs, th.pc.result))
  {
    RunFloor(cfg, jobs, IDLE, actions);
    assert ThreadInv(cfg, jobs, Run(cfg, actions).threads[t]);
  }

  // ----- calls that run alone

  lemma {:induction false} RunConcat(cfg: Config, s: State, a: seq<Action>, b: seq<Action>)
    ensures RunFrom(cfg, s, a + b) == RunFrom(cfg, RunFrom(cfg, s, a), b)
    decreases |a|
  {
    if a == [] {
      assert a + b == b;
    } else {
      assert (a + b)[1..] == a[1..] + b;
      RunConcat(cfg, Step(cfg, s, a[0]), a[1..], b);
    }
  }

  function Turns(t: nat, n: nat): (turns: seq<Action>)
    ensures forall i :: 0 <= i < |turns| ==> turns[i] == Next(t)
  {
    if n == 0 then [] else [Next(t)] + Turns(t, n - 1)
  }

  lemma Turn(cfg: Config, s: State, t: nat, n: nat)
    requires n > 0
    ensures RunFrom(cfg, s, Turns(t, n)) == RunFrom(cfg, Step(cfg, s, Next(t)), Turns(t, n - 1))
  {
    assert Turns(t, n)[1..] == Turns(t, n - 1);
  }

  /** The state with the endpoint for `goal` built. */
  function WithClient(cfg: Config, s: State, t: nat, goal: Goal): State {
    var w := cfg.Target(goal);
    if w in s.clients then s else s.(clients := s.clients[w := t], builds := s.builds[w := s.Builds(w) + 1])
  }

  /** A whole probe by call `t`, from wanting the lock to the answer. */
  function Probed(cfg: Config, s: State, t: nat, goal: Goal): State
    requires t < |s.threads|
  {
    WithClient(cfg, s, t, goal).Put(t, Answered(cfg, s.threads[t].(pc := Request(goal)), goal))
  }

  /** Taking the lock and building the endpoint. */
  lemma LockSteps(cfg: Config, s: State, t: nat, goal: Goal)
    requires t < |s.threads| && s.lock == None && s.threads[t].pc == Want(goal)
    ensures Step(cfg, Step(cfg, s, Next(t)), Next(t))
            == WithClient(cfg, s, t, goal).(lock := Some(t)).At(t, Unlocking(goal))
  {
    var s1 := s.(lock := Some(t)).At(t, Locked(goal));
    assert Step(cfg, s, Next(t)) == s1;
    var s2 := WithClient(cfg, s, t, goal).(lock := Some(t)).At(t, Unlocking(goal));
    assert s2.threads == WithClient(cfg, s1, t, goal).At(t, Unlocking(goal)).threads;
  }

  /** Releasing it and getting the answer. */
  lemma RequestSteps(cfg: Config, s: State, t: nat, goal: Goal)
    requires t < |s.threads| && s.lock == None && !goal.HandOver?
    ensures var s2 := s.(lock := Some(t)).At(t, Unlocking(goal));
            Step(cfg, Step(cfg, s2, Next(t)), Next(t))
            == s.Put(t, Answered(cfg, s.threads[t].(pc := Request(goal)), goal))
  {
    var s2 := s.(lock := Some(t)).At(t, Unlocking(goal));
    var s3 := s.At(t, Request(goal));
    assert s3.threads == s2.At(t, Request(goal)).threads;
    assert Step(cfg, s2, Next(t)) == s3;
    var after := s.Put(t, Answered(cfg, s.threads[t].(pc := Request(goal)), goal));
    assert s3.Put(t, Answered(cfg, s3.threads[t], goal)).threads == after.threads;
  }

  lemma ProbeSteps(cfg: Config, s: State, t: nat, goal: Goal)
    requires t < |s.threads| && s.lock == None && s.threads[t].pc == Want(goal) && !goal.HandOver?
    ensures var a := Next(t);
            Step(cfg, Step(cfg, Step(cfg, Step(cfg, s, a), a), a), a) == Probed(cfg, s, t, goal)
  {
    LockSteps(cfg, s, t, goal);
    RequestSteps(cfg, WithClient(cfg, s, t, goal), t, goal);
  }

  lemma FourTurns(cfg: Config, s: State, t: nat, n: nat)
    requires n >= 4
    ensures var a := Next(t);
            RunFrom(cfg, s, Turns(t, n))
            == RunFrom(cfg, Step(cfg, Step(cfg, Step(cfg, Step(cfg, s, a), a), a), a), Turns(t, n - 4))
  {
    var s1 := Step(cfg, s, Next(t));
    var s2 := Step(cfg, s1, Next(t));
    var s3 := Step(cfg, s2, Next(t));
    Turn(cfg, s, t, n);
    Turn(cfg, s1, t, n - 1);
    Turn(cfg, s2, t, n - 2);
    Turn(cfg, s3, t, n - 3);
  }

  lemma ProbeAlone(cfg: Config, s: State, t: nat, goal: Goal, n: nat)
    requires t < |s.threads| && s.lock == None && s.threads[t].pc == Want(goal) && !goal.HandOver? && n >= 4
    ensures RunFrom(cfg, s, Turns(t, n)) == RunFrom(cfg, Probed(cfg, s, t, goal), Turns(t, n - 4))
  {
    FourTurns(cfg, s, t, n);
    ProbeSteps(cfg, s, t, goal);
  }

  /** `r` differs from `s` only in call `t`, the cached floor and the endpoint clients. */
  ghost predicate OnlyCallMoved(s: State, r: State, t: nat) {
    && r.lock == None && |r.threads| == |s.threads|
    && forall u :: 0 <= u < |s.threads| && u != t ==> r.threads[u] == s.threads[u]
  }

  /** The last three turns of a search that has settled. */
  lemma StoreAlone(cfg: Config, s: State, t: nat)
    requires t < |s.threads| && s.lock == None && s.threads[t].pc == WantStore
    ensures var r := RunFrom(cfg, s, Turns(t, 3));
            r.lowest == Some(s.threads[t].found) && OnlyCallMoved(s, r, t)
  {
    var s1 := Step(cfg, s, Next(t));
    var s2 := Step(cfg, s1, Next(t));
    Turn(cfg, s, t, 3);
    Turn(cfg, s1, t, 2);
    Turn(cfg, s2, t, 1);
  }

  /** The loop after a probe of the middle. */
  lemma MidProbed(cfg: Config, s: State, t: nat)
    requires t < |s.threads| && s.threads[t].top - s.threads[t].lo > 1
    ensures var th, after := s.threads[t], Probed(cfg, s, t, ProbeMid).threads[t];
            && after == Loop(after) && after.top - after.lo < th.top - th.lo
            && Bisect(cfg.served, after.lo, after.top) == Bisect(cfg.served, th.lo, th.top)
  {
  }

  /** Alone, the loop bisects to its end and stores what it finds. */
  lemma {:induction false} BisectAlone(cfg: Config, s: State, t: nat) returns (n: nat)
    requires t < |s.threads| && s.lock == None && s.threads[t] == Loop(s.threads[t])
    ensures var r := RunFrom(cfg, s, Turns(t, n));
            && r.lowest == Some(Bisect(cfg.served, s.threads[t].lo, s.threads[t].top)) && OnlyCallMoved(s, r, t)
    decreases s.threads[t].top - s.threads[t].lo
  {
    if s.threads[t].top - s.threads[t].lo <= 1 {
      StoreAlone(cfg, s, t);
      n := 3;
    } else {
      var s1 := Probed(cfg, s, t, ProbeMid);
      MidProbed(cfg, s, t);
      var rest := BisectAlone(cfg, s1, t);
      n := rest + 4;
      ProbeAlone(cfg, s, t, ProbeMid, n);
    }
  }

  lemma TopAlone(cfg: Config, s: State, t: nat) returns (n: nat)
    requires t < |s.threads| && s.lock == None && s.threads[t].pc == Want(ProbeTop) && cfg.served(s.threads[t].top)
    ensures var r := RunFrom(cfg, s, Turns(t, n));
            && r.lowest == Some(Bisect(cfg.served, s.threads[t].lo, s.threads[t].top)) && OnlyCallMoved(s, r, t)
  {
    var rest := BisectAlone(cfg, Probed(cfg, s, t, ProbeTop), t);
    n := rest + 4;
    ProbeAlone(cfg, s, t, ProbeTop, n);
  }

  lemma FirstAnsweredAlone(cfg: Config, s: State, t: nat, asked: Thread) returns (n: nat)
    requires t < |s.threads| && s.lock == None && s.threads[t] == Answered(cfg, asked, ProbeFirst) && asked.job.Lowest?
    requires SearchOf(cfg, asked.job).kept
    ensures var r := RunFrom(cfg, s, Turns(t, n));
            r.lowest == Some(SearchOf(cfg, asked.job).found) && OnlyCallMoved(s, r, t)
  {
    if cfg.served(1) {
      StoreAlone(cfg, s, t);
      n := 3;
    } else if asked.job.hi.Some? {
      n := TopAlone(cfg, s, t);
    } else {
      var rest := TopAlone(cfg, Probed(cfg, s, t, FetchHead), t);
      n := rest + 4;
      ProbeAlone(cfg, s, t, FetchHead, n);
    }
  }

  /** Alone, a call past the cache check stores what the lone search keeps. */
  lemma SearchAlone(cfg: Config, s: State, t: nat) returns (n: nat)
    requires t < |s.threads| && s.lock == None && s.threads[t].pc == Want(ProbeFirst) && s.threads[t].job.Lowest?
    requires SearchOf(cfg, s.threads[t].job).kept
    ensures var r := RunFrom(cfg, s, Turns(t, n));
            r.lowest == Some(SearchOf(cfg, s.threads[t].job).found) && OnlyCallMoved(s, r, t)
  {
    var s1 := Probed(cfg, s, t, ProbeFirst);
    var rest := FirstAnsweredAlone(cfg, s1, t, s.threads[t].(pc := Request(ProbeFirst)));
    n := rest + 4;
    ProbeAlone(cfg, s, t, ProbeFirst, n);
  }

  function Searching(job: Job): Thread {
    Thread(job, Want(ProbeFirst), 0, 0, 0)
  }

  lemma BothPastTheCheck(cfg: Config, j: Job, k: Job)
    requires j.Lowest? && k.Lowest?
    ensures Run(cfg, [Arrive(j), Arrive(k), Next(0), Next(1)]) == IDLE.(threads := [Searching(j), Searching(k)])
  {
    var a := [Arrive(j), Arrive(k), Next(0), Next(1)];
    assert a[1..] == [Arrive(k), Next(0), Next(1)];
    assert a[1..][1..] == [Next(0), Next(1)] && a[1..][1..][1..] == [Next(1)] && a[1..][1..][1..][1..] == [];
    var t0, t1 := Thread(j, Start, 0, 0, 0), Thread(k, Start, 0, 0, 0);
    var s1 := IDLE.(threads := [t0]);
    var s2 := IDLE.(threads := [t0, t1]);
    var s3 := IDLE.(threads := [Searching(j), t1]);
    var s4 := IDLE.(threads := [Searching(j), Searching(k)]);
    assert Step(cfg, IDLE, a[0]) == s1;
    assert Step(cfg, s1, a[1]) == s2;
    assert Step(cfg, s2, Next(0)) == s3;
    assert Step(cfg, s3, Next(1)) == s4;
    assert RunFrom(cfg, s3, [Next(1)]) == RunFrom(cfg, s4, []);
    assert RunFrom(cfg, s2, [Next(0), Next(1)]) == RunFrom(cfg, s3, [Next(1)]);
    assert RunFrom(cfg, s1, a[1..]) == RunFrom(cfg, s2, a[1..][1..]);
  }

  /** Two calls that both pass the cache check before either stores: `k` stores first, then `j`. */
  lemma BothStore(cfg: Config, j: Job, k: Job) returns (before: seq<Action>, later: seq<Action>)
    requires j.Lowest? && k.Lowest? && SearchOf(cfg, j).kept && SearchOf(cfg, k).kept
    ensures FromJobs(before, {j, k}) && FromJobs(later, {})
    ensures Run(cfg, before).lowest == Some(SearchOf(cfg, k).found)
    ensures RunFrom(cfg, Run(cfg, before), later).lowest == Some(SearchOf(cfg, j).found)
  {
    var arrive := [Arrive(j), Arrive(k), Next(0), Next(1)];
    BothPastTheCheck(cfg, j, k);
    var n := SearchAlone(cfg, Run(cfg, arrive), 1);
    before := arrive + Turns(1, n);
    RunConcat(cfg, IDLE, arrive, Turns(1, n));
    var m := SearchAlone(cfg, Run(cfg, before), 0);
    later := Turns(0, m);
  }

  // ----- the cached floor

  /** No run of calls for these jobs ever replaces a cached value by another. */
  ghost predicate NeverChanges(cfg: Config, jobs: set<Job>) {
    forall before, later :: FromJobs(before, jobs) && FromJobs(later, jobs) && Run(cfg, before).lowest.Some? ==>
      RunFrom(cfg, Run(cfg, before), later).lowest == Run(cfg, before).lowest
  }

  /** Whatever the endpoint serves: races leave the cached value alone exactly when the lone searches agree. */
  lemma NeverChangesExactly(cfg: Config, jobs: set<Job>)
    ensures NeverChanges(cfg, jobs) <==> Agree(cfg, jobs)
  {
    if Agree(cfg, jobs) {
      forall before, later | FromJobs(before, jobs) && FromJobs(later, jobs) && Run(cfg, before).lowest.Some?
        ensures RunFrom(cfg, Run(cfg, before), later).lowest == Run(cfg, before).lowest
      {
        RunFloor(cfg, jobs, IDLE, before);
        RunFloor(cfg, jobs, Run(cfg, before), later);
      }
    } else {
      var j, k, v, w :| j in jobs && k in jobs && Keeps(cfg, j, v) && Keeps(cfg, k, w) && v != w;
      var before, later := BothStore(cfg, j, k);
      assert FromJobs(before, jobs) && FromJobs(later, jobs);
      assert RunFrom(cfg, Run(cfg, before), later).lowest != Run(cfg, before).lowest;
    }
  }

  /** The upper end, the caller's or the head, cannot mislead the search: see BlockFloor.KeptIsFloorExactly. */
  predicate Harmless(cfg: Config, job: Job) {
    job.Lowest? ==> cfg.served(1) || TopOf(cfg, job) >= 1 || !cfg.served(TopOf(cfg, job))
  }

  /** A chain that has only its genesis block: without an upper end of its own, a call caches 0. */
  lemma GenesisHeadHarmful()
    ensures var cfg := Config(false, 0, b => b == 0);
            && UpwardClosed(cfg.served, cfg.head) && !Harmless(cfg, Lowest(None))
            && Keeps(cfg, Lowest(None), 0) && !IsFloor(cfg.served, 0)
  {
  }

  ghost predicate AllHarmless(cfg: Config, jobs: set<Job>) {
    forall j :: j in jobs ==> Harmless(cfg, j)
  }

  lemma KeepsFloorExactly(cfg: Config, job: Job, v: int)
    requires UpwardClosed(cfg.served, cfg.head) && Keeps(cfg, job, v)
    ensures IsFloor(cfg.served, v) <==> Harmless(cfg, job)
  {
    KeptIsFloorExactly(cfg.served, cfg.head, TopOf(cfg, job));
  }

  /** In every run the cached value is the lowest served block. */
  ghost predicate AlwaysFloor(cfg: Config, jobs: set<Job>) {
    forall actions :: FromJobs(actions, jobs) && Run(cfg, actions).lowest.Some? ==>
      IsFloor(cfg.served, Run(cfg, actions).lowest.value)
  }

  /** On an upward-closed chain every cached value is the lowest served block exactly when every caller is harmless. */
  lemma AlwaysFloorExactly(cfg: Config, jobs: set<Job>)
    requires UpwardClosed(cfg.served, cfg.head)
    ensures AlwaysFloor(cfg, jobs) <==> AllHarmless(cfg, jobs)
  {
    if AllHarmless(cfg, jobs) {
      forall actions | FromJobs(actions, jobs) && Run(cfg, actions).lowest.Some?
        ensures IsFloor(cfg.served, Run(cfg, actions).lowest.value)
      {
        RunFloor(cfg, jobs, IDLE, actions);
        var j :| j in jobs && Keeps(cfg, j, Run(cfg, actions).lowest.value);
        KeepsFloorExactly(cfg, j, Run(cfg, actions).lowest.value);
      }
    } else {
      var j :| j in jobs && !Harmless(cfg, j);
      var before, _ := BothStore(cfg, j, j);
      KeepsFloorExactly(cfg, j, SearchOf(cfg, j).found);
    }
  }

  /** Harmless callers: once set, the cached floor is the lowest served block and no race ever changes it. */
  lemma FloorNeverChanges(cfg: Config, jobs: set<Job>)
    requires UpwardClosed(cfg.served, cfg.head) && AllHarmless(cfg, jobs)
    ensures AlwaysFloor(cfg, jobs) && NeverChanges(cfg, jobs)
  {
    AlwaysFloorExactly(cfg, jobs);
    forall j, k, v, w | j in jobs && k in jobs && Keeps(cfg, j, v) && Keeps(cfg, k, w) ensures v == w {
      KeepsFloorExactly(cfg, j, v);
      KeepsFloorExactly(cfg, k, w);
      FloorUnique(cfg.served, v, w);
    }
    NeverChangesExactly(cfg, jobs);
  }

  /**
   One harmful caller is enough, on any chain that does not serve block 1: a
   caller that starts from the floor caches it, and the harmful one replaces it.
   */
  lemma HarmfulCallerChangesFloor(cfg: Config, f: int, h: int) returns (before: seq<Action>, later: seq<Action>)
    requires UpwardClosed(cfg.served, cfg.head) && IsFloor(cfg.served, f) && !Harmless(cfg, Lowest(Some(h)))
    ensures FromJobs(before, {Lowest(Some(h)), Lowest(Some(f))}) && FromJobs(later, {})
    ensures Run(cfg, before).lowest == Some(f) && RunFrom(cfg, Run(cfg, before), later).lowest == Some(h)
  {
    before, later := BothStore(cfg, Lowest(Some(h)), Lowest(Some(f)));
    KeepsFloorExactly(cfg, Lowest(Some(f)), SearchOf(cfg, Lowest(Some(f))).found);
    FloorUnique(cfg.served, f, SearchOf(cfg, Lowest(Some(f))).found);
  }

  /**
   Racing callers agree: each returns the floor, except that one whose own
   upper end is not served may return the placeholder 1.
   */
  lemma CallersAgree(cfg: Config, jobs: set<Job>, actions: seq<Action>, t: nat)
    requires UpwardClosed(cfg.served, cfg.head) && AllHarmless(cfg, jobs) && FromJobs(actions, jobs)
    requires var s := Run(cfg, actions); t < |s.threads| && s.threads[t].pc.Done?
    ensures var th := Run(cfg, actions).threads[t];
            || IsFloor(cfg.served, th.pc.result)
            || (th.pc.result == 1 && !cfg.served(1) && !cfg.served(TopOf(cfg, th.job)))
  {
    CallsSearchAsAlone(cfg, jobs, actions, t);
    var th := Run(cfg, actions).threads[t];
    if Keeps(cfg, th.job, th.pc.result) {
      KeepsFloorExactly(cfg, th.job, th.pc.result);
    } else if KeptBySome(cfg, jobs, th.pc.result) {
      var j :| j in jobs && Keeps(cfg, j, th.pc.result);
      KeepsFloorExactly(cfg, j, th.pc.result);
    }
  }

  /** A call that finds the cache set returns the cached floor. */
  lemma CacheAnswers(cfg: Config, jobs: set<Job>, actions: seq<Action>, t: nat)
    requires UpwardClosed(cfg.served, cfg.head) && AllHarmless(cfg, jobs) && FromJobs(actions, jobs)
    requires var s := Run(cfg, actions);
             t < |s.threads| && s.threads[t].pc == Start && s.threads[t].job.Lowest? && s.lowest.Some?
    ensures var s := Run(cfg, actions);
            && Step(cfg, s, Next(t)).threads[t].pc == Done(s.lowest.value)
            && IsFloor(cfg.served, s.lowest.value)
  {
    AlwaysFloorExactly(cfg, jobs);
  }

  // ----- which endpoints are used

  /** The endpoint a call with this goal talks to. */
  ghost predicate Reaches(cfg: Config, s: State, goal: Goal) {
    match goal
    case HandOver(w) => w in s.clients
    case FetchHead => Std in s.clients
    case _ => if cfg.hasArchive then Arc in s.clients else Std in s.clients
  }

  ghost predicate EndpointThread(cfg: Config, s: State, th: Thread) {
    && (HasGoal(th.pc) ==>
          match th.pc.goal
          case HandOver(w) => th.job == Access(w) && (w == Arc ==> cfg.hasArchive)
          case FetchHead => th.job == Lowest(None)
          case _ => th.job.Lowest?)
    && (th.pc.Unlocking? || th.pc.Request? ==> Reaches(cfg, s, th.pc.goal))
    && (th.pc.NoArchive? ==> th.job == Access(Arc) && !cfg.hasArchive)
    && (th.pc.Delivered? ==> th.job.Access? && th.job.which in s.clients && (th.job.which == Arc ==> cfg.hasArchive))
    && (th.pc.Request? ==> !th.pc.goal.HandOver?)
  }

  /** Some call needs the standard endpoint: to hand it over, for the head, or to probe without an archive. */
  ghost predicate NeedsStandard(cfg: Config, jobs: set<Job>) {
    Access(Std) in jobs || Lowest(None) in jobs || !cfg.hasArchive
  }

  ghost predicate EndpointInv(cfg: Config, jobs: set<Job>, s: State) {
    && (Arc in s.clients ==> cfg.hasArchive)
    && (Std in s.clients ==> NeedsStandard(cfg, jobs))
    && forall t :: 0 <= t < |s.threads| ==> s.threads[t].job in jobs && EndpointThread(cfg, s, s.threads[t])
  }

  lemma EndpointBuilt(cfg: Config, jobs: set<Job>, s: State, t: nat)
    requires EndpointInv(cfg, jobs, s) && Enabled(s, Next(t))
    ensures var r := Step(cfg, s, Next(t));
            (Arc in r.clients ==> cfg.hasArchive) && (Std in r.clients ==> NeedsStandard(cfg, jobs))
  {
    assert EndpointThread(cfg, s, s.threads[t]) && s.threads[t].job in jobs;
  }

  lemma EndpointMoved(cfg: Config, jobs: set<Job>, s: State, t: nat)
    requires EndpointInv(cfg, jobs, s) && Enabled(s, Next(t))
    ensures var r := Step(cfg, s, Next(t));
            EndpointThread(cfg, r, r.threads[t]) && r.threads[t].job == s.threads[t].job
  {
    var th := s.threads[t];
    assert EndpointThread(cfg, s, th) && th.job in jobs;
    if th.pc.Request? {
      assert Step(cfg, s, Next(t)).threads[t] == Answered(cfg, th, th.pc.goal);
    }
  }

  lemma StepEndpoints(cfg: Config, jobs: set<Job>, s: State, a: Action)
    requires EndpointInv(cfg, jobs, s) && (a.Arrive? ==> a.job in jobs)
    ensures EndpointInv(cfg, jobs, Step(cfg, s, a))
  {
    if Enabled(s, a) && a.Next? {
      var r := Step(cfg, s, a);
      EndpointBuilt(cfg, jobs, s, a.t);
      EndpointMoved(cfg, jobs, s, a.t);
      ClientsStay(cfg, s, a);
      forall u | 0 <= u < |r.threads| && u != a.t
        ensures r.threads[u].job in jobs && EndpointThread(cfg, r, r.threads[u])
      {
        assert r.threads[u] == s.threads[u] && EndpointThread(cfg, s, s.threads[u]);
      }
    }
  }

  lemma ClientsStay(cfg: Config, s: State, a: Action)
    ensures forall w :: w in s.clients ==> w in Step(cfg, s, a).clients
  {
  }

  lemma {:induction false} RunEndpoints(cfg: Config, jobs: set<Job>, s: State, actions: seq<Action>)
    requires EndpointInv(cfg, jobs, s) && FromJobs(actions, jobs)
    ensures EndpointInv(cfg, jobs, RunFrom(cfg, s, actions))
    decreases |actions|
  {
    if actions != [] {
      StepEndpoints(cfg, jobs, s, actions[0]);
      RunEndpoints(cfg, jobs, Step(cfg, s, actions[0]), actions[1..]);
    }
  }

  /**
   Headers are asked of the archive endpoint when there is one and of the
   standard one otherwise, the head always of the standard one; no client is
   built that nobody asked for, and an accessor gives its own endpoint or fails
   exactly for a missing archive.
   */
  lemma EndpointsUsed(cfg: Config, jobs: set<Job>, actions: seq<Action>)
    requires FromJobs(actions, jobs)
    ensures var s := Run(cfg, actions);
            && (Arc in s.clients ==> cfg.hasArchive)
            && (Std in s.clients ==> Access(Std) in jobs || Lowest(None) in jobs || !cfg.hasArchive)
            && forall t :: 0 <= t < |s.threads| ==>
                 var th := s.threads[t];
                 && (th.pc == Request(FetchHead) ==> Std in s.clients)
                 && (th.pc.Request? && th.pc.goal != FetchHead ==>
                       if cfg.hasArchive then Arc in s.clients else Std in s.clients)
                 && (th.pc == Delivered ==> th.job.Access? && th.job.which in s.clients)
                 && (th.pc == NoArchive ==> th.job == Access(Arc) && !cfg.hasArchive)
  {
    var s := Run(cfg, actions);
    RunEndpoints(cfg, jobs, IDLE, actions);
  }

  // ----- every call ends

  /** A bound on the turns left after the probe of the upper end, before the head is fetched, and in a whole search. */
  function AfterTop(cfg: Config, lo: int, top: int): nat {
    if cfg.served(top) then 4 * BisectProbes(cfg.served, lo, top) + 3 else 0
  }

  function AfterFirst(cfg: Config, job: Job): nat {
    if cfg.served(1) then 3
    else if job.Lowest? && job.hi.Some? then 4 + AfterTop(cfg, 1, job.hi.value)
    else 8 + AfterTop(cfg, 1, cfg.head)
  }

  function AfterAnswer(cfg: Config, th: Thread, goal: Goal): nat {
    match goal
    case HandOver(_) => 0
    case FetchHead => 4 + AfterTop(cfg, th.lo, cfg.head)
    case ProbeFirst => AfterFirst(cfg, th.job)
    case ProbeTop => AfterTop(cfg, th.lo, th.top)
    case ProbeMid => if th.top - th.lo > 1 then 4 * BisectProbes(cfg.served, th.lo, th.top) - 1 else 3
  }

  /** A bound on the turns a call still takes. */
  function Left(cfg: Config, th: Thread): nat {
    match th.pc
    case Start => if th.job.Access? then 4 else 5 + AfterFirst(cfg, th.job)
    case Want(goal) => if goal.HandOver? then 3 else 4 + AfterAnswer(cfg, th, goal)
    case Locked(goal) => if goal.HandOver? then 2 else 3 + AfterAnswer(cfg, th, goal)
    case Unlocking(goal) => if goal.HandOver? then 1 else 2 + AfterAnswer(cfg, th, goal)
    case Request(goal) => 1 + AfterAnswer(cfg, th, goal)
    case WantStore => 3
    case Storing => 2
    case Stored => 1
    case NoArchive => 0
    case Delivered => 0
    case Done(_) => 0
  }

  lemma LoopLeft(cfg: Config, th: Thread)
    ensures Left(cfg, Loop(th)) == 4 * BisectProbes(cfg.served, th.lo, th.top) + 3
  {
  }

  lemma MidLeft(cfg: Config, th: Thread)
    ensures Left(cfg, Answered(cfg, th, ProbeMid)) <= AfterAnswer(cfg, th, ProbeMid)
  {
    var mid := (th.lo + th.top) / 2;
    LoopLeft(cfg, if cfg.served(mid) then th.(top := mid) else th.(lo := mid));
  }

  lemma AnsweredLeft(cfg: Config, th: Thread, goal: Goal)
    ensures Left(cfg, Answered(cfg, th, goal)) <= AfterAnswer(cfg, th, goal)
  {
    match goal
    case HandOver(_) =>
    case FetchHead =>
    case ProbeFirst =>
    case ProbeTop => LoopLeft(cfg, th);
    case ProbeMid => MidLeft(cfg, th);
  }

  lemma OwnTurnLeft(cfg: Config, s: State, t: nat)
    requires Enabled(s, Next(t))
    ensures Left(cfg, Advance(cfg, s, t).threads[t]) < Left(cfg, s.threads[t])
  {
    var th := s.threads[t];
    if th.pc.Request? {
      AnsweredLeft(cfg, th, th.pc.goal);
    } else {
      var after := Advance(cfg, s, t).threads[t];
      assert after == th.(pc := after.pc);
    }
  }

  /** A turn of a call uses up one of its own, and none of any other's. */
  lemma StepLeft(cfg: Config, s: State, a: Action, t: nat)
    requires t < |s.threads|
    ensures t < |Step(cfg, s, a).threads|
    ensures Left(cfg, Step(cfg, s, a).threads[t]) + (if a == Next(t) && Enabled(s, a) then 1 else 0)
            <= Left(cfg, s.threads[t])
  {
    if a == Next(t) && Enabled(s, a) {
      OwnTurnLeft(cfg, s, t);
    } else if Enabled(s, a) && a.Next? {
      assert Advance(cfg, s, a.t).threads[t] == s.threads[t];
    }
  }

  /** How often call `t` moves. */
  function Moves(cfg: Config, s: State, actions: seq<Action>, t: nat): nat
    decreases |actions|
  {
    if actions == [] then 0
    else
      (if actions[0] == Next(t) && Enabled(s, actions[0]) then 1 else 0)
      + Moves(cfg, Step(cfg, s, actions[0]), actions[1..], t)
  }

  lemma {:induction false} MovesBounded(cfg: Config, s: State, actions: seq<Action>, t: nat)
    requires t < |s.threads|
    ensures Moves(cfg, s, actions, t) <= Left(cfg, s.threads[t])
    decreases |actions|
  {
    if actions != [] {
      StepLeft(cfg, s, actions[0], t);
      MovesBounded(cfg, Step(cfg, s, actions[0]), actions[1..], t);
    }
  }

  /**
   Whatever the other calls do, a call moves at most 16 times and 4 times for
   each halving; with NoDeadlock, every run in which calls that can move do so ends.
   */
  lemma EveryCallEnds(cfg: Config, before: seq<Action>, job: Job, later: seq<Action>)
    ensures var s := Step(cfg, Run(cfg, before), Arrive(job));
            Moves(cfg, s, later, |s.threads| - 1) <= 16 + 4 * CeilLog2(TopOf(cfg, job))
  {
    var s := Step(cfg, Run(cfg, before), Arrive(job));
    MovesBounded(cfg, s, later, |s.threads| - 1);
    SearchCost(cfg.served, TopOf(cfg, job));
    BisectCost(cfg.served, 1, TopOf(cfg, job));
    CeilLog2Monotone(TopOf(cfg, job) - 1, TopOf(cfg, job));
  }
}
