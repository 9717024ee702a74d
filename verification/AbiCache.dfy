/**
 The hit and miss caches of clients/abi_resolver.py and the control flow of
 `resolve_abi`. Clock readings and the sources' answers are inputs.
 */
module AbiCache {
  import opened Options
  import opened OrderedDict
  import opened Text

  const GNOSIS := 100
  const NEGATIVE_TTL := 120.0

  // ----- the cache key

  function Digit(d: nat): char
    requires d < 10
  {
    "0123456789"[d]
  }

  function Decimal(n: nat): string {
    if n < 10 then [Digit(n)] else Decimal(n / 10) + [Digit(n % 10)]
  }

  /** `_cache_key`. */
  function CacheKey(chain: nat, address: string, target: string): string {
    Decimal(chain) + "|" + Lower(address) + "|" + target
  }

  /** What `Web3.to_checksum_address` yields: `0x` and 40 hex digits of either case. */
  predicate IsAddress(a: string) {
    |a| == 42 && a[..2] == "0x" && forall i :: 2 <= i < 42 ==> IsHex(a[i])
  }

  predicate IsHex(c: char) {
    '0' <= c <= '9' || 'a' <= c <= 'f' || 'A' <= c <= 'F'
  }

  lemma {:induction false} DecimalFacts(m: nat)
    ensures Decimal(m) != "" && '|' !in Decimal(m)
  {
    if m >= 10 {
      DecimalFacts(m / 10);
    }
  }

  lemma DigitInjective(c: nat, d: nat)
    requires c < 10 && d < 10 && Digit(c) == Digit(d)
    ensures c == d
  {
  }

  lemma {:induction false} DecimalInjective(m: nat, n: nat)
    requires Decimal(m) == Decimal(n)
    ensures m == n
  {
    var s := Decimal(m);
    var a, b := if m < 10 then "" else Decimal(m / 10), if n < 10 then "" else Decimal(n / 10);
    assert s == a + [Digit(m % 10)] && s == b + [Digit(n % 10)];
    assert a == s[..|s| - 1] == b;
    DigitInjective(m % 10, n % 10);
    DecimalFacts(m / 10);
    DecimalFacts(n / 10);
    if m >= 10 {
      DecimalInjective(m / 10, n / 10);
    }
  }

  /** A text without `|` is determined by what precedes the first `|`. */
  lemma FirstBar(a: string, b: string, s: string, t: string)
    requires '|' !in a && '|' !in b && a + "|" + s == b + "|" + t
    ensures a == b && s == t
  {
    var whole := a + "|" + s;
    assert forall i :: 0 <= i < |a| ==> whole[i] == a[i] && a[i] in a;
    assert forall i :: 0 <= i < |b| ==> whole[i] == b[i] && b[i] in b;
    assert whole[|a|] == '|' && whole[|b|] == '|';
    assert |a| == |b|;
    assert whole[..|a|] == a && whole[..|b|] == b;
    assert whole[|a| + 1..] == s && whole[|b| + 1..] == t;
  }

  lemma AddressHasNoBar(a: string)
    requires IsAddress(a)
    ensures '|' !in Lower(a)
  {
    forall i | 0 <= i < 42 ensures Lower(a)[i] != '|' {
      if i < 2 {
        assert a[i] == a[..2][i];
      }
    }
  }

  /** Keys collide only for the same chain, the same address in any case, and the same target. */
  lemma CacheKeyInjective(c1: nat, a1: string, t1: string, c2: nat, a2: string, t2: string)
    requires IsAddress(a1) && IsAddress(a2)
    ensures CacheKey(c1, a1, t1) == CacheKey(c2, a2, t2) <==> c1 == c2 && Lower(a1) == Lower(a2) && t1 == t2
  {
    if CacheKey(c1, a1, t1) == CacheKey(c2, a2, t2) {
      DecimalFacts(c1);
      DecimalFacts(c2);
      AddressHasNoBar(a1);
      AddressHasNoBar(a2);
      var u1, u2 := Lower(a1) + "|" + t1, Lower(a2) + "|" + t2;
      assert CacheKey(c1, a1, t1) == Decimal(c1) + "|" + u1;
      assert CacheKey(c2, a2, t2) == Decimal(c2) + "|" + u2;
      FirstBar(Decimal(c1), Decimal(c2), u1, u2);
      DecimalInjective(c1, c2);
      FirstBar(Lower(a1), Lower(a2), t1, t2);
    }
  }

  // ----- the sources

  datatype AbiItem = AbiItem(kind: string, name: string)
  type Abi = seq<AbiItem>

  datatype Record = Record(implementation: string, abi: Abi, source: string, chain: nat)

  /** What a source reports about an address, before it becomes a record. */
  datatype Found = Found(implementation: string, abi: Abi, source: string)

  /** The answers the outside world would give during one call; `None` is a failure or nothing known. */
  datatype Answers =
    Answers(dbt: Option<Found>, blockscout: Option<Found>, sourcify: Option<Found>, probed: Option<Found>)

  function ToRecord(f: Found, chain: nat): Record {
    Record(f.implementation, f.abi, f.source, chain)
  }

  predicate HasFunctions(abi: Abi) {
    exists i :: 0 <= i < |abi| && abi[i].kind == "function"
  }

  /** A record, unless the source has none or its ABI is empty. */
  function UsableFrom(f: Option<Found>, chain: nat): Option<Record> {
    if f.Some? && f.value.abi != [] then Some(ToRecord(f.value, chain)) else None
  }

  /** The sources in order of precedence, without the caches. */
  function ResolveFresh(chain: nat, target: string, a: Answers): Option<Record> {
    var seeded := if chain == GNOSIS then UsableFrom(a.dbt, GNOSIS) else None;
    var explored := if UsableFrom(a.blockscout, chain).Some? then UsableFrom(a.blockscout, chain)
                    else UsableFrom(a.sourcify, chain);
    var record := if seeded.Some? then seeded else explored;
    var bare := (target == "auto" || target == "implementation")
                && (record.None? || record.value.implementation == "")
                && !(record.Some? && HasFunctions(record.value.abi));
    if bare && a.probed.Some? && HasFunctions(a.probed.value.abi) then Some(ToRecord(a.probed.value, chain))
    else record
  }

  /** A record that is found is usable, labelled with the chain asked about, and dbt answers only for Gnosis. */
  lemma FreshRecordFits(chain: nat, target: string, a: Answers)
    ensures var r := ResolveFresh(chain, target, a);
            && (r.Some? ==> r.value.abi != [] && r.value.chain == chain)
            && (chain != GNOSIS ==> r == ResolveFresh(chain, target, a.(dbt := None)))
            && (r.Some? && !HasFunctions(r.value.abi) && (target == "auto" || target == "implementation") ==>
                  r.value.implementation != "" || a.probed.None? || !HasFunctions(a.probed.value.abi))
  {
  }

  /** The source has an answer, and its ABI is not empty. */
  ghost predicate Offers(f: Option<Found>) {
    f.Some? && |f.value.abi| > 0
  }

  ghost predicate Callable(f: Found) {
    exists i :: 0 <= i < |f.abi| && f.abi[i].kind == "function"
  }

  /** The first offer in the order dbt (on Gnosis only), Blockscout, Sourcify. */
  ghost predicate IsFirstOffer(chain: nat, a: Answers, f: Option<Found>) {
    var seeded := chain == 100 && Offers(a.dbt);
    && (seeded ==> f == a.dbt)
    && (!seeded && Offers(a.blockscout) ==> f == a.blockscout)
    && (!seeded && !Offers(a.blockscout) && Offers(a.sourcify) ==> f == a.sourcify)
    && (!seeded && !Offers(a.blockscout) && !Offers(a.sourcify) ==> f == None)
  }

  /** The probe of the chain takes over from a missing record, or from a bare proxy nothing can be called on. */
  ghost predicate ProbeTakesOver(target: string, f: Option<Found>, probed: Option<Found>) {
    && (target == "auto" || target == "implementation")
    && (f.Some? ==> f.value.implementation == "" && !Callable(f.value))
    && probed.Some? && Callable(probed.value)
  }

  /** The verdict on a question, from what each source would answer. */
  ghost predicate IsVerdict(chain: nat, target: string, a: Answers, r: Option<Record>) {
    exists f :: IsFirstOffer(chain, a, f) &&
                var source := if ProbeTakesOver(target, f, a.probed) then a.probed else f;
                if source.None? then r == None
                else r == Some(Record(source.value.implementation, source.value.abi, source.value.source, chain))
  }

  /** The order of the sources, exactly: only one verdict fits, and it is the one reached. */
  lemma VerdictExactly(chain: nat, target: string, a: Answers, r: Option<Record>)
    ensures IsVerdict(chain, target, a, r) <==> r == ResolveFresh(chain, target, a)
  {
    var f := if chain == 100 && Offers(a.dbt) then a.dbt
             else if Offers(a.blockscout) then a.blockscout
             else if Offers(a.sourcify) then a.sourcify
             else None;
    assert IsFirstOffer(chain, a, f);
    assert f.Some? ==> (Callable(f.value) <==> HasFunctions(f.value.abi));
    assert a.probed.Some? ==> (Callable(a.probed.value) <==> HasFunctions(a.probed.value.abi));
  }

  // ----- the state and its atomic operations

  datatype Caches = Caches(hits: Dict<string, Stamped<Record>>, misses: Dict<string, Stamped<()>>)

  datatype Config = Config(known: set<nat>, ttl: real, capacity: int)

  const EMPTY := Caches([], [])

  /** Each operation runs under `_cache_lock`. */
  datatype Op =
    | GetHit(key: string, now: real)
    | GetMiss(key: string, now: real)
    | PutHit(key: string, record: Record, now: real)
    | PutMiss(key: string, now: real)
    | Clear

  /** The state after an operation; a failed write (capacity below one) leaves it unchanged. */
  function Apply(cfg: Config, s: Caches, op: Op): Caches {
    match op
    case GetHit(k, now) => s.(hits := Lookup(s.hits, k, now, cfg.ttl, true).0)
    case GetMiss(k, now) => s.(misses := Lookup(s.misses, k, now, NEGATIVE_TTL, true).0)
    case PutHit(k, r, now) =>
      (match Store(s.hits, k, r, now, cfg.capacity)
       case Some(d) => s.(hits := d)
       case None => s)
    case PutMiss(k, now) =>
      (match Store(s.misses, k, (), now, cfg.capacity)
       case Some(d) => s.(misses := d)
       case None => s)
    case Clear => EMPTY
  }

  /** The key was made for the chain the record is labelled with. */
  predicate KeyFits(key: string, record: Record) {
    Decimal(record.chain) + "|" <= key
  }

  /** Both caches are within capacity, and every cached record is usable and on the chain of its key. */
  ghost predicate Sound(cfg: Config, s: Caches) {
    var bound := if cfg.capacity < 0 then 0 else cfg.capacity;
    && Distinct(s.hits) && Distinct(s.misses)
    && |s.hits| <= bound && |s.misses| <= bound
    && forall e :: e in s.hits ==> e.value.value.abi != [] && KeyFits(e.key, e.value.value)
  }

  ghost predicate GoodOp(op: Op) {
    op.PutHit? ==> op.record.abi != [] && KeyFits(op.key, op.record)
  }

  lemma ApplySound(cfg: Config, s: Caches, op: Op)
    requires Sound(cfg, s) && GoodOp(op)
    ensures Sound(cfg, Apply(cfg, s, op))
  {
    match op
    case GetHit(k, now) =>
      LookupExactly(s.hits, k, now, cfg.ttl, true, k);
      NothingLookedUp(s.hits, k, now, cfg.ttl, true);
    case GetMiss(k, now) => LookupExactly(s.misses, k, now, NEGATIVE_TTL, true, k);
    case PutHit(k, r, now) =>
      StoreExactly(s.hits, k, r, now, cfg.capacity, k);
      OnlyStored(s.hits, k, r, now, cfg.capacity);
    case PutMiss(k, now) => StoreExactly(s.misses, k, (), now, cfg.capacity, k);
    case Clear =>
  }

  /** What an operation can put in a cache is only what it stores. */
  lemma ApplyChanges(cfg: Config, s: Caches, op: Op, k: string)
    requires Distinct(s.hits) && Distinct(s.misses)
    ensures var r := Apply(cfg, s, op);
            && (Get(r.hits, k).Some? ==>
                  Get(r.hits, k) == Get(s.hits, k)
                  || (op.PutHit? && op.key == k && Get(r.hits, k) == Some(Stamped(op.now, op.record))))
            && (Get(r.misses, k).Some? ==>
                  Get(r.misses, k) == Get(s.misses, k) || (op == PutMiss(k, Get(r.misses, k).value.at)))
  {
    match op
    case GetHit(key, now) => LookupExactly(s.hits, key, now, cfg.ttl, true, k);
    case GetMiss(key, now) => LookupExactly(s.misses, key, now, NEGATIVE_TTL, true, k);
    case PutHit(key, record, now) => StoreExactly(s.hits, key, record, now, cfg.capacity, k);
    case PutMiss(key, now) => StoreExactly(s.misses, key, (), now, cfg.capacity, k);
    case Clear =>
  }

  // ----- resolve_abi

  datatype Outcome = Resolved(record: Record) | CachedMiss | NotFound | UnknownChain | CacheFull

  /** What is asked, and what the sources would answer. */
  datatype Request = Request(chain: nat, address: string, target: string, answers: Answers) {
    function Key(): string {
      CacheKey(chain, address, target)
    }

    function Verdict(): Option<Record> {
      ResolveFresh(chain, target, answers)
    }
  }

  /** What a call stores is usable and on the chain of its key. */
  lemma VerdictFits(r: Request)
    ensures r.Verdict().Some? ==> r.Verdict().value.abi != [] && KeyFits(r.Key(), r.Verdict().value)
  {
    FreshRecordFits(r.chain, r.target, r.answers);
    assert r.Key() == Decimal(r.chain) + "|" + (Lower(r.address) + "|" + r.target);
  }

  /** One call with its three readings of the clock. */
  datatype Call = Call(request: Request, t0: real, t1: real, t2: real) {
    function Key(): string {
      request.Key()
    }
  }

  /** The end of a call that found nothing cached: ask the sources and store what they say. */
  function SourceAndStore(cfg: Config, s: Caches, c: Call): (Caches, Outcome) {
    match c.request.Verdict()
    case None =>
      (match Store(s.misses, c.Key(), (), c.t2, cfg.capacity)
       case Some(d) => (s.(misses := d), NotFound)
       case None => (s, CacheFull))
    case Some(record) =>
      (match Store(s.hits, c.Key(), record, c.t2, cfg.capacity)
       case Some(d) => (s.(hits := d), Resolved(record))
       case None => (s, CacheFull))
  }

  function Resolve(cfg: Config, s: Caches, c: Call): (Caches, Outcome) {
    if c.request.chain !in cfg.known then (s, UnknownChain)
    else
      var (hits, hit) := Lookup(s.hits, c.Key(), c.t0, cfg.ttl, true);
      if hit.Some? then (s.(hits := hits), Resolved(hit.value))
      else
        var (misses, miss) := Lookup(s.misses, c.Key(), c.t1, NEGATIVE_TTL, true);
        if miss.Some? then (Caches(hits, misses), CachedMiss)
        else SourceAndStore(cfg, Caches(hits, misses), c)
  }

  /** `_cache`, `_negative_cache` and the functions that use them. */
  class AbiResolver {
    const cfg: Config
    var hits: Dict<string, Stamped<Record>>
    var misses: Dict<string, Stamped<()>>

    function Contents(): Caches
      reads this
    {
      Caches(hits, misses)
    }

    constructor (cfg: Config)
      ensures this.cfg == cfg && Contents() == EMPTY
    {
      this.cfg := cfg;
      hits := [];
      misses := [];
    }

    method CacheGet(key: string, now: real) returns (found: Option<Record>)
      modifies this`hits
      ensures Contents() == Apply(cfg, old(Contents()), GetHit(key, now))
      ensures found == Lookup(old(hits), key, now, cfg.ttl, true).1
    {
      var hit := Get(hits, key);
      if hit.None? {
        return None;
      }
      if now - hit.value.at > cfg.ttl {
        hits := Remove(hits, key);
        return None;
      }
      return Some(hit.value.value);
    }

    method CacheSet(key: string, record: Record, now: real) returns (ok: bool)
      modifies this`hits
      ensures Contents() == Apply(cfg, old(Contents()), PutHit(key, record, now))
      ensures ok == Store(old(hits), key, record, now, cfg.capacity).Some?
    {
      if |hits| >= cfg.capacity {
        if hits == [] {
          return false;
        }
        hits := hits[1..];
      }
      hits := Put(hits, key, Stamped(now, record));
      ok := true;
    }

    method NegativeCached(key: string, now: real) returns (missed: bool)
      modifies this`misses
      ensures Contents() == Apply(cfg, old(Contents()), GetMiss(key, now))
      ensures missed == Lookup(old(misses), key, now, NEGATIVE_TTL, true).1.Some?
    {
      var ts := Get(misses, key);
      if ts.None? {
        return false;
      }
      if now - ts.value.at > NEGATIVE_TTL {
        misses := Remove(misses, key);
        return false;
      }
      return true;
    }

    method NegativeCacheSet(key: string, now: real) returns (ok: bool)
      modifies this`misses
      ensures Contents() == Apply(cfg, old(Contents()), PutMiss(key, now))
      ensures ok == Store(old(misses), key, (), now, cfg.capacity).Some?
    {
      if |misses| >= cfg.capacity {
        if misses == [] {
          return false;
        }
        misses := misses[1..];
      }
      misses := Put(misses, key, Stamped(now, ()));
      ok := true;
    }

    method ClearCaches()
      modifies this
      ensures Contents() == Apply(cfg, old(Contents()), Clear)
    {
      hits, misses := [], [];
    }

    method ResolveAbi(c: Call) returns (r: Outcome)
      modifies this
      ensures (Contents(), r) == Resolve(cfg, old(Contents()), c)
    {
      if c.request.chain !in cfg.known {
        return UnknownChain;
      }
      var cached := CacheGet(c.Key(), c.t0);
      if cached.Some? {
        return Resolved(cached.value);
      }
      var missed := NegativeCached(c.Key(), c.t1);
      if missed {
        return CachedMiss;
      }
      var record := c.request.Verdict();
      var ok;
      if record.None? {
        ok := NegativeCacheSet(c.Key(), c.t2);
        return if ok then NotFound else CacheFull;
      }
      ok := CacheSet(c.Key(), record.value, c.t2);
      return if ok then Resolved(record.value) else CacheFull;
    }
  }

  /** How one call ends, and what it leaves under its key. */
  lemma ResolveExactly(cfg: Config, s: Caches, c: Call)
    requires Sound(cfg, s) && c.request.chain in cfg.known
    ensures var (after, r) := Resolve(cfg, s, c);
            var k := c.Key();
            var hit, miss := Get(s.hits, k), Get(s.misses, k);
            if hit.Some? && c.t0 - hit.value.at <= cfg.ttl then
              after == s && r == Resolved(hit.value.value)
            else if miss.Some? && c.t1 - miss.value.at <= 120.0 then
              after.misses == s.misses && Get(after.hits, k) == None && r == CachedMiss
            else if cfg.capacity < 1 then
              r == CacheFull
            else if c.request.Verdict().Some? then
              && r == Resolved(c.request.Verdict().value)
              && Get(after.hits, k) == Some(Stamped(c.t2, r.record)) && Get(after.misses, k) == None
            else
              r == NotFound && Get(after.hits, k) == None && Get(after.misses, k) == Some(Stamped(c.t2, ()))
  {
    var k := c.Key();
    LookupExactly(s.hits, k, c.t0, cfg.ttl, true, k);
    LookupExactly(s.misses, k, c.t1, NEGATIVE_TTL, true, k);
    var hits := Lookup(s.hits, k, c.t0, cfg.ttl, true).0;
    var misses := Lookup(s.misses, k, c.t1, NEGATIVE_TTL, true).0;
    match c.request.Verdict()
    case None => StoreExactly(misses, k, (), c.t2, cfg.capacity, k);
    case Some(record) => StoreExactly(hits, k, record, c.t2, cfg.capacity, k);
  }

  // ----- whole runs, one call after another

  datatype Event = Called(call: Call) | Cleared

  function After(cfg: Config, events: seq<Event>): Caches {
    if events == [] then EMPTY
    else
      match events[|events| - 1]
      case Called(c) => Resolve(cfg, After(cfg, events[..|events| - 1]), c).0
      case Cleared => EMPTY
  }

  ghost predicate Separate(s: Caches) {
    forall k :: !(Has(s.hits, k) && Has(s.misses, k))
  }

  /** Call `j` found `e`'s record in the sources, for key `k`, when `e` was stored. */
  ghost predicate HitFrom(events: seq<Event>, k: string, e: Stamped<Record>, j: nat) {
    && j < |events| && events[j].Called?
    && var c := events[j].call;
       c.Key() == k && c.request.Verdict() == Some(e.value) && c.t2 == e.at
  }

  /** Call `j` found nothing for key `k` when `e` was stored. */
  ghost predicate MissFrom(events: seq<Event>, k: string, e: Stamped<()>, j: nat) {
    && j < |events| && events[j].Called?
    && var c := events[j].call;
       c.Key() == k && c.request.Verdict() == None && c.t2 == e.at
  }

  ghost predicate Explained(s: Caches, events: seq<Event>) {
    && (forall k :: Get(s.hits, k).Some? ==> exists j :: HitFrom(events, k, Get(s.hits, k).value, j))
    && (forall k :: Get(s.misses, k).Some? ==> exists j :: MissFrom(events, k, Get(s.misses, k).value, j))
  }

  lemma ResolveSound(cfg: Config, s: Caches, c: Call)
    requires Sound(cfg, s)
    ensures Sound(cfg, Resolve(cfg, s, c).0)
  {
    var k := c.Key();
    var s1 := Apply(cfg, s, GetHit(k, c.t0));
    ApplySound(cfg, s, GetHit(k, c.t0));
    var s2 := Apply(cfg, s1, GetMiss(k, c.t1));
    ApplySound(cfg, s1, GetMiss(k, c.t1));
    VerdictFits(c.request);
    match c.request.Verdict()
    case None => ApplySound(cfg, s2, PutMiss(k, c.t2));
    case Some(record) => ApplySound(cfg, s2, PutHit(k, record, c.t2));
  }

  lemma ResolveSeparate(cfg: Config, s: Caches, c: Call)
    requires Sound(cfg, s) && Separate(s)
    ensures Separate(Resolve(cfg, s, c).0)
  {
    var k := c.Key();
    var r := Resolve(cfg, s, c).0;
    var hits := Lookup(s.hits, k, c.t0, cfg.ttl, true).0;
    var misses := Lookup(s.misses, k, c.t1, NEGATIVE_TTL, true).0;
    forall other ensures !(Has(r.hits, other) && Has(r.misses, other)) {
      assert !(Has(s.hits, other) && Has(s.misses, other));
      LookupExactly(s.hits, k, c.t0, cfg.ttl, true, other);
      LookupExactly(s.misses, k, c.t1, NEGATIVE_TTL, true, other);
      StoreExactly(misses, k, (), c.t2, cfg.capacity, other);
      match c.request.Verdict()
      case None =>
      case Some(record) => StoreExactly(hits, k, record, c.t2, cfg.capacity, other);
    }
  }

  /** After any run: caches within bounds and well labelled, and no key in both. */
  lemma {:induction false} EveryRunSeparate(cfg: Config, events: seq<Event>)
    ensures Sound(cfg, After(cfg, events)) && Separate(After(cfg, events))
  {
    if events != [] {
      var before := events[..|events| - 1];
      EveryRunSeparate(cfg, before);
      match events[|events| - 1]
      case Cleared =>
      case Called(c) =>
        ResolveSound(cfg, After(cfg, before), c);
        ResolveSeparate(cfg, After(cfg, before), c);
    }
  }

  /** What one call changes, key by key. */
  lemma ResolveChanges(cfg: Config, s: Caches, c: Call, k: string)
    requires Sound(cfg, s)
    ensures var r, sourced := Resolve(cfg, s, c).0, c.request.Verdict();
            && (Get(r.hits, k).Some? ==>
                  Get(r.hits, k) == Get(s.hits, k)
                  || (k == c.Key() && sourced.Some? && Get(r.hits, k) == Some(Stamped(c.t2, sourced.value))))
            && (Get(r.misses, k).Some? ==>
                  Get(r.misses, k) == Get(s.misses, k)
                  || (k == c.Key() && sourced.None? && Get(r.misses, k) == Some(Stamped(c.t2, ()))))
  {
    var key := c.Key();
    LookupExactly(s.hits, key, c.t0, cfg.ttl, true, k);
    LookupExactly(s.misses, key, c.t1, NEGATIVE_TTL, true, k);
    var hits := Lookup(s.hits, key, c.t0, cfg.ttl, true).0;
    var misses := Lookup(s.misses, key, c.t1, NEGATIVE_TTL, true).0;
    match c.request.Verdict()
    case None => StoreExactly(misses, key, (), c.t2, cfg.capacity, k);
    case Some(record) => StoreExactly(hits, key, record, c.t2, cfg.capacity, k);
  }

  /** Every cached verdict was reached from the sources by an earlier call with its key. */
  lemma {:induction false} EveryRunExplained(cfg: Config, events: seq<Event>)
    ensures Explained(After(cfg, events), events)
  {
    if events != [] {
      var n := |events| - 1;
      var before := events[..n];
      EveryRunExplained(cfg, before);
      EveryRunSeparate(cfg, before);
      match events[n]
      case Cleared =>
      case Called(c) =>
        var s, r := After(cfg, before), Resolve(cfg, After(cfg, before), c).0;
        forall k | Get(r.hits, k).Some? ensures exists j :: HitFrom(events, k, Get(r.hits, k).value, j) {
          ResolveChanges(cfg, s, c, k);
          if Get(r.hits, k) == Get(s.hits, k) {
            var j :| HitFrom(before, k, Get(s.hits, k).value, j);
            assert HitFrom(events, k, Get(r.hits, k).value, j);
          } else {
            assert HitFrom(events, k, Get(r.hits, k).value, n);
          }
        }
        forall k | Get(r.misses, k).Some? ensures exists j :: MissFrom(events, k, Get(r.misses, k).value, j) {
          ResolveChanges(cfg, s, c, k);
          if Get(r.misses, k) == Get(s.misses, k) {
            var j :| MissFrom(before, k, Get(s.misses, k).value, j);
            assert MissFrom(events, k, Get(r.misses, k).value, j);
          } else {
            assert MissFrom(events, k, Get(r.misses, k).value, n);
          }
        }
    }
  }

  /** The two requests ask the same question. */
  predicate SameQuestion(a: Request, b: Request) {
    a.chain == b.chain && Lower(a.address) == Lower(b.address) && a.target == b.target
  }

  /** Call `j` asked the same question, no more than `ttl` before `now`, and the sources said `verdict`. */
  ghost predicate AskedBefore(events: seq<Event>, c: Call, verdict: Option<Record>, now: real, ttl: real, j: nat) {
    && j < |events| && events[j].Called?
    && SameQuestion(events[j].call.request, c.request)
    && events[j].call.request.Verdict() == verdict
    && now - events[j].call.t2 <= ttl
  }

  ghost predicate RealAddresses(events: seq<Event>) {
    forall j :: 0 <= j < |events| && events[j].Called? ==> IsAddress(events[j].call.request.address)
  }

  lemma HitAnswersOwnQuestion(cfg: Config, events: seq<Event>, c: Call)
    requires IsAddress(c.request.address) && RealAddresses(events)
    requires Lookup(After(cfg, events).hits, c.Key(), c.t0, cfg.ttl, true).1.Some?
    ensures var found := Lookup(After(cfg, events).hits, c.Key(), c.t0, cfg.ttl, true).1;
            exists j :: AskedBefore(events, c, found, c.t0, cfg.ttl, j)
  {
    var hits, k := After(cfg, events).hits, c.Key();
    EveryRunSeparate(cfg, events);
    LookupExactly(hits, k, c.t0, cfg.ttl, true, k);
    var e := Get(hits, k).value;
    assert exists j: nat :: HitFrom(events, k, e, j) by { EveryRunExplained(cfg, events); }
    var j: nat :| HitFrom(events, k, e, j);
    SameKeySameQuestion(events[j].call.request, c.request);
    assert AskedBefore(events, c, Some(e.value), c.t0, cfg.ttl, j);
  }

  lemma MissAnswersOwnQuestion(cfg: Config, events: seq<Event>, c: Call)
    requires IsAddress(c.request.address) && RealAddresses(events)
    requires Lookup(After(cfg, events).misses, c.Key(), c.t1, NEGATIVE_TTL, true).1.Some?
    ensures exists j :: AskedBefore(events, c, None, c.t1, 120.0, j)
  {
    var misses, k := After(cfg, events).misses, c.Key();
    EveryRunSeparate(cfg, events);
    LookupExactly(misses, k, c.t1, NEGATIVE_TTL, true, k);
    var e := Get(misses, k).value;
    assert exists j: nat :: MissFrom(events, k, e, j) by { EveryRunExplained(cfg, events); }
    var j: nat :| MissFrom(events, k, e, j);
    SameKeySameQuestion(events[j].call.request, c.request);
    assert AskedBefore(events, c, None, c.t1, 120.0, j);
  }

  /**
   An answer comes from the sources, now or in an earlier call that asked the
   same question no more than one TTL ago: never from another chain, another
   address or another target.
   */
  lemma AnswersOwnQuestion(cfg: Config, events: seq<Event>, c: Call)
    requires IsAddress(c.request.address) && RealAddresses(events)
    ensures match Resolve(cfg, After(cfg, events), c).1
            case Resolved(record) =>
              || c.request.Verdict() == Some(record)
              || exists j :: AskedBefore(events, c, Some(record), c.t0, cfg.ttl, j)
            case CachedMiss => exists j :: AskedBefore(events, c, None, c.t1, 120.0, j)
            case NotFound => c.request.Verdict() == None
            case UnknownChain => c.request.chain !in cfg.known
            case CacheFull => cfg.capacity < 1
  {
    var s, k := After(cfg, events), c.Key();
    if Lookup(s.hits, k, c.t0, cfg.ttl, true).1.Some? {
      HitAnswersOwnQuestion(cfg, events, c);
    } else if Lookup(s.misses, k, c.t1, NEGATIVE_TTL, true).1.Some? {
      MissAnswersOwnQuestion(cfg, events, c);
    }
  }

  lemma SameKeySameQuestion(a: Request, b: Request)
    requires IsAddress(a.address) && IsAddress(b.address) && a.Key() == b.Key()
    ensures SameQuestion(a, b)
  {
    CacheKeyInjective(a.chain, a.address, a.target, b.chain, b.address, b.target);
  }

  /** A record just stored answers the same question again, whatever the sources say by then. */
  lemma RepeatIsCached(cfg: Config, s: Caches, c: Call, again: Call)
    requires Sound(cfg, s) && cfg.capacity >= 1 && c.request.chain in cfg.known
    requires Lookup(s.hits, c.Key(), c.t0, cfg.ttl, true).1 == None
    requires Lookup(s.misses, c.Key(), c.t1, NEGATIVE_TTL, true).1 == None
    requires SameQuestion(c.request, again.request)
    requires again.t0 - c.t2 <= cfg.ttl && again.t1 - c.t2 <= 120.0
    ensures var (r, first) := Resolve(cfg, s, c);
            Resolve(cfg, r, again) == (r, if first == NotFound then CachedMiss else first)
  {
    var k := c.Key();
    assert again.Key() == k;
    LookupExactly(s.hits, k, c.t0, cfg.ttl, true, k);
    LookupExactly(s.misses, k, c.t1, NEGATIVE_TTL, true, k);
    var hits := Lookup(s.hits, k, c.t0, cfg.ttl, true).0;
    var misses := Lookup(s.misses, k, c.t1, NEGATIVE_TTL, true).0;
    match c.request.Verdict()
    case None => StoreExactly(misses, k, (), c.t2, cfg.capacity, k);
    case Some(record) => StoreExactly(hits, k, record, c.t2, cfg.capacity, k);
  }

  /** A capacity below one makes exactly the calls that reach a cache fail: nothing is ever in one. */
  lemma NoCapacityNoAnswer(cfg: Config, events: seq<Event>, c: Call)
    ensures Resolve(cfg, After(cfg, events), c).1 == CacheFull <==> cfg.capacity < 1 && c.request.chain in cfg.known
  {
    EveryRunSeparate(cfg, events);
    FailsExactly(cfg, After(cfg, events), c);
  }

  lemma FailsExactly(cfg: Config, s: Caches, c: Call)
    requires Sound(cfg, s)
    ensures Resolve(cfg, s, c).1 == CacheFull <==> cfg.capacity < 1 && c.request.chain in cfg.known
  {
    if cfg.capacity < 1 {
      assert s == EMPTY;
    }
  }
}
