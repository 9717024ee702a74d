/**
 The search for the lowest served block, the lazy endpoint clients and the
 retry loop of `RpcRouter` (clients/raw_rpc.py), as one caller runs them.

 `served(b)` is whether the endpoint returns a header for block `b`.
 */
module BlockFloor {
  import opened Options

  // ----- the search, as a function

  /** The bisection: `lo` is not served, `top` is. */
  function Bisect(served: int -> bool, lo: int, top: int): int
    decreases top - lo
  {
    if top - lo <= 1 then top
    else
      var mid := (lo + top) / 2;
      if served(mid) then Bisect(served, lo, mid) else Bisect(served, mid, top)
  }

  function BisectProbes(served: int -> bool, lo: int, top: int): nat
    decreases top - lo
  {
    if top - lo <= 1 then 0
    else
      var mid := (lo + top) / 2;
      1 + if served(mid) then BisectProbes(served, lo, mid) else BisectProbes(served, mid, top)
  }

  /** What the search finds, and whether it is kept for the next call. */
  datatype Search = Search(found: int, kept: bool, probes: nat)

  function FloorSearch(served: int -> bool, top: int): Search {
    if served(1) then Search(1, true, 1)
    else if !served(top) then Search(1, false, 2)
    else Search(Bisect(served, 1, top), true, 2 + BisectProbes(served, 1, top))
  }

  // ----- what it finds

  /** `b` is served and the block before it is not. */
  predicate IsBoundary(served: int -> bool, b: int) {
    served(b) && !served(b - 1)
  }

  /** The endpoint serves blocks 1 to `head` from some block on, and nothing above `head`. */
  ghost predicate UpwardClosed(served: int -> bool, head: int) {
    && (forall a, b :: 1 <= a <= b <= head && served(a) ==> served(b))
    && (forall b :: b > head ==> !served(b))
  }

  /** `f` is the lowest served block from 1 on. */
  ghost predicate IsFloor(served: int -> bool, f: int) {
    f >= 1 && served(f) && forall b :: 1 <= b < f ==> !served(b)
  }

  lemma {:induction false} BisectFindsBoundary(served: int -> bool, lo: int, top: int)
    requires lo < top && !served(lo) && served(top)
    ensures lo < Bisect(served, lo, top) <= top
    ensures IsBoundary(served, Bisect(served, lo, top))
    decreases top - lo
  {
    if top - lo > 1 {
      var mid := (lo + top) / 2;
      if served(mid) {
        BisectFindsBoundary(served, lo, mid);
      } else {
        BisectFindsBoundary(served, mid, top);
      }
    } else {
      assert top - 1 == lo;
    }
  }

  /** With block 1 not served, any served start above it ends at a true boundary, monotone or not. */
  lemma SearchFindsBoundary(served: int -> bool, top: int)
    requires !served(1) && served(top) && top >= 1
    ensures var r := FloorSearch(served, top); r.kept && 1 < r.found <= top && IsBoundary(served, r.found)
  {
    BisectFindsBoundary(served, 1, top);
  }

  lemma BoundaryIsFloor(served: int -> bool, head: int, b: int)
    requires UpwardClosed(served, head) && 1 < b <= head && IsBoundary(served, b)
    ensures IsFloor(served, b)
  {
    forall a | 1 <= a < b ensures !served(a) {
      assert served(a) ==> served(b - 1);
    }
  }

  lemma FloorUnique(served: int -> bool, f: int, g: int)
    requires IsFloor(served, f) && IsFloor(served, g)
    ensures f == g
  {
  }

  /**
   On an upward-closed chain a kept result is the lowest served block, except
   that a `top` below 1, when block 1 is not served, is returned as it is: the
   search never looks at whether its upper end is above its lower one.
   */
  lemma KeptIsFloorExactly(served: int -> bool, head: int, top: int)
    requires UpwardClosed(served, head) && FloorSearch(served, top).kept
    ensures IsFloor(served, FloorSearch(served, top).found) <==> served(1) || top >= 1
    ensures FloorSearch(served, top).found >= 1 <==> served(1) || top >= 1
  {
    if !served(1) && top >= 1 {
      SearchFindsBoundary(served, top);
      BoundaryIsFloor(served, head, FloorSearch(served, top).found);
    }
  }

  /** Genesis is served, blocks 1 to 4 are not: asked from block 0, the "lowest block >= 1" is 0, and it is kept. */
  lemma GenesisReturned()
    ensures var served := (b: int) => b == 0 || 5 <= b <= 10;
            UpwardClosed(served, 10) && FloorSearch(served, 0).found == 0 && FloorSearch(served, 0).kept
            && FloorSearch(served, 10).found == 5
  {
    var served := (b: int) => b == 0 || 5 <= b <= 10;
    assert Bisect(served, 1, 10) == Bisect(served, 1, 5) == Bisect(served, 3, 5) == Bisect(served, 4, 5);
  }

  /** Where the search starts does not matter, so one caller's result may be kept for the others. */
  lemma StartIrrelevant(served: int -> bool, head: int, top: int, other: int)
    requires UpwardClosed(served, head) && served(top) && served(other) && top >= 1 && other >= 1
    ensures FloorSearch(served, top).found == FloorSearch(served, other).found
  {
    KeptIsFloorExactly(served, head, top);
    KeptIsFloorExactly(served, head, other);
    FloorUnique(served, FloorSearch(served, top).found, FloorSearch(served, other).found);
  }

  // ----- what it costs

  function Pow2(k: nat): (p: nat)
    ensures p >= 1
  {
    if k == 0 then 1 else 2 * Pow2(k - 1)
  }

  /** The least `k` with `n <= 2^k`: see CeilLog2Least. */
  function CeilLog2(n: int): nat {
    if n <= 1 then 0 else 1 + CeilLog2((n + 1) / 2)
  }

  lemma {:induction false} CeilLog2Least(n: int, k: nat)
    ensures CeilLog2(n) <= k <==> n <= Pow2(k)
    decreases k
  {
    if n > 1 && k > 0 {
      CeilLog2Least((n + 1) / 2, k - 1);
    }
  }

  lemma CeilLog2Monotone(m: int, n: int)
    requires m <= n
    ensures CeilLog2(m) <= CeilLog2(n)
  {
    CeilLog2Least(n, CeilLog2(n));
    CeilLog2Least(m, CeilLog2(n));
  }

  lemma {:induction false} BisectCost(served: int -> bool, lo: int, top: int)
    ensures BisectProbes(served, lo, top) <= CeilLog2(top - lo)
    decreases top - lo
  {
    if top - lo > 1 {
      var mid := (lo + top) / 2;
      var half := (top - lo + 1) / 2;
      if served(mid) {
        BisectCost(served, lo, mid);
        CeilLog2Monotone(mid - lo, half);
      } else {
        BisectCost(served, mid, top);
        CeilLog2Monotone(top - mid, half);
      }
    }
  }

  /** At most two probes and the bits of `top`; a single one when block 1 is served. */
  lemma SearchCost(served: int -> bool, top: int)
    ensures FloorSearch(served, top).probes <= 2 + CeilLog2(top)
    ensures served(1) ==> FloorSearch(served, top).probes == 1
  {
    BisectCost(served, 1, top);
    CeilLog2Monotone(top - 1, top);
  }

  // ----- the router

  datatype Endpoint = Endpoint(url: string)

  class RpcRouter {
    const standardUrl: string
    const archiveUrl: string
    var standard: Option<Endpoint>
    var archive: Option<Endpoint>
    var lowestBlock: Option<int>

    constructor (standardUrl: string, archiveUrl: string)
      ensures this.standardUrl == standardUrl && this.archiveUrl == archiveUrl
      ensures standard == None && archive == None && lowestBlock == None
    {
      this.standardUrl := standardUrl;
      this.archiveUrl := archiveUrl;
      standard, archive, lowestBlock := None, None, None;
    }

    method GetStandard() returns (client: Endpoint)
      modifies this`standard
      ensures standard == Some(client)
      ensures old(standard).Some? ==> standard == old(standard)
      ensures old(standard).None? ==> client == Endpoint(standardUrl)
    {
      if standard == None {
        standard := Some(Endpoint(standardUrl));
      }
      client := standard.value;
    }

    /** `None` is the `ValueError` for a missing archive endpoint. */
    method GetArchive() returns (client: Option<Endpoint>)
      modifies this`archive
      ensures if archiveUrl == "" then client == None && archive == old(archive) else client.Some? && archive == client
      ensures old(archive).Some? ==> archive == old(archive)
      ensures old(archive).None? && archiveUrl != "" ==> archive == Some(Endpoint(archiveUrl))
    {
      if archiveUrl == "" {
        return None;
      }
      if archive == None {
        archive := Some(Endpoint(archiveUrl));
      }
      client := archive;
    }

    /** `_header_served`, by the archive endpoint when there is one. */
    method HeaderServed(served: int -> bool, block: int) returns (answer: bool)
      modifies this`standard, this`archive
      ensures answer == served(block)
      ensures if archiveUrl == "" then standard.Some? && archive == old(archive)
              else archive.Some? && standard == old(standard)
      ensures old(standard).Some? ==> standard == old(standard)
      ensures old(archive).Some? ==> archive == old(archive)
    {
      if archiveUrl != "" {
        var _ := GetArchive();
      } else {
        var _ := GetStandard();
      }
      answer := served(block);
    }

    /**
     `lowest_available_block`, with the number of header probes it made. `head`
     is what `latest_block` would answer.
     */
    method LowestAvailableBlock(served: int -> bool, head: int, hi: Option<int>) returns (r: int, probes: nat)
      modifies this
      ensures var search := FloorSearch(served, if hi.Some? then hi.value else head);
              if old(lowestBlock).Some? then
                r == old(lowestBlock).value && lowestBlock == old(lowestBlock) && probes == 0
              else
                r == search.found && probes == search.probes
                && lowestBlock == if search.kept then Some(r) else None
      ensures old(standard).Some? ==> standard == old(standard)
      ensures old(archive).Some? ==> archive == old(archive)
    {
      probes := 0;
      if lowestBlock.Some? {
        return lowestBlock.value, 0;
      }
      var found;
      var first := HeaderServed(served, 1);
      probes := probes + 1;
      if first {
        found := 1;
      } else {
        var lo, top := 1, head;
        if hi.Some? {
          top := hi.value;
        } else {
          var _ := GetStandard();
        }
        ghost var top0 := top;
        var any := HeaderServed(served, top);
        probes := probes + 1;
        if !any {
          return 1, probes;
        }
        while top - lo > 1
          invariant lowestBlock == None
          invariant Bisect(served, lo, top) == Bisect(served, 1, top0)
          invariant probes + BisectProbes(served, lo, top) == 2 + BisectProbes(served, 1, top0)
          invariant old(standard).Some? ==> standard == old(standard)
          invariant old(archive).Some? ==> archive == old(archive)
        {
          var mid := (lo + top) / 2;
          var here := HeaderServed(served, mid);
          probes := probes + 1;
          if here {
            top := mid;
          } else {
            lo := mid;
          }
        }
        found := top;
      }
      lowestBlock := Some(found);
      r := found;
    }
  }

  // ----- retry

  datatype Attempt<+T> = Succeeded(value: T) | Retryable(error: string) | Fatal(error: string)

  /** `tries or settings.RPC_MAX_RETRIES`, then at least one. */
  function Attempts(tries: Option<int>, maxRetries: int): nat {
    var n := if tries.Some? && tries.value != 0 then tries.value else maxRetries;
    if n < 1 then 1 else n
  }

  /**
   `retry`: `run(i)` is what the `i`-th attempt does. The result is that of the
   last attempt, the ones before it failed in a way worth retrying, and the
   pauses add up to `2^(n-1) - 1` base sleeps.
   */
  method Retry<T>(run: nat -> Attempt<T>, tries: Option<int>, maxRetries: int, base: real)
    returns (r: Attempt<T>, n: nat, slept: real)
    ensures var limit := if tries.Some? && tries.value != 0 then tries.value else maxRetries;
            && 1 <= n && (n <= limit || n == 1)
            && (r.Retryable? ==> n >= limit)
    ensures r == run(n - 1) && forall i :: 0 <= i < n - 1 ==> run(i).Retryable?
    ensures slept == base * (Pow2(n - 1) - 1) as real
  {
    var limit := if tries.Some? && tries.value != 0 then tries.value else maxRetries;
    n, slept := 0, 0.0;
    while true
      invariant n < Attempts(tries, maxRetries)
      invariant forall i :: 0 <= i < n ==> run(i).Retryable?
      invariant slept == base * (Pow2(n) - 1) as real
      decreases Attempts(tries, maxRetries) - n
    {
      r := run(n);
      n := n + 1;
      if !r.Retryable? || n == Attempts(tries, maxRetries) {
        return;
      }
      if n - 1 < limit - 1 {
        slept := slept + base * Pow2(n - 1) as real;
      }
      assert (Pow2(n) - 1) as real == (Pow2(n - 1) - 1) as real + Pow2(n - 1) as real;
    }
  }
}
