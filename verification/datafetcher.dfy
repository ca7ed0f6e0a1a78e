/**
 * The pure helpers of `data_fetcher.py`: the five-zone PE classifier with
 * its fallback key lookup, the percentile and combined-zone mapping of the
 * current-valuation query, the disk-cache file name and the retry loop with
 * exponential backoff.
 */
module DataFetcher {
  import opened Wrappers

  // Valuation zones

  datatype Zone = TooCheap | Cheap | Fair | Expensive | TooExpensive {
    function Label(): string {
      match this
      case TooCheap => "Too Cheap"
      case Cheap => "Cheap"
      case Fair => "Fair"
      case Expensive => "Expensive"
      case TooExpensive => "Too Expensive"
    }

    function Color(): string {
      match this
      case TooCheap => "#10b981"
      case Cheap => "#22c55e"
      case Fair => "#eab308"
      case Expensive => "#f97316"
      case TooExpensive => "#ef4444"
    }

    /** Position from cheapest (0) to most expensive (4). */
    function Rank(): nat {
      match this
      case TooCheap => 0
      case Cheap => 1
      case Fair => 2
      case Expensive => 3
      case TooExpensive => 4
    }
  }

  /** `zones.get(primary, zones.get(fallback, default))`. */
  function KeyOr(zones: map<string, real>, primary: string, fallback: string, default: real): real {
    if primary in zones then zones[primary]
    else if fallback in zones then zones[fallback]
    else default
  }

  /** The four upper bounds, in the order they are tried. */
  function ZoneBounds(zones: map<string, real>): seq<real> {
    [KeyOr(zones, "p10", "too_cheap", 0.0), KeyOr(zones, "p25", "cheap", 0.0),
     KeyOr(zones, "p75", "expensive", 100.0), KeyOr(zones, "p90", "too_expensive", 200.0)]
  }

  function ZoneAt(i: nat): Zone
    requires i <= 4
  {
    [TooCheap, Cheap, Fair, Expensive, TooExpensive][i]
  }

  /** `get_valuation_zone`: the first zone whose inclusive upper bound the PE
      does not exceed; above all four it is "Too Expensive". */
  function ValuationZone(pe: real, zones: map<string, real>): Zone {
    var b := ZoneBounds(zones);
    if pe <= b[0] then TooCheap
    else if pe <= b[1] then Cheap
    else if pe <= b[2] then Fair
    else if pe <= b[3] then Expensive
    else TooExpensive
  }

  /** The zone of rank `i` is chosen exactly when the PE is within bound `i`
      (if it has one) and above every earlier bound. */
  lemma ValuationZoneIsFirstBound(pe: real, zones: map<string, real>, i: nat)
    requires i <= 4
    ensures ValuationZone(pe, zones) == ZoneAt(i) <==>
              && (i < 4 ==> pe <= ZoneBounds(zones)[i])
              && forall j :: 0 <= j < i ==> pe > ZoneBounds(zones)[j]
  {
    var b := ZoneBounds(zones);
    if i == 4 && ValuationZone(pe, zones) != ZoneAt(4) {
      if pe <= b[0] { assert ZoneAt(0) != ZoneAt(4); }
    }
  }

  /** A higher PE never lands in a cheaper zone, whatever the bounds. */
  lemma ValuationZoneMonotone(pe1: real, pe2: real, zones: map<string, real>)
    requires pe1 <= pe2
    ensures ValuationZone(pe1, zones).Rank() <= ValuationZone(pe2, zones).Rank()
  {
  }

  /** A percentile key, when present, overrides the named key. */
  lemma PercentileKeysWin(pe: real, zones: map<string, real>)
    requires "p10" in zones && "p25" in zones && "p75" in zones && "p90" in zones
    ensures ZoneBounds(zones) == [zones["p10"], zones["p25"], zones["p75"], zones["p90"]]
  {
  }

  /** With neither key present a bound takes its default: 0, 0, 100 and 200.
      The two cheap bounds then coincide, so "Cheap" is never returned. */
  lemma DefaultBounds(pe: real)
    ensures ZoneBounds(map[]) == [0.0, 0.0, 100.0, 200.0]
    ensures ValuationZone(pe, map[]) != Cheap
  {
  }

  function ZoneKeys(): set<string> {
    {"p10", "p25", "p75", "p90", "too_cheap", "cheap", "expensive", "too_expensive"}
  }

  /** Any key other than the eight read (say "fair") has no effect. */
  lemma OtherKeysIgnored(pe: real, zones: map<string, real>, k: string, v: real)
    requires k !in ZoneKeys()
    ensures ZoneBounds(zones[k := v]) == ZoneBounds(zones)
    ensures ValuationZone(pe, zones[k := v]) == ValuationZone(pe, zones)
  {
  }

  // Percentiles and the combined zone of the current-valuation query

  /** The historical percentiles a signal is compared with. */
  datatype Percentiles = Percentiles(p10: real, p25: real, median: real, p75: real, p90: real)

  /** The coarse percentile of `v`: the first of 10, 25, 50, 75, 90 whose
      bound `v` does not exceed, else 100. */
  function Percentile(v: real, b: Percentiles): (r: nat)
    ensures r in {10, 25, 50, 75, 90, 100}
  {
    if v <= b.p10 then 10
    else if v <= b.p25 then 25
    else if v <= b.median then 50
    else if v <= b.p75 then 75
    else if v <= b.p90 then 90
    else 100
  }

  function PercentileBound(b: Percentiles, r: nat): Option<real> {
    if r == 10 then Some(b.p10)
    else if r == 25 then Some(b.p25)
    else if r == 50 then Some(b.median)
    else if r == 75 then Some(b.p75)
    else if r == 90 then Some(b.p90)
    else None
  }

  /** The value is within the bound of its percentile and above the bound
      of every smaller percentile. */
  lemma PercentileIsFirstBound(v: real, b: Percentiles)
    ensures var r := Percentile(v, b);
            && (PercentileBound(b, r).Some? ==> v <= PercentileBound(b, r).value)
            && forall q :: q in {10, 25, 50, 75, 90} && q < r ==> v > PercentileBound(b, q).value
  {
  }

  lemma PercentileMonotone(v1: real, v2: real, b: Percentiles)
    requires v1 <= v2
    ensures Percentile(v1, b) <= Percentile(v2, b)
  {
  }

  /** PE weighs 60% and PB 40%. */
  function CombinedPercentile(pePct: nat, pbPct: nat): (c: real)
    ensures (if pePct <= pbPct then pePct else pbPct) as real <= c
    ensures c <= (if pePct <= pbPct then pbPct else pePct) as real
  {
    pePct as real * 0.6 + pbPct as real * 0.4
  }

  datatype CombinedZone = VeryCheap | CheapZone | FairZone | ExpensiveZone | VeryExpensive {
    function Label(): string {
      match this
      case VeryCheap => "Very Cheap"
      case CheapZone => "Cheap"
      case FairZone => "Fair"
      case ExpensiveZone => "Expensive"
      case VeryExpensive => "Very Expensive"
    }

    function Rank(): nat {
      match this
      case VeryCheap => 0
      case CheapZone => 1
      case FairZone => 2
      case ExpensiveZone => 3
      case VeryExpensive => 4
    }
  }

  /** Inclusive upper bounds 20, 40, 60 and 80. */
  function CombinedZoneOf(c: real): CombinedZone {
    if c <= 20.0 then VeryCheap
    else if c <= 40.0 then CheapZone
    else if c <= 60.0 then FairZone
    else if c <= 80.0 then ExpensiveZone
    else VeryExpensive
  }

  /** The zone of the weighted percentile of a PE and a PB value. */
  function ValuationSummary(pe: real, pb: real, peBounds: Percentiles, pbBounds: Percentiles): CombinedZone {
    CombinedZoneOf(CombinedPercentile(Percentile(pe, peBounds), Percentile(pb, pbBounds)))
  }

  /** Each zone covers one band of width 20 (the last one everything above 80). */
  lemma CombinedZoneBands(c: real)
    ensures var z := CombinedZoneOf(c);
            && (z.Rank() > 0 ==> c > 20.0 * (z.Rank() as real))
            && (z.Rank() < 4 ==> c <= 20.0 * (z.Rank() as real + 1.0))
  {
  }

  /** Cheaper PE and PB values never give a more expensive combined zone. */
  lemma ValuationSummaryMonotone(pe1: real, pe2: real, pb1: real, pb2: real, peBounds: Percentiles, pbBounds: Percentiles)
    requires pe1 <= pe2 && pb1 <= pb2
    ensures ValuationSummary(pe1, pb1, peBounds, pbBounds).Rank() <= ValuationSummary(pe2, pb2, peBounds, pbBounds).Rank()
  {
    PercentileMonotone(pe1, pe2, peBounds);
    PercentileMonotone(pb1, pb2, pbBounds);
  }

  /** Agreeing signals give the extreme zones; the boundary values 40, 60 and 80
      count towards the cheaper zone. */
  lemma CombinedZoneExamples()
    ensures CombinedZoneOf(CombinedPercentile(10, 10)) == VeryCheap
    ensures CombinedZoneOf(CombinedPercentile(100, 100)) == VeryExpensive
    ensures CombinedZoneOf(CombinedPercentile(50, 25)) == CheapZone
    ensures CombinedZoneOf(CombinedPercentile(50, 75)) == FairZone
    ensures CombinedZoneOf(CombinedPercentile(100, 50)) == ExpensiveZone
  {
  }

  // Disk cache file name

  function SafeChar(c: char): char {
    if c == '/' || c == ':' then '_' else c
  }

  /** `key.replace("/", "_").replace(":", "_")`. */
  function SafeKey(key: string): (safe: string)
    ensures |safe| == |key|
    ensures forall i :: 0 <= i < |key| ==> safe[i] == SafeChar(key[i])
  {
    if |key| == 0 then "" else [SafeChar(key[0])] + SafeKey(key[1..])
  }

  /** The file name of a cache entry (the cache directory is left out). */
  function CacheFileName(key: string): string {
    SafeKey(key) + ".json"
  }

  /** The file name keeps every other character, has no '/' or ':', and
      sanitising it again changes nothing. */
  lemma CacheFileNameSafe(key: string)
    ensures |CacheFileName(key)| == |key| + 5
    ensures CacheFileName(key)[|key|..] == ".json"
    ensures forall i :: 0 <= i < |CacheFileName(key)| ==> CacheFileName(key)[i] != '/' && CacheFileName(key)[i] != ':'
    ensures forall i :: 0 <= i < |key| && key[i] != '/' && key[i] != ':' ==> CacheFileName(key)[i] == key[i]
    ensures SafeKey(SafeKey(key)) == SafeKey(key)
  {
    var f := CacheFileName(key);
    assert f[|key|..] == ".json";
    forall i | 0 <= i < |f| ensures f[i] != '/' && f[i] != ':' {
      if i >= |key| {
        assert f[i] == ".json"[i - |key|];
      }
    }
  }

  /** Two keys that differ only in '/' against ':' share a cache file. */
  lemma CacheFileNamesCollide()
    ensures CacheFileName("a/b") == CacheFileName("a:b") == "a_b.json"
  {
  }

  // Retry with exponential backoff

  function Pow2(n: nat): (r: nat)
    ensures r >= 1
  {
    if n == 0 then 1 else 2 * Pow2(n - 1)
  }

  /** `min(base_delay * 2 ** attempt, max_delay)`. */
  function RetryDelay(attempt: nat, base: real, maxDelay: real): real {
    var d := base * Pow2(attempt) as real;
    if d <= maxDelay then d else maxDelay
  }

  /** The delay is capped by `maxDelay`, is the doubled base below the cap,
      and never shrinks from one attempt to the next. */
  lemma RetryDelayBounds(attempt: nat, base: real, maxDelay: real)
    requires base >= 0.0
    ensures RetryDelay(attempt, base, maxDelay) <= maxDelay
    ensures base * Pow2(attempt) as real <= maxDelay ==> RetryDelay(attempt, base, maxDelay) == base * Pow2(attempt) as real
    ensures RetryDelay(attempt, base, maxDelay) <= RetryDelay(attempt + 1, base, maxDelay)
  {
    var d := base * Pow2(attempt) as real;
    assert base * Pow2(attempt + 1) as real == 2.0 * d;
  }

  /** How the retry loop ends without a value: the last exception, or a
      `TypeError` from `raise None` when the loop never ran. */
  datatype RetryError<E> = Raised(error: E) | NothingToRaise

  /** `retry_with_backoff(max_retries, base_delay, max_delay)` applied to a
      function whose `k`-th call (from 0) behaves as `call(k)`. Returns the
      outcome, the number of calls and the delays slept. */
  method Retry<T, E>(call: nat -> Result<T, E>, maxRetries: int, base: real, maxDelay: real)
    returns (result: Result<T, RetryError<E>>, calls: nat, sleeps: seq<real>)
    ensures calls <= if maxRetries < 0 then 0 else maxRetries
    ensures maxRetries <= 0 ==> result == Failure(NothingToRaise) && calls == 0
    ensures forall k :: 0 <= k < calls - 1 ==> call(k).Failure?
    ensures result.Success? <==> calls > 0 && call(calls - 1).Success?
    ensures result.Success? ==> result.value == call(calls - 1).value
    ensures maxRetries > 0 && result.Failure? ==>
              calls == maxRetries && result == Failure(Raised(call(calls - 1).error))
    ensures |sleeps| == if calls == 0 then 0 else calls - 1
    ensures forall i :: 0 <= i < |sleeps| ==> sleeps[i] == RetryDelay(i, base, maxDelay)
  {
    sleeps := [];
    calls := 0;
    var attempt: nat := 0;
    var last: Option<E> := None;
    while attempt < maxRetries
      invariant calls == attempt && attempt <= if maxRetries < 0 then 0 else maxRetries
      invariant forall k :: 0 <= k < attempt ==> call(k).Failure?
      invariant last.None? <==> attempt == 0
      invariant last.Some? ==> last == Some(call(attempt - 1).error)
      invariant |sleeps| == if attempt == maxRetries && attempt > 0 then attempt - 1 else attempt
      invariant forall i :: 0 <= i < |sleeps| ==> sleeps[i] == RetryDelay(i, base, maxDelay)
      decreases maxRetries - attempt
    {
      calls := calls + 1;
      var outcome := call(attempt);
      if outcome.Success? {
        return Success(outcome.value), calls, sleeps;
      }
      last := Some(outcome.error);
      if attempt < maxRetries - 1 {
        sleeps := sleeps + [RetryDelay(attempt, base, maxDelay)];
      }
      attempt := attempt + 1;
    }
    match last
    case None => result := Failure(NothingToRaise);
    case Some(e) => result := Failure(Raised(e));
  }
}
