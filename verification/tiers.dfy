/**
 * The threshold-tier model of `strategy.py`: single-signal strategies (PE or
 * PB tiers), combined PE+PB strategies with AND/OR tiers, the per-PE
 * recommendation query and the descriptive PE zone.
 */
module TierModel {
  import opened Wrappers
  import opened Series
  import opened Sorting

  /** Invest at `multiplier` times the base amount when the signal is at most `threshold`. */
  datatype Tier = Tier(threshold: real, multiplier: real)

  /** A dual-signal tier; `logic` is the source's string, "AND" or "OR". */
  datatype CombinedTier = CombinedTier(peThreshold: real, pbThreshold: real, multiplier: real, logic: string)

  /** The three strategy classes, told apart by tag instead of by the attributes of their first tier. */
  datatype Strategy =
    | PEStrategy(name: string, tiers: seq<Tier>)
    | PBStrategy(name: string, tiers: seq<Tier>)
    | CombinedStrategy(name: string, combinedTiers: seq<CombinedTier>)

  function ThresholdOf(t: Tier): real { t.threshold }

  function Qualifies(v: Option<real>): Tier -> bool {
    (t: Tier) => AtMost(v, t.threshold)
  }

  /** `Strategy.get_multiplier` and `PBStrategy.get_multiplier`: the multiplier
      of the first tier, in ascending threshold order, whose threshold is at
      least the signal; 1.0 when there is none. */
  function TierMultiplier(tiers: seq<Tier>, v: Option<real>): real {
    if |tiers| == 0 then 1.0
    else
      match FirstMatch(SortBy(tiers, ThresholdOf), Qualifies(v))
      case Some(t) => t.multiplier
      case None => 1.0
  }

  /** `t` qualifies for `v` and no qualifying tier has a smaller threshold. */
  ghost predicate LeastQualifying(tiers: seq<Tier>, v: Option<real>, t: Tier) {
    t in tiers && AtMost(v, t.threshold)
    && forall u :: u in tiers && AtMost(v, u.threshold) ==> t.threshold <= u.threshold
  }

  /** The lookup returns exactly 1.0 when no tier's threshold is at least the
      signal (in particular with no tiers or a NaN signal), and otherwise the
      multiplier of a qualifying tier with the smallest threshold. */
  lemma {:induction false} TierMultiplierIsLeastQualifying(tiers: seq<Tier>, v: Option<real>)
    ensures (forall t :: t in tiers ==> !AtMost(v, t.threshold)) ==> TierMultiplier(tiers, v) == 1.0
    ensures (exists t :: t in tiers && AtMost(v, t.threshold)) ==>
              exists t :: LeastQualifying(tiers, v, t) && TierMultiplier(tiers, v) == t.multiplier
  {
    if |tiers| > 0 {
      FirstMatchOfSortedIsLeast(tiers, ThresholdOf, Qualifies(v));
      var r := FirstMatch(SortBy(tiers, ThresholdOf), Qualifies(v));
      if r.Some? {
        assert LeastQualifying(tiers, v, r.value);
      }
    }
  }

  lemma NanSignalGivesBaseline(tiers: seq<Tier>)
    ensures TierMultiplier(tiers, None) == 1.0
  {
    TierMultiplierIsLeastQualifying(tiers, None);
  }

  ghost predicate ThresholdsUnique(tiers: seq<Tier>) {
    KeysUnique(tiers, ThresholdOf)
  }

  /** With distinct thresholds, the order the tiers are listed in does not matter. */
  lemma TierMultiplierOrderIndependent(t1: seq<Tier>, t2: seq<Tier>, v: Option<real>)
    requires multiset(t1) == multiset(t2)
    requires ThresholdsUnique(t1)
    ensures TierMultiplier(t1, v) == TierMultiplier(t2, v)
  {
    FirstMatchOrderIndependent(t1, t2, ThresholdOf, Qualifies(v));
    assert |t1| == |multiset(t1)| == |multiset(t2)| == |t2|;
  }

  /** A signal equal to a threshold satisfies that tier; just above it does not. */
  lemma InclusiveBoundary()
    ensures TierMultiplier([Tier(18.0, 3.0)], Some(18.0)) == 3.0
    ensures TierMultiplier([Tier(18.0, 3.0)], Some(18.0001)) == 1.0
  {
    TierMultiplierIsLeastQualifying([Tier(18.0, 3.0)], Some(18.0));
    TierMultiplierIsLeastQualifying([Tier(18.0, 3.0)], Some(18.0001));
  }

  /** The tiers of the "Opportunistic" preset (2x at PE 20, 3x at 18, 4x at
      16), listed from the loosest tier down as the source lists them. */
  ghost predicate IsOpportunistic(tiers: seq<Tier>) {
    && |tiers| == 3
    && tiers[0].threshold == 20.0 && tiers[0].multiplier == 2.0
    && tiers[1].threshold == 18.0 && tiers[1].multiplier == 3.0
    && tiers[2].threshold == 16.0 && tiers[2].multiplier == 4.0
  }

  /** Conversely, a qualifying tier whose threshold is strictly below that of
      every other qualifying tier is the one the lookup picks. */
  lemma TierMultiplierPicksStrictlyLeast(tiers: seq<Tier>, v: Option<real>, t: Tier)
    requires t in tiers && AtMost(v, t.threshold)
    requires forall u :: u in tiers && AtMost(v, u.threshold) && u != t ==> t.threshold < u.threshold
    ensures TierMultiplier(tiers, v) == t.multiplier
  {
    TierMultiplierIsLeastQualifying(tiers, v);
    var least :| LeastQualifying(tiers, v, least) && TierMultiplier(tiers, v) == least.multiplier;
  }

  /** At PE 17 both the 18 and the 20 tier qualify: the lower threshold wins. */
  lemma OpportunisticBetweenTiers(tiers: seq<Tier>, pe: real)
    requires IsOpportunistic(tiers)
    requires pe == 17.0
    ensures TierMultiplier(tiers, Some(pe)) == 3.0
  {
    forall u | u in tiers && AtMost(Some(pe), u.threshold) && u != tiers[1]
      ensures tiers[1].threshold < u.threshold
    {
      var i :| 0 <= i < 3 && tiers[i] == u;
    }
    TierMultiplierPicksStrictlyLeast(tiers, Some(pe), tiers[1]);
  }

  /** Above every threshold the baseline 1.0 applies. */
  lemma OpportunisticAboveAllTiers(tiers: seq<Tier>, pe: real)
    requires IsOpportunistic(tiers) && pe > 20.0
    ensures TierMultiplier(tiers, Some(pe)) == 1.0
  {
    TierMultiplierIsLeastQualifying(tiers, Some(pe));
  }

  // Combined PE+PB tiers

  function CombinedKey(t: CombinedTier): real { t.peThreshold + t.pbThreshold }

  /** An "AND" tier needs both signals at or under their thresholds, an "OR"
      tier either one; a tier with any other logic never matches. */
  predicate CombinedMatches(t: CombinedTier, pe: Option<real>, pb: Option<real>) {
    if t.logic == "AND" then AtMost(pe, t.peThreshold) && AtMost(pb, t.pbThreshold)
    else if t.logic == "OR" then AtMost(pe, t.peThreshold) || AtMost(pb, t.pbThreshold)
    else false
  }

  function CombinedQualifies(pe: Option<real>, pb: Option<real>): CombinedTier -> bool {
    (t: CombinedTier) => CombinedMatches(t, pe, pb)
  }

  /** `CombinedStrategy.get_multiplier`: tiers are tried in ascending order of
      PE threshold plus PB threshold. */
  function CombinedMultiplier(tiers: seq<CombinedTier>, pe: Option<real>, pb: Option<real>): real {
    if |tiers| == 0 then 1.0
    else
      match FirstMatch(SortBy(tiers, CombinedKey), CombinedQualifies(pe, pb))
      case Some(t) => t.multiplier
      case None => 1.0
  }

  lemma {:induction false} CombinedMultiplierIsLeastMatching(tiers: seq<CombinedTier>, pe: Option<real>, pb: Option<real>)
    ensures (forall t :: t in tiers ==> !CombinedMatches(t, pe, pb)) ==> CombinedMultiplier(tiers, pe, pb) == 1.0
    ensures (exists t :: t in tiers && CombinedMatches(t, pe, pb)) ==>
              exists t :: t in tiers && CombinedMatches(t, pe, pb)
                          && (t.logic == "AND" || t.logic == "OR")
                          && CombinedMultiplier(tiers, pe, pb) == t.multiplier
                          && forall u :: u in tiers && CombinedMatches(u, pe, pb) ==> CombinedKey(t) <= CombinedKey(u)
  {
    if |tiers| > 0 {
      var q := CombinedQualifies(pe, pb);
      FirstMatchOfSortedIsLeast(tiers, CombinedKey, q);
      var r := FirstMatch(SortBy(tiers, CombinedKey), q);
      if r.Some? {
        var t := r.value;
        assert q(t);
        MatchingLogic(t, pe, pb);
        assert CombinedMultiplier(tiers, pe, pb) == t.multiplier;
        assert forall u :: u in tiers && CombinedMatches(u, pe, pb) ==> CombinedKey(t) <= CombinedKey(u) by {
          forall u | u in tiers && CombinedMatches(u, pe, pb) ensures CombinedKey(t) <= CombinedKey(u) {
            assert q(u);
          }
        }
      } else {
        forall u | u in tiers ensures !CombinedMatches(u, pe, pb) {
          assert !q(u);
        }
      }
    }
  }

  /** Only an "AND" or an "OR" tier can match. */
  lemma MatchingLogic(t: CombinedTier, pe: Option<real>, pb: Option<real>)
    requires CombinedMatches(t, pe, pb)
    ensures t.logic == "AND" || t.logic == "OR"
  {
  }

  /** Without a PB reading (NaN) an AND tier can never fire, whatever the PE is. */
  lemma AndTiersNeedBothSignals(tiers: seq<CombinedTier>, pe: Option<real>)
    requires forall t :: t in tiers ==> t.logic == "AND"
    ensures CombinedMultiplier(tiers, pe, None) == 1.0
  {
    CombinedMultiplierIsLeastMatching(tiers, pe, None);
  }

  /** Tiers whose logic is neither "AND" nor "OR" leave the default in place. */
  lemma UnknownLogicNeverFires(tiers: seq<CombinedTier>, pe: Option<real>, pb: Option<real>)
    requires forall t :: t in tiers ==> t.logic != "AND" && t.logic != "OR"
    ensures CombinedMultiplier(tiers, pe, pb) == 1.0
  {
    CombinedMultiplierIsLeastMatching(tiers, pe, pb);
  }

  /** With distinct key sums, the order the combined tiers are listed in does not matter. */
  lemma CombinedMultiplierOrderIndependent(t1: seq<CombinedTier>, t2: seq<CombinedTier>, pe: Option<real>, pb: Option<real>)
    requires multiset(t1) == multiset(t2)
    requires KeysUnique(t1, CombinedKey)
    ensures CombinedMultiplier(t1, pe, pb) == CombinedMultiplier(t2, pe, pb)
  {
    FirstMatchOrderIndependent(t1, t2, CombinedKey, CombinedQualifies(pe, pb));
    assert |t1| == |multiset(t1)| == |multiset(t2)| == |t2|;
  }

  // The current-PE recommendation

  /** `_get_pe_zone`: five descriptive zones with inclusive upper bounds 16, 18, 20 and 24. */
  datatype PeZone = DeepValue | Value | FairValue | SlightlyExpensive | Expensive {
    function Label(): string {
      match this
      case DeepValue => "Deep Value (PE ≤ 16)"
      case Value => "Value (PE 16-18)"
      case FairValue => "Fair Value (PE 18-20)"
      case SlightlyExpensive => "Slightly Expensive (PE 20-24)"
      case Expensive => "Expensive (PE > 24)"
    }
    function Rank(): nat {
      match this
      case DeepValue => 0
      case Value => 1
      case FairValue => 2
      case SlightlyExpensive => 3
      case Expensive => 4
    }
  }

  function PeZoneOf(pe: real): PeZone {
    if pe <= 16.0 then DeepValue
    else if pe <= 18.0 then Value
    else if pe <= 20.0 then FairValue
    else if pe <= 24.0 then SlightlyExpensive
    else Expensive
  }

  /** The inclusive upper bounds of the first four zones, in rank order. */
  const PeZoneBounds: seq<real> := [16.0, 18.0, 20.0, 24.0]

  /** A PE lands in the zone of rank `k` exactly when it is at most the
      `k`-th bound (the last zone has none) and above every earlier one. */
  lemma PeZoneIsFirstBound(pe: real, k: nat)
    requires k <= 4
    ensures PeZoneOf(pe).Rank() == k <==>
              && (k < 4 ==> pe <= PeZoneBounds[k])
              && forall j :: 0 <= j < k ==> pe > PeZoneBounds[j]
  {
    var b := PeZoneBounds;
    assert b[0] == 16.0 && b[1] == 18.0 && b[2] == 20.0 && b[3] == 24.0;
  }

  /** A higher PE never lands in a cheaper zone. */
  lemma PeZoneMonotone(pe1: real, pe2: real)
    requires pe1 <= pe2
    ensures PeZoneOf(pe1).Rank() <= PeZoneOf(pe2).Rank()
  {
  }

  // Results keyed by strategy name

  /** Evaluates `f` on every strategy in list order and keys the answers by
      name, a later strategy replacing an earlier one of the same name (a
      Python dict filled in a loop); the first failure aborts the loop. */
  function ByName<V, E>(strategies: seq<Strategy>, f: Strategy --> Result<V, E>): Result<map<string, V>, E>
    requires forall s :: f.requires(s)
  {
    if |strategies| == 0 then Success(map[])
    else
      var last := strategies[|strategies| - 1];
      match ByName(strategies[..|strategies| - 1], f)
      case Failure(e) => Failure(e)
      case Success(m) =>
        match f(last)
        case Failure(e) => Failure(e)
        case Success(v) => Success(m[last.name := v])
  }

  /** The loop fails exactly when some strategy fails, and then with the
      error of the first one that does. */
  lemma {:induction false} ByNameFailure<V, E>(strategies: seq<Strategy>, f: Strategy --> Result<V, E>)
    requires forall s :: f.requires(s)
    ensures ByName(strategies, f).Failure? <==> exists i :: 0 <= i < |strategies| && f(strategies[i]).Failure?
    ensures ByName(strategies, f).Failure? ==>
              exists i :: 0 <= i < |strategies| && f(strategies[i]).Failure?
                          && ByName(strategies, f).error == f(strategies[i]).error
                          && forall j :: 0 <= j < i ==> f(strategies[j]).Success?
  {
    if |strategies| > 0 {
      var n := |strategies| - 1;
      var init := strategies[..n];
      ByNameFailure(init, f);
      if ByName(init, f).Failure? {
        var i :| 0 <= i < |init| && f(init[i]).Failure? && ByName(init, f).error == f(init[i]).error
                 && forall j :: 0 <= j < i ==> f(init[j]).Success?;
        assert strategies[i] == init[i];
        forall j | 0 <= j < i ensures f(strategies[j]).Success? {
          assert strategies[j] == init[j];
        }
      } else {
        forall j | 0 <= j < n ensures f(strategies[j]).Success? {
          assert strategies[j] == init[j];
        }
      }
    }
  }

  /** No strategy after position `i` carries the name of the one at `i`. */
  ghost predicate LastWithName(strategies: seq<Strategy>, i: nat)
    requires i < |strategies|
  {
    forall j :: i < j < |strategies| ==> strategies[j].name != strategies[i].name
  }

  /** On success, exactly the names of the given strategies get an entry. */
  lemma {:induction false} ByNameCoversNames<V, E>(strategies: seq<Strategy>, f: Strategy --> Result<V, E>)
    requires forall s :: f.requires(s)
    ensures ByName(strategies, f).Success? ==>
              forall k :: k in ByName(strategies, f).value <==>
                            exists i :: 0 <= i < |strategies| && strategies[i].name == k
  {
    if |strategies| > 0 && ByName(strategies, f).Success? {
      var init := strategies[..|strategies| - 1];
      ByNameCoversNames(init, f);
      forall k ensures k in ByName(strategies, f).value <==>
                         exists i :: 0 <= i < |strategies| && strategies[i].name == k
      {
        if k in ByName(init, f).value {
          var i :| 0 <= i < |init| && init[i].name == k;
          assert strategies[i].name == k;
        }
        if exists i :: 0 <= i < |strategies| && strategies[i].name == k {
          var i :| 0 <= i < |strategies| && strategies[i].name == k;
          if i < |init| {
            assert init[i].name == k;
          }
        }
      }
    }
  }

  /** On success, the entry of a name is the answer for the last strategy in
      the list that carries it. */
  lemma {:induction false} ByNameLastWins<V, E>(strategies: seq<Strategy>, f: Strategy --> Result<V, E>, i: nat)
    requires forall s :: f.requires(s)
    requires i < |strategies| && LastWithName(strategies, i)
    ensures ByName(strategies, f).Success? ==>
              && strategies[i].name in ByName(strategies, f).value
              && f(strategies[i]).Success?
              && ByName(strategies, f).value[strategies[i].name] == f(strategies[i]).value
  {
    var init := strategies[..|strategies| - 1];
    if i < |init| && ByName(strategies, f).Success? {
      assert init[i] == strategies[i];
      assert LastWithName(init, i);
      ByNameLastWins(init, f, i);
    }
  }

  // The current recommendation

  datatype Recommendation = Recommendation(multiplier: real, investment: real, zone: PeZone)

  /** A combined strategy asked with one signal raises a TypeError. */
  datatype LookupError = MissingPbArgument

  /** The recommendation for one strategy: its lookup on the single signal
      `pe` (a PB strategy compares it with its PB thresholds, as the source
      passes the same value), the scaled investment and the zone. */
  function Recommend(s: Strategy, pe: real, base: real): Result<Recommendation, LookupError> {
    if s.CombinedStrategy? then Failure(MissingPbArgument)
    else
      var m := TierMultiplier(s.tiers, Some(pe));
      Success(Recommendation(m, base * m, PeZoneOf(pe)))
  }

  /** `get_current_recommendation`: one entry per strategy name. */
  function Recommendations(pe: real, base: real, strategies: seq<Strategy>): Result<map<string, Recommendation>, LookupError> {
    ByName(strategies, s => Recommend(s, pe, base))
  }

  /** The recommendations fail exactly when the list holds a combined
      strategy; otherwise every name gets the recommendation of the last
      strategy that carries it, whose multiplier is that strategy's tier
      lookup on `pe`. */
  lemma RecommendationsByName(pe: real, base: real, strategies: seq<Strategy>, i: nat)
    requires i < |strategies| && LastWithName(strategies, i)
    ensures Recommendations(pe, base, strategies).Failure? <==>
              exists j :: 0 <= j < |strategies| && strategies[j].CombinedStrategy?
    ensures Recommendations(pe, base, strategies).Success? ==>
              && strategies[i].name in Recommendations(pe, base, strategies).value
              && Recommendations(pe, base, strategies).value[strategies[i].name]
                 == Recommendation(TierMultiplier(strategies[i].tiers, Some(pe)),
                                   base * TierMultiplier(strategies[i].tiers, Some(pe)), PeZoneOf(pe))
  {
    var f := s => Recommend(s, pe, base);
    ByNameFailure(strategies, f);
    ByNameLastWins(strategies, f, i);
    if exists j :: 0 <= j < |strategies| && strategies[j].CombinedStrategy? {
      var j :| 0 <= j < |strategies| && strategies[j].CombinedStrategy?;
      assert f(strategies[j]).Failure?;
    }
  }
}
