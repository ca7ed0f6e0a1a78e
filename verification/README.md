# Nifty SIP strategies and PMS report parsing, in Dafny

This project models the calculation core of a Nifty 50 valuation dashboard.
It covers two parts of the application.

The first part is the investment strategies of `strategy.py`:
- the PE, PB and combined PE+PB tier lookups that choose a weekly SIP
  multiplier;
- the weekly SIP simulator (`simulate_sip`), `compare_strategies` and
  `get_current_recommendation`;
- the "bullet" simulator (`simulate_bullet_deployment`), which saves a
  weekly amount and deploys part of the cash when the market is cheap;
- the valuation-zone and percentile rules of `data_fetcher.py`, with its
  cache file names and the retry-with-backoff loop.

The second part is the PMS (portfolio management service) report parser:
- the text helpers of `pms/utils/pdf_utils.py`: number cleaning, stock-name
  normalisation, section slicing and the header-row search;
- the Sameeksha holding-report rules: row classification, the merged
  holding-row parser and the row state machine;
- the shared validation and parse summary of `pms/parsers/base_parser.py`.

Every operation is a pure function over immutable data. Money, prices and
valuation signals are `real`. A missing or NaN reading is an `Option`
holding `None`, and every comparison with it is false, as it is with NaN.

Some things become parameters, because the model cannot see or run them:
- the rate solver behind `calculate_xirr`;
- Python's `float()` on a string;
- the header pattern search.

The modules are:
- Wrappers: `Option` and `Result`.
- Sorting: a stable sort by key, and first-match search.
- Series: the weekly row, cashflows, and the return and average-price
  helpers.
- TierModel: the three strategy kinds, their lookups, the PE zone,
  `get_current_recommendation`, and the shared keyed-by-name loop.
- Sip: `simulate_sip` and `compare_strategies`.
- Bullet: the bullet configurations and `simulate_bullet_deployment`.
- DataFetcher: valuation zones, percentiles, cache file names and retry.
- Text: Python's `strip`, `split`, `' '.join`, `find`, `lower`, `upper`
  and `title`.
- PdfUtils: the four `pdf_utils.py` helpers that are modelled.
- BaseParser: `validate_holdings` and `parse`.
- Sameeksha: the Sameeksha parser.
- SameekshaRows: a family of rows the parser accepts (a plain name, then
  numbers each after one space), with the tokens, values and holding each
  yields.
- SameekshaExample: the parser's documented example row, parsed to its
  holding.

## Model

| member | source | states |
|---|---|---|
| `Sorting.SortByCorrect` | strategy.py:53 | The sort used for tier lists returns the same elements (as a multiset), ordered by key, with the same length. |
| `Sorting.FirstMatchOfSortedIsLeast` | strategy.py:53-58 | Scanning the sorted tiers finds nothing exactly when no tier matches; otherwise it finds a matching tier whose key is no larger than that of any matching tier. |
| `Sorting.FirstMatchOrderIndependent` | strategy.py:53-58 | When keys are distinct, the tier found does not depend on the order the tiers were listed in. |
| `Sorting.FirstMatchIndex` | pms/parsers/sameeksha_parser.py:60-63 | The index search finds nothing exactly when no element satisfies the predicate; otherwise it finds the first element that does. |
| `TierModel.TierMultiplierIsLeastQualifying` | strategy.py:42-61 | A PE or PB lookup returns 1.0 when no threshold is at or above the signal. Otherwise it returns the multiplier of a qualifying tier with the least threshold. |
| `TierModel.NanSignalGivesBaseline` | strategy.py:56-61 | A NaN signal satisfies no tier, so the lookup gives the 1.0 baseline. |
| `TierModel.TierMultiplierOrderIndependent` | strategy.py:53 | With distinct thresholds, listing the same tiers in another order gives the same multiplier. |
| `TierModel.InclusiveBoundary` | strategy.py:57 | A signal equal to a threshold qualifies for that tier; a value just above it does not. |
| `TierModel.TierMultiplierPicksStrictlyLeast` | strategy.py:189-200 | When one qualifying tier has a threshold strictly below every other qualifying tier, its multiplier is the answer. |
| `TierModel.OpportunisticBetweenTiers` | strategy.py:77-82 | For the Opportunistic preset (2x at 20, 3x at 18, 4x at 16), PE 17 qualifies for both the 18 and 20 tiers and gets the 18 tier's 3x. |
| `TierModel.OpportunisticAboveAllTiers` | strategy.py:77-82 | For the Opportunistic preset, a PE above 20 gets 1x. |
| `TierModel.CombinedMultiplierIsLeastMatching` | strategy.py:316-332 | A combined lookup tries tiers in ascending order of PE threshold plus PB threshold. It returns 1.0 when no tier matches; otherwise it returns the multiplier of a matching tier with the least key sum. |
| `TierModel.MatchingLogic` | strategy.py:325-330 | Only a tier whose logic is "AND" or "OR" can match. |
| `TierModel.AndTiersNeedBothSignals` | strategy.py:325-327 | Without a PB reading, "AND" tiers never fire, whatever the PE. |
| `TierModel.UnknownLogicNeverFires` | strategy.py:324-332 | Tiers with any other logic string leave the 1.0 default. |
| `TierModel.CombinedMultiplierOrderIndependent` | strategy.py:322 | With distinct key sums, the order the combined tiers are listed in does not matter. |
| `TierModel.PeZoneIsFirstBound` | strategy.py:638-649 | The five PE zones have inclusive upper bounds 16, 18, 20 and 24: a PE is in the zone of rank k exactly when it is at most the k-th bound (the last zone has none) and above every earlier bound. |
| `TierModel.PeZoneMonotone` | strategy.py:638-649 | A higher PE never lands in a cheaper zone. |
| `TierModel.ByNameFailure` | strategy.py:607-611 | The per-strategy loop fails exactly when some strategy's call fails, and then with the first such failure. |
| `TierModel.ByNameCoversNames` | strategy.py:607-611 | On success, the result has an entry for exactly the names of the given strategies. |
| `TierModel.ByNameLastWins` | strategy.py:607-611 | On success, a name's entry comes from the last strategy carrying that name. |
| `TierModel.RecommendationsByName` | strategy.py:614-635 | `get_current_recommendation` fails (a TypeError) exactly when the list holds a combined strategy. Otherwise each name gets the multiplier from the tier lookup at that PE, the base amount times that multiplier, and the PE zone. |
| `Series.Xirr` | strategy.py:433-434 | Fewer than two cashflows give a rate of 0. |
| `Series.ReturnPctSign` | strategy.py:558 | The percentage return is 0 when nothing was invested. Otherwise it has the sign of the gain, and times the capital it gives back the gain times 100. |
| `Series.AvgPriceRecoversCapital` | strategy.py:568 | The average buy price times the units held is the capital invested. It is 0 when no units are held. |
| `Sip.EmptyCombinedStrategyRaises` | strategy.py:523-525 | As written, a combined strategy without tiers raises on every row: the one-argument `get_multiplier(pe)` call lacks the PB argument. |
| `Sip.RowMultiplierCorrectsOnlyTheRaise` | strategy.py:498-525 | The corrected dispatch agrees with the source wherever the source returns a value. The source fails only for a combined strategy without tiers. A strategy without tiers gets 1.0. |
| `Sip.NoPbColumnGivesBaseline` | strategy.py:509-519 | Without a `pb` column, PB and combined strategies invest at 1.0 on every row. |
| `Sip.RowMultiplierNonNegative` | strategy.py:498-525 | With non-negative tier multipliers, every row's multiplier is non-negative. |
| `Sip.BucketKeyReported` | strategy.py:538-539 | `min(int(m), 4)` falls in the reported buckets 1 to 4 exactly when m is at least 1. Every m of at least 4 goes to bucket 4. |
| `Sip.SumInvestments` | strategy.py:527-532 | The summed investments are the base amount times the summed multipliers. |
| `Sip.SipAfterInvested` | strategy.py:532 | Capital after n rows is the sum of those rows' investments. |
| `Sip.SipAfterUnits` | strategy.py:530-531 | Units after n rows are the sum of those rows' purchases. |
| `Sip.SipAfterCashflows` | strategy.py:535 | After n rows the cashflow list holds exactly one outflow per row: the row's date and the negated investment. |
| `Sip.SipAfterMonotone` | strategy.py:527-532 | With a non-negative base and multiplier, capital and units never decrease from one row to the next. |
| `Sip.SipRunMonotone` | strategy.py:498-532 | The same holds for a whole strategy whose tier multipliers are non-negative. |
| `Sip.SipAfterBuckets` | strategy.py:491-539 | Buckets 1 to 4 always exist. Each bucket counts the rows whose truncated, capped multiplier equals its key. |
| `Sip.ReportedBucketsCountAtLeastOne` | strategy.py:581-584 | The four reported counts add up to the number of rows with a multiplier of at least 1. |
| `Sip.ConstantPriceBreaksEven` | strategy.py:530-556 | At a constant price, units times price equals the capital invested. |
| `Sip.SipLedgerEntries` | strategy.py:542-552 | Ledger entry i is the record of row i. |
| `Sip.SimulateSipFailsOnlyWhenEmpty` | strategy.py:555 | With the corrected dispatch of the strategy.py:523-525 finding, the simulation fails, with the empty-series error, exactly on an empty series. The source as written also raises for a combined strategy without tiers. |
| `Sip.SimulateCapital` | strategy.py:527-576 | The reported capital is the base amount times the summed row multipliers. |
| `Sip.SimulateUnits` | strategy.py:530-556 | The units held are the summed purchases. The current value is the units at the last row's price. |
| `Sip.SipLedgerRunningTotals` | strategy.py:542-552 | Each ledger entry records its row's purchase and the running totals, valued at that row's price. |
| `Sip.SimulateLedgerEndsAtTotals` | strategy.py:542-576 | The last ledger entry carries the final capital and units. |
| `Sip.SimulateBuckets` | strategy.py:581-584 | The reported week counts are the rows whose multiplier truncates to 1, 2, 3 and at least 4. |
| `Sip.SimulateXirr` | strategy.py:559-565 | The rate is the solver's rate, in percent, over the outflows followed by the final value on the last date. |
| `Sip.SimulateSipXirr` | strategy.py:433-565 | Every non-empty series yields at least two cashflows, so the guard of `calculate_xirr` never fires. |
| `Sip.CompareStrategiesByName` | strategy.py:590-611 | With the corrected dispatch, `compare_strategies` fails exactly on an empty series (the source as written also raises when the list holds a combined strategy without tiers). Otherwise each name maps to the simulation of the last strategy with that name. |
| `Sip.CompareNoStrategies` | strategy.py:607-611 | With no strategies the result is empty, even for an empty series. |
| `Sip.SingleTierMultiplier` | strategy.py:42-61 | A single 4x tier at PE 16 buys 4x at or below 16 and 1x above it. |
| `Sip.ScenarioCounts` | strategy.py:538-539 | The weeks 1x, 1x, 1x, 4x sum to 7 and count three 1x weeks and one 4x week. |
| `Sip.FourWeekScenario` | strategy.py:466-587 | Four weeks at price 100 with PE 25, 25, 25 and 14, under a single 4x tier at 16 and a base of 100, invest 700 for 7 units. The return is 0, with three 1x weeks and one 4x week. |
| `Bullet.CombinedBulletUsesPeThresholds` | strategy.py:821-832 | A combined bullet configuration deploys exactly like a single-signal one built from its PE thresholds. Its PB thresholds and logic are never read. |
| `Bullet.DeployPctIsTierLookup` | strategy.py:945-959 | With strictly ordered levels, the deploy percentage is the lookup of a three-tier table. There is none above the cheap level; otherwise it is the least qualifying level's percentage. |
| `Bullet.DeployAmountBounds` | strategy.py:947-958 | A percentage in [0, 100] deploys between nothing and all of the cash. |
| `Bullet.UnitsForPositive` | strategy.py:963 | A positive amount at a positive price buys a positive number of units. |
| `Bullet.SkippedRowChangesNothing` | strategy.py:931-932 | A row with a NaN price or signal, or a non-positive price, changes nothing, not even the accumulated cash. |
| `Bullet.BulletConservesCash` | strategy.py:935-966 | Cash plus deployed capital always equals the accumulated total. |
| `Bullet.BulletStepAccumulates` | strategy.py:935-936 | Only a processed row adds the weekly amount to the accumulated total. |
| `Bullet.BulletAccrues` | strategy.py:935-936 | The accumulated total is the weekly amount times the processed rows. |
| `Bullet.BulletAccumulatesPerProcessedRow` | strategy.py:931-936 | The accumulated total after n rows is the weekly amount times the number of processed rows among them. |
| `Bullet.BulletCashNonNegative` | strategy.py:935-966 | With percentages in [0, 100] and a non-negative weekly amount, the cash never goes negative. |
| `Bullet.BulletMonotone` | strategy.py:935-969 | Row by row, the accumulated total, the deployed total and the units never decrease, and at most one deployment is added. |
| `Bullet.BulletDeployments` | strategy.py:961-980 | Every deployment adds exactly one negative cashflow, and there are at most as many deployments as processed rows. Units are held exactly when something was deployed. |
| `Bullet.LastProcessed` | strategy.py:931-932 | The last processed row exists exactly when some row was processed. It is processed and no later row is. |
| `Bullet.BadLastPriceCounterexample` | strategy.py:1018-1019 | When a week fully deployed at price 100 is followed by a row at price -1 (which the loop skips), the code as written values the 1 unit at -1. The corrected valuation uses 100. |
| `Bullet.BulletResultTotals` | strategy.py:1002-1052 | Without a deployment the result is all zeros, even though cash was accumulated. With one, the result reports the loop's totals, and remaining cash plus deployed equals the accumulated total. |
| `Bullet.BulletValuation` | strategy.py:1018-1026 | With the corrected valuation of the strategy.py:1018-1019 finding, the holdings are valued at the last price the loop accepted, so the current value is never negative. The return is value less deployed capital, and it is non-negative exactly when the value covers the capital. |
| `Bullet.BulletXirr` | strategy.py:1029-1032 | With a deployment, the rate is the solver's rate, in percent, over the deployment outflows followed by the current value on the last row's date. |
| `Bullet.SimulateBulletInDateOrder` | strategy.py:913 | The simulation runs over a date-sorted permutation of the rows given. |
| `Bullet.BulletStepDeploys` | strategy.py:945-970 | On a processed row whose level has a percentage in (0, 100], with cash on hand, the amount deployed is that percentage of the cash (the week's amount included). It is positive and at most that cash, so the cash stays non-negative. It moves from cash to the deployed total, buys amount / price units (a positive number), and is recorded as one more outflow on the row's date. |
| `DataFetcher.ValuationZoneIsFirstBound` | data_fetcher.py:660-676 | The zone of rank i is chosen exactly when the PE is within bound i and above every earlier bound. |
| `DataFetcher.ValuationZoneMonotone` | data_fetcher.py:667-676 | A higher PE never lands in a cheaper zone, whatever the bounds. |
| `DataFetcher.PercentileKeysWin` | data_fetcher.py:662-665 | The percentile keys p10, p25, p75 and p90, when present, override the named keys. |
| `DataFetcher.DefaultBounds` | data_fetcher.py:662-665 | With neither key present the bounds are 0, 0, 100 and 200, so the "Cheap" zone is never reached. |
| `DataFetcher.OtherKeysIgnored` | data_fetcher.py:662-665 | Any key other than the eight read has no effect on the bounds or the zone. |
| `DataFetcher.Percentile` | data_fetcher.py:815-841 | A coarse percentile is one of 10, 25, 50, 75, 90 and 100. |
| `DataFetcher.PercentileIsFirstBound` | data_fetcher.py:815-841 | A value is within the bound of its percentile and above every earlier bound. |
| `DataFetcher.PercentileMonotone` | data_fetcher.py:815-841 | A larger value never gets a smaller percentile. |
| `DataFetcher.CombinedPercentile` | data_fetcher.py:844 | The 60/40 weighted percentile lies between the two percentiles. |
| `DataFetcher.CombinedZoneBands` | data_fetcher.py:847-861 | Each combined zone covers one band of width 20, with inclusive upper bounds 20, 40, 60 and 80. |
| `DataFetcher.ValuationSummaryMonotone` | data_fetcher.py:815-861 | Cheaper PE and PB values never give a more expensive combined zone. |
| `DataFetcher.CombinedZoneExamples` | data_fetcher.py:844-861 | Agreeing signals give the extreme zones. The weighted percentiles 40, 60 and 80 fall in the cheaper zone of each boundary. |
| `DataFetcher.SafeKey` | data_fetcher.py:51 | Replacing '/' and ':' by '_' keeps the length and maps every character on its own. |
| `DataFetcher.CacheFileNameSafe` | data_fetcher.py:49-52 | The cache file name is the key plus ".json". It contains no '/' or ':', keeps every other character, and making the key safe twice changes nothing. |
| `DataFetcher.CacheFileNamesCollide` | data_fetcher.py:49-52 | The keys "a/b" and "a:b" share the cache file "a_b.json". |
| `DataFetcher.RetryDelayBounds` | data_fetcher.py:31 | The delay never exceeds the cap. Below the cap it is the base doubled once per attempt, and it never shrinks from one attempt to the next. |
| `DataFetcher.Retry` | data_fetcher.py:17-37 | The call is made at most `max_retries` times and stops at the first success, which is returned. Without a success the last error is raised; with no attempts at all there is nothing to raise. There is one sleep between consecutive attempts, each of the capped doubling delay. |
| `Text.Strip` | pms/utils/pdf_utils.py:141 | `strip()` removes the leading and trailing whitespace and nothing else. What is left neither starts nor ends with whitespace. |
| `Text.StripStripped` | pms/utils/pdf_utils.py:191 | A string without surrounding whitespace is its own strip. |
| `Text.Words` | pms/utils/pdf_utils.py:181 | `split()` yields whitespace-free, non-empty words. |
| `Text.WordsAroundSpace` | pms/utils/pdf_utils.py:181 | `split()` cuts at every whitespace character: the words of a, a whitespace character, then b are the words of a followed by the words of b. |
| `Text.WordsOfWord` | pms/utils/pdf_utils.py:181 | A non-empty run without whitespace is a single word. With `WordsAroundSpace` and `WordsOfBlank`, this fixes the words of every string. |
| `Text.WordsOfBlank` | pms/utils/pdf_utils.py:181 | A string of whitespace only has no words. |
| `Text.WordsOfJoin` | pms/utils/pdf_utils.py:181 | `split()` undoes `' '.join` on a list of words. |
| `Text.WordsIgnoreWhichSpace` | pms/utils/pdf_utils.py:181 | Replacing whitespace characters by other whitespace characters leaves the words unchanged. |
| `Text.CollapseCollapsed` | pms/utils/pdf_utils.py:181 | `' '.join(name.split())` leaves single plain spaces between words and none at either end. |
| `Text.CollapseKeepsWords` | pms/utils/pdf_utils.py:181 | `' '.join(name.split())` has exactly the words of `name`, in order. |
| `Text.CollapseOfCollapsed` | pms/utils/pdf_utils.py:181 | Collapsing an already collapsed string changes nothing. |
| `Text.Find` | pms/utils/pdf_utils.py:206 | `find` returns the first occurrence at or after the start position, and nothing exactly when there is none. |
| `Text.Lower` | pms/utils/pdf_utils.py:209 | `lower()` leaves no upper-case letter, keeps every other character, and changes each position only in case. |
| `Text.Upper` | pms/utils/pdf_utils.py:185 | `upper()` leaves no lower-case letter, keeps every other character, and changes each position only in case. |
| `Text.CaseRoundTrip` | pms/utils/pdf_utils.py:185-209 | Lower- and upper-casing are idempotent, each undoes the other up to the final case, and two strings have the same lower-cased form exactly when they have the same upper-cased form. |
| `Text.LowerKeepsOccurrence` | pms/utils/pdf_utils.py:206-210 | An exact occurrence is also found after lower-casing both sides. |
| `PdfUtils.Scrub` | pms/utils/pdf_utils.py:142 | Deleting `[₹$€£,\s]` leaves none of those characters and never lengthens the text. With `ScrubDropsRemovable`, `ScrubKeepsClean` and `ScrubConcat`, exactly those characters are deleted and every other is kept, in order. |
| `PdfUtils.ScrubDropsRemovable` | pms/utils/pdf_utils.py:142 | Each of `₹ $ € £ ,` and every whitespace character, on its own, is deleted. |
| `PdfUtils.ScrubConcat` | pms/utils/pdf_utils.py:142 | The deletion works piece by piece over a concatenation. |
| `PdfUtils.ScrubKeepsClean` | pms/utils/pdf_utils.py:142 | Text without removable characters is unchanged. |
| `PdfUtils.ScrubAllSpace` | pms/utils/pdf_utils.py:142 | All-whitespace text becomes empty. |
| `PdfUtils.ScrubStrip` | pms/utils/pdf_utils.py:141-142 | Stripping before the deletion makes no difference. |
| `PdfUtils.CleanNumeric` | pms/utils/pdf_utils.py:137-138 | An empty string or a non-string value gives `None`. |
| `PdfUtils.CleanedClean` | pms/utils/pdf_utils.py:141-142 | A value without removable characters is its own cleaned form. |
| `PdfUtils.CleanNumericIgnoresSeparators` | pms/utils/pdf_utils.py:141-164 | Currency symbols, commas and whitespace never change the result: cleaning the value first gives the same answer. |
| `PdfUtils.PlainBodyClean` | pms/utils/pdf_utils.py:145-164 | A clean body without a sign reads as `float` of the body, minus at most one trailing '%'. |
| `PdfUtils.ParseParenthesised` | pms/utils/pdf_utils.py:146-162 | Surrounding parentheses negate the parsed body. |
| `PdfUtils.ParseMinus` | pms/utils/pdf_utils.py:149-162 | A leading '-' negates the parsed body. |
| `PdfUtils.CleanNumericParenthesised` | pms/utils/pdf_utils.py:144-164 | Parentheses around a clean body negate its value. |
| `PdfUtils.CleanNumericMinus` | pms/utils/pdf_utils.py:144-164 | A leading minus on a clean body negates its value. |
| `PdfUtils.CleanNumericPercent` | pms/utils/pdf_utils.py:153-156 | A trailing '%' is dropped without scaling: "12.5%" reads as 12.5. |
| `PdfUtils.FirstSuffix` | pms/utils/pdf_utils.py:184-189 | The suffix removed is the first listed one the upper-cased name ends with; when there is none, the name ends with none of them. |
| `PdfUtils.SuffixShape` | pms/utils/pdf_utils.py:184 | Each listed suffix is a space followed by upper-case letters. |
| `PdfUtils.NormalizeStockNameShape` | pms/utils/pdf_utils.py:167-191 | The normalised name is collapsed and does not end in whitespace. At most one suffix is removed: the first listed one, cut off exactly. With no such suffix the name is only collapsed. |
| `PdfUtils.NormalizeStockNameNonEmpty` | pms/utils/pdf_utils.py:177-191 | A name with any non-whitespace character normalises to a non-empty name. |
| `PdfUtils.NormalizeStripsSuffix` | pms/utils/pdf_utils.py:184-191 | Appending a suffix to a collapsed name is undone by normalising, when no earlier-listed suffix also matches. |
| `PdfUtils.NormalizeStripsSuffixAnyCase` | pms/utils/pdf_utils.py:184-191 | The same for a suffix written in any case (" Ltd" for " LTD"): the match is on the upper-case name, and the cut removes the suffix as written. |
| `PdfUtils.NormalizeStockNameNotIdempotent` | pms/utils/pdf_utils.py:186-189 | Only one suffix goes per call: a name ending in " PVT LTD" loses " LTD" the first time and " PVT" the second. |
| `PdfUtils.FindEitherCaseIsFirst` | pms/utils/pdf_utils.py:206-221 | The search finds the first exact occurrence if there is one, and otherwise the first occurrence ignoring case. It finds nothing exactly when there is no occurrence even ignoring case. |
| `PdfUtils.FindSectionAbsent` | pms/utils/pdf_utils.py:206-213 | The section is missing exactly when the text lacks the marker, even ignoring case. |
| `PdfUtils.FindSectionSlice` | pms/utils/pdf_utils.py:206-226 | A found section is the text right after the first occurrence of the marker: the first exact one, else the first ignoring case (`FindEitherCaseIsFirst`). It runs up to the first end marker after it, found the same way, or to the end of the text when no end marker is given or none follows. |
| `PdfUtils.SectionEndIsMarker` | pms/utils/pdf_utils.py:217-226 | A section stops early only at the first end-marker occurrence at or after its start, exact case first and then ignoring case. It runs to the end of the text when no non-empty end marker is given or none follows. |
| `PdfUtils.HeaderRowIsFirst` | pms/utils/pdf_utils.py:250-255 | A table's header row is the first of its first three rows whose non-empty cells, joined by spaces, match the pattern. |
| `PdfUtils.ExtractTableAfterHeaderNone` | pms/utils/pdf_utils.py:245-257 | Nothing is found exactly when no table has a matching row among its first three rows. |
| `PdfUtils.ExtractTableAfterHeaderFirst` | pms/utils/pdf_utils.py:245-256 | What is found is the first matching row (by table, then by row) and the rows after it in its own table. |
| `PdfUtils.HeaderBeyondThirdRowIgnored` | pms/utils/pdf_utils.py:250 | A matching row beyond the third row of a table is never found. |
| `BaseParser.TypeProblemsEmpty` | pms/parsers/base_parser.py:117-120 | No type problem is recorded exactly when every field is absent, `None` or a number (booleans included). |
| `BaseParser.HoldingProblemsEmpty` | pms/parsers/base_parser.py:107-125 | A holding records no problem exactly when it is valid: a truthy name, numeric or missing fields, and a numeric percentage in [0, 100]. |
| `BaseParser.FirstTypeError` | pms/parsers/base_parser.py:123-124 | The first holding whose percentage comparison raises is found, and no earlier holding raises. |
| `BaseParser.ProblemsFromEmpty` | pms/parsers/base_parser.py:106-127 | No problem is collected exactly when every holding is valid. |
| `BaseParser.ValidateAccepts` | pms/parsers/base_parser.py:90-130 | Validation never answers False. It succeeds exactly for a non-empty list of valid holdings. |
| `BaseParser.CheckTypes` | pms/parsers/base_parser.py:117-120 | The field loop records exactly the type problems, in field order. |
| `BaseParser.CheckHolding` | pms/parsers/base_parser.py:108-125 | The per-holding checks raise exactly when the percentage is a string or another value that does not compare with numbers. Otherwise they record the holding's problems. |
| `BaseParser.ComparableOtherPercentage` | pms/parsers/base_parser.py:117-125 | A percentage that compares with numbers without being an `int` or `float` (a `Decimal`, say) does not raise. It is recorded as not numeric, and as out of range exactly when it is, so the holding is invalid. |
| `BaseParser.ValidateHoldings` | pms/parsers/base_parser.py:103-130 | The loop raises "no holdings" on an empty list, raises at the first uncomparable percentage, reports all collected problems, or returns True. |
| `BaseParser.Parse` | pms/parsers/base_parser.py:148-167 | A missing report date fails first. Parsing succeeds exactly when there is a date and a non-empty list of valid holdings, and then returns those holdings with their count, the total market value and the total gain or loss. |
| `BaseParser.TotalSplit` | pms/parsers/base_parser.py:156-157 | The summary totals add up over any split of the holdings. |
| `BaseParser.TotalSkipsMissing` | pms/parsers/base_parser.py:156-157 | A holding without the field (or with `None`) adds nothing to the total. |
| `Sameeksha.AssetTypeHeaderExact` | pms/parsers/sameeksha_parser.py:34-63 | A header is recognised exactly when the lower-cased, stripped row equals one of the six listed headers. The answer is that header in title case. |
| `Sameeksha.NumberTokens` | pms/parsers/sameeksha_parser.py:90-101 | Every token found starts with a digit and has the number shape. The first starts at the first digit of the row. No token is found exactly when the row has no digit. |
| `Sameeksha.ScrubNumber` | pms/parsers/sameeksha_parser.py:114 | A cleaned number token holds only digits and dots, and keeps its first digit. |
| `Sameeksha.TokenValue` | pms/parsers/sameeksha_parser.py:113-116 | A token's cleaned value is `float` of its digits and dots. |
| `Sameeksha.ParsedNumbersNonNegative` | pms/parsers/sameeksha_parser.py:90-116 | Row numbers carry no sign, so none is negative when `float` is never negative on digits and dots. |
| `Sameeksha.JoinLines` | pms/parsers/sameeksha_parser.py:81 | No line break is left, and every other character stays where it was. |
| `Sameeksha.JoinLinesKeepsWords` | pms/parsers/sameeksha_parser.py:81 | Replacing the line breaks changes none of the row's words, and a second replacement changes nothing. |
| `Sameeksha.BuildHolding` | pms/parsers/sameeksha_parser.py:125-143 | The gain percentage is set exactly when the cost is positive and the current price is non-zero. It is then the price change relative to cost, times 100. The gain amount is set exactly when, in addition, the quantity is non-zero. It is then the price change times the quantity. |
| `Sameeksha.HoldingFromNumbers` | pms/parsers/sameeksha_parser.py:118-123 | A holding is built exactly when there are at least six numbers and the last is at most 100. It is then the holding built from those numbers. |
| `Sameeksha.HoldingFromNumbersFields` | pms/parsers/sameeksha_parser.py:125-134 | The holding's quantity, cost, price, market value and share are numbers 0, 1, 2, 4 and 5. |
| `Sameeksha.ParseHoldingRow` | pms/parsers/sameeksha_parser.py:70-145 | An accepted row carries the given asset type and a non-empty, collapsed name. |
| `Sameeksha.ParseLineAccepted` | pms/parsers/sameeksha_parser.py:95-123 | An accepted row has at least six tokens and a name part of at least two characters. It is the holding built from its numbers under the normalised name. |
| `Sameeksha.ParseHoldingRowFields` | pms/parsers/sameeksha_parser.py:118-134 | An accepted row has at least six numbers, the last at most 100. It maps numbers 0, 1, 2, 4 and 5 to the fields and skips number 3, the total cost. |
| `Sameeksha.ParseHoldingRowName` | pms/parsers/sameeksha_parser.py:100-126 | The name is the normalised text before the first number. That text holds no digit and is at least two characters once stripped. |
| `Sameeksha.ParseLineAcceptsWellFormed` | pms/parsers/sameeksha_parser.py:84-145 | The converse of `ParseLineAccepted`. Take a line that is no header, has at least six number tokens, and has a name part of at least two characters. If its numbers form a holding, the line yields the holding built from them under the normalised name. |
| `Sameeksha.ParseHoldingRowAcceptsWellFormed` | pms/parsers/sameeksha_parser.py:70-145 | The same for a non-empty row, read after its line breaks are replaced and it is stripped. |
| `SameekshaRows.NumberEndAlike` | pms/parsers/sameeksha_parser.py:90 | Where the number pattern's match ends at a digit depends only on the characters up to the next character no number holds. |
| `SameekshaRows.TokensOfSpacedFrom` | pms/parsers/sameeksha_parser.py:90-93 | On a stretch of numbers, each after one non-digit and each read whole by the pattern, `findall` finds exactly those numbers, in order, each right after its space. |
| `SameekshaRows.SpacedRowTokens` | pms/parsers/sameeksha_parser.py:90-93 | A row made of a plain name and then such numbers yields exactly those numbers as its tokens. |
| `SameekshaRows.ParsedNumbersAll` | pms/parsers/sameeksha_parser.py:112-116 | When every token reads as the value at the same place, the parsed numbers are exactly those values, in order. |
| `SameekshaRows.SpacedRowNumbers` | pms/parsers/sameeksha_parser.py:90-116 | The numbers of such a row are the values each printed number reads as once its commas are dropped. |
| `SameekshaRows.SpacedRowName` | pms/parsers/sameeksha_parser.py:100-105 | The name part of such a row is the name it starts with. |
| `SameekshaRows.SpacedRowNotHeader` | pms/parsers/sameeksha_parser.py:57-68 | Such a row with six or more numbers and no letter q in its name is neither a column-header row nor an asset-type header. |
| `SameekshaRows.SpacedRowParses` | pms/parsers/sameeksha_parser.py:70-145 | Such a row that is no header, whose six or more numbers read and whose last value is at most 100, parses to the holding built from those values under the normalised name. |
| `SameekshaExample.CoromandelRowParses` | pms/parsers/sameeksha_parser.py:70-145 | The documented example row "Coromandel International Ltd 40.00 2,245.79 2,382.10 89,831.57 95,284.00 0.19" parses to the holding built from the six values 40, 2245.79, 2382.10, 89831.57, 95284 and 0.19. Its name is "Coromandel International", because " Ltd" matches the suffix " LTD". This holds whenever `float` reads the six comma-free numbers as those values. |
| `Sameeksha.ParseHoldingRowRejects` | pms/parsers/sameeksha_parser.py:84-119 | Column-header rows, asset-type rows, and rows with fewer than six tokens or numbers never yield a holding. |
| `Sameeksha.PercentageCheckIsOnLastNumber` | pms/parsers/sameeksha_parser.py:122-133 | Only the last number is range-checked. With more than six numbers the sixth, which is the portfolio share, can be anything and is kept as it is. |
| `Sameeksha.HoldingRecord` | pms/parsers/sameeksha_parser.py:125-143 | The holding dictionary maps `stock_name` and `sector` to strings, and `quantity`, `cost_price`, `current_price`, `market_value` and `portfolio_percentage` to the holding's numbers. `gain_loss_percentage` and `gain_loss` read as their numbers when set and as `None` when unset. |
| `Sameeksha.HoldingRecordValid` | pms/parsers/sameeksha_parser.py:125-143 | A parsed holding passes validation exactly when its name is non-empty and its share is in [0, 100]. |
| `Sameeksha.SixNumbersValidate` | pms/parsers/sameeksha_parser.py:118-134 | An accepted row with exactly six numbers yields a holding that passes validation, provided `float` never reads digits and dots as negative. |
| `Sameeksha.FirstCellText` | pms/parsers/sameeksha_parser.py:165-173 | The row text is empty exactly when every cell is `None` or blank once stripped. |
| `Sameeksha.FirstCellTextIsFirstMatch` | pms/parsers/sameeksha_parser.py:165-170 | The row text agrees with a reference definition: the stripped cell at the position the generic first-match search finds for a non-blank cell, or empty when there is none. |
| `Sameeksha.FirstCellTextIsFirst` | pms/parsers/sameeksha_parser.py:165-170 | A non-empty row text is some non-blank cell, stripped, with only blank cells before it. Conversely, any non-blank cell with only blank cells before it gives the row text. |
| `Sameeksha.RowTextsConcat` | pms/parsers/sameeksha_parser.py:157-173 | The tables are visited one after the other: the texts of two runs of tables are those of the first run followed by those of the second. |
| `Sameeksha.RowTextsOfTable` | pms/parsers/sameeksha_parser.py:161-173 | One table gives one text per row, in row order: each row's first non-blank cell, stripped. |
| `Sameeksha.ExtractInSection` | pms/parsers/sameeksha_parser.py:176-183 | The loop is inside the holdings section exactly when an earlier row opened it. |
| `Sameeksha.ExtractAssetType` | pms/parsers/sameeksha_parser.py:154-190 | The asset type in force is the last header seen inside the section, or "Shares" before any. |
| `Sameeksha.NothingBeforeSection` | pms/parsers/sameeksha_parser.py:181-183 | Nothing is collected, and the asset type stays "Shares", until a row opens the section. |
| `Sameeksha.HoldingsGrow` | pms/parsers/sameeksha_parser.py:198-200 | Holdings are only ever appended: each earlier list is a prefix of every later one. |
| `Sameeksha.ExtractStepEmits` | pms/parsers/sameeksha_parser.py:175-200 | A row adds at most one holding. When it adds one, the row is a data row inside the section that parses to that holding. Conversely, a row that emits a holding has it appended, and a row that emits none changes no holding. |
| `Sameeksha.ExtractCollectsEmitted` | pms/parsers/sameeksha_parser.py:147-203 | The holdings collected are exactly those the data rows inside the section parse to, under the header in force, in row order. |
| `Sameeksha.ExtractOrigins` | pms/parsers/sameeksha_parser.py:147-203 | Every collected holding was emitted by some earlier data row inside the section. |
| `Sameeksha.EmittedSector` | pms/parsers/sameeksha_parser.py:186-197 | With the real row parser, an emitted holding's sector is the asset-type header in force at its row. |

## Left out

- The XIRR rate search (`brentq`, then Newton's method) is a parameter
  `rateOf`. Only its guard for fewer than two cashflows is modelled, because
  it is floating-point root finding in a library.
- Floating point: all arithmetic is on `real`. NaN appears only as a missing
  reading, rounding is absent, and `float('inf')` is not modelled.
- pandas: the input frames are sequences of rows, and `data.copy()` and
  `reset_index` are the identity on them. The SIP simulation's weekly frame
  is modelled as the ledger `Sip.SipLedger`. The bullet simulation's two
  frames are not modelled (next line).
- Sip.SimulateWith: the rows must carry positive prices (`ValidPrices`). The
  source divides by the price unguarded, which numpy turns into an infinity or
  NaN that a `real` cannot hold.
- Sip.SimulateSip: the multipliers come from the corrected dispatch of the
  strategy.py:523-525 finding. A combined strategy without tiers invests at
  1.0, where the source raises a TypeError; `compare_strategies` inherits
  this. The as-written dispatch is `RowMultiplierAsWritten`.
- Bullet.SimulateBullet: the holdings are valued at the last price the loop
  accepted, the corrected form of the strategy.py:1018-1019 finding. The
  source uses the price of `data.iloc[-1]` even when the loop skipped that
  row; `CurrentValueAsWritten` models that.
- Bullet.SimulateBullet: the per-week records (`weekly_data`,
  strategy.py:986-997) and the per-deployment records (`deployment_history`,
  strategy.py:972-980) are not modelled. Only their consequences are: the
  number of deployments (`num_deployments`, strategy.py:1049) and the totals
  and final state (strategy.py:1037-1052).
- Bullet.SimulateBullet: the date sort is a stable insertion sort. pandas'
  `sort_values` is not guaranteed stable, so rows with equal dates may be
  visited in another order.
- The preset dictionaries (`PRESET_STRATEGIES`, the AI strategy tables,
  `BULLET_PRESETS` and the others) are not copied. Only the Opportunistic
  preset appears, as a hypothesis of two lemmas.
- `create_custom_strategy`, the `__repr__` methods and the colours and
  descriptions of configurations are display code.
- The PB bullet configuration is the same shape as the PE one, so one
  `SingleBullet` form models both.
- TierModel.Recommend: a PB strategy compares the PE value passed with its
  PB thresholds, as the source does.
- DataFetcher: the HTTP calls, the memory and disk caches' contents, TTLs,
  the cache directory and the `print` in the retry loop are I/O. Only the
  cache file name and the delay schedule are modelled. The sleeps are
  returned as a list.
- `calculate_pe_zones` and the rest of the current-valuation query are out of
  scope. Its percentile bounds are an input record.
- Text: `lower`, `upper` and `title` map ASCII letters only. Python maps
  all of Unicode.
- Sameeksha.NumberTokens: the regex's `\d` is restricted to ASCII digits.
  Python's `\d` also matches other Unicode decimal digits.
- `float()` on a string is the parameter `parseFloat`. Its grammar
  (exponents, "inf", "nan", underscores) is not modelled.
- PdfUtils.ExtractTableAfterHeader: the compiled case-insensitive pattern
  is a predicate parameter. A cell is `None` or a string, and `str(cell)` of
  other cell types is not modelled.
- PdfUtils.CleanNumeric: a non-string argument is `None`. Its type is not
  modelled further.
- `find_date_in_text`, `extract_report_date` and the PDF text and table
  extraction (pdfplumber) are outside the model. The report date and the
  tables are inputs.
- BaseParser: the error messages are `Problem` values, not formatted
  strings. Python values other than strings, numbers, booleans and `None`
  are `OtherValue`, with their truthiness and, for values that compare
  with numbers, the number they compare as. A NaN percentage is not
  modelled.
- `Sameeksha.ExtractAfter` takes the row parser as a parameter and reads
  pre-classified rows. `ExtractHoldings` supplies `_parse_holding_row` and
  the classification, so the loop lemmas hold for any parser.
- The logging calls are side effects only.

## Findings

| source | as written | input that shows it | evidently intended | confidence | as-written member | corrected member |
|---|---|---|---|---|---|---|
| strategy.py:523-525 | A strategy without tiers is asked `strategy.get_multiplier(pe)`, which a `CombinedStrategy` cannot answer (its method takes two signals), so the simulation raises a TypeError | `CombinedStrategy(name, [])` on any row | the "no tiers, use default" branch gives the 1.0 baseline, as it does for the other two kinds | not executed | `Sip.EmptyCombinedStrategyRaises` | `Sip.RowMultiplierCorrectsOnlyTheRaise` |
| strategy.py:1018-1019 | The holdings are valued at `data.iloc[-1]`'s price even when the loop skipped that row for a NaN or non-positive price | a week deployed in full at price 100 and PE 10, then a final row at price -1 | value the units at the last price the loop accepted | not executed | `Bullet.BadLastPriceCounterexample` | `Bullet.BulletValuation` |
