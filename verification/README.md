# Verified model of the trading policy contracts

A Dafny 4.11 model of eight policy components of the backtesting engine, with proofs about them:

- **Timestamps** (`calendar.dfy`, `timestamps.dfy`): the Gregorian calendar at microsecond resolution, aware
  timestamps with any offset, `isoformat` and its inverse, and the UTC normalisation. The packet checks compare the
  normalised *texts*. `isoformat` drops a zero fraction, so those texts come in two lengths. Section 5.1 of RFC 3339
  promises that string order is time order only for equally many fraction digits; the proof shows that the order
  still holds here, because the `+` of the offset sorts before the `.` of a fraction.
- **Sessions** (`packets.dfy`, `sessions.dfy`): session-readiness packets and the tradeability gate, whose window is
  such a text comparison.
- **Candidate bundles** (`values.dfy`, `candidate_fields.dfy`, `candidate_packets.dfy`): payload dictionaries, JSON
  conversion, the recursive overlay `deep_merge`, freezing a bundle into a registration and loading against it.
- **Ledger** (`ledger.dfy`, `ledger_close.dfy`, `ledger_verdict.dfy`): the append-only integrity scan, the passes
  over the event log, and the close verdict, also in an incremental form.
- **Risk** (`waivers.dfy`, `risk.dfy`, `risk_cases.dfy`, `risk_monotone.dfy`): nine baseline controls, waivers and
  their expiry, and the arbitration between actions.
- **Order intents** (`order_intents.dfy`), **viability** (`viability.dfy`), **account fit** (`account_fit.dfy`,
  `symbol_selection.dfy`) and **session boundaries** (`boundaries.dfy`).

`outcome.dfy`, `text.dfy` and `lists.dfy` hold what these share: exceptions as values, Python's string order, `sorted`,
decimal digits and list comprehensions. Frozen dataclasses are datatypes. Code that loops over accumulators or appends
to lists is a method with a loop or the same `if` statements, proved equal to a function on values; the properties are
then lemmas about that function. For each operation some of them are stated on the fields of the input alone, without
the function's own helpers, so that what it means does not rest on reading its body.

`dafny verify dfyconfig.toml` checks everything.

## Where the code does not do what one might expect

- The session validator catches `ValueError` but a timestamp whose UTC form falls outside years 1 to 9999 raises
  `OverflowError`, which escapes: `Sessions.PacketEscapesIff` and `Sessions.OnlyOverflowEscapes` say exactly when,
  `PacketCanEscape` gives an instance.
- The risk evaluation raises `KeyError` on requests that pass every field check but whose account has no position
  limit for the product's symbol; on the shipped catalogue those are exactly the valid requests for the micro
  contract: `Risk.MicroContractRaises`. It raises what parsing raises when a control triggers and the expiry of a
  listed waiver, or the evaluation time, cannot be read, even if that waiver does not concern the control:
  `Risk.UnreadableWaiverRaises`. `Risk.RaisesIff` is the exact condition for both.
- Serialising a registration and reading it back can change the verdict of a load, but only if its payload was built
  by hand with tuples in it: `CandidatePackets.ReadBackVerdict`, with `TuplePayloadLoadsOnlyReadBack` as an instance.
- A bundle whose risk-envelope id is the empty text does not reload from its own frozen payload, because reading
  turns the empty text into an absent value: `CandidatePackets.FrozenPayloadReloads` is the exact condition,
  `EmptyEnvelopeDoesNotReload` an instance. Bundles read from a dictionary never have such an id and always come back
  unchanged: `ReadBundleReloads`.
- Holding a larger position can *lower* the risk severity, because it ends the warm-up hold:
  `RiskMonotonicity.HoldingMoreRelaxesOnlyWarmup` says exactly when, `HoldingMoreCanRelax` gives an instance.
- The status table beside a symbol decision depends on the order of the reports when a symbol occurs with different
  statuses, although the decision itself never does: `SymbolSelection.TableIgnoresOrderIff`, with an instance.
- An order-intent id is ambiguous as soon as leg, side or purpose contains a colon, and also when the deployment id
  contains something that reads as a sequence number: `OrderIntents.OwnsIdIff` is the exact condition,
  `PlainCanCollide` an instance. Among identities without such colons ids are injective: `OrderIntents.IdInjective`.
- The cross product decides lower-touch dominance only when the alternative does not lose money or saves no time:
  `Viability.ProductDecidesIff`.

## Model

| member | source | states |
|---|---|---|
| `Calendar.OrdinalOrder` | shared/policy/clock_discipline.py:130-135 | day numbers order dates by year, month and day, across month, leap-day and year ends, and two dates share one only if equal |
| `Calendar.MonthLengths` | shared/policy/clock_discipline.py:130-135 | the lengths of the months, February with a day more in years divisible by 4, in centuries only by 400 |
| `Calendar.FromMicros` | shared/policy/clock_discipline.py:130-135 | every microsecond of years 1 to 9999 is a valid date-time that counts back to it |
| `Calendar.MicrosOrder` | shared/policy/clock_discipline.py:130-135 | the microsecond count orders date-times exactly as their fields, most significant first |
| `Timestamps.Canonicalize` | shared/policy/clock_discipline.py:130-135 | the local time less its offset, at offset zero; it refuses naive stamps and overflows exactly when that difference leaves years 1 to 9999 |
| `Timestamps.CanonicalizeIs` | shared/policy/clock_discipline.py:130-135 | a stamp converts to a UTC date-time exactly when the written local time is ahead of it by the offset |
| `Timestamps.NormalizePrinted` | shared/policy/deployment_packets.py:928-929 | normalising the printed form of any stamp prints its conversion, or raises what converting raises |
| `Timestamps.CanonicalizeKeepsUtc` | shared/policy/clock_discipline.py:130-135 | a timestamp already in UTC converts to itself |
| `Timestamps.IsoRoundTrip` | shared/policy/deployment_packets.py:928-929 | reading the printed form of any naive or aware timestamp, any offset to the microsecond, gives it back |
| `Timestamps.IsoLayout` | shared/policy/deployment_packets.py:928-929 | where year, month, day, hour, minute, second, fraction and zone stand in the printed text, and what separates them |
| `Timestamps.ZoneLayout` | shared/policy/deployment_packets.py:928-929 | the zone is a sign, hours and minutes east of UTC, with seconds only where they are not zero |
| `Timestamps.ZuluIsUtc` | shared/policy/deployment_packets.py:133-141 | a printed time followed by Z reads as that time at offset zero |
| `Timestamps.NormalizeLocalRead` | shared/policy/policy_engine.py:32-37 | a time without an offset is local time: the written or else the local offset is subtracted, overflowing exactly outside years 1 to 9999 |
| `Timestamps.CanonicalTextOrder` | shared/policy/deployment_packets.py:928-929 | canonical texts, with and without a fraction, sort as strings exactly as their moments sort in time |
| `Timestamps.NormalizedOrderIsTimeOrder` | shared/policy/deployment_packets.py:928-929 | for any two texts that normalise, string order of the results is time order, and equal results mean equal moments |
| `Timestamps.CanonicalizedOrderIsTimeOrder` | shared/policy/clock_discipline.py:130-135 | the same for timestamp values with arbitrary offsets |
| `Timestamps.NormalizeIdempotent` | shared/policy/deployment_packets.py:133-141 | a normalised text denotes the same moment and normalises to itself |
| `Sessions.WindowCheckIsChronological` | shared/policy/deployment_packets.py:2434-2449 | the gate's string window check succeeds exactly when the moments satisfy start <= now < end |
| `Sessions.ValidPacketWindow` | shared/policy/deployment_packets.py:2247-2274 | a packet that validates has a window whose start is strictly earlier in time than its end |
| `Sessions.PacketValidIff` | shared/policy/deployment_packets.py:2191-2326 | a packet is valid exactly when it is complete, supported, starts before it ends in time, and is green only with clear discrepancies and no blocked check |
| `Sessions.PacketValidWrittenOut` | shared/policy/deployment_packets.py:2191-2326 | validity on the packet's own fields: the version, each of the seventeen texts filled, the moments of the window in order, and green only with nothing against it |
| `Sessions.IncompletePacketNamesFields` | shared/policy/deployment_packets.py:2191-2246 | a supported packet with an empty text is invalid, and the names listed are exactly those of the empty texts |
| `Sessions.CompletePacketReasons` | shared/policy/deployment_packets.py:2247-2326 | which reason a complete packet is refused for: an unreadable window, an inverted one, green with discrepancies, green with blocked checks |
| `Sessions.ValidateSessionReadinessPacket` | shared/policy/deployment_packets.py:2191-2326 | the early returns with their string comparison answer the first of nine requirements that the packet does not meet, its window read as moments |
| `Sessions.PacketEscapesIff` | shared/policy/deployment_packets.py:2247-2260 | an exception escapes the validator exactly for a complete packet one of whose window times, taken in order, falls outside years 1 to 9999 in UTC, and it is an overflow |
| `Sessions.PacketCanEscape` | shared/policy/deployment_packets.py:2247-2260 | a concrete complete packet, starting in the first hour of year 1 written one hour east of UTC, from which it escapes |
| `Sessions.ValidateSessionTradeability` | shared/policy/deployment_packets.py:2329-2512 | the early-return gate with its string comparison answers the first requirement not met, the window read as moments |
| `Sessions.PassesIffTradeable` | shared/policy/deployment_packets.py:2329-2512 | entries are allowed exactly for a valid, matching, green packet that covers the moment, with nothing stale or failed |
| `Sessions.EntriesAllowedWrittenOut` | shared/policy/deployment_packets.py:2329-2512 | new entries on the request's own fields: a valid green packet, eight entries filled, three bindings equal, start <= now < end as moments, nothing stale or failed |
| `Sessions.IncompleteRequestNamesFields` | shared/policy/deployment_packets.py:2354-2390 | a supported request with an empty entry names exactly the empty ones |
| `Sessions.CompleteRequestReasons` | shared/policy/deployment_packets.py:2390-2512 | which reason a complete request is refused for, in precedence order |
| `Sessions.MismatchedBindings` | shared/policy/deployment_packets.py:2411-2432 | each binding is named exactly when it differs from the packet's |
| `Sessions.ReportedChecks` | shared/policy/deployment_packets.py:2411-2512 | mismatched bindings, the packet's status, and stale or failed check ids are listed with the refusal |
| `Sessions.InvalidPacketDecides` | shared/policy/deployment_packets.py:2329-2352 | a packet that does not pass hands on its status and missing fields |
| `Packets.FirstUnmetAnswers` | shared/policy/deployment_packets.py:2329-2512 | of requirements listed in precedence order, the first that does not hold gives the answer; both validators are proved against such lists |
| `Sessions.OnlyOverflowEscapes` | shared/policy/deployment_packets.py:2329-2405 | an exception escapes the gate exactly when it reaches a time outside years 1 to 9999: in the window of a complete packet, or, with a valid packet and a request in order, the evaluation time |
| `Sessions.ChainCoversExactlyOnce` | shared/policy/deployment_packets.py:2395-2434 | in a chain of packets that meet at the same instants, a moment is in exactly one window if it lies between first start and last end, else in none |
| `Values.JsonableIdempotent` | shared/policy/deployment_packets.py:91-98 | converting a value to JSON form twice is converting it once |
| `Values.SameAsJsonIff` | shared/policy/deployment_packets.py:91-98 | a value equals a JSON value, in Python's sense, exactly when its JSON form does and it holds no tuple at any depth |
| `Values.DeepMerge` | scripts/candidate_bundle_smoke.py:32-39 | the copy-and-update loop with recursion terminates and computes the merge, in whatever order keys are visited |
| `Values.MergeAt` | scripts/candidate_bundle_smoke.py:32-39 | for every path: where the override has a value it wins or merges, below a non-dictionary override nothing survives, elsewhere the base stays |
| `Values.MergedDictionaries` | scripts/candidate_bundle_smoke.py:32-39 | at every path of two merged dictionaries: what the override has wins unless both have dictionaries, which leave one with both sets of keys; nothing survives below a place where it stops; all else keeps the base |
| `Values.MergeEmpty` | scripts/candidate_bundle_smoke.py:32-39 | merging with an empty override changes nothing |
| `Values.MergeSelf` | scripts/candidate_bundle_smoke.py:32-39 | merging a value with itself changes nothing |
| `Values.MergeTwice` | scripts/candidate_bundle_smoke.py:32-39 | applying the same override twice is applying it once |
| `CandidateFields.BundleRoundTrip` | shared/policy/deployment_packets.py:193-275 | reading a bundle's JSON payload gives every field back, except that an empty risk-envelope id becomes absent |
| `CandidateFields.PayloadInjective` | shared/policy/deployment_packets.py:193-194 | two bundles have the same payload exactly when all their fields agree |
| `CandidateFields.IdentityInPayload` | shared/policy/deployment_packets.py:193-194 | bundle id, hash, strategy ids, kernel digest and version are stored each under its own name |
| `CandidateFields.StrategyInPayload` | shared/policy/deployment_packets.py:193-194 | the same for state version, adapter hashes, parameterization, product and symbols |
| `CandidateFields.ReleasesInPayload` | shared/policy/deployment_packets.py:193-194 | the same for the releases, the context and the dependency hash |
| `CandidateFields.EnvelopeInPayload` | shared/policy/deployment_packets.py:193-194 | the same for feature hashes, envelopes, risk bounds, eligible accounts and capital |
| `CandidateFields.RequirementsInPayload` | shared/policy/deployment_packets.py:193-194 | the same for margin fraction, capabilities, portability, evidence, matrix version and signatures |
| `CandidateFields.BindingsInPayload` | shared/policy/deployment_packets.py:193-194 | the same for the live bindings and the version |
| `CandidateFields.FreezesOnlyItsBundle` | shared/policy/deployment_packets.py:965-1003 | even under Python's coarser equality, a frozen payload equals only what its own bundle freezes to |
| `CandidateFields.RegistrationRoundTrip` | shared/policy/deployment_packets.py:305-347 | for every registration, serialising and reading back changes at most the spelling of its creation time and brings its payload into JSON form; it fails exactly when that time does not normalise |
| `CandidateFields.ClockStampedRegistrationRoundTrips` | shared/policy/deployment_packets.py:305-347 | a registration stamped by the UTC clock comes back unchanged |
| `CandidatePackets.CandidateValidIff` | shared/policy/deployment_packets.py:1134-1284 | a candidate passes exactly when complete, content-addressed (the hash occurs in its id), free of live bindings and within bounds |
| `CandidatePackets.ValidCandidateWrittenOut` | shared/policy/deployment_packets.py:1134-1284 | validity on the bundle's own fields: the version, each of the twenty-six texts and lists filled, the hash within the id, no live binding, positive capital and a fraction strictly between 0 and 1 |
| `CandidatePackets.RefusalReasons` | shared/policy/deployment_packets.py:1134-1284 | which reason a candidate is refused for, in precedence order, and which refusals are violations |
| `CandidatePackets.MismatchesNameDifferences` | shared/policy/deployment_packets.py:965-1003 | the names listed are exactly the fields the two records share by name, plus id and payload, whose values differ |
| `CandidatePackets.CandidateFreezeMismatches` | shared/policy/deployment_packets.py:965-1003 | the fifteen comparisons append, in order, exactly the fields that differ |
| `CandidatePackets.ValidateCandidateBundleLoad` | shared/policy/deployment_packets.py:1356-1403 | a load passes exactly for a valid bundle and a complete registration that mirrors it |
| `CandidatePackets.RefusedLoadNamesTheCause` | shared/policy/deployment_packets.py:1287-1403 | a valid bundle is refused with exactly the empty registration entries, or, when there are none, exactly the fields that differ |
| `CandidatePackets.BuiltNote` | shared/policy/deployment_packets.py:403-431 | log id, artifact id, correlation id and reasons each go to their own field of the registration |
| `CandidatePackets.MissingEntriesWrittenOut` | shared/policy/deployment_packets.py:1287-1320 | each of five entries is named as missing exactly when it is empty |
| `CandidatePackets.LoadAcceptsExactlyTheFrozenBundle` | shared/policy/deployment_packets.py:403-431 | loading against the registration of a frozen bundle passes exactly for a valid bundle equal to it in every field |
| `CandidatePackets.FrozenPayloadReloads` | shared/policy/deployment_packets.py:1287-1403 | a bundle read back from its own frozen payload loads exactly when it is valid, the note is filled and its risk-envelope id is not empty |
| `CandidatePackets.ReadBundleReloads` | shared/policy/deployment_packets.py:196-275 | a bundle that was read from a dictionary comes back unchanged from its frozen payload, so it reloads whenever it is valid and the note filled |
| `CandidatePackets.EmptyEnvelopeDoesNotReload` | shared/policy/deployment_packets.py:1287-1403 | a concrete valid bundle, constructed with an empty risk-envelope id, that loads as it is but not from its own frozen payload |
| `CandidatePackets.ReloadedRegistrationAcceptsExactlyTheFrozenBundle` | shared/policy/deployment_packets.py:305-347 | freeze, serialise, read back, load: still exactly the frozen bundle is accepted |
| `CandidatePackets.ReadBackVerdict` | shared/policy/deployment_packets.py:305-347 | a bundle loads against a registration exactly when it loads after serialising and reading back and the payload holds no tuple: the verdict changes only for hand-built payloads with tuples |
| `CandidatePackets.TuplePayloadLoadsOnlyReadBack` | shared/policy/deployment_packets.py:305-347 | a concrete registration and bundle for which it does change |
| `Ledger.ValidateAppendOnlyLedger` | shared/policy/accounting_ledger.py:788-835 | the loop over last sequence and seen ids reports what the prefix-wise scan reports |
| `Ledger.ScanValidIffSound` | shared/policy/accounting_ledger.py:788-835 | valid exactly when all pairs of sequence ids strictly increase, all event ids differ and every event is in scope |
| `Ledger.ScanNamesFirstFault` | shared/policy/accounting_ledger.py:788-835 | an invalid report names the first event whose prefix stops being sound, with order, duplicate, account, symbol precedence |
| `Ledger.FaultsInPrecedence` | shared/policy/accounting_ledger.py:788-835 | on the events themselves: a sequence id that does not increase, else an id seen before, else another account, else another symbol, reported with the event's sequence id |
| `Ledger.FirstFaultSticks` | shared/policy/accounting_ledger.py:788-835 | whatever is appended to an invalid log, the report stays the same |
| `Ledger.SoundAppend` | shared/policy/accounting_ledger.py:788-835 | two logs laid end to end are sound exactly when both are, the sequence goes on above and no event id recurs |
| `LedgerClose.AggregateTotals` | shared/policy/accounting_ledger.py:838-861 | the five accumulators hold the sums over the allowed classes |
| `LedgerClose.AggregateAppend` | shared/policy/accounting_ledger.py:838-861 | totals of two logs laid end to end add up |
| `LedgerClose.WhatTotalsCount` | shared/policy/accounting_ledger.py:200-213 | one more event moves each booked metric by its own delta exactly for fills, fees, commissions and cash movements; reconciled metrics also for adjustments and restatements |
| `LedgerClose.UncountedEventsDoNotMatter` | shared/policy/accounting_ledger.py:838-861 | deleting events of classes a total does not count leaves it unchanged |
| `LedgerClose.LatestBrokerSnapshot` | shared/policy/accounting_ledger.py:864-890 | the last-writer-wins loop computes the fold the next row characterises |
| `LedgerClose.LatestIsFromLast` | shared/policy/accounting_ledger.py:864-890 | position and margins come, separately, from the last event of their class, and are absent exactly when there is none |
| `LedgerClose.StampIsFromLast` | shared/policy/accounting_ledger.py:864-890 | the snapshot's time is that of the last position or margin event, and absent exactly without one |
| `LedgerClose.UnresolvedDiscrepancyIds` | shared/policy/accounting_ledger.py:893-903 | the list-and-set loop computes the open ids |
| `LedgerClose.UnresolvedListsEachOpening` | shared/policy/accounting_ledger.py:893-903 | an id is listed once per opening unless a reconciling event anywhere in the log carries it |
| `LedgerClose.UnresolvedInOpeningOrder` | shared/policy/accounting_ledger.py:893-903 | the listed ids are those of the openings at strictly increasing positions, which are exactly the openings that no reconciling event anywhere in the log resolves |
| `LedgerClose.ResolutionIsPermanent` | shared/policy/accounting_ledger.py:893-903 | a reconciling event removes exactly its own id, keeping the order, and no continuation lists it again |
| `LedgerClose.UnresolvedComposes` | shared/policy/accounting_ledger.py:893-903 | across two logs laid end to end, open ids are filtered by both sets of resolutions |
| `LedgerVerdict.DeltasComeFromReconcilingEvents` | shared/policy/accounting_ledger.py:906-971 | each booked-versus-reconciled delta is the metric's sum over adjustments and restatements alone |
| `LedgerVerdict.OnlyPositionFacesTheBroker` | shared/policy/accounting_ledger.py:906-971 | the position row compares with the last position event, if any, and what it gives; no other row has a broker delta |
| `LedgerVerdict.DifferenceRows` | shared/policy/accounting_ledger.py:931-986 | the seven rows by name, with the booked, reconciled and broker amounts they set side by side |
| `LedgerVerdict.SnapshotsAndDiscrepanciesDoNotCount` | shared/policy/accounting_ledger.py:200-213 | deleting broker snapshots and discrepancy events changes neither total |
| `LedgerVerdict.EvaluateAccountingLedgerClose` | shared/policy/accounting_ledger.py:1029-1074 | the close composed of the passes is the close defined from scan and evidence |
| `LedgerVerdict.CloseRecordsPasses` | shared/policy/accounting_ledger.py:1048-1074 | integrity, totals, snapshot, differences and open ids of the close are those of the passes, each in its place |
| `LedgerVerdict.CloseListsRestatements` | shared/policy/accounting_ledger.py:1068-1072 | the ids of exactly the restatement events, at strictly increasing positions |
| `LedgerVerdict.CloseTracesEveryEvent` | shared/policy/accounting_ledger.py:1062 | every event is traced by its id, in log order |
| `LedgerVerdict.CloseListsClasses` | shared/policy/accounting_ledger.py:1061 | a class is listed exactly when some event has it, in sorted order |
| `LedgerVerdict.EvidenceComposes` | shared/policy/accounting_ledger.py:1029-1074 | the evidence of two logs laid end to end is the merge of their evidences |
| `LedgerVerdict.CloseComposes` | shared/policy/accounting_ledger.py:1029-1074 | the close of two logs laid end to end comes from the merged evidence and from scanning the second log in the state the first leaves; it is valid exactly when both are and the second continues the first |
| `LedgerVerdict.RunningCloseIsBatchClose` | shared/policy/accounting_ledger.py:1029-1074 | after every append of every run, a ledger maintained event by event closes as the batch passes do |
| `LedgerVerdict.CloseReportsFirstUnmet` | shared/policy/accounting_ledger.py:989-1026 | a close passes exactly when the log is sound, both snapshots have ids, every opening is resolved and the broker position agrees; else it names the first that fails, an unsound log by its scan fault |
| `LedgerVerdict.AppendAfterPass` | shared/policy/accounting_ledger.py:989-1026 | after a pass, each sound next event has one outcome; a booked or reconciling event that moves a position the broker confirmed forces a re-reconciliation |
| `LedgerVerdict.BookingsAfterPass` | shared/policy/accounting_ledger.py:989-1026 | after a pass, any sound run of booked and reconciling events of any length passes again exactly when its position deltas cancel or the broker gave no position |
| `Waivers.ActiveUntilExpiry` | shared/policy/policy_engine.py:124-128 | a waiver whose times can be read is active up to and including the moment it expires, whatever zones the evaluation time and the expiry are written in |
| `Waivers.MatchingWaiverIds` | shared/policy/baseline_risk_controls.py:476-494 | the loop raises exactly when some listed waiver cannot be read; else it returns the sorted distinct ids of the matching waivers, empty exactly when none matches |
| `Risk.EvaluateBaselineRiskControls` | shared/policy/baseline_risk_controls.py:573-971 | the evaluation raises exactly without a limit for the symbol or when a control triggers and a listed waiver cannot be read, is invalid exactly for invalid fields, and reports a violation exactly when it is judged and some control fires unwaived |
| `Risk.RaisesIff` | shared/policy/baseline_risk_controls.py:441-542 | an exception escapes exactly for valid requests whose account has no limit for the product's symbol, or on which a control triggers while the expiry of a listed waiver, or the evaluation time, is not a timestamp in range |
| `Risk.WhatIsRaised` | shared/policy/baseline_risk_controls.py:476-542 | a missing limit raises a KeyError; otherwise what escapes is what the first listed unreadable waiver raises, whichever control asks |
| `Risk.UnreadableWaiverRaises` | shared/policy/policy_engine.py:124-128 | a concrete request, within the limits, whose waiver expires "soon" and which raises a ValueError |
| `Risk.MicroContractRaises` | shared/policy/product_profiles.py:190-325 | on the shipped catalogue, valid requests raise the KeyError exactly when they are for the micro contract |
| `Risk.MicroContractCanRaise` | shared/policy/baseline_risk_controls.py:441-470 | a concrete valid request for which that happens |
| `Risk.DominantIsFirstMostSevere` | shared/policy/baseline_risk_controls.py:896-900 | the dominant result is the earliest among the most severe unwaived ones |
| `Risk.ReportIsMostSevereEarliest` | shared/policy/baseline_risk_controls.py:879-946 | on every request that is judged, under the limits inherited from its own product, account and contract, action and reason are those of the earliest most severe control that fires unwaived; with none it passes, noting waivers exactly when something triggered |
| `RiskCases.ReportIsCalledFor` | shared/policy/baseline_risk_controls.py:620-946 | on request fields, the account's limits and the waivers alone: halt over margin, else flatten, else exit only, else restrict, each with its reason and only for what no waiver excuses; else a pass that says whether waivers were needed |
| `RiskCases.RefusedIff` | shared/policy/baseline_risk_controls.py:573-618 | a request is refused exactly for an unknown version, profile or posture, or a negative count or fraction |
| `RiskCases.RefusalNamesFields` | shared/policy/baseline_risk_controls.py:573-618 | a refused request is halted and told exactly the names of its invalid fields |
| `Risk.ReportListsTriggersAndWaivers` | shared/policy/baseline_risk_controls.py:866-878 | every judged request's report lists exactly the triggered controls, in evaluation order, and exactly the ids of waivers that match one of them |
| `RiskMonotonicity.WorseInputsNeverRelax` | shared/policy/baseline_risk_controls.py:620-865 | with product, account, contract, position held, posture, waivers and time fixed, worse inputs never lower the severity of a report; an exception stays, and a new one appears exactly when the first control to trigger meets an unreadable waiver |
| `RiskMonotonicity.LaterNeverRelaxes` | shared/policy/baseline_risk_controls.py:476-542 | judging the same request at a later moment never lowers the severity, and raises exactly when judging it earlier does |
| `RiskMonotonicity.MoreWaiversNeverTighten` | shared/policy/baseline_risk_controls.py:476-542 | extra waivers never raise the severity of a report; an exception stays, and a new one appears exactly when a control triggers and only added waivers are unreadable |
| `RiskMonotonicity.MirroredPositionsJudgedAlike` | shared/policy/baseline_risk_controls.py:620-623 | negating both positions leaves the whole outcome, report or exception, unchanged |
| `RiskMonotonicity.HoldingMoreRelaxesOnlyWarmup` | shared/policy/baseline_risk_controls.py:620-865 | between reports, holding more lowers the severity exactly when an unwaived warm-up hold was all that fired, something is now held, and that is within the position limit or waived; either request raises exactly when a control triggers and a waiver is unreadable |
| `RiskMonotonicity.HoldingMoreCanRelax` | shared/policy/baseline_risk_controls.py:752-765 | a concrete valid request on the shipped catalogue where that happens |
| `OrderIntents.IdInjective` | shared/policy/broker_semantics.py:286-299 | equal ids mean equal identities when leg, side and purpose are colon-free, for any deployment id and any integer |
| `OrderIntents.IdExample` | shared/policy/broker_semantics.py:286-299 | a concrete id, with its parts in order and a negative sequence number |
| `OrderIntents.OwnsIdIff` | shared/policy/broker_semantics.py:286-299 | an identity is the only one with its id exactly when leg, side and purpose are colon-free and its deployment id hides no sequence number between separators or at its end |
| `OrderIntents.ColonAllowsCollision` | shared/policy/broker_semantics.py:286-299 | a colon in leg, side or purpose always lets a different identity claim the same id |
| `OrderIntents.PlainCanCollide` | shared/policy/broker_semantics.py:286-299 | two concrete identities, one of them free of colons outside the deployment id, with one id |
| `OrderIntents.GuardedMutationsShareIdentity` | shared/policy/broker_semantics.py:783-922 | two mutations that pass the gate carry the same id exactly when they are the same intent |
| `OrderIntents.VerdictNamesFirstUnmet` | shared/policy/broker_semantics.py:783-922 | guarded exactly when all seven tests are met, the observed id spelled out part by part; otherwise the first that is not |
| `Viability.DominatesIff` | shared/policy/absolute_dollar_viability.py:829-871 | dominance in products instead of quotients |
| `Viability.DominatesWrittenOut` | shared/policy/absolute_dollar_viability.py:829-871 | dominance for whatever is known of the two sides, hours absent, zero or negative included |
| `Viability.ProductDecidesIff` | shared/policy/absolute_dollar_viability.py:829-871 | the cross product alone decides for every candidate exactly when the alternative loses no money or saves no time |
| `Viability.BetterNetNeverHarsher` | shared/policy/absolute_dollar_viability.py:874-1178 | raising the conservative net, all else fixed, never moves the decision from keep towards pivot or reject, for every request |
| `Viability.DecisionFollowsChecks` | shared/policy/absolute_dollar_viability.py:1091-1178 | keep exactly when assessable and all checks pass; reject exactly when not assessable or a benchmark check fails |
| `Viability.DecisionWrittenOut` | shared/policy/absolute_dollar_viability.py:874-1178 | keep, pivot and reject on the request's own numbers |
| `Viability.ReasonsWrittenOut` | shared/policy/absolute_dollar_viability.py:874-925 | what an unassessable request is told, in precedence order |
| `Viability.ReasonNamesTheOnlyFailure` | shared/policy/absolute_dollar_viability.py:1119-1178 | a single check is given as the reason exactly when the request is assessable and that check alone fails |
| `AccountFit.EvaluateAccountFit` | shared/policy/account_fit_gate.py:1018-1273 | the appended error lists, early returns and checks give the report the next rows are about |
| `AccountFit.ReportClassifies` | shared/policy/account_fit_gate.py:1018-1273 | for every request: invalid, stale, failed and passed reports are told apart exactly; failed checks are listed exactly, one alone is the reason, and the symbol is allowed exactly on a pass |
| `AccountFit.PassWrittenOut` | shared/policy/account_fit_gate.py:1018-1273 | a pass as equalities and inequalities on the request, its artifacts and the account's own fields |
| `AccountFit.FailsInUsdIff` | shared/policy/account_fit_gate.py:924-1015 | each check compares its own dollars, fees included, with its own fraction of the equity |
| `AccountFit.StaleWrittenOut` | shared/policy/account_fit_gate.py:1083-1138 | which artifact is reported as stale, by its own window |
| `AccountFit.FailuresGrowWithSize` | shared/policy/account_fit_gate.py:924-1015 | a check that fails at some size fails at every larger size |
| `AccountFit.CutOff` | shared/policy/account_fit_gate.py:1147-1214 | there is a size, approved or zero, up to which every positive size passes and above which none does |
| `SymbolSelection.SelectionIgnoresOrder` | shared/policy/account_fit_gate.py:1276-1385 | every permutation of the reports gives the same status, reason, allowed symbols and selection |
| `SymbolSelection.SelectsTheOnlyPass` | shared/policy/account_fit_gate.py:1276-1385 | a symbol is selected exactly when exactly one report passes, and it is that report's |
| `SymbolSelection.DecisionFollowsReports` | shared/policy/account_fit_gate.py:1276-1385 | passing, stale and failed decisions, the restriction to 1OZ and the sorted allowed symbols, each read off the reports |
| `SymbolSelection.TableIgnoresOrderIff` | shared/policy/account_fit_gate.py:1276-1385 | the table of statuses by symbol is the same for every order of the reports exactly when no symbol has two different statuses |
| `SymbolSelection.TableCanDependOnOrder` | shared/policy/account_fit_gate.py:1276-1385 | a concrete pair of orders of the same reports with equal decisions and different tables |
| `Boundaries.ValidateCompiledSessionBoundaries` | shared/policy/clock_discipline.py:268-311 | the loop and its set-size tests report each boundary's errors in order and a repetition exactly when two entries collide |
| `Boundaries.SetSizeTellsRepeats` | shared/policy/clock_discipline.py:304-309 | list and set sizes differ exactly when some element repeats |
| `Boundaries.TableValidIff` | shared/policy/clock_discipline.py:268-311 | a table validates exactly when every boundary is bound, in UTC, with positive and equal UTC and local durations, and neither case ids nor keys repeat |
| `Boundaries.CleanWrittenOut` | shared/policy/clock_discipline.py:289-302 | what an entry must be, on the four texts read one by one |
| `Boundaries.ErrorsByCause` | shared/policy/clock_discipline.py:275-302 | an entry raises exactly when a time carries no offset or cannot be read; else each error is reported exactly for its cause |
| `Boundaries.RepetitionsTold` | shared/policy/clock_discipline.py:304-309 | repeated case ids, and repeated venue, day and session, are each reported exactly when they occur |
| `Boundaries.ValidTablesResolve` | shared/policy/clock_discipline.py:138-182 | on a table that validates, any key finds nothing or the one member with that key, whose UTC and local durations are positive and equal; never ambiguity |
| `Boundaries.ResolveIff` | shared/policy/clock_discipline.py:138-182 | on any table, nothing is found exactly when no member matches, and ambiguity is reported exactly when several do |
| `Boundaries.ResolvedWrittenOut` | shared/policy/clock_discipline.py:138-182 | what is found is an entry for the venue, day and session asked for, and nothing is found exactly when there is none |
| `Boundaries.ResolutionIgnoresOrder` | shared/policy/clock_discipline.py:138-182 | every reordering of a valid table resolves every key alike |

## Left out

Assumptions:

- `Decimal` amounts are exact; Python's default context rounds beyond 28 significant digits.
- Finite floats are reals; rounding error is not modelled.
- `ReadIso` accepts the texts `isoformat` prints, with any offset, not the whole input grammar of `fromisoformat`.
- Texts are sequences of Unicode scalar values; lone surrogates do not occur.

Not modelled:

- Explanations, remediation texts, context dictionaries, case ids and generated "now" timestamps of reports.
- JSON text: dictionaries are compared as values, without the character-level encoding.
- Coercion by `str()` or `float()` of values of unexpected types in `from_dict`: the readers answer `NotModelled`.
- The order of dictionary keys: payloads are maps, and equality of Python dictionaries ignores order too.
- `validate_candidate_bundle_replay_readiness` and the readiness, deployment and promotion packets: conjunctions of independent checks over lifecycle tables that are not part of this model.
- The clock is read once per risk evaluation; the code reads it for every waiver when the request gives no time.
- The machine's local zone is a parameter that gives an offset for every local time; what the platform itself may raise at the ends of its own time range is not modelled.
- The profiles enter a risk evaluation as a catalogue of symbols and limits, a strategy contract as its warm-up demands.
- Parts of the inherited risk defaults that no control uses: gap stress, allowed postures, the delivery-fence rule.
- Dictionary keys are texts already, so the `str(key)` of the JSON conversion never merges two keys.
- The candidate id and source case ids of a symbol decision: they copy the list of reports.
- Account-fit times are given as parsed moments, and the catalogue's starting equities are positive, as its own validation demands.
- Ratios, benchmark comparisons and sensitivity scenarios in the viability report; the decision does not use them.
- `evaluate_clock_skew` and the time-discipline policy self-check: finite case tables.
- The broker conformance report and the fixture library.
- `EvaluateIdempotency`: the six evidence texts are one flag, because only whether each is blank matters.
