# DhanRadar backend: verified models

Dafny models of the parts of the DhanRadar backend whose correctness spans many steps or many
callers, with proofs of what those parts are for. `dafny verify dfyconfig.toml` checks everything.

| files | models |
|---|---|
| `BudgetProtocol`, `BudgetProofs`, `BudgetExact`, `BudgetGuard` | the daily AI budget counter: any number of `budget_guard` calls interleaving on one Redis key |
| `Gateway`, `GatewayProofs`, `GatewayOutcomes`, `GatewayBudget`, `PremiumBudget` | the LLM gateway: free pool, paid fallback, Sonnet spillover, three strikes, and its free and premium metering on top of the budget protocol |
| `Folio`, `Holdings`, `Ledger` | the folio canonicalization backfill (migration 0061) |
| `ParentGraph`, `Migrations`, `MergeCheck` | the migration-collision guard, Check A and Check B |
| `RowSecurity` | owner-scoped row-level security, `rls_user_session` and pooled connections |
| `AdvisoryScreen` | the advisory-language screen |
| `RateLimiter` | the fixed-window rate limiter under concurrency |
| `Portfolios` | the portfolio re-keying migration (0013) |
| `Coverage` | the AMC coverage completeness figures |
| `Prelude` | options, distinct sequences, counting |

## How the models are built

- A protocol is a state machine. One action is one Redis command together with the local
  computation that follows it without a suspension point. A run is any sequence of actions; an
  action that is not enabled changes nothing, so statements about all sequences are statements
  about all runs. Failed adjustments, lost replies, dying requests, lapsing keys and midnights are
  actions too, so no theorem leaves them out unless it says so. A process that dies inside its
  guarded block is a roll-back that fails: the two leave the same state.
- Code that changes state step by step is a class (`BudgetGuard`, `Redis`, `Gateway`,
  `HoldingsTable`, `LedgerTable`, `Connection`, `RateLimit`, `Schema`) or a method with a loop.
  Each method is proved equal to the step or function that the theorems are about.
- Specifications that code is compared with are functions. What these functions mean is stated apart
  from them, over outcomes, columns, rows and figures (`GatewayOutcomes`, and the lemmas on columns and
  in figures of the other modules).
- A model call is the outcome it ends with. What the environment decides (outcomes, admission, row
  orders, fresh ids, the words of a character set) is a parameter and so ranges over everything.
- The two SQL steps of the folio backfill and the ledger loop take the canonicalization as a
  parameter. What they need of it is stated there; `Folio` proves exactly when the actual one has it.
- Money, units, percentages and times are exact: reals and integers, no floating point.

## Where the code and its documentation differ

The models follow the code. Each of these is a theorem with an exact condition, or a run that shows it.

- The reset at UTC midnight is described as the backstop for every leak (`budget.py:127-151`). A
  call that is under way at midnight can recreate the key without an expiry, and from then on the
  counter never resets. A midnight is safe exactly when it finds no call between computing its
  timestamp and its last adjustment (`MidnightSafeIff`, `ResetLostIff`, `NeverResetsAgain`,
  `MidnightInsideACall`).
- The gateway comment that the three-strike skip bounds premium spend (`gateway.py:284-285`) does
  not hold: the strike counter is not read before models are called (`StrikesDoNotGate`,
  `StrikesDoNotBoundSpend`).
- The cap is said to be passed by at most one reserve (`budget.py:219-232`). While no midnight falls
  inside a call, that holds exactly as long as no call may spend more than it reserved
  (`CapHoldsIff`); a midnight inside a call can break it even then (`MidnightOvershoot`).
- A free call reserves one unit but records one per model that responded: the free cap can be
  exceeded by (pool - 1) units per concurrent call, and is kept exactly when pools have one model
  (`FreeUnitsBoundReached`, `FreeUnitsStayBelow`, `FreeCapHoldsIff`).
- The premium reserve is called an upper bound on the cost of one call (`budget.py:52-61`). It is one
  for Sonnet up to 33333 tokens, but a fallback walk can pay for a response of every model; every
  premium cap is kept exactly when both stay within the reserve (`SonnetReserveIff`,
  `PremiumCapHoldsIff`).
- The fallback is said to debit whatever the model billed (`gateway.py:420-421`). A billed body that is
  no JSON is not debited, there and for Sonnet, and a 402 rolls back spend and units that had already
  come back (`BillCoversSettled`, `FreeGuardUse`); the metric keeps the spend (`MetricCoversSettled`).
- A 429, a non-JSON body or another status from Sonnet leaves the gateway as a raw error, outside
  its own error classes, and nothing else does (`RawErrorIff`, `gateway.py:378-395`).
- Canonicalization strips one zero suffix, so it is not idempotent on folios that end in two. On
  those the holdings update can abort on the unique key, and the ledger loop can leave an old row
  (`BackfillCanonicalIff`, `UpdateSucceedsIff`, `UpdateCanAbort`, `CanonicalInEveryOrderIff`).
- The single-head check is said to exclude cycles and branches. It accepts a chain beside a cycle
  and a parent that does not exist, and reports a cycle for an empty directory (`LinearIff`,
  `PassesCycle`, `PassesDangling`, `NoFilesNoHead`). Both checks can pass while the merged tree has
  two heads; exactly when it has one is `MergedPassesIff` (`BothPassTwoHeads`).
- The rate limit can be exceeded once two requests may overlap between GET and INCR (`LimitHoldsIff`),
  and a request that dies before its EXPIRE can lock a client out for good (`LockedOutForGood`).
- The downgrade of 0013 fails once a user has the same key in two portfolios, and only then
  (`DowngradeFailsIff`).

## Model

| member | source | states |
|---|---|---|
| `BudgetProofs.Conservation` | `backend/dhanradar/budget.py:252-304` | over every run the counter equals settled spend, plus reservations still held, plus what failed adjustments left, minus reservations in flight at the last reset |
| `BudgetProofs.BooksAre` | `backend/dhanradar/budget.py:252-304` | the two totals of that equation mean what they are called: settled is the sum of the clean exits since the key last went, leak the sum of what lost replies and failed adjustments left |
| `BudgetProofs.StepsOfACall` | `backend/dhanradar/budget.py:252-304` | which step a call can take where: an error before the reservation, a reply lost with it, a failure of every later adjustment |
| `BudgetProofs.StepConserves` | `backend/dhanradar/budget.py:127-151` | every single step of any caller, every lost reply, failed adjustment and midnight keeps that equation |
| `BudgetProofs.AdmissionRule` | `backend/dhanradar/budget.py:254-263` | a reserving caller is admitted exactly when settled + held + leaked - carried is below its own cap, in every reachable state |
| `BudgetProofs.QuiescentAdmission` | `backend/dhanradar/budget.py:252-263` | with no leak and nobody in flight the counter is the settled spend and admission is exactly settled < cap |
| `BudgetProofs.ExposureWithinHeld` | `backend/dhanradar/budget.py:254-304` | admitted calls, each at its reserve plus a slack, never exceed what is held plus the slack per call in flight |
| `BudgetProofs.ReserveBounded` | `backend/dhanradar/budget.py:254-263` | the admitting step itself cannot break the overshoot bound, whoever else holds a reservation |
| `BudgetProofs.OvershootBound` | `backend/dhanradar/budget.py:252-304` | for any number of callers and any interleaving: settled spend plus admitted exposure < cap + reserve + slack per concurrent caller + carried + undercounted |
| `BudgetProofs.CapHolds` | `backend/dhanradar/budget.py:219-232` | with actuals within the reserve and no midnight inside a call: settled + reserves of admitted calls < cap + reserve, whatever adjustments fail |
| `BudgetExact.OvershootReached` | `backend/dhanradar/budget.py:287-304` | if a clean exit may exceed its reserve at all, some run without overlap or failure settles cap + reserve or more |
| `BudgetExact.CapHoldsIff` | `backend/dhanradar/budget.py:287-304` | with quiet midnights every run settles less than cap + reserve if and only if no clean exit may exceed its reserve |
| `BudgetExact.MidnightOvershoot` | `backend/dhanradar/budget.py:252-304` | for every cap and reserve one call inside its block at midnight is enough for a run to settle cap + reserve, although no exit exceeds its reserve, calls never overlap and no adjustment fails |
| `BudgetExact.MeteredBound` | `backend/dhanradar/budget.py:252-304` | the bound for any way of metering clean exits, with the slack it allows |
| `BudgetProofs.StepFresh` | `backend/dhanradar/budget.py:117-124` | a live key keeps the coming midnight as its expiry, and a call that may adjust it finds it there |
| `BudgetProofs.DailyReset` | `backend/dhanradar/budget.py:117-124` | if every midnight finds no call under way, a live key always expires at the coming midnight and each day starts with no key and nothing settled |
| `BudgetProofs.MidnightSafeIff` | `backend/dhanradar/budget.py:117-151` | nothing on the day after a midnight can leave the key without an expiry if and only if that midnight finds no call between computing its timestamp and its last adjustment |
| `BudgetProofs.ResetLostIff` | `backend/dhanradar/budget.py:117-151` | the key is without expiry after a run if and only if some INCRBYFLOAT of that run found no key |
| `BudgetProofs.NeverResetsAgain` | `backend/dhanradar/budget.py:127-151` | once the expiry is lost, no later midnight and no later call brings it back |
| `BudgetProofs.MidnightInsideACall` | `backend/dhanradar/budget.py:281-304` | concrete run: admitted before midnight, settled after it, leaves a negative counter with no expiry |
| `BudgetGuards.ApplyOverrides` | `backend/dhanradar/budget.py:178-203` | an override that is readable and positive replaces its cap, every other cap keeps its default |
| `BudgetGuards.GetEffectiveCaps` | `backend/dhanradar/budget.py:159-204` | the three caps in figures: the whole part of a free override of at least 1, else 1000; a positive premium_soft override, else 0.50; a positive premium_hard override, else 9.50 |
| `BudgetGuards.CapInFigures` | `backend/dhanradar/budget.py:249` | the free guard compares with the whole part of a free override of at least 1, else 1000; the premium guard with a positive premium_hard override, else 9.50 |
| `BudgetGuards.OneOverrideMatters` | `backend/dhanradar/budget.py:249` | no other override changes the cap, the soft cap least of all |
| `BudgetGuards.Redis.SetNxExat` | `backend/dhanradar/budget.py:117-124` | the key after SET NX EXAT: kept if live, else created with the expiry, unless that has passed |
| `BudgetGuards.Redis.IncrByFloat` | `backend/dhanradar/budget.py:254-255` | the key and the reply after INCRBYFLOAT, with the expiry kept, and none when the key was missing |
| `BudgetGuards.Redis.AdjustQuietly` | `backend/dhanradar/budget.py:127-151` | a failed adjustment changes nothing and is swallowed, a successful one is one INCRBYFLOAT |
| `BudgetGuards.BudgetGuard.constructor` | `backend/dhanradar/budget.py:244-250` | cap of the guard's own kind, reserve given or default, an empty meter |
| `BudgetGuards.BudgetGuard.ComputeMidnight` | `backend/dhanradar/budget.py:108-114` | the protocol's Stamp step: the next UTC midnight of the moment it is computed |
| `BudgetGuards.BudgetGuard.InitKeyIfMissing` | `backend/dhanradar/budget.py:253` | the protocol's Init step on the shared key |
| `BudgetGuards.BudgetGuard.TryReserve` | `backend/dhanradar/budget.py:254-263` | the protocol's Reserve step; admitted exactly when the reading from before the reservation is below the cap |
| `BudgetGuards.BudgetGuard.ReleaseRejected` | `backend/dhanradar/budget.py:257-263` | the protocol's Release step, also when the adjustment fails |
| `BudgetGuards.BudgetGuard.RollBackFailed` | `backend/dhanradar/budget.py:281-285` | the protocol's RollBack step: the whole reserve comes off, whatever the meter says |
| `BudgetGuards.BudgetGuard.Reconcile` | `backend/dhanradar/budget.py:287-304` | the protocol's Settle step with what the meter recorded, no Redis command when it equals the reserve |
| `BudgetGuards.OpenGuard` | `backend/dhanradar/budget.py:244-250` | the guard compares with the effective cap of its own kind, a usable override or else the default, which is positive; reserve given or default |
| `BudgetGuards.RunGuard` | `backend/dhanradar/budget.py:252-304` | a capped guard run to its end alone: rejected and failed calls leave the reading as it was, a clean one adds exactly what it recorded |
| `BudgetGuards.GuardedCall` | `backend/dhanradar/budget.py:210-304` | alone on the counter: the cap in figures, exhausted exactly at it, so that a premium call without override is admitted anywhere below 9.50; rejected and failed calls leave the reading as it was, a clean one adds exactly what it recorded, the key always keeps or gets an expiry |
| `Gateways.Asked` | `backend/dhanradar/ai_gateway/gateway.py:228-264` | a pool walk passes over nothing decisive and stops early only at a usable response or a 402 |
| `Gateways.Gateway.FreePool` | `backend/dhanradar/ai_gateway/gateway.py:226-264` | the free loop: how it ends, how many models it asked, one unit for each body that came back, JSON or not, and whether some body was no JSON or failed validation |
| `Gateways.UnitsAre` | `backend/dhanradar/ai_gateway/gateway.py:243-253` | units are the number of calls that came back with a body, JSON or not |
| `Gateways.Gateway.PaidFallback` | `backend/dhanradar/ai_gateway/gateway.py:424-452` | the paid loop: how it ends, the cost on the meter and the metric entries of every priced response so far |
| `Gateways.Gateway.RecordModelSpend` | `backend/dhanradar/ai_gateway/metrics.py:146-178` | the model's USD figure for the day goes up by exactly the amount and no other model's changes, a zero amount included, for which nothing is written |
| `Gateways.Gateway.RecordStrike` | `backend/dhanradar/ai_gateway/gateway.py:568-581` | INCR on the strike key, and the error that follows from the new count |
| `Gateways.Gateway.Finish` | `backend/dhanradar/ai_gateway/gateway.py:278-307` | Sonnet spillover and the final errors: ending, budget use, metric and strike all as specified for every outcome |
| `Gateways.Gateway.Fallback` | `backend/dhanradar/ai_gateway/gateway.py:266-307` | paid fallback and what follows it, including that the metric keeps entries of a guard that is rolled back |
| `Gateways.Gateway.Run` | `backend/dhanradar/ai_gateway/gateway.py:158-307` | one whole call refines the pure `Complete`: ending, calls made, guard uses, metric entries and strikes |
| `GatewayProofs.WalkMeans` | `backend/dhanradar/ai_gateway/gateway.py:228-264` | a walk ends at model i iff i is the first usable one with no 402 before it, in a 402 iff one comes before any usable response, dry iff neither occurs |
| `GatewayProofs.AnswerIff` | `backend/dhanradar/ai_gateway/gateway.py:221-307` | model m answers if and only if it is the first usable free model, else the first usable paid one, else Sonnet for a high-stakes non-fallback task with a free quality failure |
| `GatewayProofs.CallsBounded` | `backend/dhanradar/ai_gateway/gateway.py:221-307` | at most one call per pool entry plus Sonnet; no call after a usable response or a 402; the credit error iff some call was a 402 |
| `GatewayProofs.StrikesDoNotGate` | `backend/dhanradar/ai_gateway/gateway.py:278-301` | the strike count changes neither calls, spend nor metric, only which quality error is raised |
| `GatewayProofs.StrikesDoNotBoundSpend` | `backend/dhanradar/ai_gateway/gateway.py:283-294` | on a day of high-stakes requests that all end with a bad Sonnet response, however many for one ticker, every one settles its full cost |
| `GatewayProofs.QualityExitIff` | `backend/dhanradar/ai_gateway/gateway.py:278-301` | exactly which calls end in a quality failure, and so record a strike |
| `GatewayProofs.RawErrorIff` | `backend/dhanradar/ai_gateway/gateway.py:378-395` | exactly which calls end in an error outside the gateway's own classes: those that reach Sonnet and get a non-JSON body, a 429 or a status other than 402 |
| `GatewayOutcomes.ConsentRefusedIff` | `backend/dhanradar/ai_gateway/gateway.py:208-213` | the consent error iff consent is missing, and then nothing is asked, reserved or charged |
| `GatewayOutcomes.BudgetExhaustedIff` | `backend/dhanradar/ai_gateway/gateway.py:226-289` | the budget error iff one of the guards the call comes to does not admit it: free, fallback or Sonnet |
| `GatewayOutcomes.CreditExhaustedIff` | `backend/dhanradar/ai_gateway/gateway.py:237-241` | the credit error iff a 402 comes before anything usable in the free pool, else in the fallback, else from Sonnet |
| `GatewayOutcomes.AllFailedIff` | `backend/dhanradar/ai_gateway/gateway.py:303-307` | the error that nothing produced output iff every free model was rate-limited, unreachable or answered with another status, or Sonnet could not be reached |
| `GatewayOutcomes.SilentPoolIff` | `backend/dhanradar/ai_gateway/gateway.py:278-307` | without paid fallback a pool with nothing decisive ends the call without asking Sonnet iff every free model was rate-limited, unreachable or answered with another status |
| `GatewayOutcomes.CallsAre` | `backend/dhanradar/ai_gateway/gateway.py:226-289` | the serving calls in order: a prefix of the free pool, then of the fallback or Sonnet, and when each is asked |
| `GatewayOutcomes.WalkLength` | `backend/dhanradar/ai_gateway/gateway.py:228-264` | a pool is asked up to its first usable response or 402, that one included |
| `GatewayOutcomes.GuardsAre` | `backend/dhanradar/ai_gateway/gateway.py:378-452` | at most one premium guard, which one, and whether it is rejected, rolled back or settled, and at what |
| `GatewayOutcomes.UsdIs` | `backend/dhanradar/ai_gateway/gateway.py:396-441` | a million tokens cost the price of a million, prices add up, Sonnet's is 6 |
| `GatewayOutcomes.CostIs` | `backend/dhanradar/ai_gateway/gateway.py:441-442` | every JSON response adds the price of its tokens to the meter, nothing else does |
| `GatewayOutcomes.ChargesByModel` | `backend/dhanradar/ai_gateway/gateway.py:441-444` | the metric shows for every model the cost of its own responses |
| `GatewayOutcomes.MetricAfterCall` | `backend/dhanradar/ai_gateway/gateway.py:378-452` | after a call every model's metric is up by the cost of its own responses, rolled back or not |
| `GatewayProofs.ThreeStrikeRule` | `backend/dhanradar/ai_gateway/gateway.py:286-301` | after n quality exits for a key, interleaved with anything else, its counter is n, min(2, n) raised the plain error and the rest the skip error |
| `GatewayProofs.ChargesAreCost` | `backend/dhanradar/ai_gateway/gateway.py:441-444` | the metric entries of a walk add up to the cost on its meter |
| `GatewayProofs.MetricCoversSettled` | `backend/dhanradar/ai_gateway/gateway.py:378-452` | for one call the USD metric is never below the premium spend settled, and equal iff no priced fallback response was followed by a 402 |
| `GatewayProofs.PremiumAccounts` | `backend/dhanradar/ai_gateway/gateway.py:378-452` | the same over any day of calls |
| `GatewayProofs.BillCoversSettled` | `backend/dhanradar/ai_gateway/gateway.py:378-452` | the premium budget never settles more than the paid models bill, and exactly that if and only if none answered with a billed body that is no JSON and no 402 came beside a billed response |
| `GatewayProofs.SonnetSettlesEitherWay` | `backend/dhanradar/ai_gateway/gateway.py:375-402` | a Sonnet response is settled at its cost whether or not it then fails validation |
| `GatewayBudget.FreeGuardUse` | `backend/dhanradar/ai_gateway/gateway.py:226-264` | the free guard settles one unit per response that came back, unless a 402 ends the walk: then it is rolled back whole, units already counted included |
| `GatewayBudget.FreeMeterWithinPool` | `backend/dhanradar/ai_gateway/gateway.py:226-264` | a clean free guard settles between 0 and pool-size units |
| `GatewayBudget.UnitReserves` | `backend/dhanradar/budget.py:63-66` | a run of unit reserves metered by the gateway meets the budget bound's hypotheses with slack pool - 1 |
| `GatewayBudget.FreeUnitsBound` | `backend/dhanradar/ai_gateway/gateway.py:226-264` | gateway on governor: recorded units plus every in-flight call at its full pool < cap + (pool - 1) * inFlight + 1, up to carried and undercounted amounts |
| `GatewayBudget.FreeUnitsStayBelow` | `backend/dhanradar/ai_gateway/gateway.py:226-264` | the same for recorded units alone, with no midnight inside a call and no failed reconciliation |
| `GatewayBudget.FreeUnitsBoundReached` | `backend/dhanradar/ai_gateway/gateway.py:226-264` | the bound is exact: for every pool and every whole cap >= inFlight >= 1 a clean run records cap + (pool - 1) * inFlight units |
| `GatewayBudget.FreeCapHoldsIff` | `backend/dhanradar/budget.py:219-232` | every clean run of the free counter stays below cap + 1 if and only if pools have a single model |
| `PremiumBudget.PremiumGuardUse` | `backend/dhanradar/ai_gateway/gateway.py:378-452` | a clean premium guard was a fallback walk or a Sonnet response, and settles its cost |
| `PremiumBudget.PremiumMeterWithin` | `backend/dhanradar/ai_gateway/gateway.py:378-452` | it settles at most one response of every fallback model or one Sonnet response, each at the token limit |
| `PremiumBudget.PremiumBound` | `backend/dhanradar/budget.py:252-304` | gateway on governor: settled premium spend plus every guard in flight at its dearest < cap + reserve + slack per guard in flight, up to carried and undercounted amounts |
| `PremiumBudget.SonnetReserveIff` | `backend/dhanradar/budget.py:52-61` | the default reserve covers one Sonnet response if and only if it has at most 33333 tokens |
| `PremiumBudget.PremiumCapHoldsIff` | `backend/dhanradar/budget.py:52-61` | every clean run stays below cap + reserve for every cap if and only if one Sonnet response and one full fallback walk each cost at most the reserve |
| `PremiumBudget.EveryCapOvershoots` | `backend/dhanradar/budget.py:52-61` | once a guard can exceed the reserve by the price of one Sonnet token, every cap can be passed by a full reserve, without overlap |
| `Folios.CanonicalIff` | `backend/alembic/versions/0061_folio_canonicalization_backfill.py:44` | a folio is canonical iff it has no whitespace, no lower-case letter and no zero suffix |
| `Folios.SqueezeIs` | `backend/alembic/versions/0061_folio_canonicalization_backfill.py:44` | character by character: whitespace goes, a lower-case letter becomes the upper-case one 32 places before, the rest stays in order |
| `Folios.CanonIs` | `backend/alembic/versions/0061_folio_canonicalization_backfill.py:44` | what stands before a slash that is followed by zeros only, at least one, to the end; the squeezed folio if there is none |
| `Folios.IdempotentIff` | `backend/alembic/versions/0061_folio_canonicalization_backfill.py:40-44` | canonicalizing twice equals once iff the squeezed folio does not end in two zero suffixes |
| `Folios.SpacingDoesNotMatter` | `backend/dhanradar/mf/cas.py:482-495` | spellings that differ in whitespace anywhere have the same canonical form |
| `Folios.InnerSpaceGoes` | `backend/dhanradar/mf/cas.py:482-495` | the documented case of an inner space |
| `Folios.PlanSuffixGoes` | `backend/dhanradar/mf/cas.py:482-495` | the documented case of a plan suffix: slash and zeros go, the body stays |
| `Folios.LettersAreFolded` | `backend/dhanradar/mf/cas.py:482-495` | a folio in small letters becomes the one in capitals |
| `Folios.StripCutsAtSuffix` | `backend/alembic/versions/0061_folio_canonicalization_backfill.py:44` | the suffix pattern matches at one position at most and stripping cuts exactly there |
| `Folios.SqueezeFixed` | `backend/alembic/versions/0061_folio_canonicalization_backfill.py:44` | the whitespace and case step leaves a string alone iff there is nothing for it to do |
| `Folios.NotIdempotentExample` | `backend/alembic/versions/0061_folio_canonicalization_backfill.py:44` | "A/0/0" canonicalizes to "A/0", which is not canonical |
| `Holdings.DedupeKeepsTheBest` | `backend/alembic/versions/0061_folio_canonicalization_backfill.py:54-62` | each canonical group keeps exactly one row: the canonical one if there is one, else the newest |
| `Holdings.KeptIff` | `backend/alembic/versions/0061_folio_canonicalization_backfill.py:54-62` | a row stays iff among the rows of its portfolio, isin and canonical folio it is canonical if any is, among those alike none was updated later, and among those of the same time it has the smallest id |
| `Holdings.GroupKept` | `backend/alembic/versions/0061_folio_canonicalization_backfill.py:54-62` | every portfolio, isin and canonical folio keeps exactly one row |
| `Holdings.UniqueIff` | `backend/alembic/versions/0013_mf_portfolios.py:131-136` | the unique key on columns |
| `Holdings.UpdateOneIs` | `backend/alembic/versions/0061_folio_canonicalization_backfill.py:65-67` | rewriting a row violates the key iff another row of its portfolio and isin has the new folio; else the folio changes and nothing else |
| `Holdings.UpdateSucceeds` | `backend/alembic/versions/0061_folio_canonicalization_backfill.py:65-67` | if no surviving row's new folio is still held by a non-canonical row, the UPDATE succeeds in every row order and rewrites every folio once |
| `Holdings.UniqueAtEveryRow` | `backend/alembic/versions/0061_folio_canonicalization_backfill.py:65-67` | and the unique key holds after every single row of it |
| `Holdings.UpdateSucceedsIff` | `backend/alembic/versions/0061_folio_canonicalization_backfill.py:65-67` | it succeeds in every row order if and only if no survivor blocks another |
| `Holdings.CanonicalAfterUpdateIff` | `backend/alembic/versions/0061_folio_canonicalization_backfill.py:65-67` | after such an update every folio is canonical if and only if canonicalization is idempotent on the folios updated |
| `Holdings.NoDoubleSuffixNoneBlocks` | `backend/alembic/versions/0061_folio_canonicalization_backfill.py:44` | no folio with two zero suffixes means nothing blocks |
| `Holdings.UpdateCanAbort` | `backend/alembic/versions/0061_folio_canonicalization_backfill.py:53-67` | two concrete rows, "A/0/0" and "A/0", on which the UPDATE violates the unique key |
| `Holdings.BackfillSucceeds` | `backend/alembic/versions/0061_folio_canonicalization_backfill.py:53-67` | dedupe and update together, on folios where canonicalization is idempotent: success in every order, exactly the best row of every group left, canonical and unique |
| `Holdings.BackfillOnColumns` | `backend/alembic/versions/0061_folio_canonicalization_backfill.py:53-67` | exactly the kept rows are left, each with its own portfolio, isin and time and its folio canonical, under the unique key |
| `Holdings.BackfillCanonicalIff` | `backend/alembic/versions/0061_folio_canonicalization_backfill.py:53-67` | delete and update together get through and end canonical in every row order if and only if canonicalization is idempotent on the folios present |
| `Holdings.CanonBackfillIff` | `backend/alembic/versions/0061_folio_canonicalization_backfill.py:44-67` | for the actual expression: if and only if no folio present ends in two zero suffixes |
| `Holdings.SecondRunIsNoOp` | `backend/alembic/versions/0061_folio_canonicalization_backfill.py:53-67` | on canonical holdings nothing is deleted and nothing rewritten |
| `Holdings.HoldingsTable.UpdateRow` | `backend/alembic/versions/0061_folio_canonicalization_backfill.py:65-67` | one row of the UPDATE: refused iff another row has its portfolio, isin and new folio, else its folio is canonical and nothing else changes |
| `Holdings.HoldingsTable.Dedupe` | `backend/alembic/versions/0061_folio_canonicalization_backfill.py:54-62` | no row is changed, no two of a group stay, each group keeps its best row, and among rows alike in being canonical none of the group was updated later than the kept one |
| `Holdings.HoldingsTable.UpdateRows` | `backend/alembic/versions/0061_folio_canonicalization_backfill.py:65-67` | the row-by-row UPDATE, which stops at the first unique violation, refines the specification |
| `Holdings.HoldingsTable.Backfill` | `backend/alembic/versions/0061_folio_canonicalization_backfill.py:49-72` | delete and update in the given order refine the specification, including the abort |
| `Ledger.LoopKept` | `backend/alembic/versions/0061_folio_canonicalization_backfill.py:111-149` | after every round, in every order of the snapshot and whatever the canonicalization does: unique key, untouched rows in place, every other row a replacement, rows plus merges constant |
| `Ledger.LoopInv` | `backend/alembic/versions/0061_folio_canonicalization_backfill.py:111-149` | if canonicalization is idempotent on the folios present, also the canonical key of every canonical or processed row is in the table |
| `Ledger.UniqueThroughout` | `backend/alembic/versions/0061_folio_canonicalization_backfill.py:128-149` | the unique key holds before every round and between its INSERT and its DELETE, whatever the canonicalization does |
| `Ledger.KeyAfterRound` | `backend/alembic/versions/0061_folio_canonicalization_backfill.py:128-149` | the DELETE of a round never takes away the canonical key that its INSERT relied on |
| `Ledger.Backfilled` | `backend/alembic/versions/0061_folio_canonicalization_backfill.py:111-149` | with idempotent canonicalization, in every order: only canonical rows, exactly the canonical image of the keys, merged rows fewer, canonical rows untouched |
| `Ledger.ReplacementColumns` | `backend/alembic/versions/0061_folio_canonicalization_backfill.py:111-143` | the copy of an old row in every column: all kept, folio canonical, CAS reference recomputed over it |
| `Ledger.OldRowsUntouched` | `backend/alembic/versions/0061_folio_canonicalization_backfill.py:112-115` | a row of the snapshot is left, unchanged, iff its folio was canonical |
| `Ledger.NewRowsAreCopies` | `backend/alembic/versions/0061_folio_canonicalization_backfill.py:116-143` | every new row is the copy of some old row in all columns but folio and CAS reference |
| `Ledger.EveryRowArrives` | `backend/alembic/versions/0061_folio_canonicalization_backfill.py:111-149` | for every row of the snapshot there is a row with its key columns in canonical form |
| `Ledger.UniqueIff` | `backend/alembic/versions/0055_ledger_contract_b82.py:29` | the unique key on columns |
| `Ledger.MigratedIs` | `backend/alembic/versions/0061_folio_canonicalization_backfill.py:111-149` | the counter of migrated rows is the number of rows in old form |
| `Ledger.AmountsAfterBackfill` | `backend/alembic/versions/0061_folio_canonicalization_backfill.py:111-149` | the amounts afterwards sum to those of the distinct canonical keys |
| `Ledger.AmountsOnColumns` | `backend/alembic/versions/0061_folio_canonicalization_backfill.py:111-149` | the amounts afterwards sum to the original amounts, each distinct canonical key counted once |
| `Ledger.AmountTotalPick` | `backend/alembic/versions/0061_folio_canonicalization_backfill.py:111-149` | a table's amount total is the sum of its rows' amounts |
| `Ledger.AmountsByKey` | `backend/alembic/versions/0055_ledger_contract_b82.py:28-29` | under the unique key a table's amount total is a function of its set of keys |
| `Ledger.SecondRunIsNoOp` | `backend/alembic/versions/0061_folio_canonicalization_backfill.py:112-115` | on a canonical table the loop changes and counts nothing |
| `Ledger.RunTwice` | `backend/alembic/versions/0061_folio_canonicalization_backfill.py:111-149` | a second run after a first is a no-op in every order |
| `Ledger.CanonicalInEveryOrderIff` | `backend/alembic/versions/0061_folio_canonicalization_backfill.py:111-149` | every row ends canonical in every snapshot order if and only if canonicalization is idempotent on the folios present |
| `Ledger.CanonIdempotentIff` | `backend/alembic/versions/0061_folio_canonicalization_backfill.py:44` | for the actual expression: if and only if no folio present ends in two zero suffixes |
| `Ledger.LedgerTable.InsertOnConflictDoNothing` | `backend/alembic/versions/0061_folio_canonicalization_backfill.py:128-143` | row count 0 iff some row has all eight key columns, else the row is added with a new id |
| `Ledger.LedgerTable.Delete` | `backend/alembic/versions/0061_folio_canonicalization_backfill.py:146-148` | under the unique key the row takes exactly its own key with it, and the key stays unique |
| `Ledger.LedgerTable.Backfill` | `backend/alembic/versions/0061_folio_canonicalization_backfill.py:97-149` | the loop over the snapshot, its table and its two counters refine the specification |
| `Migrations.CheckUniqueRevisions` | `backend/scripts/check_migration_collisions.py:156-176` | exactly the revisions declared more than once are reported, each with its files in order; nothing is reported iff ids are unique |
| `Migrations.DeclaringIs` | `backend/scripts/check_migration_collisions.py:163-165` | the files of a revision are grouped in file order |
| `Migrations.GraphMeans` | `backend/scripts/check_migration_collisions.py:179-187` | with unique ids the files found are exactly the graph's nodes that are nobody's parent, one file each |
| `Migrations.HeadIff` | `backend/scripts/check_migration_collisions.py:179-187` | a file is a head iff no file revises it |
| `Migrations.HeadsInOrder` | `backend/scripts/check_migration_collisions.py:187` | heads are reported in file order |
| `Migrations.SingleHeadIs` | `backend/scripts/check_migration_collisions.py:190-208` | the verdict is by the number of heads, and several are all reported |
| `Migrations.PassingMeans` | `backend/scripts/check_migration_collisions.py:179-208` | one head, resolving parents and a base: one path from the head to the base, everything else on cycles |
| `Migrations.OneBaseNoBranch` | `backend/scripts/check_migration_collisions.py:179-208` | under the same hypotheses two files with the same parent, or both without, are one revision |
| `Migrations.LinearIff` | `backend/scripts/check_migration_collisions.py:156-208` | the files form one linear history if and only if the check passes, parents resolve, there is a base and the graph is acyclic |
| `Migrations.NoHeadMeansCycles` | `backend/scripts/check_migration_collisions.py:196-201` | no head found: following parents from any file comes back to it |
| `Migrations.AcyclicFilesHaveAHead` | `backend/scripts/check_migration_collisions.py:196-201` | a nonempty acyclic set of files always has a head |
| `Migrations.NoFilesNoHead` | `backend/scripts/check_migration_collisions.py:195-201` | with no files at all the check also reports a cycle |
| `Migrations.PassesDangling` | `backend/scripts/check_migration_collisions.py:190-208` | a file whose parent does not exist passes |
| `Migrations.PassesCycle` | `backend/scripts/check_migration_collisions.py:190-208` | a base beside a cycle of two passes |
| `ParentGraph.OneHeadOneBase` | `backend/scripts/check_migration_collisions.py:179-208` | counting: one head, resolving parents and a base give exactly one base and no branch |
| `ParentGraph.TrunkAndCycles` | `backend/scripts/check_migration_collisions.py:190-193` | for any finite parent graph with one head and a base: a trunk, and all other nodes on cycles |
| `ParentGraph.CoveredIffAcyclic` | `backend/scripts/check_migration_collisions.py:190-193` | the trunk covers every node if and only if the graph is acyclic |
| `ParentGraph.NoHeadAllCycles` | `backend/scripts/check_migration_collisions.py:196-201` | without a head every node is on a cycle |
| `MergeCheck.PrefixIff` | `backend/scripts/check_migration_collisions.py:87` | a file name has a number prefix iff it splits into number, underscore and stem, and it splits in one way only |
| `MergeCheck.PlainNumber` | `backend/scripts/check_migration_collisions.py:82-87` | the documented form of a plain number |
| `MergeCheck.NumberWithLetter` | `backend/scripts/check_migration_collisions.py:82-87` | and of a number with a letter |
| `MergeCheck.NoNumber` | `backend/scripts/check_migration_collisions.py:82-87` | a name that does not start with a digit is no migration |
| `MergeCheck.FindNewMigrationCollisions` | `backend/scripts/check_migration_collisions.py:211-237` | the two loops refine the specification; every pair is a new file with a base file of its prefix, and every new file whose prefix is taken is reported |
| `MergeCheck.CollisionsAre` | `backend/scripts/check_migration_collisions.py:228-237` | a pair is a new file and, second, a base file with its prefix; every new file whose prefix is taken is in some pair |
| `MergeCheck.CollisionsInOrder` | `backend/scripts/check_migration_collisions.py:229-236` | in the order of the new files, at most one pair each |
| `MergeCheck.FirstWithIs` | `backend/scripts/check_migration_collisions.py:222-226` | the base file of a pair is the first with that prefix |
| `MergeCheck.NoCollisionIff` | `backend/scripts/check_migration_collisions.py:228-237` | nothing is reported iff no new file shares its prefix with a base file |
| `MergeCheck.MergedUniqueIff` | `backend/scripts/check_migration_collisions.py:333-342` | for files named by the convention, Check B passes if and only if the merged tree has unique revisions |
| `MergeCheck.MergedHeads` | `backend/scripts/check_migration_collisions.py:179-187` | the heads of the merged tree, exactly: base heads that nothing added continues, and new branch heads that nothing on the base continues |
| `MergeCheck.MergedPassesIff` | `backend/scripts/check_migration_collisions.py:190-208` | branch and base pass, base parents resolve, merged ids unique: the merged tree passes if and only if the branch head is on the base exactly when nothing added continues the base head |
| `MergeCheck.UpToDateMergePasses` | `backend/scripts/check_migration_collisions.py:333-342` | a branch that passes and has every base file merges into a tree that passes, whatever the base looks like |
| `MergeCheck.BothPassTwoHeads` | `backend/scripts/check_migration_collisions.py:333-342` | a family of branches that each continue the same migration: both checks pass and the merged tree has two heads |
| `RowSecurity.ExecOnOwnRows` | `backend/dhanradar/db_security.py:119-132` | scoped to u, a statement's result and its effect on u's rows are those on u's rows alone, and other rows stay as they are |
| `RowSecurity.SelectIs` | `backend/dhanradar/db_security.py:119-132` | scoped to u, a SELECT returns exactly the rows u owns that satisfy the condition, each as often as it is there |
| `RowSecurity.InsertIs` | `backend/dhanradar/db_security.py:119-132` | an INSERT is accepted exactly for a row of one's own |
| `RowSecurity.DeleteIs` | `backend/dhanradar/db_security.py:119-132` | a DELETE removes exactly the rows u owns that satisfy the condition, and counts them |
| `RowSecurity.UpdateIs` | `backend/dhanradar/db_security.py:119-132` | an UPDATE changes exactly those, in place, and is refused iff it would give one of them away |
| `RowSecurity.MalformedFails` | `backend/dhanradar/db_security.py:119` | a scope that is no user id fails every statement |
| `RowSecurity.FailureCostsTheTransaction` | `backend/dhanradar/db_security.py:144-158` | after a refused statement nothing runs in the transaction and ending it leaves the committed table as it was |
| `RowSecurity.SuccessIsKept` | `backend/dhanradar/db_security.py:144-158` | otherwise a commit keeps what the statements did and a rollback does not |
| `RowSecurity.ExecUnscoped` | `backend/dhanradar/db_security.py:117-119` | unset or empty setting: nothing seen, nothing changed, inserts refused |
| `RowSecurity.NonInterference` | `backend/dhanradar/db_security.py:161-192` | any adaptive program in a session of u gets the same results, step by step, on two databases that agree on u's rows |
| `RowSecurity.OthersUntouched` | `backend/dhanradar/db_security.py:161-192` | and leaves every other owner's rows as they were at every point of the run |
| `RowSecurity.ScopeIsLastSet` | `backend/dhanradar/db_security.py:144-158` | on a pooled connection the scope in force is the one set last in this transaction, else none |
| `RowSecurity.PoolDoesNotLeak` | `backend/dhanradar/db_security.py:144-158` | after commit or rollback every statement of every later request sees and changes nothing until a scope is set; with one, only that user's rows |
| `RowSecurity.UpgradeBindsEveryone` | `backend/dhanradar/db_security.py:122-132` | the DDL never fails, is idempotent, and binds the table owner too: only BYPASSRLS escapes |
| `RowSecurity.DowngradeRestores` | `backend/dhanradar/db_security.py:135-141` | upgrade then downgrade gives back a table without row security |
| `RowSecurity.Connection.Begin` | `backend/dhanradar/db_security.py:185-190` | the begin hook runs exactly when no transaction is open |
| `RowSecurity.Connection.SetRlsUser` | `backend/dhanradar/db_security.py:144-158` | the state machine's SetUser step |
| `RowSecurity.Connection.Execute` | `backend/dhanradar/db_security.py:182-192` | the state machine's Run step with the implicit begin; under a scope an owner's SELECT returns exactly the own rows asked for and an own INSERT is accepted |
| `RowSecurity.Connection.End` | `backend/dhanradar/db_security.py:149-154` | commit keeps the work of a transaction that did not fail, everything else keeps the committed table; the setting is gone |
| `AdvisoryScreen.WalkMissesNothing` | `backend/dhanradar/ai_gateway/quality.py:67-76` | every string at any path of the tree is yielded by the walk |
| `AdvisoryScreen.WalkInventsNothing` | `backend/dhanradar/ai_gateway/quality.py:67-76` | every yielded string is a leaf at some path |
| `AdvisoryScreen.AtCons` | `backend/dhanradar/ai_gateway/quality.py:67-76` | a path goes position by position into the values of dicts and the items of lists |
| `AdvisoryScreen.ScreenedIsUserFacing` | `backend/dhanradar/ai_gateway/quality.py:104-107` | the screened strings are exactly those at any depth of a field other than the top-level disclaimer |
| `AdvisoryScreen.WholeWord` | `backend/dhanradar/ai_gateway/quality.py:60-64` | the two boundaries say that the term is not part of a longer word on either side |
| `AdvisoryScreen.FoldIs` | `backend/dhanradar/ai_gateway/quality.py:62-64` | which characters match which when case is ignored |
| `AdvisoryScreen.BannedTerms` | `backend/dhanradar/ai_gateway/quality.py:47-58` | the list has exactly the 21 banned terms |
| `AdvisoryScreen.FirstTermIs` | `backend/dhanradar/ai_gateway/quality.py:62-64` | the alternative chosen at a position is the first of the list that stands there |
| `AdvisoryScreen.MatchesIffOccurs` | `backend/dhanradar/ai_gateway/quality.py:107-109` | a text yields a match iff some term occurs in it, overlapping or not |
| `AdvisoryScreen.FindAllIsLeftmost` | `backend/dhanradar/ai_gateway/quality.py:62-64` | matches are leftmost, first listed term first, non-overlapping, and nothing occurs between or after them |
| `AdvisoryScreen.MatchesDoNotOverlap` | `backend/dhanradar/ai_gateway/quality.py:108-109` | every match stands after the end of all before it |
| `AdvisoryScreen.ThreePhrasesAreRedundant` | `backend/dhanradar/ai_gateway/quality.py:47-58` | dropping "strong buy", "strong sell" and "buy the dip" never changes whether a text is rejected |
| `AdvisoryScreen.Scan` | `backend/dhanradar/ai_gateway/quality.py:108-109` | repeated search over one text finds exactly those matches |
| `AdvisoryScreen.ScanAll` | `backend/dhanradar/ai_gateway/quality.py:107-109` | the hits of all texts, in order |
| `AdvisoryScreen.RejectedIff` | `backend/dhanradar/ai_gateway/quality.py:104-110` | there is a hit iff some user-facing string contains a term as a whole word |
| `AdvisoryScreen.Validate` | `backend/dhanradar/ai_gateway/quality.py:87-117` | a schema-valid output is rejected iff some user-facing string at any depth contains a banned term as a whole word; the hits are all matches of all screened strings |
| `RateLimiter.WindowBound` | `backend/dhanradar/ratelimit.py:51-64` | in every interleaving one key lifetime counts at most max + width - 1 requests, with at most width between GET and INCR |
| `RateLimiter.WindowBoundReached` | `backend/dhanradar/ratelimit.py:51-64` | for every max and width a run reaches exactly that |
| `RateLimiter.LimitHoldsIff` | `backend/dhanradar/ratelimit.py:51-64` | the limit holds in every run if and only if requests never overlap between GET and INCR, or max is 0 |
| `RateLimiter.LapseStartsOver` | `backend/dhanradar/ratelimit.py:62-64` | a window can lapse exactly when the key has an expiry, and then the count starts over |
| `RateLimiter.ExpiryOwned` | `backend/dhanradar/ratelimit.py:62-64` | a key without expiry belongs to exactly one request about to run EXPIRE, or to one that died before it |
| `RateLimiter.OrphanedForever` | `backend/dhanradar/ratelimit.py:62-64` | after such a death the count only grows, and once at the limit every later request is refused |
| `RateLimiter.LockedOutForGood` | `backend/dhanradar/ratelimit.py:62-64` | for every limit a run without any overlap after which every later request is refused, whatever follows |
| `RateLimiter.RateLimit.Check` | `backend/dhanradar/ratelimit.py:51-60` | GET and comparison as one protocol step |
| `RateLimiter.RateLimit.Incr` | `backend/dhanradar/ratelimit.py:62-63` | INCR as one protocol step, and whether EXPIRE follows |
| `RateLimiter.RateLimit.Call` | `backend/dhanradar/ratelimit.py:46-64` | alone: refused exactly at the limit, else counted, and the first one starts the window |
| `Portfolios.RekeyingIff` | `backend/alembic/versions/0013_mf_portfolios.py:128-162` | the portfolio-keyed uniqueness holds if and only if the user-keyed one did |
| `Portfolios.UpgradeSucceeds` | `backend/alembic/versions/0013_mf_portfolios.py:84-162` | on every database that meets the old constraints the upgrade succeeds, and every row of all five tables is in a portfolio of its own user |
| `Portfolios.UpgradedRow` | `backend/alembic/versions/0013_mf_portfolios.py:100-125` | on columns: every row of every table keeps its user, key and data and gets a portfolio of its own user |
| `Portfolios.UpgradedPair` | `backend/alembic/versions/0013_mf_portfolios.py:128-162` | in the four keyed tables no two rows share portfolio and key |
| `Portfolios.UpgradeFails` | `backend/alembic/versions/0013_mf_portfolios.py:128-162` | the upgrade fails when one of the four has two rows with the same user and key |
| `Portfolios.OnePortfolioPerUser` | `backend/alembic/versions/0013_mf_portfolios.py:84-98` | exactly one portfolio per user of the five tables, and no other |
| `Portfolios.RoundTrip` | `backend/alembic/versions/0013_mf_portfolios.py:165-204` | downgrade straight after upgrade succeeds and gives back the original database |
| `Portfolios.DowngradeFailsIff` | `backend/alembic/versions/0013_mf_portfolios.py:165-190` | under the new constraints the downgrade fails if and only if some user has the same key in two portfolios, in one of the four keyed tables |
| `Portfolios.SecondPortfolioBlocksDowngrade` | `backend/alembic/versions/0013_mf_portfolios.py:165-190` | a user with the same fund in two portfolios: fine for the new constraint, and the downgrade fails |
| `Portfolios.Schema.PointTables` | `backend/alembic/versions/0013_mf_portfolios.py:100-115` | the updates, table by table: every row of a listed table gets its user's portfolio, other tables stay |
| `Portfolios.Schema.RunUpgrade` | `backend/alembic/versions/0013_mf_portfolios.py:38-162` | the migration step refines the specification, including a constraint that cannot be put in place |
| `Portfolios.Schema.RunDowngrade` | `backend/alembic/versions/0013_mf_portfolios.py:165-204` | the same for the way back |
| `Coverage.CoveredAtMostSchemes` | `backend/dhanradar/admin/amc_coverage_router.py:326-336` | an AMC's covered count for a field never exceeds its scheme count |
| `Coverage.SchemesAre` | `backend/dhanradar/admin/amc_coverage_router.py:326-336` | a scheme counts once for an AMC if some row of it is the AMC's, and as covered if some such row has the field |
| `Coverage.RoundIs` | `backend/dhanradar/admin/amc_coverage_router.py:455-475` | a whole number of tenths, the nearest one, of two the even one |
| `Coverage.FractionsAreCells` | `backend/dhanradar/admin/amc_coverage_router.py:449-454` | the loop's sum of shares times the scheme count is exactly the number of covered (scheme, field) pairs |
| `Coverage.AmcError` | `backend/dhanradar/admin/amc_coverage_router.py:455-456` | an AMC's rounded figure times its schemes is within 0.05 per scheme of its exact share |
| `Coverage.CellsArePairs` | `backend/dhanradar/admin/amc_coverage_router.py:449-454` | what is summed are the covered pairs of scheme and field |
| `Coverage.AmcFigure` | `backend/dhanradar/admin/amc_coverage_router.py:449-455` | an AMC's figure is within 0.05 of the percentage of its pairs that are covered, and 0 without schemes |
| `Coverage.TotalsAre` | `backend/dhanradar/admin/amc_coverage_router.py:444-475` | the totals are sums over the AMCs of schemes and covered pairs |
| `Coverage.WeightedError` | `backend/dhanradar/admin/amc_coverage_router.py:446-456` | those errors add up to no more than 0.05 per scheme over any number of AMCs |
| `Coverage.OverallWithinATenth` | `backend/dhanradar/admin/amc_coverage_router.py:444-475` | the overall figure lies in [0, 100] and within 0.1 of the true percentage of covered pairs |
| `Coverage.AmcLine` | `backend/dhanradar/admin/amc_coverage_router.py:449-456` | the inner loop computes the AMC's figure, scheme count and weighted contribution |
| `Coverage.Accumulate` | `backend/dhanradar/admin/amc_coverage_router.py:444-472` | the outer loop: one figure per AMC in order, and the two totals |
| `Coverage.GetCoverage` | `backend/dhanradar/admin/amc_coverage_router.py:444-475` | the endpoint's figures refine the specification, with 0 for an empty fund table |

## Left out

- Redis, Postgres, OpenRouter and HTTP transport: commands are atomic steps, model calls are outcomes, admission by a guard is an input of the gateway model.
- Floating point: rounding error of Redis INCRBYFLOAT and of Python's `round`, NaN caps, and the parsing of cap overrides from text.
- `get_budget_state`, `compute_budget_state`, the soft cap (a warning) and all logging: they never change a result.
- The groundedness judge, latency and call-count metrics and the advisory-breach counter: observational. Failed metric writes are left out with them.
- Pydantic validation of an output: an input of the screen and of the gateway.
- The lower-casing, de-duplication and sorting of the reported hits: the matches themselves are modelled.
- Regular expressions for which a character is a word character: an arbitrary class that has the letters and not the space.
- Whitespace, letters and digits outside ASCII in folios and migration file names, and the ASCII separators 0x1C to 0x1F, which Python's `\s` strips from a folio and this model keeps.
- The checkpoints table of migration 0061: a plain UPDATE with the same expression and no unique key. Also its purge setting, the append-only trigger and NULL values of `updated_at`.
- The hash inside `cas_txn_fingerprint`: an arbitrary function, so the ledger results hold whether or not it collides.
- Deletions and renames in a merge: a base file that the branch deleted or renamed stays in the merged tree, and a branch file that the base deleted comes back.
- File discovery, the reading of `revision` and `down_revision` from source text, and git: the checks start from parsed files and file lists, the new files in sorted order.
- Savepoints, commits of other connections during a session, side effects of unique keys and foreign keys across owners, and the validation of the user id text.
- Portfolio columns other than the owner, and the index on it; row data is carried along untouched.
- The TTL of strike and metric keys: `ThreeStrikeRule` and `PremiumAccounts` are about one UTC day. The order of calls is that of their strike INCRs.
- Cancellation between the end of a premium guard and the metric write that follows it.
- The order, class, staleness and source tags of coverage rows, and NFO and accuracy counts.
- Holdings.NoDoubleSuffixNoneBlocks: one direction only; a folio with two zero suffixes does no harm unless another row stands where it moves to, and the exact condition is that of `Holdings.UpdateSucceedsIff`.
