# Outbound trade checker

A model of the outbound-offer checker of a trading bot for a virtual-item
exchange (`threads/outbounds.js`). On every pass the checker fetches the
account's pending outbound offers and, for each one in turn, decides whether
to keep it or decline it. The checks run in a fixed order and the first one
that fails decides:

1. **Ownership**: every offered uaid must still be in the owned inventory.
   Requested uaids are never looked at.
2. **Expiry** (only when `expire old outbounds` is on): the offer is too old
   when `createdAt + hours * 3600000 < now`. The comparison is strict.
3. **Eligibility and totals**: every offered item must be whitelisted for
   offering and every requested item for requesting. Meanwhile the value
   (`offer || value` or `request || value`) and the rap of each side are
   summed from zero.
4. **Gain**: requested value and requested rap must each reach the *offered
   value* times the trade type's `minimum value gain` and `minimum rap gain`.

Declining an offer sends a decline request for its id to the platform,
destroys its outbound record and clears the cooldown of its partner.

Files:

- `types.dfy` (module `Types`): offers, item references, catalog entries,
  the gain and expiry settings, the evaluation inputs `Env`, verdicts and
  faults.
- `catalog.dfy` (module `Catalog`): the per-side totals. `Tally` is the
  left-to-right accumulation. `TotalValue`, `TotalRap` and `AnyBlacklisted`
  are independent reference definitions. `Accumulate` is the accumulation
  loop itself.
- `evaluation.dfy` (module `Evaluation`): the pure verdict `Evaluate(o, env, now)`,
  the early-exit method `EvaluateOffer` proved equal to it, and one lemma per
  check.
- `cycle.dfy` (module `Cycle`): the repository and cooldown store
  (`Database`), the platform (`Platform`), the decline effect, and one pass
  `CheckOutbounds`. The pass is specified by the function `Run` over a
  `Store` value. The lemmas give its closed form: what is removed, what is
  cleared, and what is kept.

Inputs that the source reads from its environment are parameters. The
inventory, the catalog, the per-trade-type ratios and the expiry settings are
bundled in `Env`. The clock is a separate argument `now` of `Evaluate`. The
source reads the clock afresh for every offer, so a pass takes one clock
reading per pending offer (`nows`).

The model follows the code in these details:

- The value override is taken with `||`: an override that is absent or `0`
  falls back to the base value, and any other override replaces it.
- A catalog lookup of an unknown item, or a trade type with no configured
  ratios, throws. Such failures are not isolated per offer. The model returns
  a `Fault`; it ends the pass at that offer, and the offers after it stay
  unprocessed.
- A missing trade type matters only for an offer that reaches the gain
  check. A missing catalog entry is looked up only after ownership and
  expiry have passed. On the offering side it is found before the requested
  items are looked up.

## Model

| member | source | states |
|---|---|---|
| Catalog.TallyMeaning | threads/outbounds.js:48-74 | The walk over one side yields the sum of `offer`/`request` when that override is present and nonzero, else `value`; the sum of `rap`; and a flag set exactly when some item is not whitelisted for that side. All start from zero and a clear flag |
| Catalog.TallyIgnoresUaids | threads/outbounds.js:52-74 | The totals depend only on the items' catalog ids, never on their uaids |
| Catalog.Accumulate | threads/outbounds.js:48-74 | The accumulation loop succeeds exactly when every item is in the catalog and then returns the walk's totals; otherwise it fails with an unknown-item fault |
| Evaluation.EvaluateOffer | threads/outbounds.js:18-97 | The per-offer loop body with its early exits computes exactly the verdict (or fault) of `Evaluate` |
| Evaluation.UnownedDecidesFirst | threads/outbounds.js:24-39 | The verdict is "decline as unowned" exactly when some offered uaid is not owned, whatever the age, items, totals or trade type |
| Evaluation.RequestedUaidsIgnored | threads/outbounds.js:22-35 | Changing the uaids of the requested items (same item ids) never changes the verdict |
| Evaluation.ExpiryDecides | threads/outbounds.js:40-45 | Once ownership passes, the offer is declined as too old exactly when expiry is enabled and `createdAt + hours * 3600000 < now` |
| Evaluation.AtAgeLimitNotExpired | threads/outbounds.js:41 | An offer exactly at the age limit is not declined as too old |
| Evaluation.ExpiryDisabledNeverExpires | threads/outbounds.js:40 | With expiry disabled no offer is declined for its age |
| Evaluation.BlacklistDominates | threads/outbounds.js:55-81 | Past ownership and expiry, with all items known, the offer is declined as blacklisted exactly when some offered item lacks `whitelist.offer` or some requested item lacks `whitelist.request`, whatever the totals |
| Evaluation.GainDecides | threads/outbounds.js:83-97 | An offer that passes the earlier checks is either kept or declined as a loss. It is kept exactly when requested value >= offered value * value ratio and requested rap >= offered value * rap ratio; both minimums scale off the offered value |
| Evaluation.FaultsOnlyPastEarlyChecks | threads/outbounds.js:52-84 | An unknown item faults exactly when ownership and expiry pass and some item is missing from the catalog; a missing trade type faults exactly when every earlier check passes |
| Evaluation.ScenarioWin | threads/outbounds.js:84-90 | An owned, whitelisted offer of one item of value 100 for one item of value 150 and rap 50, with ratios 1.2 and 0.3, is kept |
| Evaluation.ScenarioRapLoss | threads/outbounds.js:84-96 | The same offer with requested rap 20 is declined as a loss, although its value gain passes |
| Cycle.FirstFault | threads/outbounds.js:17-98 | The pass gets through every offer before the first one whose lookups fail, and stops at that one |
| Cycle.RemainingStep | threads/outbounds.js:31 | Destroying one more record after earlier ones equals removing all of their ids at once |
| Cycle.DeclinedIdsMembership | threads/outbounds.js:29-33 | An id is sent to the platform exactly when some offer with that id is declined |
| Cycle.DeclinedIdsAppend | threads/outbounds.js:17-98 | One offer's verdict depends only on that offer and its own clock reading, not on the other offers: the declines of a concatenated list are the declines of each part, in order |
| Cycle.DeclinedOnce | threads/outbounds.js:35-97 | With distinct offer ids, no id is declined twice in a pass |
| Cycle.EveryOfferOneVerdict | threads/outbounds.js:35-97 | In a pass without a fault each offer is either kept or declined, never both: declines plus kept offers number exactly the offers |
| Cycle.RepositoryHoldsKept | threads/outbounds.js:29-33 | After a pass without a fault, with distinct ids, the repository holds exactly the offers whose verdict is Keep, unchanged and in order |
| Cycle.RunEffect | threads/outbounds.js:29-33 | Handling a list removes exactly the declined ids from the repository, clears exactly the declined partners' cooldowns and sends exactly the declined ids to the platform, in order |
| Cycle.Database.Destroy | threads/outbounds.js:31 | Destroying removes the record with that id and leaves the cooldowns alone |
| Cycle.Database.ClearPlayerCooldown | threads/outbounds.js:32 | Clearing removes that partner's cooldown and leaves the records alone |
| Cycle.Platform.DeclineTrade | threads/outbounds.js:30 | A decline request for that id is sent |
| Cycle.DeclineOutbound | threads/outbounds.js:29-33 | A decline performs exactly the three effects: request, removal, cooldown cleared |
| Cycle.HandleOffer | threads/outbounds.js:17-97 | One offer is evaluated, and the store changes only when the verdict is a decline, by exactly the decline effect |
| Cycle.CheckOutbounds | threads/outbounds.js:7-99 | A pass checks each pending offer at its own clock reading and returns the first fault, if any. It declines exactly the declined offers before that fault, in order: their ids are sent, their records removed and their partners' cooldowns cleared. Without a fault and with distinct ids, the repository afterwards holds exactly the kept offers |

## Left out

- Database access, the platform client and the catalog store are foreign I/O. They appear only as the abstract `Database` and `Platform` state and the catalog map.
- The platform's decline call is not awaited in the source. The model performs it as a step that always happens; its failure is not modelled.
- A failure of the record removal or of the cooldown clear (a rejected promise) is not modelled.
- The endless poll loop and the five-second sleep in `main` are unbounded scheduling and are left out. One pass is modelled. The source's `main` also stops for good when a pass throws; the model only returns the fault.
- `Date.now()` and configuration loading: the clock readings (one per offer), the expiry settings and the per-trade-type ratios are parameters.
- Cycle.CheckOutbounds: assumes that nothing else writes the outbound records or the cooldowns while the pass awaits `destroy` and `clearPlayerCooldown`. The pass starts from the list it fetched, and its effects are stated against the repository as it was at that fetch.
- The source re-reads the inventory for every offer. The model uses one inventory snapshot per pass, since declining an outbound does not change the inventory.
- Floating point: values and rap are unbounded integers, the ratios and the age limit are exact reals, and the comparisons are exact. Rounding of doubles is not modelled.
- JavaScript truthiness beyond the cases above (an override that is `NaN`, a missing `value`, a missing age setting that makes the comparison `NaN`) is not modelled.
- Log messages and number formatting are presentation only. The message for an unowned offered item speaks of blacklisted "offering/requesting" items, but only offered uaids are checked.
