/**
 * The keep-or-decline policy applied to one pending outbound offer: ownership,
 * then expiry (when enabled), then eligibility with the value and rap totals,
 * then the gain threshold. The first failing check decides.
 */
module Evaluation {
  import opened Types
  import opened Catalog

  const MS_PER_HOUR: int := 60 * 60 * 1000

  /** Every offered uaid is still in the owned inventory. */
  predicate OwnsAll(items: seq<ItemRef>, owned: set<Uaid>) {
    forall i | 0 <= i < |items| :: items[i].uaid in owned
  }

  /** Expiry is enabled and the offer was created more than the allowed age before `now`. */
  predicate TooOldAt(createdAt: int, expiry: ExpiryPolicy, now: int) {
    expiry.enabled && (createdAt as real) + expiry.maxAgeHours * (MS_PER_HOUR as real) < now as real
  }

  /** Both minimums are scaled from the offered value. */
  predicate MeetsGain(valueOffering: int, requesting: Totals, gain: GainPolicy) {
    && requesting.value as real >= valueOffering as real * gain.minValueGain
    && requesting.rap as real >= valueOffering as real * gain.minRapGain
  }

  /** The verdict on `o` when the clock reads `now` (milliseconds). */
  function Evaluate(o: Offer, env: Env, now: int): Result<Verdict> {
    if !OwnsAll(o.offering, env.owned) then Ok(Decline(Unowned))
    else if TooOldAt(o.createdAt, env.expiry, now) then Ok(Decline(TooOld))
    else if !Known(o.offering, env.catalog) || !Known(o.requesting, env.catalog) then Err(UnknownItem)
    else
      var offering := Tally(o.offering, env.catalog, Offering);
      var requesting := Tally(o.requesting, env.catalog, Requesting);
      if offering.blacklisted || requesting.blacklisted then Ok(Decline(Blacklisted))
      else if o.tradeType !in env.trading then Err(UnknownTradeType(o.tradeType))
      else if MeetsGain(offering.value, requesting, env.trading[o.tradeType]) then Ok(Keep)
      else Ok(Decline(Loss))
  }

  /** The body of the checker's per-offer loop, with its early exits. */
  method EvaluateOffer(o: Offer, env: Env, now: int) returns (r: Result<Verdict>)
    ensures r == Evaluate(o, env, now)
  {
    if !OwnsAll(o.offering, env.owned) {
      return Ok(Decline(Unowned));
    }
    if env.expiry.enabled {
      if (o.createdAt as real) + env.expiry.maxAgeHours * (MS_PER_HOUR as real) < now as real {
        return Ok(Decline(TooOld));
      }
    }
    var offering := Accumulate(o.offering, env.catalog, Offering);
    if offering.Err? {
      return Err(offering.fault);
    }
    var requesting := Accumulate(o.requesting, env.catalog, Requesting);
    if requesting.Err? {
      return Err(requesting.fault);
    }
    if offering.value.blacklisted || requesting.value.blacklisted {
      return Ok(Decline(Blacklisted));
    }
    if o.tradeType !in env.trading {
      return Err(UnknownTradeType(o.tradeType));
    }
    var gain := env.trading[o.tradeType];
    var minimumValueGain := offering.value.value as real * gain.minValueGain;
    var minimumRapGain := offering.value.value as real * gain.minRapGain;
    if requesting.value.value as real >= minimumValueGain && requesting.value.rap as real >= minimumRapGain {
      r := Ok(Keep);
    } else {
      r := Ok(Decline(Loss));
    }
  }

  /**
   * An offer is declined as unowned exactly when some offered uaid is missing
   * from the inventory, whatever its age, items, totals or trade type.
   */
  lemma UnownedDecidesFirst(o: Offer, env: Env, now: int)
    ensures Evaluate(o, env, now) == Ok(Decline(Unowned))
        <==> exists i | 0 <= i < |o.offering| :: o.offering[i].uaid !in env.owned
  {
  }

  /** Requested uaids are never checked: replacing them changes nothing. */
  lemma RequestedUaidsIgnored(o: Offer, env: Env, now: int, requesting: seq<ItemRef>)
    requires |requesting| == |o.requesting|
    requires forall i | 0 <= i < |requesting| :: requesting[i].id == o.requesting[i].id
    ensures Evaluate(o.(requesting := requesting), env, now) == Evaluate(o, env, now)
  {
    var o' := o.(requesting := requesting);
    assert Known(o'.requesting, env.catalog) <==> Known(o.requesting, env.catalog);
    if Known(o.requesting, env.catalog) {
      TallyIgnoresUaids(o.requesting, requesting, env.catalog, Requesting);
    }
  }

  /**
   * Once ownership passes, the offer is declined as too old exactly when
   * expiry is enabled and `createdAt + hours * 3600000 < now`.
   */
  lemma ExpiryDecides(o: Offer, env: Env, now: int)
    requires OwnsAll(o.offering, env.owned)
    ensures Evaluate(o, env, now) == Ok(Decline(TooOld))
        <==> env.expiry.enabled
             && (o.createdAt as real) + env.expiry.maxAgeHours * 3600000.0 < now as real
  {
  }

  /** The comparison is strict: an offer exactly at the age limit is not expired. */
  lemma AtAgeLimitNotExpired(o: Offer, env: Env, now: int)
    requires (o.createdAt as real) + env.expiry.maxAgeHours * 3600000.0 == now as real
    ensures Evaluate(o, env, now) != Ok(Decline(TooOld))
  {
  }

  /** With expiry disabled no offer is ever declined for its age. */
  lemma ExpiryDisabledNeverExpires(o: Offer, env: Env, now: int)
    requires !env.expiry.enabled
    ensures Evaluate(o, env, now) != Ok(Decline(TooOld))
  {
  }

  /**
   * Past ownership and expiry, with every item in the catalog, the offer is
   * declined as blacklisted exactly when some offered item is not whitelisted
   * for offering or some requested item is not whitelisted for requesting,
   * whatever the totals and the trade type.
   */
  lemma BlacklistDominates(o: Offer, env: Env, now: int)
    requires OwnsAll(o.offering, env.owned) && !TooOldAt(o.createdAt, env.expiry, now)
    requires Known(o.offering, env.catalog) && Known(o.requesting, env.catalog)
    ensures Evaluate(o, env, now) == Ok(Decline(Blacklisted))
        <==> (exists i | 0 <= i < |o.offering| :: !env.catalog[o.offering[i].id].whitelist.offer)
             || (exists j | 0 <= j < |o.requesting| :: !env.catalog[o.requesting[j].id].whitelist.request)
  {
    TallyMeaning(o.offering, env.catalog, Offering);
    TallyMeaning(o.requesting, env.catalog, Requesting);
  }

  /**
   * An offer that passes ownership, expiry and eligibility is kept exactly
   * when the requested value and the requested rap each reach the offered
   * value times the trade type's ratio; otherwise it is declined as a loss.
   */
  lemma GainDecides(o: Offer, env: Env, now: int)
    requires OwnsAll(o.offering, env.owned) && !TooOldAt(o.createdAt, env.expiry, now)
    requires Known(o.offering, env.catalog) && Known(o.requesting, env.catalog)
    requires !AnyBlacklisted(o.offering, env.catalog, Offering)
    requires !AnyBlacklisted(o.requesting, env.catalog, Requesting)
    requires o.tradeType in env.trading
    ensures Evaluate(o, env, now) == Ok(Keep) || Evaluate(o, env, now) == Ok(Decline(Loss))
    ensures var gain := env.trading[o.tradeType];
            var valueOffering := TotalValue(o.offering, env.catalog, Offering) as real;
            (Evaluate(o, env, now) == Ok(Keep)
             <==> TotalValue(o.requesting, env.catalog, Requesting) as real >= valueOffering * gain.minValueGain
                  && TotalRap(o.requesting, env.catalog) as real >= valueOffering * gain.minRapGain)
  {
    TallyMeaning(o.offering, env.catalog, Offering);
    TallyMeaning(o.requesting, env.catalog, Requesting);
  }

  /**
   * A catalog or configuration lookup can fail only for an offer that passed
   * ownership and expiry; a missing trade type matters only for an offer
   * whose items are all known and whitelisted.
   */
  lemma FaultsOnlyPastEarlyChecks(o: Offer, env: Env, now: int)
    ensures Evaluate(o, env, now).Err? ==> OwnsAll(o.offering, env.owned) && !TooOldAt(o.createdAt, env.expiry, now)
    ensures Evaluate(o, env, now) == Err(UnknownItem)
        <==> OwnsAll(o.offering, env.owned) && !TooOldAt(o.createdAt, env.expiry, now)
             && !(Known(o.offering, env.catalog) && Known(o.requesting, env.catalog))
    ensures Evaluate(o, env, now) == Err(UnknownTradeType(o.tradeType))
        <==> OwnsAll(o.offering, env.owned) && !TooOldAt(o.createdAt, env.expiry, now)
             && Known(o.offering, env.catalog) && Known(o.requesting, env.catalog)
             && !AnyBlacklisted(o.offering, env.catalog, Offering)
             && !AnyBlacklisted(o.requesting, env.catalog, Requesting)
             && o.tradeType !in env.trading
  {
    if Known(o.offering, env.catalog) && Known(o.requesting, env.catalog) {
      TallyMeaning(o.offering, env.catalog, Offering);
      TallyMeaning(o.requesting, env.catalog, Requesting);
    }
  }

  /** One offered item of value 100 and one requested item of value 150 and the given rap, ratios 1.2 and 0.3. */
  function ScenarioOffer(): Offer {
    Offer(1, "t", 9, 0, [ItemRef(1, 7)], [ItemRef(2, 8)])
  }

  function ScenarioEnv(requestedRap: int): Env {
    Env({7},
        map[1 := Entry(100, None, None, 10, Whitelist(true, true)),
            2 := Entry(150, None, None, requestedRap, Whitelist(true, true))],
        map["t" := GainPolicy(1.2, 0.3)],
        ExpiryPolicy(false, 1.0))
  }

  /** Requested value 150 and rap 50 reach the minimums 120 and 30: the offer is kept. */
  lemma ScenarioWin()
    ensures Evaluate(ScenarioOffer(), ScenarioEnv(50), 0) == Ok(Keep)
  {
    assert [ItemRef(1, 7)][..0] == [];
    assert [ItemRef(2, 8)][..0] == [];
  }

  /** The same offer with requested rap 20 misses the rap minimum of 30: it is declined as a loss. */
  lemma ScenarioRapLoss()
    ensures Evaluate(ScenarioOffer(), ScenarioEnv(20), 0) == Ok(Decline(Loss))
  {
    assert [ItemRef(1, 7)][..0] == [];
    assert [ItemRef(2, 8)][..0] == [];
  }
}
