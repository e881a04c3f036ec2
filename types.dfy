/**
 * The values the outbound-trade checker works on: item references inside an
 * outbound offer, catalog entries, the per-trade-type gain policy, the expiry
 * settings, and what one evaluation produces.
 */
module Types {

  type ItemId = int
  type Uaid = int
  type OfferId = int
  type PartnerId = int
  type TradeType = string

  datatype Option<T> = None | Some(value: T)

  /** One entry of `itemsOffering` / `itemsRequesting`: the catalog id and the owned copy. */
  datatype ItemRef = ItemRef(id: ItemId, uaid: Uaid)

  datatype Whitelist = Whitelist(offer: bool, request: bool)

  /**
   * A catalog entry. `offer` and `request` are the optional value overrides
   * used on the offering and the requesting side respectively.
   */
  datatype Entry = Entry(
    value: int,
    offer: Option<int>,
    request: Option<int>,
    rap: int,
    whitelist: Whitelist)

  /** A pending outbound record; `createdAt` is in milliseconds. */
  datatype Offer = Offer(
    id: OfferId,
    tradeType: TradeType,
    partnerId: PartnerId,
    createdAt: int,
    offering: seq<ItemRef>,
    requesting: seq<ItemRef>)

  /** The `minimum value gain` and `minimum rap gain` ratios of one trade type. */
  datatype GainPolicy = GainPolicy(minValueGain: real, minRapGain: real)

  /** `expire old outbounds` and `max outbound age in hours`. */
  datatype ExpiryPolicy = ExpiryPolicy(enabled: bool, maxAgeHours: real)

  /** Everything one evaluation reads besides the offer and the clock. */
  datatype Env = Env(
    owned: set<Uaid>,
    catalog: map<ItemId, Entry>,
    trading: map<TradeType, GainPolicy>,
    expiry: ExpiryPolicy)

  datatype Reason = Unowned | TooOld | Blacklisted | Loss

  datatype Verdict = Keep | Decline(reason: Reason)

  /**
   * Lookups that throw in the checker: an item id the catalog does not know,
   * and a trade type with no configured gain ratios.
   */
  datatype Fault = UnknownItem | UnknownTradeType(tradeType: TradeType)

  datatype Result<T> = Ok(value: T) | Err(fault: Fault)
}
