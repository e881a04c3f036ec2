/**
 * One pass of the outbound checker over the pending offers: each offer is
 * evaluated on its own, at its own clock reading, and a declined one is
 * cancelled on the platform, removed from the outbound repository and its
 * partner's cooldown cleared.
 *
 * The clock is read once per offer, so a pass is given the readings `nows`,
 * one for each pending offer in order.
 */
module Cycle {
  import opened Types
  import opened Catalog
  import opened Evaluation

  /** The offer gets a decline verdict when checked at `now`. */
  predicate IsDeclined(o: Offer, env: Env, now: int) {
    var r := Evaluate(o, env, now);
    r.Ok? && r.value.Decline?
  }

  function Ids(offers: seq<Offer>): seq<OfferId> {
    seq(|offers|, i requires 0 <= i < |offers| => offers[i].id)
  }

  predicate NoDuplicates(ids: seq<OfferId>) {
    forall i, j | 0 <= i < j < |ids| :: ids[i] != ids[j]
  }

  predicate IdsDistinct(offers: seq<Offer>) {
    NoDuplicates(Ids(offers))
  }

  /**
   * How many offers a pass gets through: every offer before the result has a
   * verdict, and the offer at the result (if any) is the first whose lookup
   * fails, which ends the pass.
   */
  function FirstFault(offers: seq<Offer>, nows: seq<int>, env: Env): (k: nat)
    requires |nows| == |offers|
    ensures k <= |offers|
    ensures forall j | 0 <= j < k :: Evaluate(offers[j], env, nows[j]).Ok?
    ensures k < |offers| ==> Evaluate(offers[k], env, nows[k]).Err?
  {
    if offers == [] then 0
    else if Evaluate(offers[0], env, nows[0]).Err? then 0
    else 1 + FirstFault(offers[1..], nows[1..], env)
  }

  /** An offer with a verdict, reached before the first fault, is passed over. */
  lemma PastFault(offers: seq<Offer>, nows: seq<int>, i: nat, env: Env)
    requires |nows| == |offers|
    requires i < |offers| && i <= FirstFault(offers, nows, env)
    ensures Evaluate(offers[i], env, nows[i]).Ok? <==> i < FirstFault(offers, nows, env)
  {
  }

  /** Ids of the declined offers, in the order they are declined. */
  function DeclinedIds(offers: seq<Offer>, nows: seq<int>, env: Env): seq<OfferId>
    requires |nows| == |offers|
  {
    if offers == [] then []
    else
      var n := |offers| - 1;
      DeclinedIds(offers[..n], nows[..n], env) + if IsDeclined(offers[n], env, nows[n]) then [offers[n].id] else []
  }

  /** Partners of the declined offers. */
  function DeclinedPartners(offers: seq<Offer>, nows: seq<int>, env: Env): set<PartnerId>
    requires |nows| == |offers|
  {
    if offers == [] then {}
    else
      var n := |offers| - 1;
      DeclinedPartners(offers[..n], nows[..n], env)
        + if IsDeclined(offers[n], env, nows[n]) then {offers[n].partnerId} else {}
  }

  /** The records whose id is not among `ids`, in their original order. */
  function Remaining(records: seq<Offer>, ids: seq<OfferId>): seq<Offer> {
    if records == [] then []
    else (if records[0].id in ids then [] else [records[0]]) + Remaining(records[1..], ids)
  }

  /** The offers whose verdict is Keep, in their original order. */
  function Kept(offers: seq<Offer>, nows: seq<int>, env: Env): seq<Offer>
    requires |nows| == |offers|
  {
    if offers == [] then []
    else
      (if Evaluate(offers[0], env, nows[0]) == Ok(Keep) then [offers[0]] else [])
        + Kept(offers[1..], nows[1..], env)
  }

  /** Removing one more id from the remaining records is removing it from the start. */
  lemma {:induction false} RemainingStep(records: seq<Offer>, ids: seq<OfferId>, id: OfferId)
    ensures Remaining(Remaining(records, ids), [id]) == Remaining(records, ids + [id])
  {
    if records != [] {
      RemainingStep(records[1..], ids, id);
      var rest := Remaining(records[1..], ids);
      assert records[0].id in ids + [id] <==> records[0].id in ids || records[0].id == id;
      if records[0].id in ids {
        assert Remaining(records, ids) == rest;
      } else {
        var r := [records[0]] + rest;
        assert Remaining(records, ids) == r;
        assert r[0] == records[0] && r[1..] == rest;
      }
    }
  }

  /** Removing no ids keeps every record. */
  lemma {:induction false} RemainingNone(records: seq<Offer>)
    ensures Remaining(records, []) == records
  {
    if records != [] {
      RemainingNone(records[1..]);
    }
  }

  lemma {:induction false} RemainingIsKept(records: seq<Offer>, nows: seq<int>, ids: seq<OfferId>, env: Env)
    requires |nows| == |records|
    requires forall i | 0 <= i < |records| :: records[i].id in ids <==> Evaluate(records[i], env, nows[i]) != Ok(Keep)
    ensures Remaining(records, ids) == Kept(records, nows, env)
  {
    if records != [] {
      RemainingIsKept(records[1..], nows[1..], ids, env);
    }
  }

  /** An id is in the declined list exactly when some offer with that id is declined. */
  lemma {:induction false} DeclinedIdsMembership(offers: seq<Offer>, nows: seq<int>, env: Env, id: OfferId)
    requires |nows| == |offers|
    ensures id in DeclinedIds(offers, nows, env)
        <==> exists j | 0 <= j < |offers| :: offers[j].id == id && IsDeclined(offers[j], env, nows[j])
  {
    if offers != [] {
      var n := |offers| - 1;
      DeclinedIdsMembership(offers[..n], nows[..n], env, id);
      assert forall j | 0 <= j < n :: offers[..n][j] == offers[j] && nows[..n][j] == nows[j];
    }
  }

  /**
   * One offer's verdict depends only on that offer and its own clock reading,
   * not on the others: the declines of a concatenation are the declines of
   * each part, in order.
   */
  lemma {:induction false} DeclinedIdsAppend(a: seq<Offer>, nowsA: seq<int>, b: seq<Offer>, nowsB: seq<int>, env: Env)
    requires |nowsA| == |a| && |nowsB| == |b|
    ensures DeclinedIds(a + b, nowsA + nowsB, env) == DeclinedIds(a, nowsA, env) + DeclinedIds(b, nowsB, env)
  {
    if b == [] {
      assert a + b == a && nowsA + nowsB == nowsA;
    } else {
      var n := |b| - 1;
      assert (a + b)[..|a + b| - 1] == a + b[..n];
      assert (nowsA + nowsB)[..|a + b| - 1] == nowsA + nowsB[..n];
      assert (a + b)[|a + b| - 1] == b[n] && (nowsA + nowsB)[|a + b| - 1] == nowsB[n];
      DeclinedIdsAppend(a, nowsA, b[..n], nowsB[..n], env);
    }
  }

  /** With distinct offer ids, no offer is declined twice in a pass. */
  lemma {:induction false} DeclinedOnce(offers: seq<Offer>, nows: seq<int>, env: Env)
    requires |nows| == |offers|
    requires IdsDistinct(offers)
    ensures NoDuplicates(DeclinedIds(offers, nows, env))
  {
    if offers != [] {
      var n := |offers| - 1;
      var init := offers[..n];
      assert forall j | 0 <= j < n :: init[j] == offers[j] && Ids(init)[j] == Ids(offers)[j];
      assert forall j | 0 <= j < n :: init[j].id != offers[n].id by {
        forall j | 0 <= j < n ensures init[j].id != offers[n].id {
          assert Ids(offers)[j] != Ids(offers)[n];
        }
      }
      DeclinedOnce(init, nows[..n], env);
      DeclinedIdsMembership(init, nows[..n], env, offers[n].id);
    }
  }

  /** In a pass that meets no fault every offer gets exactly one verdict: kept or declined. */
  lemma {:induction false} EveryOfferOneVerdict(offers: seq<Offer>, nows: seq<int>, env: Env)
    requires |nows| == |offers|
    requires FirstFault(offers, nows, env) == |offers|
    ensures |DeclinedIds(offers, nows, env)| + |Kept(offers, nows, env)| == |offers|
  {
    if offers != [] {
      assert offers == [offers[0]] + offers[1..] && nows == [nows[0]] + nows[1..];
      DeclinedIdsAppend([offers[0]], [nows[0]], offers[1..], nows[1..], env);
      assert [offers[0]][..0] == [] && [nows[0]][..0] == [];
      EveryOfferOneVerdict(offers[1..], nows[1..], env);
    }
  }

  /**
   * After a pass that met no fault, with distinct offer ids, the repository
   * holds exactly the offers whose verdict is Keep, unchanged and in order.
   */
  lemma RepositoryHoldsKept(offers: seq<Offer>, nows: seq<int>, env: Env)
    requires |nows| == |offers|
    requires IdsDistinct(offers)
    requires FirstFault(offers, nows, env) == |offers|
    ensures Remaining(offers, DeclinedIds(offers, nows, env)) == Kept(offers, nows, env)
  {
    var ids := DeclinedIds(offers, nows, env);
    forall i | 0 <= i < |offers|
      ensures offers[i].id in ids <==> Evaluate(offers[i], env, nows[i]) != Ok(Keep)
    {
      DeclinedIdsMembership(offers, nows, env, offers[i].id);
      forall j | 0 <= j < |offers| && j != i ensures offers[j].id != offers[i].id {
        if j < i { assert Ids(offers)[j] != Ids(offers)[i]; } else { assert Ids(offers)[i] != Ids(offers)[j]; }
      }
    }
    RemainingIsKept(offers, nows, ids, env);
  }

  /** The state a pass changes: the repository, the cooldowns and the requests sent to the platform. */
  datatype Store = Store(outbounds: seq<Offer>, cooldowns: set<PartnerId>, declineRequests: seq<OfferId>)

  /** The effect of declining `o`: cancel it, remove its record, clear its partner's cooldown. */
  function DeclineEffect(s: Store, o: Offer): Store {
    Store(Remaining(s.outbounds, [o.id]), s.cooldowns - {o.partnerId}, s.declineRequests + [o.id])
  }

  /** The store after handling `offers` in order, each one on its own verdict at its own clock reading. */
  function Run(s: Store, offers: seq<Offer>, nows: seq<int>, env: Env): Store
    requires |nows| == |offers|
  {
    if offers == [] then s
    else
      var n := |offers| - 1;
      var t := Run(s, offers[..n], nows[..n], env);
      if IsDeclined(offers[n], env, nows[n]) then DeclineEffect(t, offers[n]) else t
  }

  /**
   * Handling a list of offers removes exactly the declined ids from the
   * repository, clears exactly the declined partners' cooldowns and sends
   * exactly the declined ids to the platform, in order.
   */
  lemma {:induction false} RunEffect(s: Store, offers: seq<Offer>, nows: seq<int>, env: Env)
    requires |nows| == |offers|
    ensures Run(s, offers, nows, env)
         == Store(Remaining(s.outbounds, DeclinedIds(offers, nows, env)),
                  s.cooldowns - DeclinedPartners(offers, nows, env),
                  s.declineRequests + DeclinedIds(offers, nows, env))
  {
    if offers == [] {
      RemainingNone(s.outbounds);
    } else {
      var n := |offers| - 1;
      RunEffect(s, offers[..n], nows[..n], env);
      var ids := DeclinedIds(offers[..n], nows[..n], env);
      if IsDeclined(offers[n], env, nows[n]) {
        RemainingStep(s.outbounds, ids, offers[n].id);
        assert DeclinedIds(offers, nows, env) == ids + [offers[n].id];
        assert s.declineRequests + ids + [offers[n].id] == s.declineRequests + (ids + [offers[n].id]);
      } else {
        assert DeclinedIds(offers, nows, env) == ids;
      }
    }
  }

  /** Extending the handled prefix by one offer applies that offer's verdict. */
  lemma RunStep(s: Store, offers: seq<Offer>, nows: seq<int>, i: nat, env: Env)
    requires |nows| == |offers| && i < |offers|
    ensures Run(s, offers[..i + 1], nows[..i + 1], env)
         == if IsDeclined(offers[i], env, nows[i]) then DeclineEffect(Run(s, offers[..i], nows[..i], env), offers[i])
            else Run(s, offers[..i], nows[..i], env)
  {
    assert offers[..i + 1][..i] == offers[..i];
    assert nows[..i + 1][..i] == nows[..i];
  }

  /** The outbound records and the per-partner cooldowns. */
  class Database {
    var outbounds: seq<Offer>
    var cooldowns: set<PartnerId>

    constructor (outbounds: seq<Offer>, cooldowns: set<PartnerId>)
      ensures this.outbounds == outbounds && this.cooldowns == cooldowns
    {
      this.outbounds := outbounds;
      this.cooldowns := cooldowns;
    }

    method GetOutbounds() returns (r: seq<Offer>)
      ensures r == outbounds
    {
      r := outbounds;
    }

    /** Removes the outbound record with this id. */
    method Destroy(id: OfferId)
      modifies this
      ensures outbounds == Remaining(old(outbounds), [id])
      ensures cooldowns == old(cooldowns)
    {
      outbounds := Remaining(outbounds, [id]);
    }

    method ClearPlayerCooldown(partnerId: PartnerId)
      modifies this
      ensures cooldowns == old(cooldowns) - {partnerId}
      ensures outbounds == old(outbounds)
    {
      cooldowns := cooldowns - {partnerId};
    }
  }

  /** The trading platform, seen only through the decline requests sent to it. */
  class Platform {
    var declineRequests: seq<OfferId>

    constructor ()
      ensures declineRequests == []
    {
      declineRequests := [];
    }

    method DeclineTrade(id: OfferId)
      modifies this
      ensures declineRequests == old(declineRequests) + [id]
    {
      declineRequests := declineRequests + [id];
    }
  }

  ghost function StoreOf(db: Database, platform: Platform): Store
    reads db, platform
  {
    Store(db.outbounds, db.cooldowns, platform.declineRequests)
  }

  /** Cancels the trade, removes its record and clears its partner's cooldown. */
  method DeclineOutbound(db: Database, platform: Platform, o: Offer)
    modifies db, platform
    ensures StoreOf(db, platform) == DeclineEffect(old(StoreOf(db, platform)), o)
  {
    platform.DeclineTrade(o.id);
    db.Destroy(o.id);
    db.ClearPlayerCooldown(o.partnerId);
  }

  /** The loop body of a pass: evaluates one offer at `now` and carries out a decline. */
  method HandleOffer(db: Database, platform: Platform, o: Offer, env: Env, now: int) returns (verdict: Result<Verdict>)
    modifies db, platform
    ensures verdict == Evaluate(o, env, now)
    ensures StoreOf(db, platform)
         == if verdict.Ok? && verdict.value.Decline? then DeclineEffect(old(StoreOf(db, platform)), o)
            else old(StoreOf(db, platform))
  {
    verdict := EvaluateOffer(o, env, now);
    if verdict.Ok? && verdict.value.Decline? {
      DeclineOutbound(db, platform, o);
    }
  }

  /**
   * One pass over the pending outbounds; `nows[i]` is the clock reading when
   * the i-th pending offer is checked. Offers before the first fault are
   * each evaluated once; the declined ones are cancelled, removed and have
   * their partner's cooldown cleared, in order. A fault ends the pass and is
   * returned; the offers from there on are left untouched.
   */
  method CheckOutbounds(db: Database, platform: Platform, env: Env, nows: seq<int>) returns (fault: Option<Fault>)
    requires |nows| == |db.outbounds|
    modifies db, platform
    ensures var pending := old(db.outbounds);
            var k := FirstFault(pending, nows, env);
            && fault == (if k < |pending| then Some(Evaluate(pending[k], env, nows[k]).fault) else None)
            && StoreOf(db, platform) == Run(old(StoreOf(db, platform)), pending[..k], nows[..k], env)
            && db.outbounds == Remaining(pending, DeclinedIds(pending[..k], nows[..k], env))
            && db.cooldowns == old(db.cooldowns) - DeclinedPartners(pending[..k], nows[..k], env)
            && platform.declineRequests == old(platform.declineRequests) + DeclinedIds(pending[..k], nows[..k], env)
    ensures fault == None && IdsDistinct(old(db.outbounds))
            ==> db.outbounds == Kept(old(db.outbounds), nows, env)
  {
    ghost var start := StoreOf(db, platform);
    var pending := db.GetOutbounds();
    var i := 0;
    while i < |pending|
      invariant 0 <= i <= |pending|
      invariant i <= FirstFault(pending, nows, env)
      invariant StoreOf(db, platform) == Run(start, pending[..i], nows[..i], env)
    {
      var outbound, now := pending[i], nows[i];
      RunStep(start, pending, nows, i, env);
      PastFault(pending, nows, i, env);
      var verdict := HandleOffer(db, platform, outbound, env, now);
      if verdict.Err? {
        assert FirstFault(pending, nows, env) == i;
        RunEffect(start, pending[..i], nows[..i], env);
        return Some(verdict.fault);
      }
      i := i + 1;
    }
    assert FirstFault(pending, nows, env) == i && pending[..i] == pending && nows[..i] == nows;
    fault := None;
    RunEffect(start, pending, nows, env);
    if IdsDistinct(pending) {
      RepositoryHoldsKept(pending, nows, env);
    }
  }
}
