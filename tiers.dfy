/** The partner programme's tiers: an amount (payments received, or won revenue in the
    older revision) and the partner's type select a tier and its commission rate.
    Both revisions of the dashboard carry the same thresholds and rates. */
module Tiers {
  import opened Wrappers

  /** The two partner types that have thresholds. */
  datatype PartnerType = Finder | Seller

  /** The tier names, 'N/A' below the lowest threshold. */
  datatype TierName = Diamante | Ouro | Prata | NotApplicable

  /** The part of a tier the logic uses: its name and commission rate in percent. */
  datatype Tier = Tier(name: TierName, commissionRate: nat)

  /** `partner.type || 'FINDER'` looked up in the threshold table: a missing or empty
      type counts as FINDER, and FINDER and SELLER have thresholds. Any other type is
      None here, where the lookup finds no table (see the README for the keys of the
      table object that do not throw). */
  function TypeOf(kind: string): (r: Option<PartnerType>)
    ensures r == Some(Finder) <==> kind == "" || kind == "FINDER"
    ensures r == Some(Seller) <==> kind == "SELLER"
    ensures r.None? <==> kind !in {"", "FINDER", "SELLER"}
  {
    if kind == "" || kind == "FINDER" then Some(Finder)
    else if kind == "SELLER" then Some(Seller)
    else None
  }

  /** The lowest amount of the Diamante tier (30001 for finders, 20001 for sellers). */
  function DiamanteMin(t: PartnerType): int {
    match t
    case Finder => 30001
    case Seller => 20001
  }

  /** The lowest amount of the Ouro tier, the same for both types. */
  const OuroMin: int := 5001

  /** The lowest amount of the Prata tier. */
  const PrataMin: int := 499

  /** The commission rate table. */
  function Rate(name: TierName, t: PartnerType): nat {
    match (name, t)
    case (Diamante, Finder) => 15
    case (Diamante, Seller) => 25
    case (Ouro, Finder) => 10
    case (Ouro, Seller) => 20
    case (Prata, Finder) => 5
    case (Prata, Seller) => 15
    case (NotApplicable, _) => 0
  }

  /** `getPartnerDetails(amount, type)`: the thresholds are tried from the highest tier
      down, each with `>=`. */
  function PartnerDetails(amount: real, t: PartnerType): (r: Tier)
    ensures r.commissionRate == Rate(r.name, t)
  {
    if amount >= DiamanteMin(t) as real then Tier(Diamante, Rate(Diamante, t))
    else if amount >= OuroMin as real then Tier(Ouro, Rate(Ouro, t))
    else if amount >= PrataMin as real then Tier(Prata, Rate(Prata, t))
    else Tier(NotApplicable, 0)
  }

  /** `getPartnerDetails(amount, partner.type || 'FINDER')`, None where it throws. */
  function DetailsForKind(amount: real, kind: string): (r: Option<Tier>)
    ensures r.Some? <==> TypeOf(kind).Some?
  {
    match TypeOf(kind)
    case None => None
    case Some(t) => Some(PartnerDetails(amount, t))
  }

  /** The position of a tier, lowest first. */
  function Rank(name: TierName): nat {
    match name
    case NotApplicable => 0
    case Prata => 1
    case Ouro => 2
    case Diamante => 3
  }

  /** Each tier holds exactly the amounts of its band. */
  lemma TierBands(amount: real, t: PartnerType)
    ensures PartnerDetails(amount, t).name == Diamante <==> amount >= DiamanteMin(t) as real
    ensures PartnerDetails(amount, t).name == Ouro <==> OuroMin as real <= amount < DiamanteMin(t) as real
    ensures PartnerDetails(amount, t).name == Prata <==> PrataMin as real <= amount < OuroMin as real
    ensures PartnerDetails(amount, t).name == NotApplicable <==> amount < PrataMin as real
  {
  }

  /** A larger amount never gives a lower tier, nor a lower rate. */
  lemma TierMonotone(a: real, b: real, t: PartnerType)
    requires a <= b
    ensures Rank(PartnerDetails(a, t).name) <= Rank(PartnerDetails(b, t).name)
    ensures PartnerDetails(a, t).commissionRate <= PartnerDetails(b, t).commissionRate
  {
  }

  /** Sellers reach Diamante sooner; below that both types share the bands. */
  lemma SellerNeverBelowFinder(amount: real)
    ensures Rank(PartnerDetails(amount, Finder).name) <= Rank(PartnerDetails(amount, Seller).name)
    ensures PartnerDetails(amount, Finder).commissionRate < PartnerDetails(amount, Seller).commissionRate
         || PartnerDetails(amount, Seller).name == NotApplicable
  {
  }

  /** `paymentsReceived * (commissionRate / 100)`. */
  function Commission(amount: real, tier: Tier): (r: real)
    ensures tier.commissionRate == 0 ==> r == 0.0
    ensures amount >= 0.0 ==> 0.0 <= r <= amount * tier.commissionRate as real / 100.0
    ensures amount <= 0.0 ==> amount * tier.commissionRate as real / 100.0 <= r <= 0.0
  {
    amount * (tier.commissionRate as real / 100.0)
  }

  /** The commission is zero below the Prata threshold, and otherwise at most a quarter
      of the amount (25% is the highest rate). */
  lemma CommissionBounds(amount: real, t: PartnerType)
    ensures amount < PrataMin as real ==> Commission(amount, PartnerDetails(amount, t)) == 0.0
    ensures amount >= 0.0 ==> Commission(amount, PartnerDetails(amount, t)) <= amount / 4.0
  {
  }
}
