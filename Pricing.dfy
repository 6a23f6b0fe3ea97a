/** Pricing policy: the row of a seat alone decides its price (whole dollars)
    and its tier label. Rows 0-2 are VIP, rows 3-6 Regular, every later row Budget. */
module Pricing {

  const VipPrice: nat := 60
  const RegularPrice: nat := 40
  const BudgetPrice: nat := 20

  /** Price of any seat in `row`, in dollars (getSeatPrice). Total over every int:
      a negative row falls into the first branch, as in the source. */
  function SeatPrice(row: int): (p: nat)
    ensures p == VipPrice || p == RegularPrice || p == BudgetPrice
  {
    if row < 3 then VipPrice
    else if row < 7 then RegularPrice
    else BudgetPrice
  }

  /** Tier label of any seat in `row` (getSeatTier). */
  function SeatTier(row: int): (t: string)
    ensures t == "VIP" || t == "Regular" || t == "Budget"
  {
    if row < 3 then "VIP"
    else if row < 7 then "Regular"
    else "Budget"
  }

  /** The price list by tier label: the reference against which the two
      row functions are checked to agree. */
  function TierPrice(tier: string): nat
  {
    if tier == "VIP" then VipPrice
    else if tier == "Regular" then RegularPrice
    else BudgetPrice
  }

  /** Price and tier never disagree: the price charged for a row is the listed
      price of that row's tier, and each tier has its own price. */
  lemma PriceMatchesTier(row: int)
    ensures SeatPrice(row) == TierPrice(SeatTier(row))
    ensures SeatTier(row) == "VIP" <==> SeatPrice(row) == VipPrice
    ensures SeatTier(row) == "Regular" <==> SeatPrice(row) == RegularPrice
    ensures SeatTier(row) == "Budget" <==> SeatPrice(row) == BudgetPrice
  {
  }

  /** Seats further back never cost more. */
  lemma PriceNonIncreasing(front: int, back: int)
    requires front <= back
    ensures SeatPrice(back) <= SeatPrice(front)
  {
  }
}
