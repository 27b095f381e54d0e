/** The balance allocator of the sweep script: how much a wallet keeps (a
    reserve drawn at random from a band clamped to the balance) and how much
    it sends on, and the smallest transfer worth making. The random draw is an
    oracle input constrained to the band. */
module Allocator {
  import opened Base

  /** The reserve band hard-coded in the sweep (uatom). */
  const MinReserve: int := 15000
  const MaxReserve: int := 25000

  /** A transfer must clear its fee by this margin and be at least the floor. */
  const TransferMargin: int := 3000
  const TransferFloor: int := 50000

  datatype Band = Band(low: int, high: int)

  /** The reserve bounds clamped to the balance and put in order: `min(lo, cb)`,
      `min(hi, cb)`, swapped when the first exceeds the second. */
  function ReserveBand(balance: int, minReserve: int, maxReserve: int): (b: Band)
    ensures b.low <= b.high <= balance
    ensures {b.low, b.high} == {Min(minReserve, balance), Min(maxReserve, balance)}
  {
    var lo := Min(minReserve, balance);
    var hi := Min(maxReserve, balance);
    if lo > hi then Band(hi, lo) else Band(lo, hi)
  }

  /** With an ordered configuration the swap never happens: the band is the
      clamped pair as given. */
  lemma NoSwapWhenOrdered(balance: int, minReserve: int, maxReserve: int)
    requires minReserve <= maxReserve
    ensures ReserveBand(balance, minReserve, maxReserve) == Band(Min(minReserve, balance), Min(maxReserve, balance))
  {
  }

  /** The oracle's draw (`random.randint(low, high)`) lies in the band. */
  predicate DrawFits(balance: int, minReserve: int, maxReserve: int, draw: int) {
    var b := ReserveBand(balance, minReserve, maxReserve);
    b.low <= draw <= b.high
  }

  datatype Allocation = Allocation(reserve: int, send: int)

  /** The reserve kept and the amount sent: the reserve lies in the clamped
      band (the draw when the band is wide, its single value otherwise), never
      exceeds the balance, and the two parts add up to the balance with a
      non-negative transfer. */
  function Allocate(balance: int, minReserve: int, maxReserve: int, draw: int): (a: Allocation)
    requires DrawFits(balance, minReserve, maxReserve, draw)
    ensures ReserveBand(balance, minReserve, maxReserve).low <= a.reserve <= ReserveBand(balance, minReserve, maxReserve).high
    ensures a.reserve <= balance
    ensures a.send >= 0 && a.reserve + a.send == balance
    ensures ReserveBand(balance, minReserve, maxReserve).low < ReserveBand(balance, minReserve, maxReserve).high ==> a.reserve == draw
    ensures balance >= 0 && minReserve >= 0 && maxReserve >= 0 ==> a.reserve >= 0
  {
    var b := ReserveBand(balance, minReserve, maxReserve);
    var reserve := if b.low == b.high then b.low else draw;
    var send := if balance > reserve then balance - reserve else 0;
    Allocation(reserve, send)
  }

  /** The sweep's own allocation, with the 15000..25000 band. */
  function SweepAllocation(balance: int, draw: int): Allocation
    requires DrawFits(balance, MinReserve, MaxReserve, draw)
  {
    Allocate(balance, MinReserve, MaxReserve, draw)
  }

  /** The sweep's reserve lies in `[min(15000, cb), min(25000, cb)]`, the
      transfer is `cb - reserve >= 0`, and a balance of at most 15000 is kept
      whole. */
  lemma SweepAllocationBounds(balance: int, draw: int)
    requires DrawFits(balance, MinReserve, MaxReserve, draw)
    ensures Min(MinReserve, balance) <= SweepAllocation(balance, draw).reserve <= Min(MaxReserve, balance)
    ensures SweepAllocation(balance, draw).send == balance - SweepAllocation(balance, draw).reserve >= 0
    ensures balance <= MinReserve ==> SweepAllocation(balance, draw).send == 0
  {
    NoSwapWhenOrdered(balance, MinReserve, MaxReserve);
  }

  /** With a balance of 100000 the transfer lies between 75000 and 85000, and
      the same draw always gives the same transfer. */
  lemma HundredThousandScenario(draw: int)
    requires DrawFits(100000, MinReserve, MaxReserve, draw)
    ensures 75000 <= SweepAllocation(100000, draw).send <= 85000
    ensures SweepAllocation(100000, draw).send == 100000 - draw
  {
    NoSwapWhenOrdered(100000, MinReserve, MaxReserve);
  }

  /** `max(send_fees + 3000, 50000)`: the smallest amount worth sending. */
  function MinSendAmount(sendFee: int): (m: int)
    ensures m >= TransferFloor && m >= sendFee + TransferMargin
    ensures m == TransferFloor || m == sendFee + TransferMargin
  {
    Max(sendFee + TransferMargin, TransferFloor)
  }

  /** A transfer is attempted when the amount clears the minimum and the
      balance covers the fee. */
  predicate AttemptsTransfer(sendAmount: int, sendFee: int, balance: int) {
    sendAmount >= MinSendAmount(sendFee) && balance >= sendFee
  }

  /** The balance-below-fee refusal after the threshold test can never fire
      for an allocation from a non-negative band: an amount that clears the
      threshold already leaves the fee covered. */
  lemma FeeCheckAfterThresholdIsRedundant(balance: int, minReserve: int, maxReserve: int, draw: int, sendFee: int)
    requires DrawFits(balance, minReserve, maxReserve, draw)
    requires minReserve >= 0 && maxReserve >= 0
    requires Allocate(balance, minReserve, maxReserve, draw).send >= MinSendAmount(sendFee)
    ensures balance >= sendFee + TransferMargin
    ensures AttemptsTransfer(Allocate(balance, minReserve, maxReserve, draw).send, sendFee, balance)
  {
    var a := Allocate(balance, minReserve, maxReserve, draw);
    assert a.send > 0;
    assert balance > a.reserve;
    assert a.reserve >= 0;
  }
}
