/** The treasury's cycle: sweeping deposits, and paying exchanges within a rolling daily cap. */
module Treasury {
  import opened Common

  const TREASURY_INDEX: int := 0
  const MAX_INT32: int := 0x7FFF_FFFF
  const DAY: int := 24 * 3600
  const PENDING_TIMEOUT: int := 600

  datatype Mode = Off | DryRun | Live

  datatype Config = Config(
    mode: Mode,
    sweepMin: int,
    sweepFee: int,
    trxFloor: int,
    siaAddress: string,
    siaTarget: int,
    alephFundAddress: string,
    alephDays: int,
    minSwap: int,
    maxSwap: int,
    maxDaily: int)

  /** What loading the configuration makes sure of. */
  predicate ValidConfig(cfg: Config) {
    0 < cfg.sweepMin && 0 < cfg.sweepFee && 0 < cfg.minSwap <= cfg.maxSwap <= cfg.maxDaily
  }

  datatype Balance = Balance(usdt: nat, trx: nat)

  datatype Currency = Trx | Siacoin | Ether

  datatype Payment = Payment(txID: string, micro: int, at: int)

  datatype Transfer = Transfer(txID: string, micro: nat)

  // ---------------------------------------------------------------- sums of payments

  /** What was paid at or after a time. */
  function PaidSince(payments: seq<Payment>, since: int): int {
    if payments == [] then 0
    else
      var last := payments[|payments| - 1];
      PaidSince(payments[..|payments| - 1], since) + if last.at >= since then last.micro else 0
  }

  /** What was paid in the day that starts at a time, both ends included. */
  function PaidInDay(payments: seq<Payment>, start: int): int {
    if payments == [] then 0
    else
      var last := payments[|payments| - 1];
      PaidInDay(payments[..|payments| - 1], start) + if start <= last.at <= start + DAY then last.micro else 0
  }

  ghost predicate Amounts(payments: seq<Payment>) {
    forall i :: 0 <= i < |payments| ==> payments[i].micro >= 0
  }

  lemma {:induction false} DayIsPartOfSince(payments: seq<Payment>, start: int, since: int)
    requires Amounts(payments) && since <= start
    ensures 0 <= PaidInDay(payments, start) <= PaidSince(payments, since)
    decreases |payments|
  {
    if payments != [] { DayIsPartOfSince(payments[..|payments| - 1], start, since); }
  }

  lemma PaidAppend(payments: seq<Payment>, p: Payment, start: int)
    ensures PaidSince(payments + [p], start) == PaidSince(payments, start) + if p.at >= start then p.micro else 0
    ensures PaidInDay(payments + [p], start) == PaidInDay(payments, start) + if start <= p.at <= start + DAY then p.micro else 0
  {
    assert (payments + [p])[..|payments|] == payments;
  }

  /** In every day, wherever it starts, at most the cap was paid. */
  ghost predicate Capped(payments: seq<Payment>, cap: int) {
    forall start :: PaidInDay(payments, start) <= cap
  }

  /** A payment within what the last day leaves of the cap keeps every day within it. */
  lemma PaymentKeepsCap(payments: seq<Payment>, p: Payment, now: int, cap: int)
    requires Amounts(payments) && p.micro >= 0 && Capped(payments, cap) && now <= p.at
    requires PaidSince(payments, now - DAY) + p.micro <= cap
    ensures Capped(payments + [p], cap)
  {
    forall start ensures PaidInDay(payments + [p], start) <= cap {
      PaidAppend(payments, p, start);
      if start <= p.at <= start + DAY {
        DayIsPartOfSince(payments, start, now - DAY);
      }
    }
  }

  // ---------------------------------------------------------------- what counts as sent

  function Total(transfers: seq<Transfer>): nat {
    if transfers == [] then 0 else Total(transfers[..|transfers| - 1]) + transfers[|transfers| - 1].micro
  }

  function Confirmed(transfers: seq<Transfer>): set<string> {
    set i | 0 <= i < |transfers| :: transfers[i].txID
  }

  /** Payments the chain does not show. */
  function Unconfirmed(payments: seq<Payment>, confirmed: set<string>): int {
    if payments == [] then 0
    else
      var last := payments[|payments| - 1];
      Unconfirmed(payments[..|payments| - 1], confirmed) + if last.txID in confirmed then 0 else last.micro
  }

  function Sum(payments: seq<Payment>): int {
    if payments == [] then 0 else Sum(payments[..|payments| - 1]) + payments[|payments| - 1].micro
  }

  ghost predicate DistinctIDs(payments: seq<Payment>) {
    forall i, j :: 0 <= i < j < |payments| ==> payments[i].txID != payments[j].txID
  }

  /** The chain shows a payment it confirmed with the payment's own amount. */
  ghost predicate Truthful(transfers: seq<Transfer>, payments: seq<Payment>) {
    forall i, j :: 0 <= i < |payments| && 0 <= j < |transfers| && transfers[j].txID == payments[i].txID ==>
      transfers[j].micro == payments[i].micro
  }

  lemma {:induction false} TotalWithout(transfers: seq<Transfer>, j: nat)
    requires j < |transfers|
    ensures Total(transfers) == Total(transfers[..j] + transfers[j + 1..]) + transfers[j].micro
    decreases |transfers|
  {
    var n := |transfers| - 1;
    if j < n {
      TotalWithout(transfers[..n], j);
      var rest := transfers[..j] + transfers[j + 1..];
      assert rest[..|rest| - 1] == transfers[..n][..j] + transfers[..n][j + 1..];
      assert rest[|rest| - 1] == transfers[n];
    } else {
      assert transfers[..j] + transfers[j + 1..] == transfers[..n];
    }
  }

  /** However many of its payments the chain shows, what it shows and the rest add up to all of them at least. */
  lemma {:induction false} SentCoversPayments(transfers: seq<Transfer>, payments: seq<Payment>, confirmed: set<string>)
    requires DistinctIDs(payments) && Truthful(transfers, payments)
    requires forall i :: 0 <= i < |payments| && payments[i].txID in confirmed ==>
               exists j :: 0 <= j < |transfers| && transfers[j].txID == payments[i].txID
    ensures Total(transfers) + Unconfirmed(payments, confirmed) >= Sum(payments)
    decreases |payments|
  {
    if payments != [] {
      var n := |payments| - 1;
      var last := payments[n];
      if last.txID in confirmed {
        var j :| 0 <= j < |transfers| && transfers[j].txID == last.txID;
        var rest := transfers[..j] + transfers[j + 1..];
        TotalWithout(transfers, j);
        forall i | 0 <= i < n && payments[i].txID in confirmed
          ensures exists k :: 0 <= k < |rest| && rest[k].txID == payments[i].txID
        {
          var k :| 0 <= k < |transfers| && transfers[k].txID == payments[i].txID;
          assert k != j;
          assert rest[if k < j then k else k - 1] == transfers[k];
        }
        SentCoversPayments(rest, payments[..n], confirmed);
      } else {
        SentCoversPayments(transfers, payments[..n], confirmed);
      }
    }
  }

  // ---------------------------------------------------------------- payments remembered

  /** The payments made at or after a time, in order. */
  function Recent(payments: seq<Payment>, since: int): seq<Payment> {
    if payments == [] then []
    else
      var last := payments[|payments| - 1];
      Recent(payments[..|payments| - 1], since) + if last.at >= since then [last] else []
  }

  lemma RecentAppend(payments: seq<Payment>, p: Payment, since: int)
    ensures Recent(payments + [p], since) == Recent(payments, since) + if p.at >= since then [p] else []
  {
    assert (payments + [p])[..|payments|] == payments;
  }

  lemma SumAppend(payments: seq<Payment>, p: Payment)
    ensures Sum(payments + [p]) == Sum(payments) + p.micro
  {
    assert (payments + [p])[..|payments|] == payments;
  }

  lemma {:induction false} RecentSum(payments: seq<Payment>, since: int)
    ensures Sum(Recent(payments, since)) == PaidSince(payments, since)
    decreases |payments|
  {
    if payments != [] {
      var n := |payments| - 1;
      RecentSum(payments[..n], since);
      if payments[n].at >= since {
        SumAppend(Recent(payments[..n], since), payments[n]);
      } else {
        assert Recent(payments, since) == Recent(payments[..n], since);
      }
    }
  }

  lemma {:induction false} RecentTwice(payments: seq<Payment>, since: int, later: int)
    requires since <= later
    ensures Recent(Recent(payments, since), later) == Recent(payments, later)
    decreases |payments|
  {
    if payments != [] {
      var n := |payments| - 1;
      RecentTwice(payments[..n], since, later);
      if payments[n].at >= since {
        RecentAppend(Recent(payments[..n], since), payments[n], later);
      } else {
        assert Recent(payments, since) == Recent(payments[..n], since);
      }
    }
  }

  ghost predicate NewID(payments: seq<Payment>, id: string) {
    forall i :: 0 <= i < |payments| ==> payments[i].txID != id
  }

  ghost predicate From(payments: seq<Payment>, p: Payment) {
    exists i :: 0 <= i < |payments| && payments[i] == p
  }

  lemma FromMore(payments: seq<Payment>, n: nat, p: Payment)
    requires n <= |payments| && From(payments[..n], p)
    ensures From(payments, p)
  {
    var i :| 0 <= i < n && payments[..n][i] == p;
    assert payments[i] == p;
  }

  lemma {:induction false} RecentCome(payments: seq<Payment>, since: int, k: nat)
    requires k < |Recent(payments, since)|
    ensures From(payments, Recent(payments, since)[k])
    decreases |payments|
  {
    var n := |payments| - 1;
    var before := Recent(payments[..n], since);
    if k < |before| {
      RecentCome(payments[..n], since, k);
      FromMore(payments, n, before[k]);
    } else {
      assert payments[n] == Recent(payments, since)[k];
    }
  }

  lemma DistinctAppend(payments: seq<Payment>, p: Payment)
    requires DistinctIDs(payments) && NewID(payments, p.txID)
    ensures DistinctIDs(payments + [p])
  {
  }

  lemma {:induction false} RecentAreDistinct(payments: seq<Payment>, since: int)
    requires DistinctIDs(payments)
    ensures DistinctIDs(Recent(payments, since))
    decreases |payments|
  {
    if payments != [] {
      var n := |payments| - 1;
      var before := Recent(payments[..n], since);
      RecentAreDistinct(payments[..n], since);
      forall k | 0 <= k < |before| ensures before[k].txID != payments[n].txID {
        RecentCome(payments[..n], since, k);
        var i :| 0 <= i < n && payments[..n][i] == before[k];
      }
      DistinctAppend(before, payments[n]);
      assert Recent(payments, since) == before || Recent(payments, since) == before + [payments[n]];
    }
  }

  /** What the treasury counts as sent covers every payment of the last day. */
  lemma SentCoversTheDay(payments: seq<Payment>, transfers: seq<Transfer>, since: int)
    requires DistinctIDs(payments) && Truthful(transfers, payments)
    ensures Total(transfers) + Unconfirmed(Recent(payments, since), Confirmed(transfers)) >= PaidSince(payments, since)
  {
    var recent, confirmed := Recent(payments, since), Confirmed(transfers);
    RecentAreDistinct(payments, since);
    RecentSum(payments, since);
    forall k, j | 0 <= k < |recent| && 0 <= j < |transfers| && transfers[j].txID == recent[k].txID
      ensures transfers[j].micro == recent[k].micro
    {
      RecentCome(payments, since, k);
      var i :| 0 <= i < |payments| && payments[i] == recent[k];
    }
    SentCoversPayments(transfers, recent, confirmed);
  }

  /** What this process paid, what it remembers of it, and the cap it keeps. */
  ghost predicate Books(payments: seq<Payment>, paid: seq<Payment>, since: int, cap: int) {
    Amounts(payments) && DistinctIDs(payments) && Capped(payments, cap) && paid == Recent(payments, since)
  }

  lemma PaymentKeepsBooks(payments: seq<Payment>, paid: seq<Payment>, since: int, cap: int, p: Payment, now: int)
    requires Books(payments, paid, since, cap) && NewID(payments, p.txID) && p.micro >= 0
    requires since <= now - DAY && now <= p.at && PaidSince(payments, now - DAY) + p.micro <= cap
    ensures Books(payments + [p], paid + [p], since, cap)
    ensures PaidSince(payments + [p], now - DAY) == PaidSince(payments, now - DAY) + p.micro
  {
    PaymentKeepsCap(payments, p, now, cap);
    RecentAppend(payments, p, since);
    PaidAppend(payments, p, now - DAY);
  }

  // ---------------------------------------------------------------- transactions

  datatype PendingTx = PendingTx(txID: string, at: int)

  /** A transaction for a watched address: a fee top-up, or the sweep of its deposit. */
  datatype AddressTx = TopUp(address: string, sun: int) | Sweeping(index: int, address: string, micro: int)

  /** What was signed: for an address and what was known of it, or for an exchange into a currency. */
  datatype Signed =
    | OnAddress(input: SweepInput, tx: AddressTx)
    | ExchangePayment(currency: Currency, micro: int, exchange: Exchange)

  function Folded(s: string): string {
    seq(|s|, i requires 0 <= i < |s| => if 'A' <= s[i] <= 'Z' then s[i] + ' ' else s[i])
  }

  predicate OwnDestination(cfg: Config, treasuryAddress: string, address: string) {
    || Folded(address) == Folded(treasuryAddress)
    || (cfg.siaAddress != "" && Folded(address) == Folded(cfg.siaAddress))
    || (cfg.alephFundAddress != "" && Folded(address) == Folded(cfg.alephFundAddress))
  }

  predicate Permitted(cfg: Config, treasuryAddress: string, derive: int -> string, signed: Signed) {
    match signed
    case OnAddress(input, tx) =>
      TREASURY_INDEX < input.index <= MAX_INT32 && CalledFor(cfg, derive, input) == Some(tx)
    case ExchangePayment(_, micro, exchange) =>
      && cfg.minSwap <= micro <= cfg.maxSwap && exchange.amount == Ok(micro)
      && exchange.pairMatches && exchange.depositValid && OwnDestination(cfg, treasuryAddress, exchange.addressTo)
  }

  /** An address's transaction is still waited for. */
  predicate Waits(pending: map<string, PendingTx>, input: SweepInput) {
    && input.address in pending
    && !input.outcome.Finished?
    && input.now - pending[input.address].at < PENDING_TIMEOUT
  }

  /** What an address's balance calls for: the missing fee, or moving all its USDT with its own key. */
  function CalledFor(cfg: Config, derive: int -> string, input: SweepInput): Option<AddressTx> {
    if input.balance.Err? || input.balance.value.usdt < cfg.sweepMin then None
    else if input.balance.value.trx < cfg.sweepFee then Some(TopUp(input.address, cfg.sweepFee - input.balance.value.trx))
    else if derive(input.index) != input.address then None
    else Some(Sweeping(input.index, input.address, input.balance.value.usdt))
  }

  /** A top-up brings the watched address to the fee; a sweep takes its whole balance with the key that derives it. */
  lemma CalledForIs(cfg: Config, derive: int -> string, input: SweepInput, tx: AddressTx)
    ensures CalledFor(cfg, derive, input) == Some(tx) <==>
              && input.balance.Ok? && input.balance.value.usdt >= cfg.sweepMin && tx.address == input.address
              && match tx
                 case TopUp(_, sun) => sun > 0 && input.balance.value.trx + sun == cfg.sweepFee
                 case Sweeping(index, address, micro) =>
                   && index == input.index && derive(index) == address
                   && micro == input.balance.value.usdt && input.balance.value.trx >= cfg.sweepFee
  {
  }

  /** Every address's newest transaction is pending, resolved, or older than the timeout. */
  ghost predicate Settled(pending: map<string, PendingTx>, newest: map<string, PendingTx>, resolved: set<string>, clock: int) {
    && pending.Keys <= newest.Keys
    && (forall a :: a in newest ==>
          (a in pending && pending[a] == newest[a]) || newest[a].txID in resolved || clock - newest[a].at >= PENDING_TIMEOUT)
  }

  // ---------------------------------------------------------------- what the outside answers

  datatype TxOutcome = Unreadable | NotDone | Finished

  datatype SweepInput = SweepInput(
    index: int,
    address: string,
    now: int,
    outcome: TxOutcome,
    balance: Result<Balance>,
    prepared: bool,
    broadcast: Result<string>)

  datatype Exchange = Exchange(amount: Result<int>, pairMatches: bool, addressTo: string, depositValid: bool)

  /** The price in micro USDT, the pair's minimum, the expected yield, the exchange made, and how paying it ends. */
  datatype SwapInput = SwapInput(
    wanted: Result<int>,
    pairMin: Result<Option<int>>,
    quoted: bool,
    exchange: Result<Exchange>,
    prepared: bool,
    broadcast: Result<string>,
    at: int)

  datatype SwapNeed = SwapNeed(currency: Currency, addressTo: string)

  // ---------------------------------------------------------------- what is needed

  /** The indexd wallet as reported, and whether it is far enough below its target. */
  datatype SiaReport = SiaReport(address: string, short: bool)

  function SiaNeed(cfg: Config, report: Result<SiaReport>): Option<SwapNeed> {
    if cfg.siaTarget <= 0 || report.Err? || report.value.address == "" then None
    else if cfg.siaAddress == "" then
      if cfg.mode.Live? || !report.value.short then None else Some(SwapNeed(Siacoin, report.value.address))
    else if Folded(cfg.siaAddress) != Folded(report.value.address) || !report.value.short then None
    else Some(SwapNeed(Siacoin, cfg.siaAddress))
  }

  function AlephNeed(cfg: Config, short: Result<bool>): Option<SwapNeed> {
    if cfg.alephFundAddress == "" || cfg.alephDays <= 0 || short.Err? || !short.value then None
    else Some(SwapNeed(Ether, cfg.alephFundAddress))
  }

  function Needs(cfg: Config, treasuryAddress: string, balance: Balance, sia: Result<SiaReport>, aleph: Result<bool>): seq<SwapNeed> {
    (if balance.trx < cfg.trxFloor then [SwapNeed(Trx, treasuryAddress)] else [])
    + (match SiaNeed(cfg, sia) case None => [] case Some(need) => [need])
    + (match AlephNeed(cfg, aleph) case None => [] case Some(need) => [need])
  }

  /** What a swap is made for: a small need buys the smallest swap, and neither cap is passed. */
  function SwapAmount(cfg: Config, wanted: int, pairMin: Option<int>, budget: int): (amount: Option<int>)
    requires ValidConfig(cfg)
    ensures amount.Some? ==> cfg.minSwap <= amount.value <= cfg.maxSwap && amount.value <= budget
    ensures amount.Some? && pairMin.Some? ==> pairMin.value <= amount.value
    ensures amount.Some? && wanted > amount.value ==> amount.value == Min(cfg.maxSwap, budget)
    ensures amount.Some? && wanted < amount.value ==> amount.value == cfg.minSwap || pairMin == Some(amount.value)
    ensures amount.None? <==> budget < cfg.minSwap || (pairMin.Some? && Min(cfg.maxSwap, budget) < pairMin.value)
  {
    var minimum := if pairMin.Some? then Max(cfg.minSwap, pairMin.value) else cfg.minSwap;
    var amount := Min(Min(Max(wanted, minimum), cfg.maxSwap), budget);
    if amount < minimum then None else Some(amount)
  }

  /** The exchange is for what was asked: amount, pair and destination. */
  predicate AsAgreed(exchange: Exchange, amount: int, need: SwapNeed) {
    && exchange.amount == Ok(amount) && exchange.pairMatches
    && Folded(exchange.addressTo) == Folded(need.addressTo) && exchange.depositValid
  }

  /** The swap's amount, once it is priced and quoted. */
  function Planned(cfg: Config, input: SwapInput, budget: int): Option<int>
    requires ValidConfig(cfg)
  {
    if input.wanted.Err? || input.pairMin.Err? || !input.quoted then None
    else SwapAmount(cfg, input.wanted.value, input.pairMin.value, budget)
  }

  /** A payment is signed: live, planned, and the exchange made is the one asked for. */
  predicate Settles(cfg: Config, need: SwapNeed, input: SwapInput, budget: int)
    requires ValidConfig(cfg)
  {
    && cfg.mode.Live? && Planned(cfg, input, budget).Some?
    && input.exchange.Ok? && AsAgreed(input.exchange.value, Planned(cfg, input, budget).value, need)
    && input.prepared
  }

  // ---------------------------------------------------------------- SimpleSwap's report

  /** An exchange as SimpleSwap reports it. */
  datatype Reported = Reported(fromUsdt: bool, expired: bool, amount: Result<nat>, final: bool, to: Currency)

  /** int64 arithmetic wraps. */
  function Wrapped(n: int): (wrapped: int)
    ensures -0x8000_0000_0000_0000 <= wrapped < 0x8000_0000_0000_0000 && (wrapped - n) % 0x1_0000_0000_0000_0000 == 0
  {
    (n + 0x8000_0000_0000_0000) % 0x1_0000_0000_0000_0000 - 0x8000_0000_0000_0000
  }

  /** Every amount that counts can be read. */
  predicate Readable(exchanges: seq<Reported>) {
    forall i :: 0 <= i < |exchanges| && exchanges[i].fromUsdt && !exchanges[i].expired ==> exchanges[i].amount.Ok?
  }

  /** Some exchange from USDT into the currency is not final. */
  predicate InFlight(exchanges: seq<Reported>, c: Currency) {
    exists i :: 0 <= i < |exchanges| && exchanges[i].fromUsdt && !exchanges[i].final && exchanges[i].to == c
  }

  /** What was swapped from USDT by exchanges that have not expired. */
  function Swapped(exchanges: seq<Reported>): int {
    if exchanges == [] then 0
    else
      var before, last := Swapped(exchanges[..|exchanges| - 1]), exchanges[|exchanges| - 1];
      if last.fromUsdt && !last.expired && last.amount.Ok? then Wrapped(before + last.amount.value) else before
  }

  /** The loop over recent exchanges: their sum, and what is in flight. */
  method ReadExchanges(exchanges: seq<Reported>) returns (result: Result<(int, set<Currency>)>)
    ensures result.Ok? <==> Readable(exchanges)
    ensures result.Ok? ==> result.value.0 == Swapped(exchanges) && forall c :: c in result.value.1 <==> InFlight(exchanges, c)
  {
    var swapped: int, inFlight: set<Currency> := 0, {};
    var i := 0;
    while i < |exchanges|
      invariant 0 <= i <= |exchanges|
      invariant forall j :: 0 <= j < i && exchanges[j].fromUsdt && !exchanges[j].expired ==> exchanges[j].amount.Ok?
      invariant swapped == Swapped(exchanges[..i])
      invariant forall c ::
                  c in inFlight <==> exists j :: 0 <= j < i && exchanges[j].fromUsdt && !exchanges[j].final && exchanges[j].to == c
    {
      var exchange := exchanges[i];
      assert exchanges[..i + 1][..i] == exchanges[..i];
      if exchange.fromUsdt {
        if !exchange.expired {
          if exchange.amount.Err? { return Err; }
          swapped := Wrapped(swapped + exchange.amount.value);
        }
        if !exchange.final { inFlight := inFlight + {exchange.to}; }
      }
      i := i + 1;
    }
    assert exchanges[..i] == exchanges;
    return Ok((swapped, inFlight));
  }

  // ---------------------------------------------------------------- the treasury

  /** Everything one convert step is told. */
  datatype ConvertInput = ConvertInput(
    now: int,
    balance: Result<Balance>,
    transfers: Result<seq<Transfer>>,
    exchanges: Result<seq<Reported>>,
    sia: Result<SiaReport>,
    aleph: Result<bool>,
    swaps: Currency -> SwapInput)

  /** The clock never goes back during the step. */
  predicate Ordered(input: ConvertInput) {
    input.now <= input.swaps(Trx).at <= input.swaps(Siacoin).at <= input.swaps(Ether).at
  }

  /** Broadcasts return IDs of their own. */
  ghost predicate FreshIDs(payments: seq<Payment>, input: ConvertInput) {
    && (forall c :: input.swaps(c).broadcast.Ok? ==> NewID(payments, input.swaps(c).broadcast.value))
    && (forall c, d :: input.swaps(c).broadcast.Ok? && input.swaps(c).broadcast == input.swaps(d).broadcast ==> c == d)
  }

  function SwapInputs(needs: seq<SwapNeed>, swaps: Currency -> SwapInput): seq<SwapInput> {
    seq(|needs|, i requires 0 <= i < |needs| => swaps(needs[i].currency))
  }

  /** From the n-th on, one swap after the other, with IDs of their own. */
  ghost predicate InTurn(payments: seq<Payment>, inputs: seq<SwapInput>, n: nat, now: int) {
    && (forall i :: n <= i < |inputs| ==> now <= inputs[i].at)
    && (forall i, j :: n <= i < j < |inputs| ==> inputs[i].at <= inputs[j].at)
    && (forall i :: n <= i < |inputs| && inputs[i].broadcast.Ok? ==> NewID(payments, inputs[i].broadcast.value))
    && (forall i, j :: n <= i < j < |inputs| && inputs[i].broadcast.Ok? ==> inputs[i].broadcast != inputs[j].broadcast)
  }

  lemma TurnsLeft(before: seq<Payment>, after: seq<Payment>, inputs: seq<SwapInput>, n: nat, now: int)
    requires n < |inputs| && InTurn(before, inputs, n, now)
    requires after == before ||
             (inputs[n].broadcast.Ok? && |after| == |before| + 1 && before <= after && after[|before|].txID == inputs[n].broadcast.value)
    ensures InTurn(after, inputs, n + 1, now)
  {
    forall i | n < i < |inputs| && inputs[i].broadcast.Ok? ensures NewID(after, inputs[i].broadcast.value) {
      assert NewID(before, inputs[i].broadcast.value);
    }
  }

  // ---------------------------------------------------------------- what a cycle signs

  /** The chain's transfers of the day and the payments of the day it does not show. */
  function SentToday(payments: seq<Payment>, transfers: seq<Transfer>, now: int): int {
    Total(transfers) + Unconfirmed(Recent(payments, now - DAY), Confirmed(transfers))
  }

  /** What the day leaves of the cap, counting whichever report shows more, and no more than there is. */
  function Budget(cfg: Config, balance: Balance, sent: int, swapped: int): int {
    Min(cfg.maxDaily - Max(swapped, sent), balance.usdt)
  }

  /** What the first n needs leave of the budget. */
  function LeftAfter(cfg: Config, needs: seq<SwapNeed>, inputs: seq<SwapInput>, exchanges: seq<Reported>, budget: int, n: nat): int
    requires ValidConfig(cfg) && n <= |needs| == |inputs|
  {
    if n == 0 then budget
    else
      var left := LeftAfter(cfg, needs, inputs, exchanges, budget, n - 1);
      if InFlight(exchanges, needs[n - 1].currency) || Planned(cfg, inputs[n - 1], left).None? then left
      else left - Planned(cfg, inputs[n - 1], left).value
  }

  /** What is signed for the first n needs: each that is not in flight and settles on the budget the ones before left. */
  function Bought(cfg: Config, needs: seq<SwapNeed>, inputs: seq<SwapInput>, exchanges: seq<Reported>, budget: int, n: nat): seq<Signed>
    requires ValidConfig(cfg) && n <= |needs| == |inputs|
  {
    if n == 0 then []
    else
      var left := LeftAfter(cfg, needs, inputs, exchanges, budget, n - 1);
      Bought(cfg, needs, inputs, exchanges, budget, n - 1) +
      if !InFlight(exchanges, needs[n - 1].currency) && Settles(cfg, needs[n - 1], inputs[n - 1], left)
      then [ExchangePayment(needs[n - 1].currency, Planned(cfg, inputs[n - 1], left).value, inputs[n - 1].exchange.value)]
      else []
  }

  /** Everything is known that a convert step needs to swap at all. */
  predicate CanConvert(cfg: Config, treasuryAddress: string, input: ConvertInput) {
    && input.balance.Ok? && input.transfers.Ok? && input.exchanges.Ok? && Readable(input.exchanges.value)
    && (Needs(cfg, treasuryAddress, input.balance.value, input.sia, input.aleph) == [] || input.balance.value.trx >= cfg.sweepFee)
  }

  function FirstBudget(cfg: Config, payments: seq<Payment>, input: ConvertInput): int
    requires input.balance.Ok? && input.transfers.Ok? && input.exchanges.Ok?
  {
    Budget(cfg, input.balance.value, SentToday(payments, input.transfers.value, input.now), Swapped(input.exchanges.value))
  }

  /** What a convert step signs. */
  function Converted(cfg: Config, treasuryAddress: string, payments: seq<Payment>, input: ConvertInput): seq<Signed>
    requires ValidConfig(cfg)
  {
    if !CanConvert(cfg, treasuryAddress, input) then []
    else
      var needs := Needs(cfg, treasuryAddress, input.balance.value, input.sia, input.aleph);
      Bought(cfg, needs, SwapInputs(needs, input.swaps), input.exchanges.value, FirstBudget(cfg, payments, input), |needs|)
  }

  /** The address gets a transaction now. */
  predicate Sweeps(cfg: Config, derive: int -> string, pending: map<string, PendingTx>, input: SweepInput) {
    && TREASURY_INDEX < input.index <= MAX_INT32
    && cfg.mode.Live? && input.prepared && !Waits(pending, input) && CalledFor(cfg, derive, input).Some?
  }

  /** What is waited for once an address was looked at. */
  function PendingAfter(cfg: Config, derive: int -> string, pending: map<string, PendingTx>, input: SweepInput): map<string, PendingTx> {
    if !(TREASURY_INDEX < input.index <= MAX_INT32) || Waits(pending, input) then pending
    else if Sweeps(cfg, derive, pending, input) && input.broadcast.Ok? then
      pending[input.address := PendingTx(input.broadcast.value, input.now)]
    else pending - {input.address}
  }

  /** What is waited for once the first n watched addresses were looked at. */
  function WaitedFor(cfg: Config, derive: int -> string, pending: map<string, PendingTx>, watched: seq<SweepInput>, n: nat): map<string, PendingTx>
    requires n <= |watched|
  {
    if n == 0 then pending else PendingAfter(cfg, derive, WaitedFor(cfg, derive, pending, watched, n - 1), watched[n - 1])
  }

  /** What is signed for the first n watched addresses. */
  function Swept(cfg: Config, derive: int -> string, pending: map<string, PendingTx>, watched: seq<SweepInput>, n: nat): seq<Signed>
    requires n <= |watched|
  {
    if n == 0 then []
    else
      Swept(cfg, derive, pending, watched, n - 1) +
      if Sweeps(cfg, derive, WaitedFor(cfg, derive, pending, watched, n - 1), watched[n - 1])
      then [OnAddress(watched[n - 1], CalledFor(cfg, derive, watched[n - 1]).value)] else []
  }

  class Treasury {
    const cfg: Config
    const treasuryAddress: string
    /** The wallet's address at each index. */
    const derive: int -> string
    var pending: map<string, PendingTx>
    var paid: seq<Payment>
    /** Every payment to an exchange, and the time before which paid has forgotten them. */
    ghost var payments: seq<Payment>
    ghost var since: int
    /** The latest reading of the clock. */
    ghost var clock: int
    /** Everything signed, the newest transaction per address that got an ID, and the IDs seen finished. */
    ghost var signed: seq<Signed>
    ghost var newest: map<string, PendingTx>
    ghost var resolved: set<string>

    constructor (cfg: Config, treasuryAddress: string, derive: int -> string, now: int)
      requires ValidConfig(cfg)
      ensures this.cfg == cfg && this.treasuryAddress == treasuryAddress && this.derive == derive
      ensures Valid() && payments == [] && signed == [] && clock == now
    {
      this.cfg, this.treasuryAddress, this.derive := cfg, treasuryAddress, derive;
      pending, paid, payments, since, clock, signed, newest, resolved := map[], [], [], now - DAY, now, [], map[], {};
    }

    /** The cap holds over every day, what was signed was permitted, and every address is settled. */
    ghost predicate Valid()
      reads this
    {
      && ValidConfig(cfg)
      && since <= clock - DAY
      && Books(payments, paid, since, cfg.maxDaily)
      && (forall i :: 0 <= i < |signed| ==> Permitted(cfg, treasuryAddress, derive, signed[i]))
      && Settled(pending, newest, resolved, clock)
    }

    /** Whether an address's pending transaction is still waited for; a finished or old one is forgotten. */
    method StillPending(input: SweepInput) returns (waiting: bool)
      requires Valid() && clock <= input.now
      modifies this`pending, this`clock, this`resolved
      ensures Valid() && clock == input.now && old(resolved) <= resolved
      ensures waiting <==> Waits(old(pending), input)
      ensures pending == if waiting then old(pending) else old(pending) - {input.address}
      ensures !waiting && input.address in newest ==>
                newest[input.address].txID in resolved || input.now - newest[input.address].at >= PENDING_TIMEOUT
    {
      clock := input.now;
      if input.address in pending {
        var tx := pending[input.address];
        if input.outcome.Finished? {
          resolved := resolved + {tx.txID};
          pending := pending - {input.address};
        } else if input.now - tx.at < PENDING_TIMEOUT {
          return true;
        } else {
          pending := pending - {input.address};
        }
      }
      waiting := false;
    }

    /** The transaction got an ID and is waited for from now on. */
    method Await(address: string, txID: string, now: int)
      requires Valid() && address !in pending
      modifies this`pending, this`newest
      ensures Valid() && pending == old(pending)[address := PendingTx(txID, now)]
      ensures newest == old(newest)[address := PendingTx(txID, now)]
    {
      pending := pending[address := PendingTx(txID, now)];
      newest := newest[address := PendingTx(txID, now)];
    }

    method Sign(ghost entry: Signed)
      requires Valid() && Permitted(cfg, treasuryAddress, derive, entry)
      modifies this`signed
      ensures Valid() && signed == old(signed) + [entry]
    {
      signed := signed + [entry];
    }

    /** sweep: at most one transaction, and only when the address's last one is over. */
    method Sweep(input: SweepInput)
      requires Valid() && clock <= input.now && TREASURY_INDEX < input.index <= MAX_INT32
      modifies this
      ensures Valid() && clock == input.now && payments == old(payments) && old(resolved) <= resolved
      ensures signed ==
                if Sweeps(cfg, derive, old(pending), input)
                then old(signed) + [OnAddress(input, CalledFor(cfg, derive, input).value)] else old(signed)
      ensures pending == PendingAfter(cfg, derive, old(pending), input)
      ensures signed != old(signed) && input.address in old(newest) ==>
                || old(newest)[input.address].txID in resolved
                || input.now - old(newest)[input.address].at >= PENDING_TIMEOUT
    {
      var waiting := StillPending(input);
      if waiting || input.balance.Err? { return; }
      var balance := input.balance.value;
      if balance.usdt < cfg.sweepMin { return; }
      if balance.trx < cfg.sweepFee {
        var topUp := cfg.sweepFee - balance.trx;
        if !cfg.mode.Live? || !input.prepared { return; }
        Sign(OnAddress(input, TopUp(input.address, topUp)));
      } else {
        if !cfg.mode.Live? || derive(input.index) != input.address || !input.prepared { return; }
        Sign(OnAddress(input, Sweeping(input.index, input.address, balance.usdt)));
      }
      if input.broadcast.Err? { return; }
      Await(input.address, input.broadcast.value, input.now);
    }

    /** sentSince: confirmed transfers, and remembered payments the chain does not show. */
    method SentSince(now: int, transfers: seq<Transfer>) returns (total: int)
      requires Valid() && clock <= now && Truthful(transfers, payments)
      modifies this`paid, this`since, this`clock
      ensures Valid() && clock == now && since == now - DAY
      ensures total == SentToday(payments, transfers, now) >= PaidSince(payments, now - DAY)
    {
      SentCoversTheDay(payments, transfers, now - DAY);
      RecentTwice(payments, since, now - DAY);
      var shown := SumTransfers(transfers);
      var kept, unconfirmed := KeepRecent(paid, now - DAY, Confirmed(transfers));
      paid, since, clock := kept, now - DAY, now;
      total := shown + unconfirmed;
    }

    method Record(payment: Payment, ghost now: int)
      requires Valid() && since <= now - DAY && now <= payment.at && payment.micro >= 0
      requires PaidSince(payments, now - DAY) + payment.micro <= cfg.maxDaily && NewID(payments, payment.txID)
      modifies this`paid, this`payments
      ensures Valid() && payments == old(payments) + [payment]
      ensures PaidSince(payments, now - DAY) == old(PaidSince(payments, now - DAY)) + payment.micro
    {
      PaymentKeepsBooks(payments, paid, since, cfg.maxDaily, payment, now);
      paid := paid + [payment];
      payments := payments + [payment];
    }

    /** Paying an exchange: once signed and given an ID, it is remembered. */
    method Pay(currency: Currency, amount: int, exchange: Exchange, input: SwapInput, now: int)
      requires Valid() && clock == input.at && now <= input.at && since <= now - DAY
      requires Permitted(cfg, treasuryAddress, derive, ExchangePayment(currency, amount, exchange))
      requires PaidSince(payments, now - DAY) + amount <= cfg.maxDaily
      requires input.broadcast.Ok? ==> NewID(payments, input.broadcast.value)
      modifies this`paid, this`payments, this`signed
      ensures Valid() && signed == old(signed) + [ExchangePayment(currency, amount, exchange)]
      ensures payments ==
                if input.broadcast.Ok? then old(payments) + [Payment(input.broadcast.value, amount, input.at)] else old(payments)
      ensures PaidSince(payments, now - DAY) <= old(PaidSince(payments, now - DAY)) + amount
    {
      Sign(ExchangePayment(currency, amount, exchange));
      if input.broadcast.Ok? {
        Record(Payment(input.broadcast.value, amount, input.at), now);
      }
    }

    /** swap: pays at most the budget, and takes what it meant to pay off the budget. */
    method Swap(need: SwapNeed, input: SwapInput, now: int, budget: int) returns (left: int)
      requires Valid() && clock <= input.at && now <= input.at && since <= now - DAY
      requires PaidSince(payments, now - DAY) <= cfg.maxDaily - budget
      requires cfg.mode.Live? ==> OwnDestination(cfg, treasuryAddress, need.addressTo)
      requires input.broadcast.Ok? ==> NewID(payments, input.broadcast.value)
      modifies this`paid, this`payments, this`signed, this`clock
      ensures Valid() && clock == input.at && left <= budget
      ensures PaidSince(payments, now - DAY) <= cfg.maxDaily - left
      ensures left == if Planned(cfg, input, budget).Some? then budget - Planned(cfg, input, budget).value else budget
      ensures Settles(cfg, need, input, budget) ==>
                && signed == old(signed) + [ExchangePayment(need.currency, budget - left, input.exchange.value)]
                && payments == if input.broadcast.Ok? then old(payments) + [Payment(input.broadcast.value, budget - left, input.at)]
                               else old(payments)
      ensures !Settles(cfg, need, input, budget) ==> signed == old(signed) && payments == old(payments)
    {
      clock := input.at;
      left := budget;
      var amount := Planned(cfg, input, budget);
      if amount.None? { return; }
      left := budget - amount.value;
      if !cfg.mode.Live? || input.exchange.Err? { return; }
      if !AsAgreed(input.exchange.value, amount.value, need) || !input.prepared { return; }
      AgreedDestination(cfg, treasuryAddress, need, input.exchange.value, amount.value);
      Pay(need.currency, amount.value, input.exchange.value, input, now);
    }

    /** One need in its turn: at most one more payment, with the swap's own ID. */
    method SwapInTurn(needs: seq<SwapNeed>, inputs: seq<SwapInput>, inFlight: set<Currency>, ghost exchanges: seq<Reported>,
                      i: nat, now: int, ghost budget: int, left: int)
      returns (after: int, ghost added: seq<Signed>)
      requires Valid() && i < |needs| == |inputs| && clock <= inputs[i].at && now <= inputs[i].at && since <= now - DAY
      requires PaidSince(payments, now - DAY) <= cfg.maxDaily - left
      requires cfg.mode.Live? ==> OwnDestination(cfg, treasuryAddress, needs[i].addressTo)
      requires InTurn(payments, inputs, i, now) && (needs[i].currency in inFlight <==> InFlight(exchanges, needs[i].currency))
      requires left == LeftAfter(cfg, needs, inputs, exchanges, budget, i)
      modifies this`paid, this`payments, this`signed, this`clock
      ensures Valid() && old(clock) <= clock <= inputs[i].at
      ensures PaidSince(payments, now - DAY) <= cfg.maxDaily - after
      ensures InTurn(payments, inputs, i + 1, now)
      ensures after == LeftAfter(cfg, needs, inputs, exchanges, budget, i + 1)
      ensures signed == old(signed) + added
      ensures Bought(cfg, needs, inputs, exchanges, budget, i + 1) == Bought(cfg, needs, inputs, exchanges, budget, i) + added
    {
      ghost var before := payments;
      after, added := left, [];
      if needs[i].currency !in inFlight {
        after := Swap(needs[i], inputs[i], now, left);
        added := signed[|old(signed)|..];
      }
      TurnsLeft(before, payments, inputs, i, now);
    }

    /** The loop over needs: each swap takes from the budget the last one left. */
    method SwapAll(needs: seq<SwapNeed>, inputs: seq<SwapInput>, inFlight: set<Currency>, ghost exchanges: seq<Reported>, now: int, budget: int,
                   ghost end: int)
      requires Valid() && clock == now && since <= now - DAY && |inputs| == |needs|
      requires now <= end && forall i :: 0 <= i < |inputs| ==> inputs[i].at <= end
      requires PaidSince(payments, now - DAY) <= cfg.maxDaily - budget
      requires cfg.mode.Live? ==> forall i :: 0 <= i < |needs| ==> OwnDestination(cfg, treasuryAddress, needs[i].addressTo)
      requires InTurn(payments, inputs, 0, now) && forall c :: c in inFlight <==> InFlight(exchanges, c)
      modifies this`paid, this`payments, this`signed, this`clock
      ensures Valid() && now <= clock <= end
      ensures signed == old(signed) + Bought(cfg, needs, inputs, exchanges, budget, |needs|)
    {
      var left := budget;
      var i := 0;
      ghost var bought: seq<Signed> := [];
      while i < |needs|
        invariant 0 <= i <= |needs| && Valid() && now <= clock <= end
        invariant forall j :: i <= j < |needs| ==> clock <= inputs[j].at
        invariant PaidSince(payments, now - DAY) <= cfg.maxDaily - left
        invariant InTurn(payments, inputs, i, now)
        invariant left == LeftAfter(cfg, needs, inputs, exchanges, budget, i)
        invariant bought == Bought(cfg, needs, inputs, exchanges, budget, i) && signed == old(signed) + bought
      {
        ghost var added;
        left, added := SwapInTurn(needs, inputs, inFlight, exchanges, i, now, budget, left);
        assert signed == old(signed) + (bought + added);
        bought := bought + added;
        i := i + 1;
      }
    }

    /** What a convert step has to know first: what is in flight, and the budget that the day leaves of the cap. */
    method ReadBudget(input: ConvertInput) returns (known: Option<(set<Currency>, int)>)
      requires Valid() && clock <= input.now
      requires input.transfers.Ok? ==> Truthful(input.transfers.value, payments)
      modifies this`paid, this`since, this`clock
      ensures Valid() && clock == input.now
      ensures known.Some? <==>
                input.balance.Ok? && input.transfers.Ok? && input.exchanges.Ok? && Readable(input.exchanges.value)
      ensures known.Some? ==>
                && since <= input.now - DAY && known.value.1 == FirstBudget(cfg, payments, input)
                && PaidSince(payments, input.now - DAY) <= cfg.maxDaily - known.value.1
                && forall c :: c in known.value.0 <==> InFlight(input.exchanges.value, c)
    {
      clock := input.now;
      if input.balance.Err? || input.transfers.Err? { return None; }
      var sentToday := SentSince(input.now, input.transfers.value);
      if input.exchanges.Err? { return None; }
      var read := ReadExchanges(input.exchanges.value);
      if read.Err? { return None; }
      var spentToday := Max(read.value.0, sentToday);
      return Some((read.value.1, Min(cfg.maxDaily - spentToday, input.balance.value.usdt)));
    }

    /** convert: the budget is what the day leaves of the cap, whatever SimpleSwap reports. */
    method Convert(input: ConvertInput)
      requires Valid() && clock <= input.now
      requires Ordered(input) && FreshIDs(payments, input)
      requires input.transfers.Ok? ==> Truthful(input.transfers.value, payments)
      modifies this`paid, this`since, this`clock, this`payments, this`signed
      ensures Valid() && input.now <= clock <= input.swaps(Ether).at
      ensures signed == old(signed) + Converted(cfg, treasuryAddress, old(payments), input)
    {
      var known := ReadBudget(input);
      if known.None? { return; }
      var balance := input.balance.value;
      var needs := Needs(cfg, treasuryAddress, balance, input.sia, input.aleph);
      if |needs| > 0 && balance.trx < cfg.sweepFee { return; }
      NeedsInOrder(cfg, treasuryAddress, balance, input.sia, input.aleph);
      SwapNeeded(needs, input, known.value.0, input.exchanges.value, known.value.1);
    }

    /** The swaps of a convert step, once its budget is known. */
    method SwapNeeded(needs: seq<SwapNeed>, input: ConvertInput, inFlight: set<Currency>, ghost exchanges: seq<Reported>, budget: int)
      requires Valid() && clock == input.now && since <= input.now - DAY
      requires Ordered(input) && FreshIDs(payments, input) && FixedOrder(needs)
      requires PaidSince(payments, input.now - DAY) <= cfg.maxDaily - budget
      requires cfg.mode.Live? ==> forall i :: 0 <= i < |needs| ==> OwnDestination(cfg, treasuryAddress, needs[i].addressTo)
      requires forall c :: c in inFlight <==> InFlight(exchanges, c)
      modifies this`paid, this`clock, this`payments, this`signed
      ensures Valid() && input.now <= clock <= input.swaps(Ether).at
      ensures signed == old(signed) + Bought(cfg, needs, SwapInputs(needs, input.swaps), exchanges, budget, |needs|)
    {
      OrderedInTurn(needs, payments, input);
      SwapAll(needs, SwapInputs(needs, input.swaps), inFlight, exchanges, input.now, budget, input.swaps(Ether).at);
    }

    /** One watched address: an index that is no deposit's is passed over. */
    method SweepWatched(watched: seq<SweepInput>, i: nat, ghost first: map<string, PendingTx>) returns (ghost added: seq<Signed>)
      requires Valid() && i < |watched| && clock <= watched[i].now && pending == WaitedFor(cfg, derive, first, watched, i)
      modifies this
      ensures Valid() && clock <= watched[i].now && payments == old(payments)
      ensures signed == old(signed) + added
      ensures Swept(cfg, derive, first, watched, i + 1) == Swept(cfg, derive, first, watched, i) + added
      ensures pending == WaitedFor(cfg, derive, first, watched, i + 1)
    {
      added := [];
      if TREASURY_INDEX < watched[i].index <= MAX_INT32 {
        Sweep(watched[i]);
        added := signed[|old(signed)|..];
      }
    }

    /** The loop over watched addresses. */
    method SweepAll(watched: seq<SweepInput>, now: int)
      requires Valid() && clock <= now
      requires forall i :: 0 <= i < |watched| ==> clock <= watched[i].now <= now
      requires forall i, j :: 0 <= i < j < |watched| ==> watched[i].now <= watched[j].now
      modifies this
      ensures Valid() && clock <= now && payments == old(payments)
      ensures signed == old(signed) + Swept(cfg, derive, old(pending), watched, |watched|)
      ensures pending == WaitedFor(cfg, derive, old(pending), watched, |watched|)
    {
      ghost var first, swept := pending, [];
      var i := 0;
      while i < |watched|
        invariant 0 <= i <= |watched| && Valid() && payments == old(payments)
        invariant clock <= now && forall j :: i <= j < |watched| ==> clock <= watched[j].now
        invariant swept == Swept(cfg, derive, first, watched, i) && signed == old(signed) + swept
        invariant pending == WaitedFor(cfg, derive, first, watched, i)
      {
        ghost var added := SweepWatched(watched, i, first);
        assert signed == old(signed) + (swept + added);
        swept := swept + added;
        i := i + 1;
      }
    }

    /** cycle: every watched address in turn, then convert; off does nothing. */
    method Cycle(watchList: Result<seq<SweepInput>>, input: ConvertInput)
      requires Valid()
      requires watchList.Ok? ==>
                 && (forall i :: 0 <= i < |watchList.value| ==> clock <= watchList.value[i].now <= input.now)
                 && (forall i, j :: 0 <= i < j < |watchList.value| ==> watchList.value[i].now <= watchList.value[j].now)
      requires clock <= input.now && Ordered(input) && FreshIDs(payments, input)
      requires input.transfers.Ok? ==> Truthful(input.transfers.value, payments)
      modifies this
      ensures Valid() && clock <= input.swaps(Ether).at
      ensures Capped(payments, cfg.maxDaily)
      ensures signed ==
                if cfg.mode.Off? || watchList.Err? then old(signed)
                else old(signed) + Swept(cfg, derive, old(pending), watchList.value, |watchList.value|) +
                     Converted(cfg, treasuryAddress, old(payments), input)
    {
      if cfg.mode.Off? || watchList.Err? { return; }
      SweepAll(watchList.value, input.now);
      Convert(input);
    }
  }

  lemma AgreedDestination(cfg: Config, treasuryAddress: string, need: SwapNeed, exchange: Exchange, amount: int)
    requires OwnDestination(cfg, treasuryAddress, need.addressTo) && AsAgreed(exchange, amount, need)
    ensures OwnDestination(cfg, treasuryAddress, exchange.addressTo)
  {
  }

  /** TRX before Siacoin before ETH, each at most once. */
  predicate FixedOrder(needs: seq<SwapNeed>) {
    forall i, j :: 0 <= i < j < |needs| ==>
      || (needs[i].currency == Trx && needs[j].currency != Trx)
      || (needs[i].currency == Siacoin && needs[j].currency == Ether)
  }

  /** Whatever the control plane reports, live swaps deliver to the treasury or a configured address, in a fixed order. */
  lemma NeedsInOrder(cfg: Config, treasuryAddress: string, balance: Balance, sia: Result<SiaReport>, aleph: Result<bool>)
    ensures var needs := Needs(cfg, treasuryAddress, balance, sia, aleph);
            && (cfg.mode.Live? ==> forall i :: 0 <= i < |needs| ==> OwnDestination(cfg, treasuryAddress, needs[i].addressTo))
            && FixedOrder(needs)
  {
  }

  lemma OrderedInTurn(needs: seq<SwapNeed>, payments: seq<Payment>, input: ConvertInput)
    requires Ordered(input) && FreshIDs(payments, input) && FixedOrder(needs)
    ensures var inputs := SwapInputs(needs, input.swaps);
            && InTurn(payments, inputs, 0, input.now)
            && (forall i :: 0 <= i < |inputs| ==> inputs[i].at <= input.swaps(Ether).at)
  {
    var inputs := SwapInputs(needs, input.swaps);
    forall c: Currency ensures input.now <= input.swaps(c).at <= input.swaps(Ether).at {
      match c case Trx => case Siacoin => case Ether =>
    }
    forall i | 0 <= i < |inputs|
      ensures input.now <= inputs[i].at <= input.swaps(Ether).at && (inputs[i].broadcast.Ok? ==> NewID(payments, inputs[i].broadcast.value))
    {
      assert inputs[i] == input.swaps(needs[i].currency);
    }
    forall i, j | 0 <= i < j < |inputs|
      ensures inputs[i].at <= inputs[j].at && (inputs[i].broadcast.Ok? ==> inputs[i].broadcast != inputs[j].broadcast)
    {
      assert inputs[i] == input.swaps(needs[i].currency) && inputs[j] == input.swaps(needs[j].currency);
    }
  }

  /** The loop over the chain's transfers. */
  method SumTransfers(transfers: seq<Transfer>) returns (total: nat)
    ensures total == Total(transfers)
  {
    total := 0;
    var i := 0;
    while i < |transfers|
      invariant 0 <= i <= |transfers| && total == Total(transfers[..i])
    {
      assert transfers[..i + 1][..i] == transfers[..i];
      total := total + transfers[i].micro;
      i := i + 1;
    }
    assert transfers[..i] == transfers;
  }

  /** The filter of paid: recent payments stay, and those the chain does not show are added up. */
  method KeepRecent(paid: seq<Payment>, since: int, confirmed: set<string>) returns (kept: seq<Payment>, unconfirmed: int)
    ensures kept == Recent(paid, since) && unconfirmed == Unconfirmed(kept, confirmed)
  {
    kept, unconfirmed := [], 0;
    var i := 0;
    while i < |paid|
      invariant 0 <= i <= |paid| && kept == Recent(paid[..i], since) && unconfirmed == Unconfirmed(kept, confirmed)
    {
      var payment := paid[i];
      assert paid[..i + 1][..i] == paid[..i];
      if payment.at >= since {
        assert (kept + [payment])[..|kept|] == kept;
        kept := kept + [payment];
        if payment.txID !in confirmed { unconfirmed := unconfirmed + payment.micro; }
      }
      i := i + 1;
    }
    assert paid[..i] == paid;
  }
}
