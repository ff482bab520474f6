/** What a treasury cycle signs, said from outside: which deposits are swept, and what is bought. */
module TreasuryMeaning {
  import opened Common
  import opened Treasury

  // ---------------------------------------------------------------- sweeps

  lemma PendingElsewhere(cfg: Config, derive: int -> string, pending: map<string, PendingTx>, input: SweepInput,
            address: string)
    requires address != input.address
    ensures var after := PendingAfter(cfg, derive, pending, input);
            (address in after <==> address in pending) && (address in pending ==> after[address] == pending[address])
  {
  }

  ghost predicate DistinctAddresses(watched: seq<SweepInput>) {
    forall i, j :: 0 <= i < j < |watched| ==> watched[i].address != watched[j].address
  }

  lemma {:induction false} WaitsAsBefore(cfg: Config, derive: int -> string, pending: map<string, PendingTx>,
            watched: seq<SweepInput>, n: nat, i: nat)
    requires DistinctAddresses(watched) && n <= i < |watched|
    ensures Waits(WaitedFor(cfg, derive, pending, watched, n), watched[i]) <==> Waits(pending, watched[i])
    decreases n
  {
    if n > 0 {
      WaitsAsBefore(cfg, derive, pending, watched, n - 1, i);
      PendingElsewhere(cfg, derive, WaitedFor(cfg, derive, pending, watched, n - 1), watched[n - 1], watched[i].address);
    }
  }

  /**
   * Of a list that names no address twice, exactly those addresses get a transaction that are deposits', are
   * not waited for, and call for one, and it is the one they call for.
   */
  lemma {:induction false} SweptIff(cfg: Config, derive: int -> string, pending: map<string, PendingTx>,
            watched: seq<SweepInput>, n: nat, i: nat, tx: AddressTx)
    requires DistinctAddresses(watched) && n <= |watched| && i < |watched| && cfg.mode.Live?
    ensures OnAddress(watched[i], tx) in Swept(cfg, derive, pending, watched, n) <==>
              && i < n && TREASURY_INDEX < watched[i].index <= MAX_INT32 && watched[i].prepared
              && !Waits(pending, watched[i]) && CalledFor(cfg, derive, watched[i]) == Some(tx)
    decreases n
  {
    if n > 0 {
      SweptIff(cfg, derive, pending, watched, n - 1, i, tx);
      WaitsAsBefore(cfg, derive, pending, watched, n - 1, n - 1);
      if i != n - 1 { assert watched[i].address != watched[n - 1].address; }
    }
  }

  /** Unless the treasury is live, nothing is signed for any address. */
  lemma {:induction false} SweptOnlyLive(cfg: Config, derive: int -> string, pending: map<string, PendingTx>,
            watched: seq<SweepInput>, n: nat)
    requires n <= |watched| && !cfg.mode.Live?
    ensures Swept(cfg, derive, pending, watched, n) == []
    decreases n
  {
    if n > 0 { SweptOnlyLive(cfg, derive, pending, watched, n - 1); }
  }

  // ---------------------------------------------------------------- swaps

  /** What a payment for a need on what is left of the budget is. */
  ghost predicate PaysFor(cfg: Config, need: SwapNeed, input: SwapInput, left: int, entry: Signed) {
    && entry.ExchangePayment? && entry.currency == need.currency
    && cfg.mode.Live? && input.wanted.Ok? && input.pairMin.Ok? && input.quoted && input.prepared
    && input.exchange == Ok(entry.exchange) && entry.exchange.amount == Ok(entry.micro)
    && Folded(entry.exchange.addressTo) == Folded(need.addressTo)
    && cfg.minSwap <= entry.micro <= Min(cfg.maxSwap, left)
    && (input.pairMin.value.Some? ==> input.pairMin.value.value <= entry.micro)
    && (entry.micro < input.wanted.value ==> entry.micro == Min(cfg.maxSwap, left))
    && (entry.micro > input.wanted.value ==> entry.micro == cfg.minSwap || input.pairMin.value == Some(entry.micro))
  }

  lemma SettlesIsPaidFor(cfg: Config, need: SwapNeed, input: SwapInput, left: int)
    requires ValidConfig(cfg) && Settles(cfg, need, input, left)
    ensures PaysFor(cfg, need, input, left, ExchangePayment(need.currency, Planned(cfg, input, left).value, input.exchange.value))
  {
  }

  /** What is signed for needs is for needs whose currency is not in flight, in their order, each at most once. */
  lemma {:induction false} BoughtIsNeeded(cfg: Config, needs: seq<SwapNeed>, inputs: seq<SwapInput>,
            exchanges: seq<Reported>, budget: int, n: nat)
    returns (which: seq<nat>)
    requires ValidConfig(cfg) && n <= |needs| == |inputs|
    ensures var bought := Bought(cfg, needs, inputs, exchanges, budget, n);
            && |which| == |bought|
            && (forall k :: 0 <= k < |which| ==> which[k] < n)
            && (forall k, l :: 0 <= k < l < |which| ==> which[k] < which[l])
            && (forall k :: 0 <= k < |which| ==>
                  && !InFlight(exchanges, needs[which[k]].currency)
                  && PaysFor(cfg, needs[which[k]], inputs[which[k]], LeftAfter(cfg, needs, inputs, exchanges, budget, which[k]), bought[k]))
    decreases n
  {
    which := [];
    if n > 0 {
      which := BoughtIsNeeded(cfg, needs, inputs, exchanges, budget, n - 1);
      var left := LeftAfter(cfg, needs, inputs, exchanges, budget, n - 1);
      if !InFlight(exchanges, needs[n - 1].currency) && Settles(cfg, needs[n - 1], inputs[n - 1], left) {
        SettlesIsPaidFor(cfg, needs[n - 1], inputs[n - 1], left);
        which := which + [n - 1];
      }
    }
  }

  /** A payment with this place among the needs. */
  lemma {:induction false} NeedIsBought(cfg: Config, needs: seq<SwapNeed>, inputs: seq<SwapInput>,
            exchanges: seq<Reported>, budget: int, n: nat, i: nat)
    requires ValidConfig(cfg) && i < n <= |needs| == |inputs| && !InFlight(exchanges, needs[i].currency)
    requires Settles(cfg, needs[i], inputs[i], LeftAfter(cfg, needs, inputs, exchanges, budget, i))
    ensures exists k :: 0 <= k < |Bought(cfg, needs, inputs, exchanges, budget, n)| &&
              PaysFor(cfg, needs[i], inputs[i], LeftAfter(cfg, needs, inputs, exchanges, budget, i),
                      Bought(cfg, needs, inputs, exchanges, budget, n)[k])
    decreases n
  {
    var bought, before := Bought(cfg, needs, inputs, exchanges, budget, n), Bought(cfg, needs, inputs, exchanges, budget, n - 1);
    if i == n - 1 {
      SettlesIsPaidFor(cfg, needs[i], inputs[i], LeftAfter(cfg, needs, inputs, exchanges, budget, i));
      assert bought[|before|].ExchangePayment?;
    } else {
      NeedIsBought(cfg, needs, inputs, exchanges, budget, n - 1, i);
      var k :| 0 <= k < |before| && PaysFor(cfg, needs[i], inputs[i], LeftAfter(cfg, needs, inputs, exchanges, budget, i), before[k]);
      assert bought[k] == before[k];
    }
  }

  /** What exchange payments add up to. */
  function Spent(entries: seq<Signed>): int {
    if entries == [] then 0
    else
      var last := entries[|entries| - 1];
      Spent(entries[..|entries| - 1]) + if last.ExchangePayment? then last.micro else 0
  }

  lemma SpentAppend(entries: seq<Signed>, c: Currency, micro: int, exchange: Exchange)
    ensures Spent(entries + [ExchangePayment(c, micro, exchange)]) == Spent(entries) + micro
  {
    var more := entries + [ExchangePayment(c, micro, exchange)];
    assert more[..|more| - 1] == entries;
  }

  lemma PlannedFits(cfg: Config, input: SwapInput, left: int)
    requires ValidConfig(cfg) && Planned(cfg, input, left).Some?
    ensures 0 < Planned(cfg, input, left).value <= left
  {
  }

  /** What is left never falls below nothing, and a need takes off it at least what is signed for it. */
  lemma LeftNext(cfg: Config, needs: seq<SwapNeed>, inputs: seq<SwapInput>, exchanges: seq<Reported>, budget: int, n: nat)
    requires ValidConfig(cfg) && n < |needs| == |inputs|
    ensures var left, after := LeftAfter(cfg, needs, inputs, exchanges, budget, n), LeftAfter(cfg, needs, inputs, exchanges, budget, n + 1);
            && after <= left && (left >= Min(budget, 0) ==> after >= Min(budget, 0))
            && (!InFlight(exchanges, needs[n].currency) && Settles(cfg, needs[n], inputs[n], left) ==>
                  after == left - Planned(cfg, inputs[n], left).value)
  {
    var left := LeftAfter(cfg, needs, inputs, exchanges, budget, n);
    if Planned(cfg, inputs[n], left).Some? { PlannedFits(cfg, inputs[n], left); }
  }

  lemma BoughtNext(cfg: Config, needs: seq<SwapNeed>, inputs: seq<SwapInput>, exchanges: seq<Reported>, budget: int, n: nat)
    requires ValidConfig(cfg) && n < |needs| == |inputs|
    ensures var left := LeftAfter(cfg, needs, inputs, exchanges, budget, n);
            Spent(Bought(cfg, needs, inputs, exchanges, budget, n + 1)) ==
              Spent(Bought(cfg, needs, inputs, exchanges, budget, n)) +
              if !InFlight(exchanges, needs[n].currency) && Settles(cfg, needs[n], inputs[n], left)
              then Planned(cfg, inputs[n], left).value else 0
  {
    var before, left := Bought(cfg, needs, inputs, exchanges, budget, n), LeftAfter(cfg, needs, inputs, exchanges, budget, n);
    if !InFlight(exchanges, needs[n].currency) && Settles(cfg, needs[n], inputs[n], left) {
      SpentAppend(before, needs[n].currency, Planned(cfg, inputs[n], left).value, inputs[n].exchange.value);
    } else {
      assert Bought(cfg, needs, inputs, exchanges, budget, n + 1) == before + [] == before;
    }
  }

  /** The needs together never take more than the budget. */
  lemma {:induction false} BoughtWithinBudget(cfg: Config, needs: seq<SwapNeed>, inputs: seq<SwapInput>,
            exchanges: seq<Reported>, budget: int, n: nat)
    requires ValidConfig(cfg) && n <= |needs| == |inputs|
    ensures Spent(Bought(cfg, needs, inputs, exchanges, budget, n)) <= budget - LeftAfter(cfg, needs, inputs, exchanges, budget, n)
    ensures budget >= LeftAfter(cfg, needs, inputs, exchanges, budget, n) >= Min(budget, 0)
    decreases n
  {
    if n > 0 {
      BoughtWithinBudget(cfg, needs, inputs, exchanges, budget, n - 1);
      LeftNext(cfg, needs, inputs, exchanges, budget, n - 1);
      BoughtNext(cfg, needs, inputs, exchanges, budget, n - 1);
    }
  }

  /** No convert step pays for a currency of which an exchange is still in flight, nor for one twice, nor more than it has. */
  lemma ConvertedOnce(cfg: Config, treasuryAddress: string, payments: seq<Payment>, input: ConvertInput)
    requires ValidConfig(cfg)
    ensures var converted := Converted(cfg, treasuryAddress, payments, input);
            && (forall k :: 0 <= k < |converted| ==>
                  converted[k].ExchangePayment? && !InFlight(input.exchanges.value, converted[k].currency))
            && (forall k, l :: 0 <= k < l < |converted| ==> converted[k].currency != converted[l].currency)
            && (converted != [] ==>
                  && CanConvert(cfg, treasuryAddress, input)
                  && Spent(converted) <= FirstBudget(cfg, payments, input) <= input.balance.value.usdt)
  {
    if CanConvert(cfg, treasuryAddress, input) {
      var needs := Needs(cfg, treasuryAddress, input.balance.value, input.sia, input.aleph);
      var inputs, budget := SwapInputs(needs, input.swaps), FirstBudget(cfg, payments, input);
      NeedsInOrder(cfg, treasuryAddress, input.balance.value, input.sia, input.aleph);
      var which := BoughtIsNeeded(cfg, needs, inputs, input.exchanges.value, budget, |needs|);
      BoughtWithinBudget(cfg, needs, inputs, input.exchanges.value, budget, |needs|);
      if which != [] { BoughtWithinBudget(cfg, needs, inputs, input.exchanges.value, budget, which[0]); }
    }
  }

  // ---------------------------------------------------------------- needs

  ghost predicate Needed(needs: seq<SwapNeed>, c: Currency, addressTo: string) {
    exists i :: 0 <= i < |needs| && needs[i] == SwapNeed(c, addressTo)
  }

  /** What is running low: TRX below its floor, a short Sia wallet that is the configured one, short Aleph credits. */
  lemma NeedsAre(cfg: Config, treasuryAddress: string, balance: Balance, sia: Result<SiaReport>, aleph: Result<bool>,
            to: string)
    ensures var needs := Needs(cfg, treasuryAddress, balance, sia, aleph);
            && (Needed(needs, Trx, to) <==> balance.trx < cfg.trxFloor && to == treasuryAddress)
            && (Needed(needs, Siacoin, to) <==>
                  && sia.Ok? && sia.value.short && sia.value.address != "" && cfg.siaTarget > 0
                  && (if cfg.siaAddress == "" then !cfg.mode.Live? && to == sia.value.address
                      else to == cfg.siaAddress && Folded(to) == Folded(sia.value.address)))
            && (Needed(needs, Ether, to) <==> aleph == Ok(true) && cfg.alephDays > 0 && to == cfg.alephFundAddress != "")
  {
    var needs := Needs(cfg, treasuryAddress, balance, sia, aleph);
    var trx := if balance.trx < cfg.trxFloor then [SwapNeed(Trx, treasuryAddress)] else [];
    var siacoin := match SiaNeed(cfg, sia) case None => [] case Some(need) => [need];
    var ether := match AlephNeed(cfg, aleph) case None => [] case Some(need) => [need];
    assert needs == trx + siacoin + ether;
    if balance.trx < cfg.trxFloor { assert needs[0] == SwapNeed(Trx, treasuryAddress); }
    if SiaNeed(cfg, sia).Some? { assert needs[|trx|] == SiaNeed(cfg, sia).value; }
    if AlephNeed(cfg, aleph).Some? { assert needs[|trx| + |siacoin|] == AlephNeed(cfg, aleph).value; }
  }

  // ---------------------------------------------------------------- where it goes

  /** Two letters that differ at most in case. */
  predicate SameLetter(a: char, b: char) {
    || a == b
    || ('A' <= a <= 'Z' && b as int == a as int + 32)
    || ('A' <= b <= 'Z' && a as int == b as int + 32)
  }

  lemma FoldedIff(a: string, b: string)
    ensures Folded(a) == Folded(b) <==> SameLetters(a, b)
  {
    if SameLetters(a, b) {
      assert forall i :: 0 <= i < |a| ==> Folded(a)[i] == Folded(b)[i];
    }
    if Folded(a) == Folded(b) {
      assert |a| == |Folded(a)| == |Folded(b)| == |b|;
      forall i | 0 <= i < |a| ensures SameLetter(a[i], b[i]) {
        assert Folded(a)[i] == Folded(b)[i];
      }
    }
  }

  predicate SameLetters(a: string, b: string) {
    |a| == |b| && forall i :: 0 <= i < |a| ==> SameLetter(a[i], b[i])
  }

  /** An own destination is, but for case, the treasury's address or a configured one. */
  lemma OwnDestinationIff(cfg: Config, treasuryAddress: string, address: string)
    ensures OwnDestination(cfg, treasuryAddress, address) <==>
              || SameLetters(address, treasuryAddress)
              || (cfg.siaAddress != "" && SameLetters(address, cfg.siaAddress))
              || (cfg.alephFundAddress != "" && SameLetters(address, cfg.alephFundAddress))
  {
    FoldedIff(address, treasuryAddress);
    FoldedIff(address, cfg.siaAddress);
    FoldedIff(address, cfg.alephFundAddress);
  }

  /** What a currency is bought for. */
  function HomeOf(cfg: Config, treasuryAddress: string, c: Currency): string {
    match c
    case Trx => treasuryAddress
    case Siacoin => cfg.siaAddress
    case Ether => cfg.alephFundAddress
  }

  /** What a live treasury pays for is delivered to its own address for TRX and to the configured ones for the rest. */
  lemma DeliversHome(cfg: Config, treasuryAddress: string, payments: seq<Payment>, input: ConvertInput, k: nat)
    requires ValidConfig(cfg) && k < |Converted(cfg, treasuryAddress, payments, input)|
    ensures var entry := Converted(cfg, treasuryAddress, payments, input)[k];
            entry.ExchangePayment? && SameLetters(entry.exchange.addressTo, HomeOf(cfg, treasuryAddress, entry.currency))
  {
    var needs := Needs(cfg, treasuryAddress, input.balance.value, input.sia, input.aleph);
    var inputs, budget := SwapInputs(needs, input.swaps), FirstBudget(cfg, payments, input);
    var which := BoughtIsNeeded(cfg, needs, inputs, input.exchanges.value, budget, |needs|);
    var need := needs[which[k]];
    assert Needed(needs, need.currency, need.addressTo);
    NeedsAre(cfg, treasuryAddress, input.balance.value, input.sia, input.aleph, need.addressTo);
    var entry := Converted(cfg, treasuryAddress, payments, input)[k];
    FoldedIff(entry.exchange.addressTo, HomeOf(cfg, treasuryAddress, entry.currency));
  }
}
