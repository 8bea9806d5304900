/**
 Who pays whom: what every ledger operation does to each account, field by field,
 and when it is refused.
 */
module LedgerMeaning {
  import opened Wrappers
  import opened WeightedSums
  import opened Quotients
  import opened L = Ledger
  import R = LedgerRuns
  import E = Escrow

  /** Nothing but account `a` and balances in it change: its balance by `amount`. */
  ghost predicate BalanceMoved(l: Ledger, r: Ledger, a: nat, amount: int) {
    && a < |l.holders| == |r.holders|
    && forall x :: 0 <= x < |l.holders| ==>
         r.holders[x] == l.holders[x].(balance := l.holders[x].balance + if x == a then amount else 0)
  }

  // ------------------------------------------------------- transfers and savings

  /** The sender has the amount less and the receiver more; to oneself nothing changes. */
  lemma {:induction false} TransferMeans(l: Ledger, from: nat, to: nat, amount: nat)
    ensures var r := Apply(l, Transfer(from, to, amount));
            && (r.Done? <==> from < |l.holders| && to < |l.holders| && amount <= l.holders[from].balance)
            && (r.Done? ==>
                  && r.ledger == l.(holders := r.ledger.holders) && |r.ledger.holders| == |l.holders|
                  && forall x :: 0 <= x < |l.holders| ==>
                       r.ledger.holders[x] == l.holders[x].(
                         balance := l.holders[x].balance - (if x == from then amount else 0) + if x == to then amount else 0))
  {
  }

  lemma {:induction false} ToSavingsMeans(l: Ledger, from: nat, to: nat, amount: nat)
    ensures var r := Apply(l, ToSavings(from, to, amount));
            && (r.Done? <==> from < |l.holders| && to < |l.holders| && amount <= l.holders[from].balance)
            && (r.Done? ==>
                  && r.ledger == l.(holders := r.ledger.holders) && |r.ledger.holders| == |l.holders|
                  && forall x :: 0 <= x < |l.holders| ==>
                       r.ledger.holders[x] == l.holders[x].(
                         balance := l.holders[x].balance - (if x == from then amount else 0),
                         savings := l.holders[x].savings + if x == to then amount else 0))
  {
  }

  ghost function RoutesTo(routes: seq<Route>, x: nat): (s: set<nat>) {
    set i: nat | i < |routes| && routes[i].to == x
  }

  /** Every route gets its percentage, rounded down, of the same part; all of it comes from the savings of `from`. */
  lemma {:induction false} RoutesMean(l: Ledger, from: nat, part: nat, routes: seq<Route>, x: nat)
    requires Known(l, from) && (forall i :: 0 <= i < |routes| ==> Known(l, routes[i].to)) && x < |l.holders|
    ensures var r := PayRoutes(l, from, part, routes);
            && r == l.(holders := r.holders) && |r.holders| == |l.holders|
            && r.holders[x] == l.holders[x].(
                 balance := l.holders[x].balance + SumOver(R.Deposits(part, routes), RoutesTo(routes, x)),
                 savings := l.holders[x].savings - if x == from then Total(R.Deposits(part, routes)) else 0)
  {
    hide Quot;
    if |routes| != 0 {
      var last, init := |routes| - 1, routes[..|routes| - 1];
      assert Known(l, routes[last].to);
      RoutesMean(l, from, part, init, x);
      var all := R.Deposits(part, routes);
      assert all[..last] == R.Deposits(part, init);
      SumAgrees(all[..last], all[..last], RoutesTo(routes, x), RoutesTo(init, x));
      DepositIs(part, routes[last].percent);
    }
  }

  lemma DepositIs(part: nat, percent: nat)
    ensures Quot(part * percent, FULL_PERCENT) == part * percent / FULL_PERCENT >= 0
  {
    QuotientBounds(part, percent, FULL_PERCENT);
  }

  /** Each deposit is the route's percentage of the part, rounded down. */
  lemma {:induction false} DepositMeans(part: nat, routes: seq<Route>, i: nat)
    requires i < |routes|
    ensures IsQuotient(R.Deposits(part, routes)[i], part * routes[i].percent, FULL_PERCENT)
  {
    QuotientIs(part * routes[i].percent, FULL_PERCENT);
  }

  lemma {:induction false} NothingToRoute(l: Ledger, from: nat, part: int, routes: seq<Route>)
    requires Known(l, from) && part <= 0 && forall i :: 0 <= i < |routes| ==> Known(l, routes[i].to)
    ensures PayRoutes(l, from, part, routes) == l
  {
    hide Quot;
    if |routes| != 0 {
      var last := |routes| - 1;
      assert Known(l, routes[last].to);
      NothingToRoute(l, from, part, routes[..last]);
      NegativeDeposit(part, routes[last].percent);
    }
  }

  lemma NegativeDeposit(part: int, percent: nat)
    requires part <= 0
    ensures Quot(part * percent, FULL_PERCENT) <= 0
  {
    Times(part, 0, percent);
  }

  /** A withdrawal takes no more than savings or limit allow, and shares it out along the routes. */
  lemma {:induction false} WithdrawMeans(l: Ledger, from: nat, limit: nat, routes: seq<Route>, x: nat)
    requires x < |l.holders|
    ensures var r := Apply(l, Withdraw(from, limit, routes));
            && (r.Done? <==> from < |l.holders| && forall i :: 0 <= i < |routes| ==> routes[i].to < |l.holders|)
            && (r.Done? ==>
                  var part := if l.holders[from].savings <= limit then l.holders[from].savings else limit;
                  && r.ledger == l.(holders := r.ledger.holders) && |r.ledger.holders| == |l.holders|
                  && r.ledger.holders[x] == (if part <= 0 then l.holders[x] else l.holders[x].(
                       balance := l.holders[x].balance + SumOver(R.Deposits(part, routes), RoutesTo(routes, x)),
                       savings := l.holders[x].savings - if x == from then Total(R.Deposits(part, routes)) else 0)))
  {
    hide PayRoutes, SumOver, Total;
    if Apply(l, Withdraw(from, limit, routes)).Done? {
      var part := WithdrawPart(l.holders[from].savings, limit);
      if part <= 0 { NothingToRoute(l, from, part, routes); } else { RoutesMean(l, from, part, routes, x); }
    }
  }

  /** Interest goes to each account's own savings, and all of it is new supply. */
  lemma {:induction false} InterestMeans(l: Ledger, amounts: seq<int>)
    requires |amounts| <= |l.holders|
    ensures var r := PayInterest(l, amounts);
            && Apply(l, Interest(amounts)) == Done(r)
            && r == l.(holders := r.holders, supply := l.supply + Total(amounts)) && |r.holders| == |l.holders|
            && forall x :: 0 <= x < |l.holders| ==>
                 r.holders[x] == l.holders[x].(savings := l.holders[x].savings + if x < |amounts| then amounts[x] else 0)
  {
    if |amounts| != 0 { InterestMeans(l, amounts[..|amounts| - 1]); }
  }

  // ------------------------------------------------------- orders

  lemma {:induction false} OrderCreateMeans(l: Ledger, owner: nat, amount: nat)
    ensures var r := Apply(l, OrderCreate(owner, amount));
            && (r.Done? <==> owner < |l.holders| && amount <= l.holders[owner].balance)
            && (r.Done? ==>
                  && BalanceMoved(l, r.ledger, owner, 0 - amount)
                  && r.ledger == l.(holders := r.ledger.holders, orders := l.orders + [Some(Order(owner, amount))]))
  {
  }

  /** The seller gets back what was for sale, and the order is gone. */
  lemma {:induction false} OrderCancelMeans(l: Ledger, id: nat)
    ensures var r := Apply(l, OrderCancel(id));
            && (r.Done? <==> id < |l.orders| && l.orders[id].Some? && l.orders[id].value.seller < |l.holders|)
            && (r.Done? ==>
                  && BalanceMoved(l, r.ledger, l.orders[id].value.seller, l.orders[id].value.forSale)
                  && r.ledger == l.(holders := r.ledger.holders, orders := l.orders[id := None]))
  {
  }

  /** A buyer pays for an order that is then open, if the offer is not below the asked price and leaves some balance. */
  lemma {:induction false} ContentCreateMeans(l: Ledger, owner: nat, price: nat, asked: nat)
    ensures var r := Apply(l, ContentCreate(owner, price, asked));
            && (r.Done? <==> owner < |l.holders| && price < l.holders[owner].balance && asked <= price)
            && (r.Done? ==>
                  && BalanceMoved(l, r.ledger, owner, 0 - price)
                  && r.ledger == l.(holders := r.ledger.holders, contents := l.contents + [Content(owner, price, true)]))
  {
  }

  /** Re-pricing pays the owner the new price minus the old one; of a closed order it changes nothing. */
  lemma {:induction false} ContentRepriceMeans(l: Ledger, id: nat, price: nat, asked: nat)
    ensures var r := Apply(l, ContentReprice(id, price, asked));
            && (r.Done? <==> id < |l.contents| && l.contents[id].owner < |l.holders|
                             && price < l.holders[l.contents[id].owner].balance && asked <= price)
            && (r.Done? ==>
                  var c := l.contents[id];
                  if !c.open then r.ledger == l
                  else
                    && BalanceMoved(l, r.ledger, c.owner, price - c.price)
                    && r.ledger == l.(holders := r.ledger.holders, contents := l.contents[id := Content(c.owner, price, true)]))
  {
    if Apply(l, ContentReprice(id, price, asked)).Done? && l.contents[id].price == price && l.contents[id].open {
      assert l.contents[id := Content(l.contents[id].owner, price, true)] == l.contents;
      assert l.(holders := l.holders, contents := l.contents) == l;
    }
  }

  /** Whoever is credited, the owner or the author, gets the price, and the order is closed. */
  lemma {:induction false} ContentCloseMeans(l: Ledger, id: nat, credited: nat)
    ensures var r := Apply(l, ContentClose(id, credited));
            && (r.Done? <==> id < |l.contents| && credited < |l.holders| && l.contents[id].open)
            && (r.Done? ==>
                  && BalanceMoved(l, r.ledger, credited, l.contents[id].price)
                  && r.ledger == l.(holders := r.ledger.holders, contents := l.contents[id := l.contents[id].(open := false)]))
  {
  }

  // ------------------------------------------------------- escrows

  lemma {:induction false} EscrowCreateMeans(l: Ledger, op: Op)
    requires op.EscrowCreate?
    ensures var r := Apply(l, op);
            && (r.Done? <==> op.from < |l.holders| && op.to < |l.holders| && op.agent < |l.holders|
                             && op.agent != op.from && op.agent != op.to && l.now < op.ratifyBy < op.expires
                             && op.amount + op.fee <= l.holders[op.from].balance)
            && (r.Done? ==>
                  && BalanceMoved(l, r.ledger, op.from, 0 - (op.amount + op.fee))
                  && r.ledger == l.(holders := r.ledger.holders, escrows := l.escrows +
                       [Some(E.Escrow(op.from, op.to, op.agent, op.amount, op.fee, false, false, false, op.ratifyBy, op.expires))]))
  {
  }

  /** The escrow's parties get what the escrow pays them, and nobody else anything. */
  lemma {:induction false} SettleMeans(l: Ledger, id: nat, after: E.After)
    requires id < |l.escrows| && l.escrows[id].Some?
    ensures var e := l.escrows[id].value;
            var r := Settle(l, id, after);
            && (r.Done? <==> e.from < |l.holders| && e.to < |l.holders| && e.agent < |l.holders|)
            && (r.Done? ==>
                  && r.ledger == l.(holders := r.ledger.holders, escrows := l.escrows[id := after.escrow])
                  && |r.ledger.holders| == |l.holders|
                  && forall x :: 0 <= x < |l.holders| ==>
                       r.ledger.holders[x] == l.holders[x].(balance := l.holders[x].balance + E.Receives(e, after.paid, x)))
  {
  }

  /** Approvals, disputes, releases and expiries of an escrow are settled as the escrow says. */
  lemma {:induction false} EscrowMeans(l: Ledger, op: Op)
    requires IsEscrowOp(op) && !op.EscrowCreate?
    ensures op.id >= |l.escrows| || l.escrows[op.id].None? ==> Apply(l, op) == Refused(Unknown)
    ensures op.id < |l.escrows| && l.escrows[op.id].Some? ==>
              var e := l.escrows[op.id].value;
              Apply(l, op) == match op
                case EscrowApprove(id, to, agent, who, approve) => Settled(l, id, E.Approve(e, to, agent, who, approve, l.now))
                case EscrowDispute(id, to, agent, who) => Settled(l, id, E.Dispute(e, to, agent, who, l.now))
                case EscrowRelease(id, to, agent, who, receiver, amount) => Settled(l, id, E.Release(e, to, agent, who, receiver, amount, l.now))
                case EscrowExpire(id) => if E.Expire(e, l.now).Some? then Settle(l, id, E.Expire(e, l.now).value) else Refused(NotOpen)
  {
    hide E.Approve, E.Dispute, E.Release, E.Expire, Settle;
  }

  function Settled(l: Ledger, id: nat, r: Result<E.After, E.Error>): (s: Outcome)
    requires id < |l.escrows| && l.escrows[id].Some?
  {
    if r.Ok? then Settle(l, id, r.value) else Refused(EscrowError(r.error))
  }

  // ------------------------------------------------------- rewards, fees and supply

  /**
   A claim moves within one account: BMT to the balance, shares to the vesting
   shares, and behind the shares their part of the pending BMT to the vesting fund,
   all of it with the last share.
   */
  lemma {:induction false} ClaimMeans(l: Ledger, a: nat, bmt: nat, vests: nat)
    requires R.NoNegativePending(l.holders)
    ensures var r := Apply(l, Claim(a, bmt, vests));
            && (r.Done? <==> a < |l.holders| && bmt <= l.holders[a].rewardBmt && vests <= l.holders[a].rewardVests)
            && (r.Done? ==>
                  var h := l.holders[a];
                  var moved := l.pendingVestBmt - r.ledger.pendingVestBmt;
                  && (if vests == h.rewardVests then moved == h.rewardVestBmt
                      else IsQuotient(moved, vests * h.rewardVestBmt, h.rewardVests))
                  && r.ledger == l.(
                       holders := l.holders[a := Holder(h.balance + bmt, h.savings, h.rewardBmt - bmt,
                                                        h.vesting + vests, h.rewardVests - vests, h.rewardVestBmt - moved)],
                       totalVests := l.totalVests + vests, vestFund := l.vestFund + moved,
                       pendingVests := l.pendingVests - vests, pendingVestBmt := l.pendingVestBmt - moved))
  {
    hide ClaimMoves, IsQuotient;
    if Apply(l, Claim(a, bmt, vests)).Done? { MovesMean(l.holders[a], vests); }
  }

  lemma {:induction false} MovesMean(h: Holder, vests: nat)
    requires vests <= h.rewardVests && 0 <= h.rewardVestBmt
    ensures if vests == h.rewardVests then ClaimMoves(h, vests) == h.rewardVestBmt
            else IsQuotient(ClaimMoves(h, vests), vests * h.rewardVestBmt, h.rewardVests)
  {
    if vests != h.rewardVests {
      Times(0, vests, h.rewardVestBmt);
      QuotientIs(vests * h.rewardVestBmt, h.rewardVests);
    }
  }

  /** The creator pays, the reward fund gets the fee, and the new account has nothing. */
  lemma {:induction false} CreateAccountMeans(l: Ledger, creator: nat, fee: nat)
    ensures var r := Apply(l, CreateAccount(creator, fee));
            && (r.Done? <==> creator < |l.holders| && fee <= l.holders[creator].balance)
            && (r.Done? ==> r.ledger == l.(
                  holders := l.holders[creator := l.holders[creator].(balance := l.holders[creator].balance - fee)] + [Holder(0, 0, 0, 0, 0, 0)],
                  fund := l.fund + fee))
  {
    if Apply(l, CreateAccount(creator, fee)).Done? {
      assert Plus(l.holders[creator], Coins(0 - fee)) == l.holders[creator].(balance := l.holders[creator].balance - fee);
    }
  }

  /** The creator pays, and the fee is the new account's vesting. */
  lemma {:induction false} CreateDelegatedMeans(l: Ledger, creator: nat, fee: nat, vests: nat)
    ensures var r := Apply(l, CreateDelegated(creator, fee, vests));
            && (r.Done? <==> creator < |l.holders| && fee <= l.holders[creator].balance)
            && (r.Done? ==>
                  var got := if fee > 0 then vests else 0;
                  r.ledger == l.(
                    holders := l.holders[creator := l.holders[creator].(balance := l.holders[creator].balance - fee)] + [Holder(0, 0, 0, got, 0, 0)],
                    vestFund := l.vestFund + fee, totalVests := l.totalVests + got))
  {
    if Apply(l, CreateDelegated(creator, fee, vests)).Done? {
      var paid := l.holders[creator := l.holders[creator].(balance := l.holders[creator].balance - fee)];
      assert Plus(l.holders[creator], Coins(0 - fee)) == l.holders[creator].(balance := l.holders[creator].balance - fee);
      var n := |l.holders|;
      assert (paid + [Coins(0)])[n := Plus((paid + [Coins(0)])[n], Holder(0, 0, 0, vests, 0, 0))] == paid + [Holder(0, 0, 0, vests, 0, 0)];
    }
  }

  /** A fee is destroyed. */
  lemma {:induction false} PayFeeMeans(l: Ledger, a: nat, fee: nat)
    ensures var r := Apply(l, PayFee(a, fee));
            && (r.Done? <==> a < |l.holders| && (fee == 0 || fee <= l.holders[a].balance))
            && (r.Done? ==> BalanceMoved(l, r.ledger, a, 0 - fee) && r.ledger == l.(holders := r.ledger.holders, supply := l.supply - fee))
  {
  }

  /** Of what is minted the fund gets its part and the producer the rest. */
  lemma {:induction false} EmitMeans(l: Ledger, producer: nat, minted: int, content: int)
    ensures var r := Apply(l, Emit(producer, minted, content));
            && (r.Done? <==> producer < |l.holders|)
            && (r.Done? ==>
                  && BalanceMoved(l, r.ledger, producer, minted - content)
                  && r.ledger == l.(holders := r.ledger.holders, fund := l.fund + content, supply := l.supply + minted))
  {
  }

  lemma {:induction false} BurnMeans(l: Ledger, a: nat, vests: nat, bmt: nat)
    ensures var r := Apply(l, Burn(a, vests, bmt));
            && (r.Done? <==> a < |l.holders|)
            && (r.Done? ==> r.ledger == l.(
                  holders := l.holders[a := l.holders[a].(vesting := l.holders[a].vesting - vests)],
                  totalVests := l.totalVests - vests, vestFund := l.vestFund - bmt, supply := l.supply - bmt))
  {
    if a < |l.holders| {
      assert Plus(l.holders[a], Holder(0, 0, 0, 0 - vests, 0, 0)) == l.holders[a].(vesting := l.holders[a].vesting - vests);
    }
  }

  lemma BlockMeans(l: Ledger, time: nat)
    ensures Apply(l, NewBlock(time)) == Done(l.(now := time))
  {
  }

  function NotAbove0(n: int): (r: int) {
    if n > 0 then 0 else n
  }

  /** The null account is left with nothing positive, and what it had of BMT leaves the supply. */
  lemma {:induction false} SweepMeans(l: Ledger, a: nat, converted: nat)
    requires R.NoNegativePending(l.holders)
    ensures var r := Apply(l, SweepNull(a, converted));
            && (r.Done? <==> a < |l.holders|)
            && (r.Done? ==>
                  var h := l.holders[a];
                  var fromVests := if h.vesting > 0 then converted else 0;
                  var pending := if h.rewardVests > 0 then h.rewardVestBmt else 0;
                  r.ledger == l.(
                    holders := l.holders[a := Holder(NotAbove0(h.balance), NotAbove0(h.savings), NotAbove0(h.rewardBmt),
                                                     NotAbove0(h.vesting), 0, h.rewardVestBmt - pending)],
                    totalVests := l.totalVests - (h.vesting - NotAbove0(h.vesting)), vestFund := l.vestFund - fromVests,
                    pendingVests := l.pendingVests - h.rewardVests, pendingVestBmt := l.pendingVestBmt - pending,
                    supply := l.supply - (h.balance - NotAbove0(h.balance)) - (h.savings - NotAbove0(h.savings))
                              - (h.rewardBmt - NotAbove0(h.rewardBmt)) - fromVests - pending))
  {
  }

  // ------------------------------------------------------- payouts

  /** What the payouts of one kind give to account `x`. */
  ghost function PaidTo(ps: seq<Payout>, kind: Kind, x: nat): (t: int) {
    if |ps| == 0 then 0
    else PaidTo(ps[..|ps| - 1], kind, x) + if ps[|ps| - 1].kind == kind && ps[|ps| - 1].account == x then ps[|ps| - 1].bmt else 0
  }

  ghost function VestsTo(ps: seq<Payout>, kind: Kind, x: nat): (t: int) {
    if |ps| == 0 then 0
    else VestsTo(ps[..|ps| - 1], kind, x) + if ps[|ps| - 1].kind == kind && ps[|ps| - 1].account == x then ps[|ps| - 1].vests else 0
  }

  ghost function KindTotal(ps: seq<Payout>, kind: Kind): (t: int) {
    if |ps| == 0 then 0 else KindTotal(ps[..|ps| - 1], kind) + if ps[|ps| - 1].kind == kind then ps[|ps| - 1].bmt else 0
  }

  ghost function KindVests(ps: seq<Payout>, kind: Kind): (t: int) {
    if |ps| == 0 then 0 else KindVests(ps[..|ps| - 1], kind) + if ps[|ps| - 1].kind == kind then ps[|ps| - 1].vests else 0
  }

  /** Coins go to the balance, shares to the vesting shares with their BMT in the vesting fund, claimable ones wait with theirs. */
  lemma {:induction false} PayoutsMean(l: Ledger, ps: seq<Payout>)
    requires AllKnown(l, ps)
    ensures var r := PayAll(l, ps);
            && |r.holders| == |l.holders|
            && (forall x :: 0 <= x < |l.holders| ==> r.holders[x] == Holder(
                  l.holders[x].balance + PaidTo(ps, Coin, x), l.holders[x].savings, l.holders[x].rewardBmt,
                  l.holders[x].vesting + VestsTo(ps, Shares, x),
                  l.holders[x].rewardVests + VestsTo(ps, Claimable, x), l.holders[x].rewardVestBmt + PaidTo(ps, Claimable, x)))
            && r == l.(holders := r.holders,
                       totalVests := l.totalVests + KindVests(ps, Shares), vestFund := l.vestFund + KindTotal(ps, Shares),
                       pendingVests := l.pendingVests + KindVests(ps, Claimable), pendingVestBmt := l.pendingVestBmt + KindTotal(ps, Claimable))
  {
    if |ps| != 0 {
      assert Known(l, ps[|ps| - 1].account);
      PayoutsMean(l, ps[..|ps| - 1]);
    }
  }

  /** A cashout pays the payouts and takes all of them from the fund. */
  lemma {:induction false} CashoutMeans(l: Ledger, ps: seq<Payout>)
    ensures Apply(l, Cashout(ps)).Done? <==> forall i :: 0 <= i < |ps| ==> ps[i].account < |l.holders|
    ensures AllKnown(l, ps) ==> Apply(l, Cashout(ps)) == Done(PayAll(l, ps).(fund := l.fund - (KindTotal(ps, Coin) + KindTotal(ps, Shares) + KindTotal(ps, Claimable))))
  {
    hide PayAll, Awarded, KindTotal;
    if AllKnown(l, ps) {
      PayoutsMean(l, ps);
      KindsAddUp(ps);
    }
  }

  lemma {:induction false} KindsAddUp(ps: seq<Payout>)
    ensures Awarded(ps) == KindTotal(ps, Coin) + KindTotal(ps, Shares) + KindTotal(ps, Claimable)
  {
    if |ps| != 0 { KindsAddUp(ps[..|ps| - 1]); }
  }
}
