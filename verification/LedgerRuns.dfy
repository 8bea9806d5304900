/**
 Every run of ledger operations keeps the equations of `validate_invariants`,
 up to a gap that only the re-pricing of an open content order can open.
 */
module LedgerRuns {
  import opened Wrappers
  import opened WeightedSums
  import opened L = Ledger
  import E = Escrow

  // ------------------------------------------------------- one holder changes

  ghost predicate NoNegativePending(hs: seq<Holder>) {
    forall i :: 0 <= i < |hs| ==> 0 <= hs[i].rewardVests && 0 <= hs[i].rewardVestBmt
  }

  /** How three of the totals differ between two lists of holders. */
  ghost predicate Differ(before: seq<Holder>, after: seq<Holder>, liquid: int, vests: int, pending: int) {
    && Total(Liquid(after)) == Total(Liquid(before)) + liquid
    && Total(Vests(after)) == Total(Vests(before)) + vests
    && Total(Pending(after)) == Total(Pending(before)) + pending
    && |before| <= |after|
  }

  lemma {:induction false} AddEffect(l: Ledger, a: nat, d: Holder)
    requires Known(l, a)
    ensures Differ(l.holders, Add(l, a, d).holders, d.balance + d.savings + d.rewardBmt, d.vesting + d.rewardVests, d.rewardVestBmt)
    ensures NoNegativePending(l.holders) && 0 <= l.holders[a].rewardVests + d.rewardVests && 0 <= l.holders[a].rewardVestBmt + d.rewardVestBmt
            ==> NoNegativePending(Add(l, a, d).holders)
  {
    hide Total;
    var hs, h := l.holders, Plus(l.holders[a], d);
    var after := hs[a := h];
    assert Liquid(after) == Liquid(hs)[a := h.balance + h.savings + h.rewardBmt];
    assert Vests(after) == Vests(hs)[a := h.vesting + h.rewardVests];
    assert Pending(after) == Pending(hs)[a := h.rewardVestBmt];
    TotalUpdate(Liquid(hs), a, h.balance + h.savings + h.rewardBmt);
    TotalUpdate(Vests(hs), a, h.vesting + h.rewardVests);
    TotalUpdate(Pending(hs), a, h.rewardVestBmt);
  }

  /** Coins and savings only: the pending rewards are untouched. */
  lemma {:induction false} AddTwice(l: Ledger, a: nat, d: Holder, b: nat, e: Holder)
    requires Known(l, a) && Known(l, b)
    requires d.rewardVests == d.rewardVestBmt == d.vesting == 0 && e.rewardVests == e.rewardVestBmt == e.vesting == 0
    ensures Differ(l.holders, Add(Add(l, a, d), b, e).holders,
                   d.balance + d.savings + d.rewardBmt + e.balance + e.savings + e.rewardBmt, 0, 0)
    ensures NoNegativePending(l.holders) ==> NoNegativePending(Add(Add(l, a, d), b, e).holders)
  {
    hide Total;
    AddEffect(l, a, d);
    AddEffect(Add(l, a, d), b, e);
  }

  lemma {:induction false} NewHolderEffect(l: Ledger)
    ensures Differ(l.holders, NewHolder(l).holders, 0, 0, 0)
    ensures NoNegativePending(l.holders) ==> NoNegativePending(NewHolder(l).holders)
  {
    hide Total;
    var hs, after := l.holders, NewHolder(l).holders;
    assert Liquid(after) == Liquid(hs) + [0];
    assert Vests(after) == Vests(hs) + [0];
    assert Pending(after) == Pending(hs) + [0];
    TotalAppend(Liquid(hs), 0);
    TotalAppend(Vests(hs), 0);
    TotalAppend(Pending(hs), 0);
  }

  // ------------------------------------------------------- what an operation keeps

  /** The gap moves by `drift`, and the other equations survive. */
  ghost predicate Kept(l: Ledger, r: Ledger, drift: int) {
    Gap(r) == Gap(l) + drift && Sound(r)
  }

  /** Everything but holders and the totals is the same in both ledgers. */
  ghost predicate SameStores(l: Ledger, r: Ledger) {
    r.escrows == l.escrows && r.orders == l.orders && r.contents == l.contents && r.now == l.now
  }

  /** Only the re-pricing of an open content order changes what is held without changing the supply. */
  ghost function Drift(l: Ledger, op: Op): (d: int) {
    if op.ContentReprice? && Apply(l, op).Done? && l.contents[op.id].open then 2 * (op.price - l.contents[op.id].price) else 0
  }

  /** Cashouts whose claimable parts are not negative. */
  ghost predicate Fair(op: Op) {
    op.Cashout? ==> forall i :: 0 <= i < |op.payouts| && op.payouts[i].kind == Claimable ==> 0 <= op.payouts[i].bmt && 0 <= op.payouts[i].vests
  }

  // ------------------------------------------------------- orders, contents, escrows

  lemma {:induction false} OrderKept(l: Ledger, op: Op)
    requires Sound(l) && (op.OrderCreate? || op.OrderCancel?)
    ensures Kept(l, Next(l, op), 0)
  {
    hide Total;
    if Apply(l, op).Done? {
      match op
      case OrderCreate(owner, amount) =>
        AddEffect(l, owner, Coins(0 - amount));
        assert InOrders(l.orders + [Some(Order(owner, amount))]) == InOrders(l.orders) + [amount];
        TotalAppend(InOrders(l.orders), amount);
      case OrderCancel(id) =>
        AddEffect(l, l.orders[id].value.seller, Coins(l.orders[id].value.forSale));
        assert InOrders(l.orders[id := None]) == InOrders(l.orders)[id := 0];
        TotalUpdate(InOrders(l.orders), id, 0);
    }
  }

  /** Re-pricing from `p` to `q` pays `q - p` to the owner and holds `q - p` more as well. */
  lemma {:induction false} ContentKept(l: Ledger, op: Op)
    requires Sound(l) && (op.ContentCreate? || op.ContentReprice? || op.ContentClose?)
    ensures Kept(l, Next(l, op), Drift(l, op))
  {
    hide Total;
    if Apply(l, op).Done? {
      match op
      case ContentCreate(owner, price, asked) =>
        AddEffect(l, owner, Coins(0 - price));
        assert InContents(l.contents + [Content(owner, price, true)]) == InContents(l.contents) + [price];
        TotalAppend(InContents(l.contents), price);
      case ContentReprice(id, price, asked) =>
        var c := l.contents[id];
        if c.open && c.price != price {
          AddEffect(l, c.owner, Coins(0 - (c.price - price)));
          assert InContents(l.contents[id := c.(price := price)]) == InContents(l.contents)[id := price];
          TotalUpdate(InContents(l.contents), id, price);
        }
      case ContentClose(id, credited) =>
        AddEffect(l, credited, Coins(l.contents[id].price));
        assert InContents(l.contents[id := l.contents[id].(open := false)]) == InContents(l.contents)[id := 0];
        TotalUpdate(InContents(l.contents), id, 0);
    }
  }

  lemma {:induction false} SettleKept(l: Ledger, id: nat, after: E.After)
    requires Sound(l) && id < |l.escrows| && l.escrows[id].Some? && Settle(l, id, after).Done?
    requires var e := l.escrows[id].value;
             e.balance + e.fee == (if after.escrow.Some? then after.escrow.value.balance + after.escrow.value.fee else 0)
                                  + after.paid.toFrom + after.paid.toTo + after.paid.toAgent
    requires after.escrow.Some? ==> (after.escrow.value.Approved() ==> after.escrow.value.fee == 0)
    ensures Kept(l, Settle(l, id, after).ledger, 0)
  {
    hide Total;
    var e := l.escrows[id].value;
    var l1 := Add(l, e.from, Coins(after.paid.toFrom));
    var l2 := Add(l1, e.to, Coins(after.paid.toTo));
    AddEffect(l, e.from, Coins(after.paid.toFrom));
    AddEffect(l1, e.to, Coins(after.paid.toTo));
    AddEffect(l2, e.agent, Coins(after.paid.toAgent));
    var held := if after.escrow.Some? then after.escrow.value.balance + after.escrow.value.fee else 0;
    assert InEscrow(l.escrows[id := after.escrow]) == InEscrow(l.escrows)[id := held];
    TotalUpdate(InEscrow(l.escrows), id, held);
  }

  lemma {:induction false} OpenEscrowKept(l: Ledger, op: Op)
    requires Sound(l) && op.EscrowCreate? && OpenEscrow(l, op).Done?
    ensures Kept(l, OpenEscrow(l, op).ledger, 0)
  {
    hide Total;
    var spent := op.amount + op.fee;
    AddEffect(l, op.from, Coins(0 - spent));
    var escrow := E.Create(op.from, op.to, op.agent, op.amount, op.fee, op.ratifyBy, op.expires, l.now).value;
    assert InEscrow(l.escrows + [Some(escrow)]) == InEscrow(l.escrows) + [spent];
    TotalAppend(InEscrow(l.escrows), spent);
  }

  lemma {:induction false} EscrowKept(l: Ledger, op: Op)
    requires Sound(l) && IsEscrowOp(op)
    ensures Kept(l, Next(l, op), 0)
  {
    hide Total, Gap, Settle, E.Approve, E.Dispute, E.Release, E.Expire;
    if Apply(l, op).Done? {
      if op.EscrowCreate? { OpenEscrowKept(l, op); return; }
      var e := l.escrows[op.id].value;
      match op
      case EscrowApprove(id, to, agent, who, approve) =>
        var after := E.Approve(e, to, agent, who, approve, l.now).value;
        E.Conserved(e, after, to, agent, who, approve, 0, 0, l.now);
        SettleKept(l, id, after);
      case EscrowDispute(id, to, agent, who) =>
        var after := E.Dispute(e, to, agent, who, l.now).value;
        E.Conserved(e, after, to, agent, who, true, 0, 0, l.now);
        SettleKept(l, id, after);
      case EscrowRelease(id, to, agent, who, receiver, amount) =>
        var after := E.Release(e, to, agent, who, receiver, amount, l.now).value;
        E.Conserved(e, after, to, agent, who, true, receiver, amount, l.now);
        SettleKept(l, id, after);
      case EscrowExpire(id) =>
        var after := E.Expire(e, l.now).value;
        E.Conserved(e, after, 0, 0, 0, true, 0, 0, l.now);
        SettleKept(l, id, after);
    }
  }

  // ------------------------------------------------------- loops over accounts

  lemma {:induction false} InterestKept(l: Ledger, amounts: seq<int>)
    requires Sound(l) && |amounts| <= |l.holders|
    ensures Kept(l, PayInterest(l, amounts), 0) && SameStores(l, PayInterest(l, amounts))
  {
    hide Total;
    if |amounts| != 0 {
      var last := |amounts| - 1;
      InterestKept(l, amounts[..last]);
      AddEffect(PayInterest(l, amounts[..last]), last, Holder(0, amounts[last], 0, 0, 0, 0));
    }
  }

  lemma {:induction false} RoutesKept(l: Ledger, from: nat, part: int, routes: seq<Route>)
    requires Sound(l) && Known(l, from) && forall i :: 0 <= i < |routes| ==> Known(l, routes[i].to)
    ensures Kept(l, PayRoutes(l, from, part, routes), 0)
  {
    hide Total, Quot;
    if |routes| != 0 {
      var last := |routes| - 1;
      assert Known(l, routes[last].to);
      RoutesKept(l, from, part, routes[..last]);
      var deposit := Quot(part * routes[last].percent, FULL_PERCENT);
      AddTwice(PayRoutes(l, from, part, routes[..last]), routes[last].to, Coins(deposit), from, Holder(0, 0 - deposit, 0, 0, 0, 0));
    }
  }

  /** A payout raises what is held by exactly its BMT. */
  lemma {:induction false} PayEffect(l: Ledger, p: Payout)
    requires Sound(l) && Known(l, p.account) && (p.kind == Claimable ==> 0 <= p.bmt && 0 <= p.vests)
    ensures Kept(l, Pay(l, p), p.bmt) && Pay(l, p).fund == l.fund
  {
    hide Total;
    match p.kind
    case Claimable => AddEffect(l, p.account, Holder(0, 0, 0, 0, p.vests, p.bmt));
    case Shares => AddEffect(l, p.account, Holder(0, 0, 0, p.vests, 0, 0));
    case Coin => AddEffect(l, p.account, Coins(p.bmt));
  }

  lemma {:induction false} PayAllEffect(l: Ledger, ps: seq<Payout>)
    requires Sound(l) && AllKnown(l, ps)
    requires forall i :: 0 <= i < |ps| && ps[i].kind == Claimable ==> 0 <= ps[i].bmt && 0 <= ps[i].vests
    ensures Kept(l, PayAll(l, ps), Awarded(ps)) && PayAll(l, ps).fund == l.fund
  {
    hide Gap, Sound;
    if |ps| != 0 {
      var init := ps[..|ps| - 1];
      assert Known(l, ps[|ps| - 1].account);
      PayAllEffect(l, init);
      PayEffect(PayAll(l, init), ps[|ps| - 1]);
    }
  }

  lemma {:induction false} CashoutKept(l: Ledger, payouts: seq<Payout>)
    requires Sound(l) && Fair(Cashout(payouts))
    ensures Kept(l, Next(l, Cashout(payouts)), 0)
  {
    hide Total, PayAll, Awarded;
    if AllKnown(l, payouts) { PayAllEffect(l, payouts); }
  }

  // ------------------------------------------------------- the null account and claims

  lemma {:induction false} SweepKept(l: Ledger, a: nat, converted: nat)
    requires Sound(l) && Known(l, a)
    ensures Kept(l, Sweep(l, a, converted), 0)
  {
    hide Total;
    var h, z := l.holders[a], Sweep(l, a, converted).holders[a];
    var d := Holder(z.balance - h.balance, z.savings - h.savings, z.rewardBmt - h.rewardBmt,
                    z.vesting - h.vesting, z.rewardVests - h.rewardVests, z.rewardVestBmt - h.rewardVestBmt);
    assert Sweep(l, a, converted).holders == Add(l, a, d).holders;
    AddEffect(l, a, d);
  }

  lemma {:induction false} ClaimWithin(h: Holder, vests: nat)
    requires vests <= h.rewardVests && 0 <= h.rewardVestBmt
    ensures 0 <= ClaimMoves(h, vests) <= h.rewardVestBmt
  {
    if vests != h.rewardVests {
      QuotientBounds(h.rewardVestBmt, vests, h.rewardVests);
      assert h.rewardVestBmt * vests == vests * h.rewardVestBmt;
      ScaleDown(h.rewardVestBmt, vests, h.rewardVests, ClaimMoves(h, vests));
    }
  }

  lemma {:induction false} ClaimKept(l: Ledger, a: nat, bmt: nat, vests: nat)
    requires Sound(l)
    ensures Kept(l, Next(l, Claim(a, bmt, vests)), 0)
  {
    hide Total, ClaimMoves;
    if Apply(l, Claim(a, bmt, vests)).Done? {
      ClaimWithin(l.holders[a], vests);
      AddEffect(l, a, Holder(bmt, 0, 0 - bmt, vests, 0 - vests, 0 - ClaimMoves(l.holders[a], vests)));
    }
  }

  // ------------------------------------------------------- the rest

  lemma {:induction false} TransferKept(l: Ledger, op: Op)
    requires Sound(l) && (op.Transfer? || op.ToSavings?)
    ensures Kept(l, Next(l, op), 0)
  {
    hide Total;
    if Apply(l, op).Done? {
      if op.Transfer? { AddTwice(l, op.from, Coins(0 - op.amount), op.to, Coins(op.amount)); }
      else { AddTwice(l, op.from, Coins(0 - op.amount), op.to, Holder(0, op.amount, 0, 0, 0, 0)); }
    }
  }

  lemma {:induction false} CreateKept(l: Ledger, op: Op)
    requires Sound(l) && (op.CreateAccount? || op.CreateDelegated?)
    ensures Kept(l, Next(l, op), 0)
  {
    hide Total;
    if Apply(l, op).Done? {
      var paid := Add(l, op.creator, Coins(0 - op.fee));
      AddEffect(l, op.creator, Coins(0 - op.fee));
      NewHolderEffect(paid);
      if op.CreateDelegated? && op.fee > 0 { AddEffect(NewHolder(paid), |l.holders|, Holder(0, 0, 0, op.vests, 0, 0)); }
    }
  }

  lemma {:induction false} FeeKept(l: Ledger, a: nat, fee: nat)
    requires Sound(l)
    ensures Kept(l, Next(l, PayFee(a, fee)), 0)
  {
    hide Total;
    if Apply(l, PayFee(a, fee)).Done? { AddEffect(l, a, Coins(0 - fee)); }
  }

  lemma {:induction false} EmitKept(l: Ledger, producer: nat, minted: int, content: int)
    requires Sound(l)
    ensures Kept(l, Next(l, Emit(producer, minted, content)), 0)
  {
    hide Total;
    if Apply(l, Emit(producer, minted, content)).Done? { AddEffect(l, producer, Coins(minted - content)); }
  }

  lemma {:induction false} BurnKept(l: Ledger, a: nat, vests: nat, bmt: nat)
    requires Sound(l)
    ensures Kept(l, Next(l, Burn(a, vests, bmt)), 0)
  {
    hide Total;
    if Apply(l, Burn(a, vests, bmt)).Done? { AddEffect(l, a, Holder(0, 0, 0, 0 - vests, 0, 0)); }
  }

  lemma {:induction false} BlockKept(l: Ledger, time: nat)
    requires Sound(l)
    ensures Kept(l, Next(l, NewBlock(time)), 0)
  {
    hide Total;
  }

  lemma {:induction false} WithdrawKept(l: Ledger, from: nat, limit: nat, routes: seq<Route>)
    requires Sound(l)
    ensures Kept(l, Next(l, Withdraw(from, limit, routes)), 0)
  {
    hide Total, PayRoutes;
    if Apply(l, Withdraw(from, limit, routes)).Done? {
      RoutesKept(l, from, WithdrawPart(l.holders[from].savings, limit), routes);
    }
  }

  // ------------------------------------------------------- every operation and every run

  lemma {:induction false} NextKept(l: Ledger, op: Op)
    requires Sound(l) && Fair(op)
    ensures Kept(l, Next(l, op), Drift(l, op))
  {
    hide Gap, Sound, PayInterest, Sweep;
    if op.Transfer? || op.ToSavings? { TransferKept(l, op); }
    else if op.Withdraw? { WithdrawKept(l, op.from, op.limit, op.routes); }
    else if op.OrderCreate? || op.OrderCancel? { OrderKept(l, op); }
    else if op.ContentCreate? || op.ContentReprice? || op.ContentClose? { ContentKept(l, op); }
    else if IsEscrowOp(op) { EscrowKept(l, op); }
    else if op.Claim? { ClaimKept(l, op.account, op.bmt, op.vests); }
    else if op.CreateAccount? || op.CreateDelegated? { CreateKept(l, op); }
    else if op.Interest? { if |op.amounts| <= |l.holders| { InterestKept(l, op.amounts); } }
    else if op.SweepNull? { if Known(l, op.account) { SweepKept(l, op.account, op.converted); } }
    else if op.Cashout? { CashoutKept(l, op.payouts); }
    else if op.PayFee? { FeeKept(l, op.account, op.fee); }
    else if op.Emit? { EmitKept(l, op.producer, op.minted, op.content); }
    else if op.Burn? { BurnKept(l, op.account, op.vests, op.bmt); }
    else { BlockKept(l, op.time); }
  }

  /** The drift of a whole run. */
  ghost function TotalDrift(l: Ledger, ops: seq<Op>): (d: int) {
    if |ops| == 0 then 0
    else TotalDrift(l, ops[..|ops| - 1]) + Drift(Run(l, ops[..|ops| - 1]), ops[|ops| - 1])
  }

  /**
   Over every run: vesting shares and pending rewards always add up, and what is
   held exceeds the supply by exactly the drift of the re-pricings.
   */
  lemma {:induction false} RunKept(l: Ledger, ops: seq<Op>)
    requires Sound(l) && forall i :: 0 <= i < |ops| ==> Fair(ops[i])
    ensures Kept(l, Run(l, ops), TotalDrift(l, ops))
  {
    hide Gap, Sound, Drift, Next, Fair;
    if |ops| != 0 {
      RunKept(l, ops[..|ops| - 1]);
      NextKept(Run(l, ops[..|ops| - 1]), ops[|ops| - 1]);
    }
  }

  /** A run keeps the supply equation if and only if its re-pricings cancel out. */
  lemma {:induction false} RunBalancedIff(l: Ledger, ops: seq<Op>)
    requires Balanced(l) && forall i :: 0 <= i < |ops| ==> Fair(ops[i])
    ensures Balanced(Run(l, ops)) <==> TotalDrift(l, ops) == 0
    ensures (forall i :: 0 <= i < |ops| ==> !ops[i].ContentReprice?) ==> Balanced(Run(l, ops))
  {
    hide Sound, Gap, Drift, Next, Fair;
    RunKept(l, ops);
    if forall i :: 0 <= i < |ops| ==> !ops[i].ContentReprice? { NoRepriceNoDrift(l, ops); }
  }

  lemma {:induction false} NoRepriceNoDrift(l: Ledger, ops: seq<Op>)
    requires forall i :: 0 <= i < |ops| ==> !ops[i].ContentReprice?
    ensures TotalDrift(l, ops) == 0
  {
    hide Run;
    if |ops| != 0 { NoRepriceNoDrift(l, ops[..|ops| - 1]); }
  }

  /** One re-pricing keeps the equation exactly when it is refused, the order is not open or the price is the old one. */
  lemma {:induction false} RepriceBalancedIff(l: Ledger, id: nat, price: nat, asked: nat)
    requires Balanced(l) && id < |l.contents| && Known(l, l.contents[id].owner)
    ensures var c := l.contents[id];
            Balanced(Next(l, ContentReprice(id, price, asked))) <==>
            !c.open || c.price == price || l.holders[c.owner].balance <= price || price < asked
  {
    hide Sound, Gap, Held;
    ContentKept(l, ContentReprice(id, price, asked));
  }

  /** One account with 100 BMT and an open order of 10 for a comment. */
  const OneOrder: Ledger :=
    Ledger([Holder(100, 0, 0, 0, 0, 0)], [], [], [Content(0, 10, true)], 0, 0, 0, 0, 0, 110, 0)

  /** A balanced ledger that an operation leaves with `gap` more held than there is supply. */
  ghost predicate Unbalances(l: Ledger, op: Op, gap: int) {
    Balanced(l) && Gap(Next(l, op)) == gap && !Balanced(Next(l, op))
  }

  /** Re-pricing that order from 10 to 20 leaves 20 more held than there is supply. */
  lemma {:induction false} RepriceBreaks()
    ensures Unbalances(OneOrder, ContentReprice(0, 20, 10), 20)
  {
    hide Unbalances, Drift, Balanced;
    SmallBalanced(OneOrder);
    OneOrderDrift();
    DriftUnbalances(OneOrder, ContentReprice(0, 20, 10));
  }

  lemma {:induction false} DriftUnbalances(l: Ledger, op: Op)
    requires Balanced(l) && op.ContentReprice? && Drift(l, op) != 0
    ensures Unbalances(l, op, Drift(l, op))
  {
    hide Gap, Sound, Next, Drift;
    ContentKept(l, op);
  }

  lemma OneOrderDrift()
    ensures Drift(OneOrder, ContentReprice(0, 20, 10)) == 20
  {
  }

  lemma {:induction false} SmallBalanced(l: Ledger)
    requires |l.holders| == 1 && |l.contents| == 1 && l.escrows == [] && l.orders == []
    requires l.holders[0].savings == l.holders[0].rewardBmt == l.holders[0].vesting == l.holders[0].rewardVests == l.holders[0].rewardVestBmt == 0
    requires l.contents[0].open && l.supply == l.holders[0].balance + l.contents[0].price
    requires l.fund == l.vestFund == l.pendingVestBmt == l.totalVests == l.pendingVests == 0
    ensures Balanced(l)
  {
    One(Liquid(l.holders));
    One(Vests(l.holders));
    One(Pending(l.holders));
    One(InContents(l.contents));
  }

  lemma {:induction false} One(w: seq<int>)
    requires |w| == 1
    ensures Total(w) == w[0]
  {
    assert Total(w[..0]) == 0;
  }

  // ------------------------------------------------------- withdrawals

  ghost function Percents(routes: seq<Route>): (r: seq<int>)
    ensures |r| == |routes| && forall i :: 0 <= i < |r| ==> r[i] == routes[i].percent
  {
    seq(|routes|, i requires 0 <= i < |routes| => routes[i].percent)
  }

  ghost function Deposits(part: nat, routes: seq<Route>): (r: seq<int>)
    ensures |r| == |routes| && forall i :: 0 <= i < |r| ==> r[i] == part * routes[i].percent / FULL_PERCENT
  {
    seq(|routes|, i requires 0 <= i < |routes| => part * routes[i].percent / FULL_PERCENT)
  }

  /** The routes take exactly their deposits from the savings. */
  lemma {:induction false} RoutesTake(l: Ledger, from: nat, part: nat, routes: seq<Route>)
    requires Known(l, from) && forall i :: 0 <= i < |routes| ==> Known(l, routes[i].to)
    ensures PayRoutes(l, from, part, routes).holders[from].savings == l.holders[from].savings - Total(Deposits(part, routes))
  {
    if |routes| != 0 {
      var last := |routes| - 1;
      assert Known(l, routes[last].to);
      RoutesTake(l, from, part, routes[..last]);
      assert Deposits(part, routes)[..last] == Deposits(part, routes[..last]);
      QuotientBounds(part, routes[last].percent, FULL_PERCENT);
    }
  }

  /** Routes of at most 100% together never overdraw the savings they come from, and take no more than the limit. */
  lemma {:induction false} WithdrawWithinSavings(l: Ledger, from: nat, limit: nat, routes: seq<Route>)
    requires Known(l, from) && 0 <= l.holders[from].savings && Total(Percents(routes)) <= FULL_PERCENT
    ensures var left := Next(l, Withdraw(from, limit, routes)).holders[from].savings;
            0 <= left && l.holders[from].savings - limit <= left <= l.holders[from].savings
  {
    hide PayRoutes, Total;
    if Apply(l, Withdraw(from, limit, routes)).Done? {
      var part := WithdrawPart(l.holders[from].savings, limit);
      RoutesTake(l, from, part, routes);
      SharesWithinPot(part, Percents(routes), FULL_PERCENT, Deposits(part, routes));
    }
  }
}
