/**
 Everything that holds BMT or vesting shares, the operations that move them, and
 the equations that `validate_invariants` would check.
 */
module Ledger {
  import opened Wrappers
  import opened WeightedSums
  import E = Escrow

  const FULL_PERCENT: nat := 10000     // BMCHAIN_100_PERCENT

  datatype Holder = Holder(
    balance: int, savings: int, rewardBmt: int,
    vesting: int, rewardVests: int, rewardVestBmt: int)

  datatype Order = Order(seller: nat, forSale: int)

  datatype Content = Content(owner: nat, price: int, open: bool)

  datatype Ledger = Ledger(
    holders: seq<Holder>,
    escrows: seq<Option<E.Escrow>>,
    orders: seq<Option<Order>>,
    contents: seq<Content>,
    fund: int,             // reward_balance of the one reward fund
    vestFund: int,         // total_vesting_fund_bmt
    pendingVestBmt: int,   // pending_rewarded_vesting_bmt
    totalVests: int,       // total_vesting_shares
    pendingVests: int,     // pending_rewarded_vesting_shares
    supply: int,           // current_supply
    now: nat)

  // ------------------------------------------------------- what is held

  ghost function Liquid(hs: seq<Holder>): (r: seq<int>)
    ensures |r| == |hs| && forall i :: 0 <= i < |r| ==> r[i] == hs[i].balance + hs[i].savings + hs[i].rewardBmt
  {
    seq(|hs|, i requires 0 <= i < |hs| => hs[i].balance + hs[i].savings + hs[i].rewardBmt)
  }

  ghost function Vests(hs: seq<Holder>): (r: seq<int>)
    ensures |r| == |hs| && forall i :: 0 <= i < |r| ==> r[i] == hs[i].vesting + hs[i].rewardVests
  {
    seq(|hs|, i requires 0 <= i < |hs| => hs[i].vesting + hs[i].rewardVests)
  }

  ghost function Pending(hs: seq<Holder>): (r: seq<int>)
    ensures |r| == |hs| && forall i :: 0 <= i < |r| ==> r[i] == hs[i].rewardVestBmt
  {
    seq(|hs|, i requires 0 <= i < |hs| => hs[i].rewardVestBmt)
  }

  ghost function InEscrow(es: seq<Option<E.Escrow>>): (r: seq<int>)
    ensures |r| == |es| && forall i :: 0 <= i < |r| ==> r[i] == if es[i].Some? then es[i].value.balance + es[i].value.fee else 0
  {
    seq(|es|, i requires 0 <= i < |es| => if es[i].Some? then es[i].value.balance + es[i].value.fee else 0)
  }

  ghost function InOrders(os: seq<Option<Order>>): (r: seq<int>)
    ensures |r| == |os| && forall i :: 0 <= i < |r| ==> r[i] == if os[i].Some? then os[i].value.forSale else 0
  {
    seq(|os|, i requires 0 <= i < |os| => if os[i].Some? then os[i].value.forSale else 0)
  }

  ghost function InContents(cs: seq<Content>): (r: seq<int>)
    ensures |r| == |cs| && forall i :: 0 <= i < |r| ==> r[i] == if cs[i].open then cs[i].price else 0
  {
    seq(|cs|, i requires 0 <= i < |cs| => if cs[i].open then cs[i].price else 0)
  }

  ghost function Held(l: Ledger): (t: int) {
    Total(Liquid(l.holders)) + Total(InEscrow(l.escrows)) + Total(InOrders(l.orders)) + Total(InContents(l.contents))
    + l.fund + l.vestFund + l.pendingVestBmt
  }

  /** An escrow with both approvals has paid its fee. */
  ghost predicate FeesSettled(es: seq<Option<E.Escrow>>) {
    forall i :: 0 <= i < |es| ==> es[i].Some? && es[i].value.Approved() ==> es[i].value.fee == 0
  }

  /** Held minus supply: what the equation on `current_supply` says is zero. */
  ghost function Gap(l: Ledger): (g: int) {
    Held(l) - l.supply
  }

  /** The other equations, and that no pending reward is negative. */
  ghost predicate Sound(l: Ledger) {
    && l.totalVests + l.pendingVests == Total(Vests(l.holders))
    && l.pendingVestBmt == Total(Pending(l.holders))
    && FeesSettled(l.escrows)
    && (forall i :: 0 <= i < |l.holders| ==> 0 <= l.holders[i].rewardVests && 0 <= l.holders[i].rewardVestBmt)
  }

  /** The equations of `validate_invariants` on supply, vesting shares and pending rewards. */
  ghost predicate Balanced(l: Ledger) {
    Gap(l) == 0 && Sound(l)
  }

  // ------------------------------------------------------- moving amounts between holders

  function Plus(h: Holder, d: Holder): (r: Holder) {
    Holder(h.balance + d.balance, h.savings + d.savings, h.rewardBmt + d.rewardBmt,
           h.vesting + d.vesting, h.rewardVests + d.rewardVests, h.rewardVestBmt + d.rewardVestBmt)
  }

  function Coins(amount: int): (d: Holder) {
    Holder(amount, 0, 0, 0, 0, 0)
  }

  function Add(l: Ledger, a: nat, d: Holder): (r: Ledger)
    requires a < |l.holders|
  {
    l.(holders := l.holders[a := Plus(l.holders[a], d)])
  }

  // ------------------------------------------------------- the operations

  datatype Error =
    | Unknown | Insufficient | OfferTooLow | NotOpen | EscrowError(error: E.Error)

  datatype Outcome = Done(ledger: Ledger) | Refused(error: Error)

  /** How a part of a comment's reward is paid: to the pending balance, as vesting shares, or as coins. */
  datatype Kind = Claimable | Shares | Coin

  datatype Payout = Payout(kind: Kind, account: nat, bmt: int, vests: int)

  datatype Route = Route(to: nat, percent: nat)

  datatype Op =
    | Transfer(from: nat, to: nat, amount: nat)
    | ToSavings(from: nat, to: nat, amount: nat)
    | Withdraw(from: nat, limit: nat, routes: seq<Route>)
    | OrderCreate(owner: nat, amount: nat)
    | OrderCancel(id: nat)
    | ContentCreate(owner: nat, price: nat, asked: nat)      // `asked` is the comment's own price
    | ContentReprice(id: nat, price: nat, asked: nat)
    | ContentClose(id: nat, credited: nat)            // cancelled by the owner or the author, or completed
    | EscrowCreate(from: nat, to: nat, agent: nat, amount: nat, fee: nat, ratifyBy: nat, expires: nat)
    | EscrowApprove(id: nat, to: nat, agent: nat, who: nat, approve: bool)
    | EscrowDispute(id: nat, to: nat, agent: nat, who: nat)
    | EscrowRelease(id: nat, to: nat, agent: nat, who: nat, receiver: nat, amount: nat)
    | EscrowExpire(id: nat)
    | Claim(account: nat, bmt: nat, vests: nat)
    | CreateAccount(creator: nat, fee: nat)
    | CreateDelegated(creator: nat, fee: nat, vests: nat)
    | PayFee(account: nat, fee: nat)
    | Emit(producer: nat, minted: int, content: int)
    | Interest(amounts: seq<int>)
    | SweepNull(account: nat, converted: nat)
    | Burn(account: nat, vests: nat, bmt: nat)
    | Cashout(payouts: seq<Payout>)
    | NewBlock(time: nat)

  function Known(l: Ledger, a: nat): bool { a < |l.holders| }

  /** The payment of an escrow operation to its parties, and the escrow's new content. */
  function Settle(l: Ledger, id: nat, after: E.After): (r: Outcome)
    requires id < |l.escrows| && l.escrows[id].Some?
  {
    var e := l.escrows[id].value;
    if !(Known(l, e.from) && Known(l, e.to) && Known(l, e.agent)) then Refused(Unknown)
    else
      var l1 := Add(l, e.from, Coins(after.paid.toFrom));
      var l2 := Add(l1, e.to, Coins(after.paid.toTo));
      var l3 := Add(l2, e.agent, Coins(after.paid.toAgent));
      Done(l3.(escrows := l.escrows[id := after.escrow]))
  }

  function WithEscrow(l: Ledger, id: nat, r: Result<E.After, E.Error>): (s: Outcome)
    requires id < |l.escrows| && l.escrows[id].Some?
  {
    match r
    case Err(e) => Refused(EscrowError(e))
    case Ok(after) => Settle(l, id, after)
  }

  /** `create_vesting` and `adjust_balance`, as a payout uses them. */
  function Pay(l: Ledger, p: Payout): (r: Ledger)
    requires Known(l, p.account)
    ensures |r.holders| == |l.holders|
  {
    match p.kind
    case Claimable =>
      Add(l, p.account, Holder(0, 0, 0, 0, p.vests, p.bmt)).(pendingVests := l.pendingVests + p.vests, pendingVestBmt := l.pendingVestBmt + p.bmt)
    case Shares =>
      Add(l, p.account, Holder(0, 0, 0, p.vests, 0, 0)).(totalVests := l.totalVests + p.vests, vestFund := l.vestFund + p.bmt)
    case Coin => Add(l, p.account, Coins(p.bmt))
  }

  predicate AllKnown(l: Ledger, ps: seq<Payout>) {
    forall i :: 0 <= i < |ps| ==> Known(l, ps[i].account)
  }

  function PayAll(l: Ledger, ps: seq<Payout>): (r: Ledger)
    requires AllKnown(l, ps)
    ensures |r.holders| == |l.holders|
  {
    if |ps| == 0 then l else Pay(PayAll(l, ps[..|ps| - 1]), ps[|ps| - 1])
  }

  function Awarded(ps: seq<Payout>): (t: int) {
    if |ps| == 0 then 0 else Awarded(ps[..|ps| - 1]) + ps[|ps| - 1].bmt
  }

  /** Interest on savings, account by account. */
  function PayInterest(l: Ledger, amounts: seq<int>): (r: Ledger)
    requires |amounts| <= |l.holders|
    ensures |r.holders| == |l.holders|
  {
    if |amounts| == 0 then l
    else
      var last := |amounts| - 1;
      var before := PayInterest(l, amounts[..last]);
      Add(before, last, Holder(0, amounts[last], 0, 0, 0, 0)).(supply := before.supply + amounts[last])
  }

  /** Division as the source's integers do it, towards zero. */
  function Quot(a: int, d: nat): (q: int)
    requires 0 < d
  {
    if a < 0 then -((-a) / d) else a / d
  }

  /** What one account withdraws from its savings in one turn. */
  function WithdrawPart(savings: int, limit: nat): (part: int) {
    if savings < limit then savings else limit
  }

  /** The routes of one account, each taking its percentage of the same part. */
  function PayRoutes(l: Ledger, from: nat, part: int, routes: seq<Route>): (r: Ledger)
    requires Known(l, from) && forall i :: 0 <= i < |routes| ==> Known(l, routes[i].to)
    ensures |r.holders| == |l.holders|
  {
    if |routes| == 0 then l
    else
      var last := |routes| - 1;
      var before := PayRoutes(l, from, part, routes[..last]);
      assert Known(l, routes[last].to);
      var deposit := Quot(part * routes[last].percent, FULL_PERCENT);
      if deposit <= 0 then before
      else Add(Add(before, routes[last].to, Coins(deposit)), from, Holder(0, 0 - deposit, 0, 0, 0, 0))
  }

  /** `clear_null_account_balance`: what the null account holds is destroyed. */
  function Sweep(l: Ledger, a: nat, converted: nat): (r: Ledger)
    requires Known(l, a)
  {
    var h := l.holders[a];
    var coins := if h.balance > 0 then h.balance else 0;
    var saved := if h.savings > 0 then h.savings else 0;
    var vests := if h.vesting > 0 then h.vesting else 0;
    var fromVests: int := if h.vesting > 0 then converted else 0;
    var reward := if h.rewardBmt > 0 then h.rewardBmt else 0;
    var rvests, rbmt := if h.rewardVests > 0 then h.rewardVests else 0, if h.rewardVests > 0 then h.rewardVestBmt else 0;
    var total := coins + saved + fromVests + reward + rbmt;
    Add(l, a, Holder(-coins, -saved, -reward, -vests, -rvests, -rbmt))
      .(totalVests := l.totalVests - vests, vestFund := l.vestFund - fromVests,
        pendingVests := l.pendingVests - rvests, pendingVestBmt := l.pendingVestBmt - rbmt,
        supply := if total > 0 then l.supply - total else l.supply)
  }

  /** The part of the pending BMT that a claim of vesting rewards moves. */
  function ClaimMoves(h: Holder, vests: nat): (m: int)
    requires vests <= h.rewardVests
  {
    if vests == h.rewardVests then h.rewardVestBmt
    else vests * h.rewardVestBmt / h.rewardVests
  }

  /** A refused operation leaves the ledger as it is. */
  function Apply(l: Ledger, op: Op): (r: Outcome) {
    match op
    case Transfer(from, to, amount) =>
      if !Known(l, from) || !Known(l, to) then Refused(Unknown)
      else if l.holders[from].balance < amount then Refused(Insufficient)
      else Done(Add(Add(l, from, Coins(0 - amount)), to, Coins(amount)))
    case ToSavings(from, to, amount) =>
      if !Known(l, from) || !Known(l, to) then Refused(Unknown)
      else if l.holders[from].balance < amount then Refused(Insufficient)
      else Done(Add(Add(l, from, Coins(0 - amount)), to, Holder(0, amount, 0, 0, 0, 0)))
    case Withdraw(from, limit, routes) =>
      if !Known(l, from) || exists i :: 0 <= i < |routes| && !Known(l, routes[i].to) then Refused(Unknown)
      else Done(PayRoutes(l, from, WithdrawPart(l.holders[from].savings, limit), routes))
    case OrderCreate(_, _) => ApplyOrder(l, op)
    case OrderCancel(_) => ApplyOrder(l, op)
    case ContentCreate(_, _, _) => ApplyContent(l, op)
    case ContentReprice(_, _, _) => ApplyContent(l, op)
    case ContentClose(_, _) => ApplyContent(l, op)
    case EscrowCreate(_, _, _, _, _, _, _) => ApplyEscrow(l, op)
    case EscrowApprove(_, _, _, _, _) => ApplyEscrow(l, op)
    case EscrowDispute(_, _, _, _) => ApplyEscrow(l, op)
    case EscrowRelease(_, _, _, _, _, _) => ApplyEscrow(l, op)
    case EscrowExpire(_) => ApplyEscrow(l, op)
    case Claim(a, bmt, vests) =>
      if !Known(l, a) then Refused(Unknown)
      else if l.holders[a].rewardBmt < bmt || l.holders[a].rewardVests < vests then Refused(Insufficient)
      else
        var moved := ClaimMoves(l.holders[a], vests);
        Done(Add(l, a, Holder(bmt, 0, 0 - bmt, vests, 0 - vests, 0 - moved))
               .(totalVests := l.totalVests + vests, vestFund := l.vestFund + moved,
                 pendingVests := l.pendingVests - vests, pendingVestBmt := l.pendingVestBmt - moved))
    case CreateAccount(creator, fee) =>
      if !Known(l, creator) then Refused(Unknown)
      else if l.holders[creator].balance < fee then Refused(Insufficient)
      else Done(NewHolder(Add(l, creator, Coins(0 - fee))).(fund := l.fund + fee))
    case CreateDelegated(creator, fee, vests) =>
      if !Known(l, creator) then Refused(Unknown)
      else if l.holders[creator].balance < fee then Refused(Insufficient)
      else
        var paid := NewHolder(Add(l, creator, Coins(0 - fee)));
        Done(if fee > 0 then Pay(paid, Payout(Shares, |l.holders|, fee, vests)) else paid)
    case PayFee(a, fee) =>
      if !Known(l, a) then Refused(Unknown)
      else if fee > 0 && l.holders[a].balance < fee then Refused(Insufficient)
      else Done(Add(l, a, Coins(0 - fee)).(supply := l.supply - fee))
    case Emit(producer, minted, content) =>
      if !Known(l, producer) then Refused(Unknown)
      else Done(Add(l, producer, Coins(minted - content)).(fund := l.fund + content, supply := l.supply + minted))
    case Interest(amounts) =>
      if |amounts| > |l.holders| then Refused(Unknown) else Done(PayInterest(l, amounts))
    case SweepNull(a, converted) =>
      if !Known(l, a) then Refused(Unknown) else Done(Sweep(l, a, converted))
    case Burn(a, vests, bmt) =>
      if !Known(l, a) then Refused(Unknown)
      else Done(Add(l, a, Holder(0, 0, 0, 0 - vests, 0, 0))
                  .(totalVests := l.totalVests - vests, vestFund := l.vestFund - bmt, supply := l.supply - bmt))
    case Cashout(payouts) =>
      if !AllKnown(l, payouts) then Refused(Unknown)
      else
        var paid := PayAll(l, payouts);
        Done(paid.(fund := paid.fund - Awarded(payouts)))
    case NewBlock(time) => Done(l.(now := time))
  }

  function NewHolder(l: Ledger): (r: Ledger) {
    l.(holders := l.holders + [Coins(0)])
  }

  function ApplyOrder(l: Ledger, op: Op): (r: Outcome)
    requires op.OrderCreate? || op.OrderCancel?
  {
    match op
    case OrderCreate(owner, amount) =>
      if !Known(l, owner) then Refused(Unknown)
      else if l.holders[owner].balance < amount then Refused(Insufficient)
      else Done(Add(l, owner, Coins(0 - amount)).(orders := l.orders + [Some(Order(owner, amount))]))
    case OrderCancel(id) =>
      if id >= |l.orders| || l.orders[id].None? || !Known(l, l.orders[id].value.seller) then Refused(Unknown)
      else Done(Add(l, l.orders[id].value.seller, Coins(l.orders[id].value.forSale)).(orders := l.orders[id := None]))
  }

  function ApplyContent(l: Ledger, op: Op): (r: Outcome)
    requires op.ContentCreate? || op.ContentReprice? || op.ContentClose?
  {
    match op
    case ContentCreate(owner, price, asked) =>
      if !Known(l, owner) then Refused(Unknown)
      else if l.holders[owner].balance <= price then Refused(Insufficient)
      else if price < asked then Refused(OfferTooLow)
      else Done(Add(l, owner, Coins(0 - price)).(contents := l.contents + [Content(owner, price, true)]))
    case ContentReprice(id, price, asked) =>
      if id >= |l.contents| || !Known(l, l.contents[id].owner) then Refused(Unknown)
      else
        var c := l.contents[id];
        if l.holders[c.owner].balance <= price then Refused(Insufficient)
        else if price < asked then Refused(OfferTooLow)
        else if !c.open || c.price == price then Done(l)
        else Done(Add(l, c.owner, Coins(0 - (c.price - price))).(contents := l.contents[id := c.(price := price)]))
    case ContentClose(id, credited) =>
      if id >= |l.contents| || !Known(l, credited) then Refused(Unknown)
      else if !l.contents[id].open then Refused(NotOpen)
      else Done(Add(l, credited, Coins(l.contents[id].price)).(contents := l.contents[id := l.contents[id].(open := false)]))
  }

  predicate IsEscrowOp(op: Op) {
    op.EscrowCreate? || op.EscrowApprove? || op.EscrowDispute? || op.EscrowRelease? || op.EscrowExpire?
  }

  function ApplyEscrow(l: Ledger, op: Op): (r: Outcome)
    requires IsEscrowOp(op)
  {
    if op.EscrowCreate? then OpenEscrow(l, op)
    else if op.id >= |l.escrows| || l.escrows[op.id].None? then Refused(Unknown)
    else
      var e := l.escrows[op.id].value;
      match op
      case EscrowApprove(id, to, agent, who, approve) => WithEscrow(l, id, E.Approve(e, to, agent, who, approve, l.now))
      case EscrowDispute(id, to, agent, who) => WithEscrow(l, id, E.Dispute(e, to, agent, who, l.now))
      case EscrowRelease(id, to, agent, who, receiver, amount) => WithEscrow(l, id, E.Release(e, to, agent, who, receiver, amount, l.now))
      case EscrowExpire(id) =>
        var after := E.Expire(e, l.now);
        if after.None? then Refused(NotOpen) else Settle(l, id, after.value)
  }

  function OpenEscrow(l: Ledger, op: Op): (r: Outcome)
    requires op.EscrowCreate?
  {
    if !Known(l, op.from) || !Known(l, op.to) || !Known(l, op.agent) then Refused(Unknown)
    else
      match E.Create(op.from, op.to, op.agent, op.amount, op.fee, op.ratifyBy, op.expires, l.now)
      case Err(e) => Refused(EscrowError(e))
      case Ok(escrow) =>
        if l.holders[op.from].balance < op.amount + op.fee then Refused(Insufficient)
        else Done(Add(l, op.from, Coins(0 - (op.amount + op.fee))).(escrows := l.escrows + [Some(escrow)]))
  }

  function Next(l: Ledger, op: Op): (r: Ledger) {
    match Apply(l, op)
    case Done(r) => r
    case Refused(_) => l
  }

  function Run(l: Ledger, ops: seq<Op>): (r: Ledger) {
    if |ops| == 0 then l else Next(Run(l, ops[..|ops| - 1]), ops[|ops| - 1])
  }
}
