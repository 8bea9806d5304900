/**
 One escrow from its creation to its end: who may approve, dispute and release,
 and where every unit of the deposit and the fee goes.
 */
module Escrow {
  import opened Wrappers

  datatype Escrow = Escrow(
    from: nat, to: nat, agent: nat,
    balance: nat, fee: nat,
    toApproved: bool, agentApproved: bool, disputed: bool,
    ratifyBy: nat, expires: nat)
  {
    predicate Approved() { toApproved && agentApproved }
  }

  datatype Error =
    | NotAParty | Mismatch | TooLate | AlreadyApproved | NotApproved | AlreadyDisputed
    | TooMuch | WrongReceiver | NotAllowed | BadTerms

  /** What an operation pays to the parties. */
  datatype Payment = Payment(toFrom: nat, toTo: nat, toAgent: nat)

  const NoPayment: Payment := Payment(0, 0, 0)

  /** The escrow after an operation, gone if it was removed, and what was paid. */
  datatype After = After(escrow: Option<Escrow>, paid: Payment)

  /** `escrow_transfer`: the terms that are checked before an escrow is created. */
  function Create(from: nat, to: nat, agent: nat, amount: nat, fee: nat, ratifyBy: nat, expires: nat, now: nat): (r: Result<Escrow, Error>) {
    if from == agent || to == agent then Err(NotAParty)
    else if ratifyBy >= expires then Err(BadTerms)
    else if ratifyBy <= now || expires <= now then Err(TooLate)
    else Ok(Escrow(from, to, agent, amount, fee, false, false, false, ratifyBy, expires))
  }

  /** `escrow_approve`, also the rejection; the parties named must be those of the escrow. */
  function Approve(e: Escrow, to: nat, agent: nat, who: nat, approve: bool, now: nat): (r: Result<After, Error>) {
    if who != to && who != agent then Err(NotAParty)
    else if e.to != to || e.agent != agent then Err(Mismatch)
    else if e.ratifyBy < now then Err(TooLate)
    else if (who == to && e.toApproved) || (who == agent && e.agentApproved) then Err(AlreadyApproved)
    else if !approve then Ok(After(None, Payment(e.balance + e.fee, 0, 0)))
    else
      var e' := e.(toApproved := e.toApproved || who == to, agentApproved := e.agentApproved || who == agent);
      if e'.Approved() then Ok(After(Some(e'.(fee := 0)), Payment(0, 0, e.fee)))
      else Ok(After(Some(e'), NoPayment))
  }

  /** `escrow_dispute`. */
  function Dispute(e: Escrow, to: nat, agent: nat, who: nat, now: nat): (r: Result<After, Error>) {
    if who != e.from && who != to then Err(NotAParty)
    else if now >= e.expires then Err(TooLate)
    else if !e.Approved() then Err(NotApproved)
    else if e.disputed then Err(AlreadyDisputed)
    else if e.to != to || e.agent != agent then Err(Mismatch)
    else Ok(After(Some(e.(disputed := true)), NoPayment))
  }

  /** `escrow_release`. */
  function Release(e: Escrow, to: nat, agent: nat, who: nat, receiver: nat, amount: nat, now: nat): (r: Result<After, Error>) {
    if e.balance < amount then Err(TooMuch)
    else if e.to != to || e.agent != agent then Err(Mismatch)
    else if receiver != e.from && receiver != e.to then Err(WrongReceiver)
    else if !e.Approved() then Err(NotApproved)
    else if e.disputed && who != e.agent then Err(NotAllowed)
    else if !e.disputed && who != e.from && who != e.to then Err(NotAllowed)
    else if !e.disputed && e.expires > now && who == e.from && receiver != e.to then Err(WrongReceiver)
    else if !e.disputed && e.expires > now && who != e.from && receiver != e.from then Err(WrongReceiver)
    else
      var left := e.balance - amount;
      var paid := if receiver == e.from then Payment(amount, 0, 0) else Payment(0, amount, 0);
      Ok(After(if left == 0 then None else Some(e.(balance := left)), paid))
  }

  /** One turn of `expire_escrow_ratification`: an unapproved escrow past its deadline is paid back. */
  function Expire(e: Escrow, now: nat): (r: Option<After>) {
    if !e.Approved() && e.ratifyBy <= now then Some(After(None, Payment(e.balance + e.fee, 0, 0))) else None
  }

  // ------------------------------------------------------- runs

  datatype Op =
    | DoApprove(to: nat, agent: nat, who: nat, approve: bool)
    | DoDispute(to: nat, agent: nat, who: nat)
    | DoRelease(to: nat, agent: nat, who: nat, receiver: nat, amount: nat)
    | DoExpire

  datatype Ending = Open | Rejected | Expired | PaidOut

  /** A run: the escrow if it still exists, all payments so far, and how it ended. */
  datatype Run = Run(escrow: Option<Escrow>, paid: Payment, ending: Ending, released: bool, wasDisputed: bool)

  function Added(a: Payment, b: Payment): (c: Payment) {
    Payment(a.toFrom + b.toFrom, a.toTo + b.toTo, a.toAgent + b.toAgent)
  }

  /** One operation at time `now`; a refused one changes nothing. */
  function Step(run: Run, op: Op, now: nat): (r: Run) {
    if run.escrow.None? then run
    else
      var e := run.escrow.value;
      match op
      case DoApprove(to, agent, who, approve) =>
        (match Approve(e, to, agent, who, approve, now)
         case Err(_) => run
         case Ok(after) =>
           run.(escrow := after.escrow, paid := Added(run.paid, after.paid), ending := if approve then Open else Rejected))
      case DoDispute(to, agent, who) =>
        (match Dispute(e, to, agent, who, now)
         case Err(_) => run
         case Ok(after) => run.(escrow := after.escrow, wasDisputed := true))
      case DoRelease(to, agent, who, receiver, amount) =>
        (match Release(e, to, agent, who, receiver, amount, now)
         case Err(_) => run
         case Ok(after) =>
           run.(escrow := after.escrow, paid := Added(run.paid, after.paid), released := true,
                ending := if after.escrow.None? then PaidOut else Open))
      case DoExpire =>
        (match Expire(e, now)
         case None => run
         case Some(after) => run.(escrow := after.escrow, paid := Added(run.paid, after.paid), ending := Expired))
  }

  function Steps(run: Run, ops: seq<(Op, nat)>): (r: Run)
    decreases |ops|
  {
    if |ops| == 0 then run else Steps(Step(run, ops[0].0, ops[0].1), ops[1..])
  }

  ghost predicate Paid(p: Payment, toFrom: nat, toTo: nat, toAgent: nat) {
    p.toFrom == toFrom && p.toTo == toTo && p.toAgent == toAgent
  }

  /** An open escrow: before both approvals nothing has moved, after them the agent has the fee. */
  ghost predicate OpenAccounted(e: Escrow, run: Run, amount: nat, fee: nat) {
    && e.to != e.agent && e.from != e.agent && e.disputed == run.wasDisputed
    && (if e.Approved() then
          e.fee == 0 && run.paid.toAgent == fee && e.balance + run.paid.toFrom + run.paid.toTo == amount
        else
          e.fee == fee && e.balance == amount && Paid(run.paid, 0, 0, 0) && !run.released && !run.wasDisputed)
  }

  /** What holds at every point of a run that began with deposit `amount` and `fee`. */
  ghost predicate Accounted(run: Run, amount: nat, fee: nat) {
    if run.ending == Open then run.escrow.Some? && OpenAccounted(run.escrow.value, run, amount, fee)
    else if run.ending == PaidOut then
      run.escrow.None? && run.released && run.paid.toAgent == fee && run.paid.toFrom + run.paid.toTo == amount
    else
      run.escrow.None? && !run.released && !run.wasDisputed && Paid(run.paid, amount + fee, 0, 0)
  }

  lemma {:induction false} StepAccounted(run: Run, op: Op, now: nat, amount: nat, fee: nat)
    requires Accounted(run, amount, fee)
    ensures Accounted(Step(run, op, now), amount, fee)
  {
    if run.escrow.Some? {
      match op
      case DoApprove(to, agent, who, approve) => ApproveAccounted(run, to, agent, who, approve, now, amount, fee);
      case DoDispute(to, agent, who) => DisputeAccounted(run, to, agent, who, now, amount, fee);
      case DoRelease(to, agent, who, receiver, part) => ReleaseAccounted(run, to, agent, who, receiver, part, now, amount, fee);
      case DoExpire => ExpireAccounted(run, now, amount, fee);
    }
  }

  lemma {:induction false} ApproveAccounted(run: Run, to: nat, agent: nat, who: nat, approve: bool, now: nat, amount: nat, fee: nat)
    requires Accounted(run, amount, fee) && run.escrow.Some?
    ensures Accounted(Step(run, DoApprove(to, agent, who, approve), now), amount, fee)
  {
    hide Dispute, Release, Expire, Approve, Accounted;
    var e := run.escrow.value;
    ApproveCases(e, to, agent, who, approve, now);
    var r := Approve(e, to, agent, who, approve, now);
    if r.Ok? {
      ApprovedAccounted(run, r.value, approve, amount, fee);
    }
  }

  /** The same escrow but for its approvals and its fee. */
  ghost predicate SameTerms(e: Escrow, n: Escrow) {
    && n.from == e.from && n.to == e.to && n.agent == e.agent && n.balance == e.balance
    && n.disputed == e.disputed && n.ratifyBy == e.ratifyBy && n.expires == e.expires
  }

  /** What an approval or rejection that is accepted can do. */
  ghost predicate ApprovalResult(e: Escrow, after: After, approve: bool) {
    if !approve then after.escrow.None? && Paid(after.paid, e.balance + e.fee, 0, 0)
    else
      && after.escrow.Some? && SameTerms(e, after.escrow.value)
      && (if after.escrow.value.Approved() then after.escrow.value.fee == 0 && Paid(after.paid, 0, 0, e.fee)
          else after.escrow.value.fee == e.fee && Paid(after.paid, 0, 0, 0))
  }

  lemma {:induction false} ApproveCases(e: Escrow, to: nat, agent: nat, who: nat, approve: bool, now: nat)
    ensures var r := Approve(e, to, agent, who, approve, now);
            r.Ok? ==> !e.Approved() && ApprovalResult(e, r.value, approve)
  {
  }

  lemma {:induction false} ApprovedAccounted(run: Run, after: After, approve: bool, amount: nat, fee: nat)
    requires Accounted(run, amount, fee) && run.escrow.Some? && !run.escrow.value.Approved()
    requires ApprovalResult(run.escrow.value, after, approve)
    ensures Accounted(run.(escrow := after.escrow, paid := Added(run.paid, after.paid), ending := if approve then Open else Rejected), amount, fee)
  {
  }

  lemma {:induction false} DisputeAccounted(run: Run, to: nat, agent: nat, who: nat, now: nat, amount: nat, fee: nat)
    requires Accounted(run, amount, fee) && run.escrow.Some?
    ensures Accounted(Step(run, DoDispute(to, agent, who), now), amount, fee)
  {
    hide Approve, Release, Expire;
  }

  lemma {:induction false} ReleaseAccounted(run: Run, to: nat, agent: nat, who: nat, receiver: nat, part: nat, now: nat, amount: nat, fee: nat)
    requires Accounted(run, amount, fee) && run.escrow.Some?
    ensures Accounted(Step(run, DoRelease(to, agent, who, receiver, part), now), amount, fee)
  {
    hide Approve, Dispute, Expire;
  }

  lemma {:induction false} ExpireAccounted(run: Run, now: nat, amount: nat, fee: nat)
    requires Accounted(run, amount, fee) && run.escrow.Some?
    ensures Accounted(Step(run, DoExpire, now), amount, fee)
  {
    hide Approve, Dispute, Release;
  }

  /**
   In every run the deposit and the fee are exactly what is held and what was
   paid.  The fee goes once: to the agent on the second approval, or back to
   `from`.  Disputes and releases come only after both approvals, so an escrow
   that was rejected or expired was never released from.
   */
  lemma {:induction false} EveryRunAccounted(e: Escrow, ops: seq<(Op, nat)>)
    requires !e.toApproved && !e.agentApproved && !e.disputed && e.to != e.agent && e.from != e.agent
    ensures Accounted(Steps(Run(Some(e), NoPayment, Open, false, false), ops), e.balance, e.fee)
  {
    StepsAccounted(Run(Some(e), NoPayment, Open, false, false), ops, e.balance, e.fee);
  }

  lemma {:induction false} StepsAccounted(run: Run, ops: seq<(Op, nat)>, amount: nat, fee: nat)
    requires Accounted(run, amount, fee)
    ensures Accounted(Steps(run, ops), amount, fee)
    decreases |ops|
  {
    if |ops| != 0 {
      StepAccounted(run, ops[0].0, ops[0].1, amount, fee);
      StepsAccounted(Step(run, ops[0].0, ops[0].1), ops[1..], amount, fee);
    }
  }

  /** Nothing is lost or created by one operation: what the escrow held is what it holds and what it pays. */
  lemma {:induction false} Conserved(e: Escrow, after: After, to: nat, agent: nat, who: nat, flag: bool, receiver: nat, amount: nat, now: nat)
    requires e.Approved() ==> e.fee == 0
    requires || Approve(e, to, agent, who, flag, now) == Ok(after)
             || Dispute(e, to, agent, who, now) == Ok(after)
             || Release(e, to, agent, who, receiver, amount, now) == Ok(after)
             || Expire(e, now) == Some(after)
    ensures e.balance + e.fee ==
            (if after.escrow.Some? then after.escrow.value.balance + after.escrow.value.fee else 0)
            + after.paid.toFrom + after.paid.toTo + after.paid.toAgent
    ensures after.escrow.Some? ==> (after.escrow.value.Approved() ==> after.escrow.value.fee == 0)
  {
  }

  // ------------------------------------------------------- what each operation does

  /** What account `x` gets of a payment to the parties of `e`. */
  function Receives(e: Escrow, p: Payment, x: nat): (amount: nat) {
    (if x == e.from then p.toFrom else 0) + (if x == e.to then p.toTo else 0) + (if x == e.agent then p.toAgent else 0)
  }

  /** An escrow is opened for an agent who is neither party and for deadlines in order, and holds deposit and fee unapproved. */
  lemma {:induction false} CreateMeans(from: nat, to: nat, agent: nat, amount: nat, fee: nat, ratifyBy: nat, expires: nat, now: nat)
    ensures var r := Create(from, to, agent, amount, fee, ratifyBy, expires, now);
            && (r.Ok? <==> agent != from && agent != to && now < ratifyBy < expires)
            && (r.Ok? ==>
                  var e := r.value;
                  && e.from == from && e.to == to && e.agent == agent && e.balance == amount && e.fee == fee
                  && !e.toApproved && !e.agentApproved && !e.disputed && e.ratifyBy == ratifyBy && e.expires == expires)
  {
  }

  /**
   Who may approve or reject: the receiver and the agent, once each and in time.
   A rejection pays everything back to `from`; the second approval pays the fee to
   the agent; a first approval pays nobody.
   */
  lemma {:induction false} ApproveMeans(e: Escrow, to: nat, agent: nat, who: nat, approve: bool, now: nat, x: nat)
    requires e.to != e.agent && e.from != e.agent
    ensures var r := Approve(e, to, agent, who, approve, now);
            && (r.Ok? <==> e.to == to && e.agent == agent && now <= e.ratifyBy && (who == to || who == agent)
                           && !(if who == to then e.toApproved else e.agentApproved))
            && (r.Ok? && !approve ==> r.value.escrow.None? && Receives(e, r.value.paid, x) == if x == e.from then e.balance + e.fee else 0)
            && (r.Ok? && approve ==>
                  && r.value.escrow.Some? && SameTerms(e, r.value.escrow.value)
                  && r.value.escrow.value.toApproved == (e.toApproved || who == to)
                  && r.value.escrow.value.agentApproved == (e.agentApproved || who == agent)
                  && var second := if who == to then e.agentApproved else e.toApproved;
                     && r.value.escrow.value.fee == (if second then 0 else e.fee)
                     && Receives(e, r.value.paid, x) == if second && x == e.agent then e.fee else 0)
  {
  }

  /** A dispute pays nobody; either party may raise it once, after both approvals and before the end. */
  lemma {:induction false} DisputeMeans(e: Escrow, to: nat, agent: nat, who: nat, now: nat, x: nat)
    ensures var r := Dispute(e, to, agent, who, now);
            && (r.Ok? <==> e.to == to && e.agent == agent && (who == e.from || who == e.to) && now < e.expires && e.Approved() && !e.disputed)
            && (r.Ok? ==> r.value.escrow == Some(e.(disputed := true)) && Receives(e, r.value.paid, x) == 0)
  {
  }

  /**
   Who may release to whom: in a dispute the agent to either party; otherwise a
   party to the other one, and after the end to either.
   */
  ghost predicate MayRelease(e: Escrow, who: nat, receiver: nat, now: nat) {
    && (receiver == e.from || receiver == e.to)
    && (if e.disputed then who == e.agent
        else if e.expires <= now then who == e.from || who == e.to
        else (who == e.from && receiver == e.to) || (who == e.to && who != e.from && receiver == e.from))
  }

  /** A release pays exactly the named receiver, and the escrow keeps the rest or ends. */
  lemma {:induction false} ReleaseMeans(e: Escrow, to: nat, agent: nat, who: nat, receiver: nat, amount: nat, now: nat, x: nat)
    requires e.to != e.agent && e.from != e.agent
    ensures var r := Release(e, to, agent, who, receiver, amount, now);
            && (r.Ok? <==> e.to == to && e.agent == agent && e.Approved() && amount <= e.balance && MayRelease(e, who, receiver, now))
            && (r.Ok? ==>
                  && Receives(e, r.value.paid, x) == (if x == receiver then amount else 0)
                  && r.value.escrow == if amount == e.balance then None else Some(e.(balance := e.balance - amount)))
  {
  }

  /** An escrow that was not approved in time pays everything back to `from`, and no other expires. */
  lemma {:induction false} ExpireMeans(e: Escrow, now: nat, x: nat)
    ensures Expire(e, now).Some? <==> e.ratifyBy <= now && !(e.toApproved && e.agentApproved)
    ensures Expire(e, now).Some? ==>
              && Expire(e, now).value.escrow.None?
              && Receives(e, Expire(e, now).value.paid, x) == if x == e.from then e.balance + e.fee else 0
  {
  }
}
