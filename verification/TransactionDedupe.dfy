/**
 Why no transaction is applied twice on one chain: the index of recent
 transactions and the expiration check take turns.
 */
module TransactionDedupe {
  import opened Sequences

  const MAX_TIME_UNTIL_EXPIRATION: nat := 60 * 60

  datatype Trx = Trx(id: nat, expiration: nat)

  datatype Blk = Blk(trxs: seq<Trx>, timestamp: nat)

  /** The transaction index with its expirations, and time and number of the head block. */
  datatype State = State(index: map<nat, nat>, now: nat, num: nat)

  function Ids(trxs: seq<Trx>): (r: seq<nat>)
    ensures |r| == |trxs| && forall i :: 0 <= i < |r| ==> r[i] == trxs[i].id
  {
    seq(|trxs|, i requires 0 <= i < |trxs| => trxs[i].id)
  }

  /** The duplicate and expiration checks of `_apply_transaction`, without skip flags. */
  predicate Accepts(s: State, t: Trx) {
    && t.id !in s.index
    && (s.num > 0 ==> s.now < t.expiration <= s.now + MAX_TIME_UNTIL_EXPIRATION)
  }

  function Added(index: map<nat, nat>, trxs: seq<Trx>): (r: map<nat, nat>) {
    if |trxs| == 0 then index
    else
      var last := trxs[|trxs| - 1];
      Added(index, trxs[..|trxs| - 1])[last.id := last.expiration]
  }

  /** All transactions of a block pass their checks one after another. */
  ghost predicate TakesAll(s: State, trxs: seq<Trx>) {
    Distinct(Ids(trxs)) && forall i :: 0 <= i < |trxs| ==> Accepts(s, trxs[i])
  }

  ghost predicate TakesBlock(s: State, b: Blk) {
    b.timestamp > s.now && TakesAll(s, b.trxs)
  }

  /** What is left of an index when the head block's time is `now`. */
  function Cleared(index: map<nat, nat>, now: nat): (r: map<nat, nat>) {
    map id | id in index && now <= index[id] :: index[id]
  }

  /** A block that is taken leaves its transactions in the index and expired ones out of it. */
  ghost function After(s: State, b: Blk): (r: State) {
    if TakesBlock(s, b) then State(Cleared(Added(s.index, b.trxs), b.timestamp), b.timestamp, s.num + 1) else s
  }

  ghost function AfterAll(s: State, blocks: seq<Blk>): (r: State) {
    if |blocks| == 0 then s else After(AfterAll(s, blocks[..|blocks| - 1]), blocks[|blocks| - 1])
  }

  /** The ids of the transactions in the blocks that are taken, in order. */
  ghost function Chosen(s: State, blocks: seq<Blk>): (ids: seq<nat>) {
    if |blocks| == 0 then []
    else
      var before, b := blocks[..|blocks| - 1], blocks[|blocks| - 1];
      Chosen(s, before) + if TakesBlock(AfterAll(s, before), b) then Ids(b.trxs) else []
  }

  /** An id stands for one transaction, hence for one expiration. */
  ghost predicate Honest(trxs: seq<Trx>, expiry: nat -> nat) {
    forall i :: 0 <= i < |trxs| ==> trxs[i].expiration == expiry(trxs[i].id)
  }

  /** No id was applied twice, and the index holds exactly the applied transactions that have not expired. */
  ghost predicate Sound(s: State, applied: seq<nat>, expiry: nat -> nat) {
    && Distinct(applied)
    && (s.num == 0 ==> applied == [])
    && (forall id :: id in s.index <==> id in applied && s.now <= expiry(id))
    && (forall id :: id in s.index ==> s.index[id] == expiry(id))
  }

  lemma {:induction false} AddedKeys(index: map<nat, nat>, trxs: seq<Trx>, id: nat)
    ensures id in Added(index, trxs) <==> id in index || id in Ids(trxs)
  {
    if |trxs| != 0 {
      var init := trxs[..|trxs| - 1];
      AddedKeys(index, init, id);
      assert Ids(trxs) == Ids(init) + [trxs[|trxs| - 1].id];
    }
  }

  lemma {:induction false} AddedValues(index: map<nat, nat>, trxs: seq<Trx>, expiry: nat -> nat)
    requires Honest(trxs, expiry) && forall id :: id in index ==> index[id] == expiry(id)
    ensures forall id :: id in Added(index, trxs) ==> Added(index, trxs)[id] == expiry(id)
  {
    if |trxs| != 0 { AddedValues(index, trxs[..|trxs| - 1], expiry); }
  }

  /**
   The two halves of the argument: an applied transaction is in the index until
   it has expired, and from then on its expiration is refused.
   */
  lemma {:induction false} RefusedAgain(s: State, applied: seq<nat>, expiry: nat -> nat, t: Trx)
    requires Sound(s, applied, expiry) && t.id in applied && t.expiration == expiry(t.id)
    ensures t.id in s.index <==> s.now <= expiry(t.id)
    ensures !Accepts(s, t)
  {
  }

  /** After block 1 a new transaction is taken exactly when it expires within the next hour; in block 1 whenever it is new. */
  lemma {:induction false} FreshIsTaken(s: State, t: Trx, timestamp: nat)
    requires t.id !in s.index && timestamp > s.now
    ensures TakesBlock(s, Blk([t], timestamp)) <==> s.num == 0 || s.now + 1 <= t.expiration <= s.now + 3600
  {
    assert Ids([t]) == [t.id] && Distinct([t.id]);
    assert [t][0] == t;
  }

  lemma {:induction false} BlockKeepsSound(s: State, applied: seq<nat>, expiry: nat -> nat, b: Blk)
    requires Sound(s, applied, expiry) && Honest(b.trxs, expiry) && TakesBlock(s, b)
    ensures forall i :: 0 <= i < |b.trxs| ==> b.trxs[i].id !in applied
    ensures Sound(After(s, b), applied + Ids(b.trxs), expiry)
  {
    var ids, r := Ids(b.trxs), After(s, b);
    forall i | 0 <= i < |b.trxs| ensures b.trxs[i].id !in applied {
      if b.trxs[i].id in applied { RefusedAgain(s, applied, expiry, b.trxs[i]); }
    }
    AddedValues(s.index, b.trxs, expiry);
    forall id ensures id in r.index <==> id in applied + ids && r.now <= expiry(id) {
      AddedKeys(s.index, b.trxs, id);
    }
    DistinctConcat(applied, ids);
  }

  /** On every run of blocks from genesis, block 1 included, no transaction is applied twice. */
  lemma {:induction false} NeverTwice(genesis: nat, blocks: seq<Blk>, expiry: nat -> nat)
    requires forall i :: 0 <= i < |blocks| ==> Honest(blocks[i].trxs, expiry)
    ensures Sound(AfterAll(State(map[], genesis, 0), blocks), Chosen(State(map[], genesis, 0), blocks), expiry)
  {
    hide Honest, After, TakesBlock;
    var s := State(map[], genesis, 0);
    if |blocks| != 0 {
      var before, b := blocks[..|blocks| - 1], blocks[|blocks| - 1];
      NeverTwice(genesis, before, expiry);
      if TakesBlock(AfterAll(s, before), b) {
        BlockKeepsSound(AfterAll(s, before), Chosen(s, before), expiry, b);
      } else {
        NotTaken(AfterAll(s, before), b);
        assert Chosen(s, before) + [] == Chosen(s, before);
      }
    }
  }

  lemma NotTaken(s: State, b: Blk)
    requires !TakesBlock(s, b)
    ensures After(s, b) == s
  {
  }

  class Chain {
    ghost const expiry: nat -> nat
    var index: map<nat, nat>          // the transaction index: id and expiration
    var now: nat                      // head_block_time
    var num: nat                      // head_block_num
    ghost var applied: seq<nat>       // ids of all transactions on the chain, in order

    ghost function View(): (s: State)
      reads this
    {
      State(index, now, num)
    }

    ghost predicate Valid()
      reads this
    {
      Sound(View(), applied, expiry)
    }

    constructor (genesisTime: nat, ghost expiry: nat -> nat)
      ensures Valid() && applied == [] && View() == State(map[], genesisTime, 0) && this.expiry == expiry
    {
      this.expiry := expiry;
      index, now, num, applied := map[], genesisTime, 0, [];
    }

    /** `_apply_transaction`, as far as duplicates and expirations go. */
    method ApplyTransaction(t: Trx) returns (ok: bool)
      modifies this`index
      ensures ok <==> Accepts(old(View()), t)
      ensures index == if ok then old(index)[t.id := t.expiration] else old(index)
    {
      if t.id in index { return false; }
      if num > 0 {
        if t.expiration > now + MAX_TIME_UNTIL_EXPIRATION { return false; }
        if now >= t.expiration { return false; }
      }
      index := index[t.id := t.expiration];
      ok := true;
    }

    /** `clear_expired_transactions`: removes entries while one is older than the head block. */
    method ClearExpired()
      modifies this`index
      ensures index == Cleared(old(index), now)
    {
      var expired := set id | id in index && now > index[id];
      while expired != {}
        invariant expired == set id | id in index && now > index[id]
        invariant forall id :: id in index ==> id in old(index) && index[id] == old(index)[id]
        invariant forall id :: id in old(index) && now <= old(index)[id] ==> id in index
        decreases |expired|
      {
        var id :| id in expired;
        index := index - {id};
        expired := expired - {id};
      }
      forall id | id in index ensures now <= index[id] { assert now > index[id] ==> id in expired; }
    }

    /** Applies transactions until one is refused. */
    method ApplyAll(trxs: seq<Trx>) returns (ok: bool)
      modifies this`index
      ensures ok <==> TakesAll(old(View()), trxs)
      ensures ok ==> index == Added(old(index), trxs)
    {
      hide Added, Distinct, Accepts;
      ghost var s := View();
      NoneTaken(s);
      var i := 0;
      while i < |trxs|
        invariant 0 <= i <= |trxs| && index == Added(s.index, trxs[..i]) && TakesAll(s, trxs[..i])
      {
        NextTaken(s, trxs, i);
        ok := ApplyTransaction(trxs[i]);
        if !ok { return; }
        i := i + 1;
      }
      assert trxs[..|trxs|] == trxs;
      ok := true;
    }

    /** The transactions of a block, then its time, then the cleanup; a refused block changes nothing. */
    method ApplyBlock(b: Blk) returns (ok: bool)
      requires Valid() && Honest(b.trxs, expiry)
      modifies this
      ensures Valid()
      ensures ok <==> TakesBlock(old(View()), b)
      ensures View() == After(old(View()), b)
      ensures applied == old(applied) + if ok then Ids(b.trxs) else []
      ensures ok ==> forall i :: 0 <= i < |b.trxs| ==> b.trxs[i].id !in old(applied)
    {
      hide Sound, TakesAll, Added, Cleared;
      ghost var s := View();
      if b.timestamp <= now { return false; }
      var session := index;
      ok := ApplyAll(b.trxs);
      if !ok {
        index := session;
        return;
      }
      now := b.timestamp;
      num := num + 1;
      ClearExpired();
      BlockKeepsSound(s, applied, expiry, b);
      applied := applied + Ids(b.trxs);
    }
  }

  lemma NoneTaken(s: State)
    ensures TakesAll(s, []) && Added(s.index, []) == s.index
  {
  }

  /** Whether the next transaction passes after the ones before it. */
  lemma {:induction false} NextTaken(s: State, trxs: seq<Trx>, i: nat)
    requires i < |trxs| && TakesAll(s, trxs[..i])
    ensures var here := s.(index := Added(s.index, trxs[..i]));
            && Added(s.index, trxs[..i + 1]) == here.index[trxs[i].id := trxs[i].expiration]
            && (Accepts(here, trxs[i]) <==> TakesAll(s, trxs[..i + 1]))
            && (!Accepts(here, trxs[i]) ==> !TakesAll(s, trxs))
  {
    var before := trxs[..i];
    assert trxs[..i + 1][..i] == before;
    AddedKeys(s.index, before, trxs[i].id);
    assert Ids(trxs[..i + 1]) == Ids(before) + [trxs[i].id];
    if trxs[i].id in Ids(before) {
      var j :| 0 <= j < i && Ids(before)[j] == trxs[i].id;
      assert Ids(trxs)[j] == Ids(trxs)[i] && Ids(trxs[..i + 1])[j] == Ids(trxs[..i + 1])[i];
    } else if Accepts(s, trxs[i]) {
      DistinctConcat(Ids(before), [trxs[i].id]);
    }
  }

  /** Every run of blocks: what is applied is exactly what the taken blocks bring, and nothing of it twice. */
  method Run(c: Chain, blocks: seq<Blk>)
    requires c.Valid() && forall i :: 0 <= i < |blocks| ==> Honest(blocks[i].trxs, c.expiry)
    modifies c
    ensures c.Valid() && Distinct(c.applied)
    ensures c.View() == AfterAll(old(c.View()), blocks)
    ensures c.applied == old(c.applied) + Chosen(old(c.View()), blocks)
  {
    hide Sound, Honest, After, TakesBlock;
    ghost var s := c.View();
    NothingChosen(s);
    var i := 0;
    while i < |blocks|
      invariant 0 <= i <= |blocks| && c.Valid()
      invariant c.View() == AfterAll(s, blocks[..i]) && c.applied == old(c.applied) + Chosen(s, blocks[..i])
    {
      assert blocks[..i + 1][..i] == blocks[..i];
      var ok := c.ApplyBlock(blocks[i]);
      i := i + 1;
    }
    assert blocks[..i] == blocks;
    SoundIsDistinct(c.View(), c.applied, c.expiry);
  }

  lemma NothingChosen(s: State)
    ensures AfterAll(s, []) == s && Chosen(s, []) == []
  {
  }

  lemma SoundIsDistinct(s: State, applied: seq<nat>, expiry: nat -> nat)
    requires Sound(s, applied, expiry)
    ensures Distinct(applied)
  {
  }
}
