/**
 Transfer records and their drainer. A record is created PENDING; the
 periodic drainer runs every listed PENDING record through the synchronous
 transfer and marks it SUCCESS or FAILED. SUCCESS and FAILED are final, and
 one record's failure never stops the rest of the batch.
 */
module TransferService {
  import opened Errors
  import opened Ledger
  import opened AccountService

  datatype Status = Pending | Success | Failed

  datatype TransferRecord = TransferRecord(fromUser: int, toUser: int, amount: real, timestamp: int, status: Status)

  /** Transfer records keyed by their id. */
  type Records = map<int, TransferRecord>

  /** Registered users, the lock store and ledger, and the transfer records. */
  datatype Bank = Bank(users: set<int>, world: World, records: Records)

  /** The only changes a record may undergo: none, or PENDING to a final status, nothing else altered. */
  predicate AllowedChange(before: TransferRecord, after: TransferRecord) {
    || after == before
    || (before.status == Pending && after.status != Pending && after == before.(status := after.status))
  }

  /**
   `createTransfer`: the amount is checked first, then that both user ids are
   present and registered; there is no self-transfer check. `newId` is the
   identity the database assigns and `now` the creation time.
   */
  function CreateTransfer(b: Bank, from: Option<int>, to: Option<int>, amount: real, newId: int, now: int)
    : (r: Result<Records>)
    requires newId !in b.records
    ensures r.Ok? <==> amount > 0.0 && from.Some? && to.Some? && from.value in b.users && to.value in b.users
    ensures amount <= 0.0 ==> r == Err(IllegalArgument(NonPositiveAmount))
    ensures amount > 0.0 && r.Err? ==> r == Err(AccountNotFound(UnknownUser))
    ensures r.Ok? ==> r.value.Keys == b.records.Keys + {newId}
    ensures r.Ok? ==> forall j :: j in b.records ==> r.value[j] == b.records[j]
    ensures r.Ok? ==> var t := r.value[newId];
      t.fromUser == from.value && t.toUser == to.value && t.amount == amount && t.timestamp == now && t.status == Pending
  {
    if amount <= 0.0 then Err(IllegalArgument(NonPositiveAmount))
    else if from.None? || to.None? then Err(AccountNotFound(UnknownUser))
    else if from.value !in b.users then Err(AccountNotFound(UnknownUser))
    else if to.value !in b.users then Err(AccountNotFound(UnknownUser))
    else Ok(b.records[newId := TransferRecord(from.value, to.value, amount, now, Pending)])
  }

  datatype Processed = Processed(outcome: Outcome, bank: Bank)

  /** The synchronous transfer a PENDING record stands for. */
  function RunRecord(b: Bank, t: TransferRecord, token: string): TransferRun {
    TransferMoney(b.world, t.fromUser, t.toUser, t.amount, token)
  }

  /**
   `processTransfer`: a missing record is an error; a record that is no
   longer PENDING is left alone; otherwise the transfer runs and any failure
   it reports becomes status FAILED instead of propagating.
   */
  function ProcessTransfer(b: Bank, id: int, token: string): (r: Processed)
    ensures id !in b.records ==> r == Processed(Fail(AccountNotFound(UnknownTransfer)), b)
    ensures id in b.records && b.records[id].status != Pending ==> r == Processed(Pass, b)
    ensures r.bank.records.Keys == b.records.Keys
    ensures id in b.records && b.records[id].status == Pending ==>
      && r.outcome == Pass
      && r.bank.world == RunRecord(b, b.records[id], token).world
      && (r.bank.records[id].status == Success <==> RunRecord(b, b.records[id], token).outcome.Pass?)
      && r.bank.records[id].status != Pending
    ensures r.bank.users == b.users
    ensures forall j :: j in b.records ==> AllowedChange(b.records[j], r.bank.records[j])
    ensures forall j :: j in b.records && j != id ==> r.bank.records[j] == b.records[j]
    ensures Total(r.bank.world.accounts) == Total(b.world.accounts)
  {
    if id !in b.records then Processed(Fail(AccountNotFound(UnknownTransfer)), b)
    else
      var t := b.records[id];
      if t.status != Pending then Processed(Pass, b)
      else
        var run := RunRecord(b, t, token);
        var status := if run.outcome.Pass? then Success else Failed;
        Processed(Pass, Bank(b.users, run.world, b.records[id := t.(status := status)]))
  }

  /** Processing the same record again, with any token, changes nothing more. */
  lemma ProcessTransferIdempotent(b: Bank, id: int, first: string, second: string)
    ensures var once := ProcessTransfer(b, id, first).bank;
      ProcessTransfer(once, id, second).bank == once
  {
  }

  /** A record keeps SUCCESS or FAILED forever. */
  lemma FinalStatusIsFinal(b: Bank, id: int, token: string)
    requires id in b.records && b.records[id].status != Pending
    ensures ProcessTransfer(b, id, token).bank.records[id] == b.records[id]
  {
  }

  /**
   A self-transfer is accepted as a PENDING record, and draining it marks it
   FAILED without touching the lock store or the ledger.
   */
  lemma SelfTransferRecordFails(b: Bank, user: int, amount: real, newId: int, now: int, token: string)
    requires newId !in b.records && user in b.users && amount > 0.0
    ensures CreateTransfer(b, Some(user), Some(user), amount, newId, now).Ok?
    ensures var b' := b.(records := CreateTransfer(b, Some(user), Some(user), amount, newId, now).value);
      var r := ProcessTransfer(b', newId, token);
      r.bank.records[newId].status == Failed && r.bank.world == b.world
  {
  }

  /**
   The bank after running `ProcessTransfer` on each listed id in order, the
   i-th attempt with the i-th token. Every listed record that is PENDING when
   the batch starts ends in a final status, even when an earlier one failed;
   nothing else in the records changes; a list naming every PENDING record
   leaves none PENDING; the ledger keeps its total and its non-negativity.
   */
  function DrainFrom(b: Bank, pending: seq<int>, tokens: seq<string>): (r: Bank)
    requires |tokens| == |pending|
    ensures r.users == b.users
    ensures r.records.Keys == b.records.Keys
    ensures forall id :: id in b.records ==> AllowedChange(b.records[id], r.records[id])
    ensures forall id :: id in b.records && id in pending && b.records[id].status == Pending ==>
      r.records[id].status != Pending
    ensures forall id :: id in b.records && (id !in pending || b.records[id].status != Pending) ==>
      r.records[id] == b.records[id]
    ensures (forall id :: id in b.records && b.records[id].status == Pending ==> id in pending) ==>
      forall id :: id in r.records ==> r.records[id].status != Pending
    ensures Total(r.world.accounts) == Total(b.world.accounts)
    ensures NonNegative(b.world.accounts) ==> NonNegative(r.world.accounts)
    decreases |pending|
  {
    if pending == [] then b
    else
      var id := pending[0];
      var next := ProcessTransfer(b, id, tokens[0]).bank;
      assert NonNegative(b.world.accounts) ==> NonNegative(next.world.accounts) by {
        if NonNegative(b.world.accounts) && id in b.records && b.records[id].status == Pending {
          var t := b.records[id];
          TransferKeepsNonNegative(b.world, t.fromUser, t.toUser, t.amount, tokens[0]);
        }
      }
      assert forall j :: j in pending <==> j == id || j in pending[1..];
      DrainFrom(next, pending[1..], tokens[1..])
  }

  /**
   `processPendingTransfers`: `pending` is the id list the status query
   returned and `tokens` the lock token generated for each attempt. The loop
   computes exactly `DrainFrom`, the one-record step applied along the list:
   every record listed while PENDING ends in a final status, every other
   record is left as it was, and exceptions are swallowed per record.
   */
  method ProcessPendingTransfers(b: Bank, pending: seq<int>, tokens: seq<string>) returns (r: Bank)
    requires |tokens| == |pending|
    ensures r.users == b.users
    ensures r.records.Keys == b.records.Keys
    ensures forall id :: id in b.records ==> AllowedChange(b.records[id], r.records[id])
    ensures forall id :: id in b.records && id in pending && b.records[id].status == Pending ==>
      r.records[id].status != Pending
    ensures forall id :: id in b.records && (id !in pending || b.records[id].status != Pending) ==>
      r.records[id] == b.records[id]
    ensures (forall id :: id in b.records && b.records[id].status == Pending ==> id in pending) ==>
      forall id :: id in r.records ==> r.records[id].status != Pending
    ensures Total(r.world.accounts) == Total(b.world.accounts)
    ensures NonNegative(b.world.accounts) ==> NonNegative(r.world.accounts)
    ensures r == DrainFrom(b, pending, tokens)
  {
    r := b;
    var i := 0;
    while i < |pending|
      invariant 0 <= i <= |pending|
      invariant DrainFrom(r, pending[i..], tokens[i..]) == DrainFrom(b, pending, tokens)
    {
      // A failure of this record (a missing id) is logged and the batch goes on.
      var step := ProcessTransfer(r, pending[i], tokens[i]);
      assert pending[i..][1..] == pending[i + 1..] && tokens[i..][1..] == tokens[i + 1..];
      r := step.bank;
      i := i + 1;
    }
    assert pending[i..] == [] && tokens[i..] == [];
  }
}
