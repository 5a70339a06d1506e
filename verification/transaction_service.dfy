/** TransactionService: recording a transaction, and the totals and statistics over the
    transaction store. */
module TransactionService {
  import opened Failures
  import opened Calendar
  import opened Text
  import opened Stores
  import opened Transactions
  import TR = TransactionRepository

  /** recordTransaction: a null account, then a non-positive amount, are refused as invalid
      transactions; a null type escapes from the record's constructor. The transaction is
      saved under "TXN-" + a fresh UUID, stamped now. */
  function RecordTransaction(m: TR.TransactionStore, account: Option<string>, amount: real,
                             kind: Option<TransactionType>, description: Option<string>, uuid: string, now: DateTime)
    : (r: Step<TR.TransactionStore, Transaction>)
    ensures account.None? ==> r.result == Err(InvalidTransaction("Account cannot be null"))
    ensures account.Some? && amount <= 0.0 ==> r.result == Err(InvalidTransaction("Amount must be positive"))
    ensures account.Some? && amount > 0.0 && kind.None? ==> r.result == Err(IllegalArgument("Transaction type cannot be null"))
    ensures r.result.Ok? <==> account.Some? && amount > 0.0 && kind.Some?
    ensures r.result.Err? ==> r.state == m
    ensures r.result.Ok? ==>
      && r.result.value == Transaction("TXN-" + uuid, account.value, amount, kind.value, now,
                                       if description.Some? then Some(Plain(description.value)) else None)
      && r.state == m["TXN-" + uuid := r.result.value]
    ensures TR.Keyed(m) && TR.PositiveAmounts(m) ==> TR.Keyed(r.state) && TR.PositiveAmounts(r.state)
  {
    if account.None? then Step(m, Err(InvalidTransaction("Account cannot be null")))
    else if amount <= 0.0 then Step(m, Err(InvalidTransaction("Amount must be positive")))
    else
      assert ("TXN-" + uuid)[0] == 'T';
      var note := if description.Some? then Some(Plain(description.value)) else None;
      match NewTransaction(Some("TXN-" + uuid), account, amount, kind, Some(now), note)
      case Err(e) => Step(m, Err(e))
      case Ok(t) => Step(TR.Save(m, Some(t)).value, Ok(t))
  }

  /** calculateTotalDeposits */
  function TotalDeposits(m: TR.TransactionStore, order: seq<Key>): (t: real)
    requires Enumerates(order, m)
    ensures TR.PositiveAmounts(m) ==> t >= 0.0
  {
    KindSumNonNegative(m, order, IsDeposit);
    SumWhere(m, order, IsDeposit, TR.AmountOf)
  }

  /** calculateTotalWithdrawals */
  function TotalWithdrawals(m: TR.TransactionStore, order: seq<Key>): (t: real)
    requires Enumerates(order, m)
    ensures TR.PositiveAmounts(m) ==> t >= 0.0
  {
    KindSumNonNegative(m, order, IsWithdrawal);
    SumWhere(m, order, IsWithdrawal, TR.AmountOf)
  }

  /** With every stored amount positive, the sum of the amounts of any one kind is never
      negative. */
  lemma KindSumNonNegative(m: TR.TransactionStore, order: seq<Key>, p: Transaction -> bool)
    requires Enumerates(order, m)
    ensures TR.PositiveAmounts(m) ==> SumWhere(m, order, p, TR.AmountOf) >= 0.0
  {
    if TR.PositiveAmounts(m) {
      SumWhereNonNegative(m, order, p, TR.AmountOf);
    }
  }

  /** getNetCashFlow: deposits less withdrawals. Transfers, interest credits and fee debits
      do not enter it. */
  function NetCashFlow(m: TR.TransactionStore, order: seq<Key>): (n: real)
    requires Enumerates(order, m)
    ensures TR.PositiveAmounts(m) ==> n <= TotalDeposits(m, order)
  {
    TotalDeposits(m, order) - TotalWithdrawals(m, order)
  }

  /** With no withdrawals stored the net flow is the deposit total, which is never negative. */
  lemma NetCashFlowWithoutWithdrawals(m: TR.TransactionStore, order: seq<Key>)
    requires Enumerates(order, m) && TR.PositiveAmounts(m)
    requires forall k :: k in m ==> !IsWithdrawal(m[k])
    ensures NetCashFlow(m, order) == TotalDeposits(m, order) >= 0.0
  {
    NoWithdrawals(m, order);
    SumWhereNonNegative(m, order, IsDeposit, TR.AmountOf);
  }

  lemma {:induction false} NoWithdrawals(m: TR.TransactionStore, keys: seq<Key>)
    requires AllIn(keys, m) && forall k :: k in m ==> !IsWithdrawal(m[k])
    ensures SumWhere(m, keys, IsWithdrawal, TR.AmountOf) == 0.0
    decreases |keys|
  {
    if keys != [] {
      NoWithdrawals(m, keys[1..]);
    }
  }

  /** Recording a transaction under a new id moves the net cash flow by its amount: up for
      a deposit, down for a withdrawal, not at all for any other type. */
  lemma NetCashFlowAfterRecord(m: TR.TransactionStore, order: seq<Key>, account: Option<string>, amount: real,
                               kind: Option<TransactionType>, description: Option<string>, uuid: string,
                               now: DateTime, order': seq<Key>)
    requires Enumerates(order, m) && "TXN-" + uuid !in m
    requires RecordTransaction(m, account, amount, kind, description, uuid, now).result.Ok?
    requires Enumerates(order', RecordTransaction(m, account, amount, kind, description, uuid, now).state)
    ensures NetCashFlow(RecordTransaction(m, account, amount, kind, description, uuid, now).state, order')
            == NetCashFlow(m, order) + (if kind == Some(DEPOSIT) then amount
                                       else if kind == Some(WITHDRAWAL) then -amount else 0.0)
  {
    var r := RecordTransaction(m, account, amount, kind, description, uuid, now);
    var t := r.result.value;
    SumWherePut(m, order, order', t.transactionId, t, IsDeposit, TR.AmountOf);
    SumWherePut(m, order, order', t.transactionId, t, IsWithdrawal, TR.AmountOf);
  }

  datatype TransactionStatistics = TransactionStatistics(
    totalAmount: real,
    averageAmount: real,
    totalCount: nat,
    depositCount: nat,
    withdrawalCount: nat,
    transferCount: nat)

  /** The three kind counts over any sequence of keys never exceed its length. */
  lemma {:induction false} KindCountsBounded(m: TR.TransactionStore, keys: seq<Key>)
    requires AllIn(keys, m)
    ensures CountWhere(m, keys, IsDeposit) + CountWhere(m, keys, IsWithdrawal) + CountWhere(m, keys, IsTransfer) <= |keys|
    decreases |keys|
  {
    if keys != [] {
      KindCountsBounded(m, keys[1..]);
    }
  }

  /** The kind counts over the full iteration order are the sizes of the filtered views. */
  lemma KindCounts(m: TR.TransactionStore, order: seq<Key>)
    requires Enumerates(order, m)
    ensures AllIn(order, m) && |order| == |m|
    ensures CountWhere(m, order, IsDeposit) == |TR.FindDeposits(m)|
    ensures CountWhere(m, order, IsWithdrawal) == |TR.FindWithdrawals(m)|
    ensures CountWhere(m, order, IsTransfer) == |TR.FindTransfers(m)|
  {
    EnumerationSize(m, order);
    CountWhereIsSizeOfWhere(m, order, IsDeposit);
    CountWhereIsSizeOfWhere(m, order, IsWithdrawal);
    CountWhereIsSizeOfWhere(m, order, IsTransfer);
  }

  /** An empty store totals zero. */
  lemma EmptyTotal(m: TR.TransactionStore, order: seq<Key>)
    requires Enumerates(order, m)
    ensures |m| == 0 ==> TR.TotalAmount(m, order) == 0.0
  {
    EnumerationSize(m, order);
    if |m| == 0 {
      assert order == [];
    }
  }

  /** The mean of n values totalling total: zero values give no constraint. */
  predicate MeanOf(average: real, total: real, n: nat) {
    n > 0 ==> average * (n as real) == total
  }

  /** getStatistics: the counts are the sizes of the filtered views and together stay
      within the total; the average is the mean of the total, and zero for an empty store. */
  function GetStatistics(m: TR.TransactionStore, order: seq<Key>): (s: TransactionStatistics)
    requires Enumerates(order, m)
    ensures s.totalCount == |m|
    ensures s.depositCount == |TR.FindDeposits(m)| && s.withdrawalCount == |TR.FindWithdrawals(m)|
    ensures s.transferCount == |TR.FindTransfers(m)|
    ensures s.depositCount + s.withdrawalCount + s.transferCount <= s.totalCount
    ensures s.totalCount == 0 ==> s.averageAmount == 0.0 && s.totalAmount == 0.0
    ensures MeanOf(s.averageAmount, s.totalAmount, s.totalCount)
    ensures s.totalAmount == TR.TotalAmount(m, order) && s.averageAmount == TR.AverageAmount(m, order)
    ensures TR.PositiveAmounts(m) ==> s.totalAmount >= 0.0
  {
    KindCounts(m, order);
    KindCountsBounded(m, order);
    EmptyTotal(m, order);
    assert MeanOf(TR.AverageAmount(m, order), TR.TotalAmount(m, order), |m|);
    var total := TR.TotalAmount(m, order);
    var average := TR.AverageAmount(m, order);
    TransactionStatistics(total, average, |m|, CountWhere(m, order, IsDeposit),
                          CountWhere(m, order, IsWithdrawal), CountWhere(m, order, IsTransfer))
  }
}
