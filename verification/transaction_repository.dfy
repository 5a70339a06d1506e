/** TransactionRepository: transactions keyed by transaction id. The query methods
    return the matching sub-map; the list order of the source's streams is not modelled. */
module TransactionRepository {
  import opened Failures
  import opened Calendar
  import opened Stores
  import opened Transactions

  type TransactionStore = map<Key, Transaction>

  /** Every entry is filed under its own transaction id. */
  ghost predicate Keyed(m: TransactionStore) {
    forall k :: k in m ==> m[k].transactionId == k
  }

  /** What the record's constructor guarantees of every stored transaction. */
  ghost predicate PositiveAmounts(m: TransactionStore) {
    forall k :: k in m ==> m[k].amount > 0.0
  }

  /** save: a null transaction is refused; otherwise it is put under its id. */
  function Save(m: TransactionStore, t: Option<Transaction>): (r: Result<TransactionStore>)
    ensures r.Err? <==> t.None?
    ensures r.Err? ==> r.error == IllegalArgument("Transaction cannot be null")
    ensures r.Ok? ==> r.value.Keys == m.Keys + {t.value.transactionId} && r.value[t.value.transactionId] == t.value
    ensures r.Ok? ==> forall k :: k in m && k != t.value.transactionId ==> r.value[k] == m[k]
    ensures r.Ok? && Keyed(m) ==> Keyed(r.value)
    ensures r.Ok? && PositiveAmounts(m) && t.value.amount > 0.0 ==> PositiveAmounts(r.value)
  {
    match t
    case None => Err(IllegalArgument("Transaction cannot be null"))
    case Some(x) => Ok(Put(m, x.transactionId, x))
  }

  /** update: only a transaction whose id is already stored is replaced. */
  function Update(m: TransactionStore, t: Option<Transaction>): (r: TransactionStore)
    ensures r.Keys == m.Keys
    ensures t.None? || t.value.transactionId !in m ==> r == m
    ensures t.Some? && t.value.transactionId in m ==> r[t.value.transactionId] == t.value
    ensures forall k :: k in m && (t.None? || k != t.value.transactionId) ==> r[k] == m[k]
  {
    match t
    case None => m
    case Some(x) => Replace(m, x.transactionId, x)
  }

  /** findById: null when absent. */
  function FindById(m: TransactionStore, transactionId: string): (r: Option<Transaction>)
    ensures r.Some? <==> transactionId in m
    ensures r.Some? ==> r.value == m[transactionId]
  {
    if transactionId in m then Some(m[transactionId]) else None
  }

  /** findByAccount: the transactions of one account. */
  function FindByAccount(m: TransactionStore, accountNumber: string): (r: TransactionStore)
    ensures forall k :: k in r <==> k in m && m[k].accountNumber == accountNumber
    ensures forall k :: k in r ==> r[k] == m[k]
  {
    Where(m, (t: Transaction) => t.accountNumber == accountNumber)
  }

  function OfType(kind: TransactionType): Transaction -> bool {
    (t: Transaction) => t.kind == kind
  }

  /** findByType */
  function FindByType(m: TransactionStore, kind: TransactionType): (r: TransactionStore)
    ensures forall k :: k in r <==> k in m && m[k].kind == kind
    ensures forall k :: k in r ==> r[k] == m[k]
  {
    Where(m, OfType(kind))
  }

  /** findDeposits */
  function FindDeposits(m: TransactionStore): (r: TransactionStore)
    ensures forall k :: k in r <==> k in m && IsDeposit(m[k])
    ensures forall k :: k in r ==> r[k] == m[k]
  {
    Where(m, IsDeposit)
  }

  /** findWithdrawals */
  function FindWithdrawals(m: TransactionStore): (r: TransactionStore)
    ensures forall k :: k in r <==> k in m && IsWithdrawal(m[k])
    ensures forall k :: k in r ==> r[k] == m[k]
  {
    Where(m, IsWithdrawal)
  }

  /** findTransfers */
  function FindTransfers(m: TransactionStore): (r: TransactionStore)
    ensures forall k :: k in r <==> k in m && IsTransfer(m[k])
    ensures forall k :: k in r ==> r[k] == m[k]
  {
    Where(m, IsTransfer)
  }

  /** The three shortcuts are findByType at a fixed type, and each transaction is found
      by findByType at exactly its own type. */
  lemma ShortcutsAreFindByType(m: TransactionStore)
    ensures FindDeposits(m) == FindByType(m, DEPOSIT)
    ensures FindWithdrawals(m) == FindByType(m, WITHDRAWAL)
    ensures FindTransfers(m) == FindByType(m, TRANSFER)
    ensures forall k, t :: k in FindByType(m, t) <==> k in m && t == m[k].kind
  {
  }

  /** findTransactionsAbove: strictly above. */
  function FindAbove(m: TransactionStore, threshold: real): (r: TransactionStore)
    ensures forall k :: k in r <==> k in m && m[k].amount > threshold
    ensures forall k :: k in r ==> r[k] == m[k]
  {
    Where(m, (t: Transaction) => t.amount > threshold)
  }

  /** findTransactionsBelow: strictly below. */
  function FindBelow(m: TransactionStore, threshold: real): (r: TransactionStore)
    ensures forall k :: k in r <==> k in m && m[k].amount < threshold
    ensures forall k :: k in r ==> r[k] == m[k]
  {
    Where(m, (t: Transaction) => t.amount < threshold)
  }

  /** A transaction exactly at the threshold is found by neither query; every other one by exactly one. */
  lemma AboveBelowPartition(m: TransactionStore, threshold: real)
    ensures FindAbove(m, threshold).Keys !! FindBelow(m, threshold).Keys
    ensures forall k :: k in m ==> (k in FindAbove(m, threshold) || k in FindBelow(m, threshold) <==> m[k].amount != threshold)
  {
  }

  /** findByDateRange: both ends inclusive, on the date part of the timestamp. */
  function FindByDateRange(m: TransactionStore, start: Date, end: Date): (r: TransactionStore)
    ensures forall k :: k in r <==> k in m && start <= m[k].timestamp.ToLocalDate() <= end
    ensures forall k :: k in r ==> r[k] == m[k]
    ensures end < start ==> r == map[]
  {
    Where(m, (t: Transaction) => !(t.timestamp.ToLocalDate() < start) && !(t.timestamp.ToLocalDate() > end))
  }

  /** findTransactionsByDate */
  function FindByDate(m: TransactionStore, date: Date): (r: TransactionStore)
    ensures forall k :: k in r <==> k in m && m[k].timestamp.ToLocalDate() == date
    ensures forall k :: k in r ==> r[k] == m[k]
  {
    Where(m, (t: Transaction) => t.timestamp.ToLocalDate() == date)
  }

  /** One day's transactions are the range from that day to itself, and a range splits at any day. */
  lemma DateQueriesAgree(m: TransactionStore, start: Date, mid: Date, end: Date)
    requires start <= mid <= end
    ensures FindByDate(m, mid) == FindByDateRange(m, mid, mid)
    ensures FindByDateRange(m, start, end).Keys
            == FindByDateRange(m, start, mid).Keys + FindByDateRange(m, mid + 1, end).Keys
    ensures FindByDateRange(m, start, mid).Keys !! FindByDateRange(m, mid + 1, end).Keys
  {
  }

  function AmountOf(t: Transaction): real {
    t.amount
  }

  /** getTotalTransactionAmount, summed in the map's iteration order. */
  function TotalAmount(m: TransactionStore, order: seq<Key>): (t: real)
    requires Enumerates(order, m)
    ensures PositiveAmounts(m) ==> t >= 0.0
  {
    SumWhereNonNegativeWhenPositive(m, order);
    SumWhere(m, order, Always, AmountOf)
  }

  lemma SumWhereNonNegativeWhenPositive(m: TransactionStore, order: seq<Key>)
    requires Enumerates(order, m)
    ensures PositiveAmounts(m) ==> SumWhere(m, order, Always, AmountOf) >= 0.0
  {
    if PositiveAmounts(m) {
      SumWhereNonNegative(m, order, Always, AmountOf);
    }
  }

  /** Recording a new transaction raises the total by its amount, in whatever order the map is then iterated. */
  lemma TotalAmountAfterSave(m: TransactionStore, order: seq<Key>, t: Transaction, order': seq<Key>)
    requires Enumerates(order, m) && t.transactionId !in m
    requires Save(m, Some(t)).Ok? && Enumerates(order', Save(m, Some(t)).value)
    ensures TotalAmount(Save(m, Some(t)).value, order') == TotalAmount(m, order) + t.amount
  {
    SumWherePut(m, order, order', t.transactionId, t, Always, AmountOf);
  }

  /** getAverageTransactionAmount: the mean amount, or 0 with no transactions. */
  function AverageAmount(m: TransactionStore, order: seq<Key>): (a: real)
    requires Enumerates(order, m)
    ensures |m| == 0 ==> a == 0.0
    ensures |m| > 0 ==> a * (|m| as real) == TotalAmount(m, order)
  {
    EnumerationSize(m, order);
    Average(m, order, AmountOf)
  }

  /** delete */
  function Delete(m: TransactionStore, transactionId: string): (r: TransactionStore)
    ensures transactionId !in r && r.Keys == m.Keys - {transactionId}
    ensures forall k :: k in r ==> r[k] == m[k]
  {
    Remove(m, transactionId)
  }
}
