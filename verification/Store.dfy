/** The transaction client every service writes through: the tables, and the row locks taken so far. */
module Store {
  import opened Types
  import opened Inventory
  import opened Trades
  import opened Database

  class Tx {
    var trades: seq<Trade>
    var inventory: Rows
    var balances: map<UserId, int>
    var ledger: seq<Entry>
    var openings: seq<Opening>
    /** Rows locked by the current transaction, in the order they were locked. */
    var touched: seq<RowKey>

    constructor (db: Db)
      ensures View() == db && touched == []
    {
      trades, inventory, balances, ledger, openings := db.trades, db.inventory, db.balances, db.ledger, db.openings;
      touched := [];
    }

    function View(): Db
      reads this
    {
      Db(trades, inventory, balances, ledger, openings)
    }

    /** BEGIN: no row is locked yet. */
    method Begin() returns (saved: Db)
      modifies this`touched
      ensures saved == View() && touched == []
    {
      touched := [];
      saved := View();
    }

    /** The end of `withTransaction`: a callback that threw is rolled back whole. */
    method Finish(saved: Db, r: Result<()>)
      modifies this
      ensures touched == old(touched)
      ensures View() == if r.Ok? then old(View()) else saved
    {
      if r.Err? {
        trades, inventory, balances, ledger, openings := saved.trades, saved.inventory, saved.balances, saved.ledger, saved.openings;
      }
    }
  }

  /** A statement sequence locked a prefix of its plan, and all of it when it succeeded. */
  predicate Took(before: seq<RowKey>, after: seq<RowKey>, plan: seq<RowKey>, all: bool) {
    after <= before + plan && (all ==> after == before + plan)
  }

  predicate TookTo(before: seq<RowKey>, after: seq<RowKey>, plan: seq<RowKey>, i: nat) {
    i <= |plan| && after == before + plan[..i]
  }

  lemma TookNone(before: seq<RowKey>, plan: seq<RowKey>)
    ensures TookTo(before, before, plan, 0)
  {
  }

  lemma TookNext(before: seq<RowKey>, after: seq<RowKey>, plan: seq<RowKey>, i: nat)
    requires i < |plan| && TookTo(before, after, plan, i)
    ensures TookTo(before, after + [plan[i]], plan, i + 1)
  {
    assert plan[..i + 1] == plan[..i] + [plan[i]];
  }

  lemma TookPrefix(before: seq<RowKey>, after: seq<RowKey>, plan: seq<RowKey>, i: nat)
    requires TookTo(before, after, plan, i)
    ensures Took(before, after, plan, i == |plan|)
  {
    assert before + plan == (before + plan[..i]) + plan[i..];
  }

  /** A statement sequence that took all of its plan, followed by another. */
  lemma TookThen(before: seq<RowKey>, mid: seq<RowKey>, after: seq<RowKey>, p: seq<RowKey>, q: seq<RowKey>, all: bool)
    requires Took(before, mid, p, true) && Took(mid, after, q, all)
    ensures Took(before, after, p + q, all)
  {
    assert before + (p + q) == before + p + q;
  }

  /** A statement sequence that stopped early may be seen as a part of a longer plan. */
  lemma TookPart(before: seq<RowKey>, after: seq<RowKey>, p: seq<RowKey>, q: seq<RowKey>)
    requires Took(before, after, p, false)
    ensures Took(before, after, p + q, false)
  {
    assert before + (p + q) == before + p + q;
  }

  lemma TookLonger(before: seq<RowKey>, after: seq<RowKey>, p: seq<RowKey>, q: seq<RowKey>)
    requires Took(before, after, p, false) && p <= q
    ensures Took(before, after, q, false)
  {
    assert q == p + q[|p|..];
    TookPart(before, after, p, q[|p|..]);
  }

  /** How a transaction's outcome relates to the function that specifies it. */
  predicate Outcome(before: Db, after: Db, r: Result<()>, spec: Result<Db>) {
    match spec
    case Ok(db) => r.Ok? && after == db
    case Err(e) => r == Err(e) && after == before
  }

  /** The same for one table inside a transaction: after an error it is whatever the rollback will undo. */
  predicate Wrote<T(==)>(after: T, r: Result<()>, spec: Result<T>) {
    match spec
    case Ok(t) => r.Ok? && after == t
    case Err(e) => r == Err(e)
  }
}
