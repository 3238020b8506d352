/** Whole proposals and counters: what is read and refused before the transaction, then the transaction. */
module Requests {
  import opened Types
  import opened Trades
  import opened Database

  /** What a request reads before its transaction: the cards that exist, the sender's coins, the recipient's standing. */
  datatype Reads = Reads(cards: set<CardId>, coins: int, suspended: bool)

  /** `assertTerms`: the refusals made before any transaction. The coins may be spent by the time it commits. */
  function AssertTerms(terms: Terms, seen: Reads): Option<Failure> {
    if exists line :: line in terms.offered + terms.requested && line.card !in seen.cards then Some(BadRequest)
    else if terms.fromInitiator > 0 && seen.coins < terms.fromInitiator then Some(InsufficientFunds)
    else None
  }

  /** A whole proposal: the checks, then the transaction. */
  function Proposal(db: Db, user: UserId, recipient: UserId, terms: Terms, now: nat, seen: Reads): Result<Db> {
    if user == recipient || !ValidTerms(terms) then Err(BadRequest)
    else if recipient !in db.balances || seen.suspended then Err(NotFound)
    else match AssertTerms(terms, seen)
      case Some(refusal) => Err(refusal)
      case None => Propose(db, user, recipient, terms, now)
  }

  /** A whole counter: the role, the checks, then the transaction. */
  function Reply(db: Db, user: UserId, original: Trade, terms: Terms, now: nat, seen: Reads): Result<Db> {
    if !Party(original, user) then Err(NotFound)
    else if user != original.recipient then Err(Forbidden)
    else if !ValidTerms(terms) then Err(BadRequest)
    else match AssertTerms(terms, seen)
      case Some(refusal) => Err(refusal)
      case None => Counter(db, user, original, terms, now)
  }
}
