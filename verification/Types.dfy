/**
 Identifiers, the failures a transaction can end in, and the two small result types.

 The program compares ids only by their byte order (the database cluster is initialised with
 the C collation), so an id is modelled by its rank in that order: a natural number.
 */
module Types {

  type UserId = nat
  type CardId = nat
  type TradeId = nat
  type OpenId = nat
  type TemplateId = nat

  /** The unique key (userId, cardId) of an inventory row. */
  datatype Slot = Slot(user: UserId, card: CardId)

  datatype Option<+T> = None | Some(value: T)

  /** How a request ends when it does not commit. Only the domain errors carry a code. */
  datatype Failure =
    | BadRequest
    | NotFound
    | Forbidden
    | TradeNotPending
    | TradeNotReversible
    | CardsUnavailable
    | InsufficientFunds
    | CounterLimit
    | OpenIdConflict
    | GrantIdConflict
    | PackUnavailable
    | EscrowBroken      // plain Error: a release of more than is locked
    | BadChange         // plain Error: a malformed change or move list
    | UniqueViolation   // a unique index refused a row
    | ForeignKey        // a foreign key refused a row
  {
    /** True of the errors built by `domainError`, which a void check reports with their code. */
    predicate HasCode() {
      TradeNotPending? || TradeNotReversible? || CardsUnavailable? || InsufficientFunds? || CounterLimit?
    }
  }

  datatype Result<+T> = Ok(value: T) | Err(error: Failure) {
    predicate IsFailure() { Err? }
    function PropagateFailure<U>(): Result<U> requires Err? { Err(error) }
    function Extract(): T requires Ok? { value }
  }

  /** A row a transaction locks, in the order the lock-order rule ranks them. */
  datatype RowKey =
    | TradeRow(trade: TradeId)
    | OpeningRow(open: OpenId)
    | GrantRow(grantee: UserId, ref: Ref)
    | UserRow(user: UserId)
    | ItemRow(slot: Slot)

  /** `refId` of a ledger row. */
  datatype Ref = WelcomeRef | GrantRef(grant: nat) | OpenRef(open: OpenId) | TradeRef(trade: TradeId)

  /** Trade rows, opening and grant keys first, then users ascending, then inventory by (user, card). */
  function Rank(k: RowKey): (int, int, int) {
    match k
    case TradeRow(t) => (0, t, 0)
    case OpeningRow(o) => (1, o, 0)
    case GrantRow(u, WelcomeRef) => (2, u, -1)
    case GrantRow(u, GrantRef(g)) => (2, u, 3 * g)
    case GrantRow(u, OpenRef(o)) => (2, u, 3 * o + 1)
    case GrantRow(u, TradeRef(t)) => (2, u, 3 * t + 2)
    case UserRow(u) => (3, u, 0)
    case ItemRow(s) => (4, s.user, s.card)
  }

  predicate Below(a: (int, int, int), b: (int, int, int)) {
    a.0 < b.0 || (a.0 == b.0 && (a.1 < b.1 || (a.1 == b.1 && a.2 < b.2)))
  }

  predicate Before(a: RowKey, b: RowKey) { Below(Rank(a), Rank(b)) }

  /** A list of row locks in strictly increasing lock order. */
  predicate Ascending(keys: seq<RowKey>) {
    forall i, j :: 0 <= i < j < |keys| ==> Before(keys[i], keys[j])
  }
}
