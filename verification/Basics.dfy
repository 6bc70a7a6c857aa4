/** Vocabulary shared by every module: optional values, the errors that the
    procedures raise, and the decimal strings in which reservation IDs travel. */
module Basics {

  datatype Option<+T> = None | Some(value: T)

  datatype Error =
    | DebtorExists
    | DebtorDoesNotExist
    | InvalidReservationId
    | TransferExists
    | TransferDoesNotExist
    | TransfersConflict
    | TooManyRunningTransfers
    | TooManyManagementActions
    | TooManySavedDocuments
    | ForbiddenTransferCancellation
    | UpdateConflict

  /** What a procedure does: it either commits a value, or raises. */
  datatype Result<+T> = Success(value: T) | Failure(error: Error) {
    predicate IsFailure() {
      Failure?
    }

    function PropagateFailure<U>(): Result<U>
      requires Failure?
    {
      Failure(error)
    }

    function Extract(): T
      requires Success?
    {
      value
    }
  }

  function Max(a: int, b: int): int {
    if a < b then b else a
  }

  function Min(a: int, b: int): int {
    if a < b then a else b
  }

  function Last<T>(s: seq<T>): T
    requires s != []
  {
    s[|s| - 1]
  }

  /** `str(n)` for a number handed out by a database sequence. */
  function Decimal(n: nat): (digits: string)
    ensures |digits| > 0 && (n >= 10 ==> |digits| > 1)
  {
    var digit := ('0' as int + n % 10) as char;
    if n < 10 then [digit] else Decimal(n / 10) + [digit]
  }

  /** The number that a sequence of decimal digits denotes. */
  function NumberOf(digits: string): int {
    if digits == [] then 0 else 10 * NumberOf(digits[..|digits| - 1]) + (Last(digits) as int - '0' as int)
  }

  /** The text of a number denotes that number, in digits without a leading zero. */
  lemma {:induction false} DecimalDenotes(n: nat)
    ensures NumberOf(Decimal(n)) == n
    ensures forall c | c in Decimal(n) :: '0' <= c <= '9'
    ensures n > 0 ==> Decimal(n)[0] != '0'
  {
    if n >= 10 {
      DecimalDenotes(n / 10);
      assert Decimal(n)[..|Decimal(n)| - 1] == Decimal(n / 10);
      assert Decimal(n)[0] == Decimal(n / 10)[0];
    }
  }

  lemma DecimalIsInjective(a: nat, b: nat)
    requires Decimal(a) == Decimal(b)
    ensures a == b
  {
    DecimalDenotes(a);
    DecimalDenotes(b);
  }
}
