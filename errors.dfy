/** The error codes shared by every validator (script-utils error.rs), and the outcome of
    running a validator step: a value, one of those errors, or a panic. */
module Errors {
  import opened Host
  import SysErrors

  /** Declared in this order; the host reports `Code(e)` as the script's exit code. */
  datatype Error =
    | IndexOutOfBound
    | ItemMissing
    | LengthNotEnough
    | Encoding
    | IssuerDataInvalid
    | IssuerCellsCountError
    | TypeArgsInvalid
    | IssuerClassCountError
    | IssuerCellCannotDestroyed
    | VersionInvalid
    | ClassDataInvalid
    | ClassTotalSmallerThanIssued
    | ClassCellsCountError
    | ClassIssuedInvalid
    | ClassImmutableFieldsNotSame
    | ClassCellCannotDestroyed
    | ClassIdIncreaseError
    | NFTDataInvalid
    | NFTCellsCountError
    | NFTDataNotSame
    | GroupInputWitnessNoneError
    | MetadataCellsCountError
    | MetadataImmutableFieldsNotSame
    | MetadataDataInvalid
    | MetadataIdIncreaseError
    | PaymentNotEnough
    | InvalidPaymentLockScript
    | NFTVersionNotSame
    | NFTVersionNotSameWithClass
    | CannotDecrementClassVersion

  /** The variants in declaration order, ten at a time. */
  const DECLARED_FIRST: seq<Error> := [
    IndexOutOfBound, ItemMissing, LengthNotEnough, Encoding, IssuerDataInvalid,
    IssuerCellsCountError, TypeArgsInvalid, IssuerClassCountError, IssuerCellCannotDestroyed,
    VersionInvalid]
  const DECLARED_SECOND: seq<Error> := [
    ClassDataInvalid, ClassTotalSmallerThanIssued, ClassCellsCountError, ClassIssuedInvalid,
    ClassImmutableFieldsNotSame, ClassCellCannotDestroyed, ClassIdIncreaseError, NFTDataInvalid,
    NFTCellsCountError, NFTDataNotSame]
  const DECLARED_THIRD: seq<Error> := [
    GroupInputWitnessNoneError, MetadataCellsCountError, MetadataImmutableFieldsNotSame,
    MetadataDataInvalid, MetadataIdIncreaseError, PaymentNotEnough, InvalidPaymentLockScript,
    NFTVersionNotSame, NFTVersionNotSameWithClass, CannotDecrementClassVersion]

  /** The variants in declaration order. */
  const DECLARED: seq<Error> := DECLARED_FIRST + DECLARED_SECOND + DECLARED_THIRD

  /** The discriminants written out in the declaration (`= 1`, `= 5`, ...); every other
      variant takes its predecessor's discriminant plus one. */
  function ExplicitDiscriminant(e: Error): Option<nat> {
    match e
    case IndexOutOfBound => Some(1)
    case IssuerDataInvalid => Some(5)
    case VersionInvalid => Some(10)
    case ClassImmutableFieldsNotSame => Some(15)
    case NFTDataNotSame => Some(20)
    case MetadataIdIncreaseError => Some(25)
    case CannotDecrementClassVersion => Some(30)
    case _ => None
  }

  /** The discriminant of each variant (`#[repr(i8)]`), as the compiler assigns it. */
  function Code(e: Error): (c: nat)
    ensures 1 <= c <= |DECLARED|
  {
    match e
    case IndexOutOfBound => 1
    case ItemMissing => 2
    case LengthNotEnough => 3
    case Encoding => 4
    case IssuerDataInvalid => 5
    case IssuerCellsCountError => 6
    case TypeArgsInvalid => 7
    case IssuerClassCountError => 8
    case IssuerCellCannotDestroyed => 9
    case VersionInvalid => 10
    case ClassDataInvalid => 11
    case ClassTotalSmallerThanIssued => 12
    case ClassCellsCountError => 13
    case ClassIssuedInvalid => 14
    case ClassImmutableFieldsNotSame => 15
    case ClassCellCannotDestroyed => 16
    case ClassIdIncreaseError => 17
    case NFTDataInvalid => 18
    case NFTCellsCountError => 19
    case NFTDataNotSame => 20
    case GroupInputWitnessNoneError => 21
    case MetadataCellsCountError => 22
    case MetadataImmutableFieldsNotSame => 23
    case MetadataDataInvalid => 24
    case MetadataIdIncreaseError => 25
    case PaymentNotEnough => 26
    case InvalidPaymentLockScript => 27
    case NFTVersionNotSame => 28
    case NFTVersionNotSameWithClass => 29
    case CannotDecrementClassVersion => 30
  }

  /** The variant an exit code stands for, if any. */
  function FromCode(n: int): Option<Error> {
    if 1 <= n <= |DECLARED| then Some(DECLARED[n - 1]) else None
  }

  /** `Code` follows the declaration: the first variant is 1 and each later one is its
      predecessor plus one, so the codes run consecutively from 1 to 30. */
  lemma CodesFollowDeclaration()
    ensures |DECLARED| == 30 && Code(DECLARED[0]) == 1
    ensures forall k :: 0 < k < |DECLARED| ==> Code(DECLARED[k]) == Code(DECLARED[k - 1]) + 1
  {
    forall k | 0 < k < |DECLARED|
      ensures Code(DECLARED[k]) == Code(DECLARED[k - 1]) + 1
    {
      CodeAtPosition(k);
      CodeAtPosition(k - 1);
    }
  }

  lemma CodeAtPosition(k: nat)
    requires k < |DECLARED|
    ensures Code(DECLARED[k]) == k + 1
  {
    if k < 10 {
      assert DECLARED[k] == DECLARED_FIRST[k];
      CodesOfFirstBlock(k);
    } else if k < 20 {
      assert DECLARED[k] == DECLARED_SECOND[k - 10];
      CodesOfSecondBlock(k - 10);
    } else {
      assert DECLARED[k] == DECLARED_THIRD[k - 20];
      CodesOfThirdBlock(k - 20);
    }
  }

  /** Codes 1 to 10. */
  lemma CodesOfFirstBlock(j: nat)
    requires j < 10
    ensures Code(DECLARED_FIRST[j]) == 0 + j + 1
  {
    if j < 5 {
      assert j == 0 || j == 1 || j == 2 || j == 3 || j == 4;
    } else {
      assert j == 5 || j == 6 || j == 7 || j == 8 || j == 9;
    }
  }

  /** Codes 11 to 20. */
  lemma CodesOfSecondBlock(j: nat)
    requires j < 10
    ensures Code(DECLARED_SECOND[j]) == 10 + j + 1
  {
    if j < 5 {
      assert j == 0 || j == 1 || j == 2 || j == 3 || j == 4;
    } else {
      assert j == 5 || j == 6 || j == 7 || j == 8 || j == 9;
    }
  }

  /** Codes 21 to 30. */
  lemma CodesOfThirdBlock(j: nat)
    requires j < 10
    ensures Code(DECLARED_THIRD[j]) == 20 + j + 1
  {
    if j < 5 {
      assert j == 0 || j == 1 || j == 2 || j == 3 || j == 4;
    } else {
      assert j == 5 || j == 6 || j == 7 || j == 8 || j == 9;
    }
  }

  /** The explicit anchors agree with the implicit +1 numbering. */
  lemma AnchorsAgreeWithNumbering(e: Error)
    ensures ExplicitDiscriminant(e).Some? ==> Code(e) == ExplicitDiscriminant(e).value
    ensures ExplicitDiscriminant(e).Some? ==> Code(e) % 5 == 0 || Code(e) == 1
  {
  }

  /** Every code decodes back to its variant, so distinct errors have distinct codes. */
  lemma CodeRoundTrip(e: Error)
    ensures 1 <= Code(e) <= 30
    ensures FromCode(Code(e)) == Some(e)
  {
  }

  lemma CodeInjective(a: Error, b: Error)
    requires Code(a) == Code(b)
    ensures a == b
  {
    CodeRoundTrip(a);
    CodeRoundTrip(b);
  }

  /** The outcome of a validator step: a value, a script error, or a Rust panic
      (unwrap of None, a slice out of range, u64 overflow), which fails the script
      without any of the codes above. */
  datatype Outcome<+T> = Ok(value: T) | Err(error: Error) | Abort {
    predicate IsFailure() {
      !Ok?
    }

    function PropagateFailure<U>(): Outcome<U>
      requires IsFailure()
    {
      if Err? then Err(error) else Abort
    }

    function Extract(): T
      requires Ok?
    {
      value
    }
  }

  /** `From<SysError> for Error`: the four known syscall errors become codes 1 to 4,
      an unknown one panics. */
  function FromSysError(err: SysErrors.SysError): (r: Outcome<Error>)
    ensures r.Abort? <==> err.Unknown?
    ensures r.Ok? ==> 1 <= Code(r.value) <= 4
    ensures !r.Err?
    ensures err.IndexOutOfBound? ==> r == Ok(IndexOutOfBound)
    ensures err.ItemMissing? ==> r == Ok(ItemMissing)
    ensures err.LengthNotEnough? ==> r == Ok(LengthNotEnough)
    ensures err.Encoding? ==> r == Ok(Encoding)
  {
    match err
    case IndexOutOfBound => Ok(IndexOutOfBound)
    case ItemMissing => Ok(ItemMissing)
    case LengthNotEnough(_) => Ok(LengthNotEnough)
    case Encoding => Ok(Encoding)
    case Unknown(_) => Abort
  }

  /** What `?` makes of a failed syscall. */
  function SysFailure<T>(err: SysErrors.SysError): (r: Outcome<T>)
    ensures !r.Ok?
    ensures r.Abort? <==> err.Unknown?
    ensures !err.Unknown? ==> r == Err(FromSysError(err).value)
  {
    match FromSysError(err)
    case Ok(e) => Err(e)
    case _ => Abort
  }
}
