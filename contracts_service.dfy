/** The contract service's operations on the shared database: each one runs
    the checks of the code in order and applies the decision the Contracts
    module describes, keeping the keys and the payment ledger intact. */
module ContractsService {
  import opened Common
  import opened Entities
  import opened Database
  import opened Contracts
  import opened ContractFacts

  /** The statements of CreateContract as written: the prior-contract check
      inspects only the first contract recorded for the client and software. */
  method CreateContractBody(db: Store, clientId: int, softwareId: int, dto: ContractDto, now: int) returns (r: Outcome)
    modifies db
    ensures match CreateAsWritten(old(db.Tables()), clientId, softwareId, dto, now)
      case Success(c) => r == Pass && db.Tables() == InsertContract(old(db.Tables()), c)
      case Failure(e) => r == Fail(e) && db.Tables() == old(db.Tables())
  {
    var client := FindVisibleClient(db.clients, clientId);
    if client.None? {
      return Fail(Error(NotFound, ClientNotFoundMessage));
    }
    var software := FindSoftware(db.softwares, softwareId, dto.softwareVersion);
    if software.None? || software.value.version != dto.softwareVersion {
      return Fail(Error(NotFound, SoftwareNotFoundMessage));
    }
    if dto.endDate < dto.startDate {
      return Fail(Error(Conflict, DatesReversedMessage));
    }
    var prior := FirstPriorState(db.contracts, clientId, softwareId, now);
    if prior.blocked {
      return Fail(Error(Conflict, ContractExistsMessage));
    }
    var days := WholeDays(dto.endDate - dto.startDate);
    if days < 3 || days > 30 {
      return Fail(Error(BadRequest, SpanRejectedMessage));
    }
    var maxDiscount := BestDiscount(db.Tables(), softwareId, dto.startDate);
    if prior.returning {
      maxDiscount := maxDiscount + ReturningBonus;
    }
    if dto.updateYears < 1 || dto.updateYears > 4 {
      return Fail(Error(BadRequest, UpdateYearsMessage));
    }
    var contract := NewContract(db.nextContractId, clientId, softwareId, software.value, dto, maxDiscount);
    assert CreateAsWritten(db.Tables(), clientId, softwareId, dto, now) == Success(contract);
    db.contracts := db.contracts + [contract];
    db.nextContractId := db.nextContractId + 1;
    r := Pass;
  }

  /** CreateContract: the decision as written, applied to a consistent
      database, leaves it consistent. */
  method CreateContract(db: Store, clientId: int, softwareId: int, dto: ContractDto, now: int) returns (r: Outcome)
    requires db.Valid()
    modifies db
    ensures db.Valid()
    ensures match CreateAsWritten(old(db.Tables()), clientId, softwareId, dto, now)
      case Success(c) => r == Pass && db.Tables() == InsertContract(old(db.Tables()), c)
      case Failure(e) => r == Fail(e) && db.Tables() == old(db.Tables())
  {
    ghost var before := db.Tables();
    if CreateAsWritten(before, clientId, softwareId, dto, now).Success? {
      CreateKeepsConsistency(before, clientId, softwareId, dto, FirstPriorState(before.contracts, clientId, softwareId, now));
    }
    r := CreateContractBody(db, clientId, softwareId, dto, now);
  }

  /** The statements of PayContract: every exception rolls the transaction
      back, including the one thrown right after an expired contract's
      payments are deleted. */
  method PayContractBody(db: Store, contractId: int, now: int) returns (r: Outcome)
    modifies db
    ensures match PayDecision(old(db.Tables()), contractId, now)
      case Success(after) => r == Pass && db.Tables() == after
      case Failure(e) => r == Fail(e) && db.Tables() == old(db.Tables())
  {
    var snapshot := db.Tables();
    var found := FindContract(db.contracts, contractId);
    if found.None? {
      db.Restore(snapshot);
      return Fail(Error(NotFound, ContractNotFoundMessage));
    }
    var contract := db.contracts[found.value];
    if contract.endDate < now {
      db.payments := PaymentsExcept(db.payments, contractId);
      db.Restore(snapshot);
      return Fail(Error(BadRequest, ExpiredMessage));
    }
    assert contract == snapshot.contracts[found.value];
    if contract.isInstalment {
      var paid := |PaymentsOf(db.payments, contractId)|;
      assert paid == PaymentCount(snapshot.payments, contractId);
      if contract.instalmentsQuantity == Some(paid) {
        db.Restore(snapshot);
        return Fail(Error(Conflict, AlreadyPaidMessage));
      }
      var divisor := contract.instalmentsQuantity.GetOr(1);
      if divisor == 0 {
        db.Restore(snapshot);
        return Fail(Error(DivideByZero, DivideByZeroMessage));
      }
      var instalment := Payment(db.nextPaymentId, contract.totalPrice / divisor as real, now, contractId, Some(paid + 1));
      db.payments := db.payments + [instalment];
      db.nextPaymentId := db.nextPaymentId + 1;
      paid := paid + 1;
      if contract.instalmentsQuantity == Some(paid) {
        db.contracts := SetFulfilled(db.contracts, contractId);
      }
      assert db.Tables() == PayDecision(snapshot, contractId, now).value;
    } else {
      var payment := Payment(db.nextPaymentId, contract.totalPrice, now, contractId, None);
      db.contracts := SetFulfilled(db.contracts, contractId);
      db.payments := db.payments + [payment];
      db.nextPaymentId := db.nextPaymentId + 1;
      assert db.Tables() == PayDecision(snapshot, contractId, now).value;
    }
    r := Pass;
  }

  /** PayContract: a payment recorded on a consistent database leaves it
      consistent. */
  method PayContract(db: Store, contractId: int, now: int) returns (r: Outcome)
    requires db.Valid()
    modifies db
    ensures db.Valid()
    ensures match PayDecision(old(db.Tables()), contractId, now)
      case Success(after) => r == Pass && db.Tables() == after
      case Failure(e) => r == Fail(e) && db.Tables() == old(db.Tables())
  {
    ghost var before := db.Tables();
    if PayDecision(before, contractId, now).Success? {
      PayKeepsConsistency(before, contractId, now);
    }
    r := PayContractBody(db, contractId, now);
  }

  method DeleteContract(db: Store, contractId: int) returns (r: Outcome)
    requires db.Valid()
    modifies db
    ensures db.Valid()
    ensures match DeleteDecision(old(db.Tables()), contractId)
      case Success(after) => r == Pass && db.Tables() == after
      case Failure(e) => r == Fail(e) && db.Tables() == old(db.Tables())
  {
    var found := FindContract(db.contracts, contractId);
    if found.None? {
      return Fail(Error(NotFound, ContractNotFoundMessage));
    }
    DeleteKeepsConsistency(db.Tables(), contractId);
    db.contracts := ContractsExcept(db.contracts, contractId);
    db.payments := PaymentsExcept(db.payments, contractId);
    r := Pass;
  }
}
