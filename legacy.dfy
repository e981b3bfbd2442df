/** The older all-in-one service that preceded the split into client and
    contract services. Most of its operations are the same code; where it
    differs, it is modelled on its own and compared with the newer one. */
module Legacy {
  import opened Common
  import opened Entities
  import opened Database
  import Clients
  import Contracts
  import ContractFacts
  import ContractsService

  /** The older service's wording of the invalid-phone message on company updates. */
  const CompanyPhoneInvalidMessage: string := "Phone number contains onvalid characters"

  /** The fields of the older request record that CreateContract reads. */
  function AsContractDto(dto: PaymentDto): ContractDto {
    ContractDto(dto.startDate, dto.endDate, dto.updateYears, dto.softwareVersion, dto.isInstalment, dto.instalmentNumber)
  }

  /** AddNewPerson without the test that phone and PESEL are made of digits. */
  method AddNewPerson(db: Store, dto: PersonClientDto) returns (r: Outcome)
    requires db.Valid()
    modifies db
    ensures db.Valid()
    ensures match Clients.PersonDecision(old(db.clients), old(db.nextClientId), dto, false)
      case Success(row) => r == Pass && db.Tables() == Clients.InsertClient(old(db.Tables()), row)
      case Failure(e) => r == Fail(e) && db.Tables() == old(db.Tables())
  {
    if PeselTaken(db.clients, dto.pesel) {
      return Fail(Error(Conflict, Clients.PersonExistsMessage));
    }
    if |dto.phoneNumber| != 9 {
      return Fail(Error(BadRequest, Clients.PhoneLengthMessage));
    }
    if |dto.pesel| != 11 {
      return Fail(Error(BadRequest, Clients.PeselLengthMessage));
    }
    var controlSum := Clients.ControlSum(dto.pesel);
    if controlSum != DigitValue(dto.pesel[10]) {
      return Fail(Error(BadRequest, Clients.ControlSumMessage));
    }
    Clients.ClientInsertKeepsWellFormed(db.Tables(), Clients.NewPerson(db.nextClientId, dto));
    db.clients := db.clients + [Clients.NewPerson(db.nextClientId, dto)];
    db.nextClientId := db.nextClientId + 1;
    r := Pass;
  }

  method UpdatePerson(db: Store, id: int, dto: PersonClientDto) returns (r: Outcome)
    requires db.Valid()
    modifies db
    ensures db.Valid()
    ensures match Clients.UpdatePersonDecision(old(db.clients), id, dto)
      case Success(rows) => r == Pass && db.Tables() == old(db.Tables()).(clients := rows)
      case Failure(e) => r == Fail(e) && db.Tables() == old(db.Tables())
  {
    r := Clients.UpdatePerson(db, id, dto);
  }

  method DeletePerson(db: Store, id: int, now: int) returns (r: Outcome)
    requires db.Valid()
    modifies db
    ensures db.Valid()
    ensures match Clients.DeletePersonDecision(old(db.clients), id, now)
      case Success(rows) => r == Pass && db.Tables() == old(db.Tables()).(clients := rows)
      case Failure(e) => r == Fail(e) && db.Tables() == old(db.Tables())
  {
    r := Clients.DeletePerson(db, id, now);
  }

  method AddNewCompany(db: Store, dto: CompanyClientDto) returns (r: Outcome)
    requires db.Valid()
    modifies db
    ensures db.Valid()
    ensures match Clients.CompanyDecision(old(db.clients), old(db.nextClientId), dto)
      case Success(row) => r == Pass && db.Tables() == Clients.InsertClient(old(db.Tables()), row)
      case Failure(e) => r == Fail(e) && db.Tables() == old(db.Tables())
  {
    r := Clients.AddNewCompany(db, dto);
  }

  /** UpdateCompany with the older invalid-phone message. */
  method UpdateCompany(db: Store, id: int, dto: CompanyClientDto) returns (r: Outcome)
    requires db.Valid()
    modifies db
    ensures db.Valid()
    ensures match Clients.UpdateCompanyDecision(old(db.clients), id, dto, CompanyPhoneInvalidMessage)
      case Success(rows) => r == Pass && db.Tables() == old(db.Tables()).(clients := rows)
      case Failure(e) => r == Fail(e) && db.Tables() == old(db.Tables())
  {
    var snapshot := db.Tables();
    var found := FindVisibleCompany(db.clients, id);
    if found.None? {
      db.Restore(snapshot);
      return Fail(Error(NotFound, Clients.CompanyNotFoundMessage));
    }
    if |dto.phoneNumber| != 9 {
      db.Restore(snapshot);
      return Fail(Error(BadRequest, Clients.PhoneLengthMessage));
    }
    if !IsNumeric(dto.phoneNumber) {
      db.Restore(snapshot);
      return Fail(Error(BadRequest, CompanyPhoneInvalidMessage));
    }
    var i := found.value;
    db.clients := db.clients[i := Clients.WithContact(db.clients[i], dto.address, dto.email, dto.phoneNumber)];
    db.clients := db.clients[i := Clients.WithCompanyName(db.clients[i], dto.companyName)];
    Clients.ClientRowsKeepWellFormed(snapshot, db.clients);
    r := Pass;
  }

  /** The statements of CreateContract on the older request record, without
      the repeated version comparison; like the newer service, only the first
      contract of the client and software is inspected. */
  method CreateContractBody(db: Store, clientId: int, softwareId: int, dto: PaymentDto, now: int) returns (r: Outcome)
    modifies db
    ensures match Contracts.CreateAsWritten(old(db.Tables()), clientId, softwareId, AsContractDto(dto), now)
      case Success(c) => r == Pass && db.Tables() == Contracts.InsertContract(old(db.Tables()), c)
      case Failure(e) => r == Fail(e) && db.Tables() == old(db.Tables())
  {
    var request := AsContractDto(dto);
    var client := FindVisibleClient(db.clients, clientId);
    if client.None? {
      return Fail(Error(NotFound, Contracts.ClientNotFoundMessage));
    }
    var software := FindSoftware(db.softwares, softwareId, request.softwareVersion);
    if software.None? {
      return Fail(Error(NotFound, Contracts.SoftwareNotFoundMessage));
    }
    if request.endDate < request.startDate {
      return Fail(Error(Conflict, Contracts.DatesReversedMessage));
    }
    var prior := Contracts.FirstPriorState(db.contracts, clientId, softwareId, now);
    if prior.blocked {
      return Fail(Error(Conflict, Contracts.ContractExistsMessage));
    }
    var days := WholeDays(request.endDate - request.startDate);
    if days < 3 || days > 30 {
      return Fail(Error(BadRequest, Contracts.SpanRejectedMessage));
    }
    var maxDiscount := Contracts.BestDiscount(db.Tables(), softwareId, request.startDate);
    if prior.returning {
      maxDiscount := maxDiscount + Contracts.ReturningBonus;
    }
    if request.updateYears < 1 || request.updateYears > 4 {
      return Fail(Error(BadRequest, Contracts.UpdateYearsMessage));
    }
    var contract := Contracts.NewContract(db.nextContractId, clientId, softwareId, software.value, request, maxDiscount);
    assert Contracts.CreateAsWritten(db.Tables(), clientId, softwareId, request, now) == Success(contract);
    db.contracts := db.contracts + [contract];
    db.nextContractId := db.nextContractId + 1;
    r := Pass;
  }

  /** CreateContract: the older decision, applied to a consistent database,
      leaves it consistent. */
  method CreateContract(db: Store, clientId: int, softwareId: int, dto: PaymentDto, now: int) returns (r: Outcome)
    requires db.Valid()
    modifies db
    ensures db.Valid()
    ensures match Contracts.CreateAsWritten(old(db.Tables()), clientId, softwareId, AsContractDto(dto), now)
      case Success(c) => r == Pass && db.Tables() == Contracts.InsertContract(old(db.Tables()), c)
      case Failure(e) => r == Fail(e) && db.Tables() == old(db.Tables())
  {
    ghost var before := db.Tables();
    var request := AsContractDto(dto);
    if Contracts.CreateAsWritten(before, clientId, softwareId, request, now).Success? {
      ContractFacts.CreateKeepsConsistency(before, clientId, softwareId, request,
        Contracts.FirstPriorState(before.contracts, clientId, softwareId, now));
    }
    r := CreateContractBody(db, clientId, softwareId, dto, now);
  }

  method PayContract(db: Store, contractId: int, now: int) returns (r: Outcome)
    requires db.Valid()
    modifies db
    ensures db.Valid()
    ensures match Contracts.PayDecision(old(db.Tables()), contractId, now)
      case Success(after) => r == Pass && db.Tables() == after
      case Failure(e) => r == Fail(e) && db.Tables() == old(db.Tables())
  {
    r := ContractsService.PayContract(db, contractId, now);
  }

  method DeleteContract(db: Store, contractId: int) returns (r: Outcome)
    requires db.Valid()
    modifies db
    ensures db.Valid()
    ensures match Contracts.DeleteDecision(old(db.Tables()), contractId)
      case Success(after) => r == Pass && db.Tables() == after
      case Failure(e) => r == Fail(e) && db.Tables() == old(db.Tables())
  {
    r := ContractsService.DeleteContract(db, contractId);
  }

  // ---------------------------------------------------------------------------
  // How the older service differs

  /** The older AddNewPerson accepts everything the newer one accepts, and
      on phones and PESELs made of digits the two decide alike. */
  lemma AddPersonAcceptsMore(clients: seq<Client>, nextId: int, dto: PersonClientDto)
    ensures Clients.PersonDecision(clients, nextId, dto, true).Success? ==>
      Clients.PersonDecision(clients, nextId, dto, false) == Clients.PersonDecision(clients, nextId, dto, true)
    ensures IsNumeric(dto.phoneNumber) && IsNumeric(dto.pesel) ==>
      Clients.PersonDecision(clients, nextId, dto, false) == Clients.PersonDecision(clients, nextId, dto, true)
  {
  }

  /** A PESEL with a letter in it and a phone ending in a letter pass the
      older check-digit test, which subtracts '0' from any character; the
      newer service rejects them. */
  lemma AddPersonAcceptsLetters()
    ensures var dto := PersonClientDto("Jan", "Nowak", "Polna 1", "jan@example.pl", "12345678a", "a0000000001");
      && Clients.PersonDecision([], 1, dto, false) == Success(Clients.NewPerson(1, dto))
      && Clients.PersonDecision([], 1, dto, true) == Failure(Error(BadRequest, Clients.PeselCharactersMessage))
  {
    var pesel := "a0000000001";
    assert Clients.WeightedSum(pesel, 10) == 49;
    assert !IsDigit("12345678a"[8]);
  }

  /** The older UpdateCompany decides exactly like the newer one; only the
      invalid-phone message is worded differently. */
  lemma UpdateCompanyDiffersOnlyInMessage(clients: seq<Client>, id: int, dto: CompanyClientDto)
    ensures var older := Clients.UpdateCompanyDecision(clients, id, dto, CompanyPhoneInvalidMessage);
      var newer := Clients.UpdateCompanyDecision(clients, id, dto, Clients.PhoneInvalidMessage);
      && (older.Success? <==> newer.Success?)
      && (older.Success? ==> older == newer)
      && (older.Failure? ==> older.error.kind == newer.error.kind)
      && (older.Failure? && older.error != newer.error ==>
            older.error.message == CompanyPhoneInvalidMessage && newer.error.message == Clients.PhoneInvalidMessage)
  {
  }
}
