/** The client registry: PESEL, KRS and phone validation, adding persons and
    companies, updating them inside a transaction, and soft-deleting persons. */
module Clients {
  import opened Common
  import opened Entities
  import opened Database

  // ---------------------------------------------------------------------------
  // PESEL check digit

  /** The weights the check-digit loop applies to the first ten characters. */
  const Weights: seq<int> := [1, 3, 7, 9, 1, 3, 7, 9, 1, 3]

  /** `suma` after the loop has visited the first n characters. */
  function WeightedSum(pesel: string, n: nat): int
    requires n <= 10 && n <= |pesel|
  {
    if n == 0 then 0 else WeightedSum(pesel, n - 1) + DigitValue(pesel[n - 1]) * Weights[n - 1]
  }

  /** `(10 - (suma % 10)) % 10` with C#'s truncating remainder. */
  function CheckDigit(pesel: string): (control: int)
    requires |pesel| >= 10
    ensures 0 <= control <= 9
  {
    CsRem10(10 - CsRem10(WeightedSum(pesel, 10)))
  }

  /** The comparison of the computed control sum with the eleventh character. */
  predicate ChecksumMatches(pesel: string)
    requires |pesel| == 11
  {
    CheckDigit(pesel) == DigitValue(pesel[10])
  }

  /** The check-digit loop of AddNewPerson. */
  method ControlSum(pesel: string) returns (controlSum: int)
    requires |pesel| == 11
    ensures controlSum == CheckDigit(pesel)
    ensures 0 <= controlSum <= 9
  {
    var weights := Weights;
    var suma := 0;
    for i := 0 to |weights|
      invariant suma == WeightedSum(pesel, i)
    {
      suma := suma + DigitValue(pesel[i]) * weights[i];
    }
    controlSum := CsRem10(10 - CsRem10(suma));
  }

  /** The PESEL rule in its usual statement: with weights 1,3,7,9,1,3,7,9,1,3,1
      over all eleven digits, the weighted sum is a multiple of 10. */
  const FullWeights: seq<int> := [1, 3, 7, 9, 1, 3, 7, 9, 1, 3, 1]

  function FullWeightedSum(pesel: string, n: nat): int
    requires n <= 11 && n <= |pesel|
  {
    if n == 0 then 0 else FullWeightedSum(pesel, n - 1) + DigitValue(pesel[n - 1]) * FullWeights[n - 1]
  }

  predicate PeselValid(pesel: string) {
    |pesel| == 11 && IsNumeric(pesel) && FullWeightedSum(pesel, 11) % 10 == 0
  }

  lemma {:induction false} WeightedSumOfDigits(pesel: string, n: nat)
    requires n <= 10 && n <= |pesel| && IsNumeric(pesel)
    ensures WeightedSum(pesel, n) >= 0
    ensures FullWeightedSum(pesel, n) == WeightedSum(pesel, n)
  {
    if n > 0 {
      WeightedSumOfDigits(pesel, n - 1);
      assert IsDigit(pesel[n - 1]);
    }
  }

  /** The complement-of-the-remainder test the service runs accepts exactly the
      numeric PESELs that satisfy the usual mod-10 rule. */
  lemma PeselChecksumIsStandardRule(pesel: string)
    requires |pesel| == 11 && IsNumeric(pesel)
    ensures ChecksumMatches(pesel) <==> PeselValid(pesel)
  {
    WeightedSumOfDigits(pesel, 10);
    var s := WeightedSum(pesel, 10);
    var last := DigitValue(pesel[10]);
    assert IsDigit(pesel[10]);
    assert FullWeightedSum(pesel, 11) == s + last;
    CheckDigitRule(s, last);
  }

  /** The complement of the remainder equals a digit exactly when the digit
      completes the sum to a multiple of 10. */
  lemma CheckDigitRule(s: int, last: int)
    requires s >= 0 && 0 <= last <= 9
    ensures CsRem10(10 - CsRem10(s)) == last <==> (s + last) % 10 == 0
  {
    var q := s / 10;
    var r := s % 10;
    RemainderOf(s, q, r);
    if r == 0 {
      RemainderOf(10, 1, 0);
      RemainderOf(s + last, q, last);
    } else {
      RemainderOf(10 - r, 0, 10 - r);
      if r + last < 10 {
        RemainderOf(s + last, q, r + last);
      } else {
        RemainderOf(s + last, q + 1, r + last - 10);
      }
    }
  }

  /** Quotient and remainder by 10 are unique. */
  lemma RemainderOf(a: int, q: int, r: int)
    requires a == 10 * q + r && 0 <= r < 10
    ensures a % 10 == r
  {
  }

  lemma PeselExamples()
    ensures ChecksumMatches("92030412346")
    ensures !ChecksumMatches("62093044351")
    ensures PeselValid("01120178916")
  {
    assert WeightedSum("92030412346", 10) == 94;
    assert WeightedSum("62093044351", 10) == 178;
    assert FullWeightedSum("01120178916", 11) == 170;
  }

  // Error messages of the client registry
  const PersonExistsMessage: string := "Person already exists"
  const PhoneLengthMessage: string := "Phone number must be 9 digits"
  const PeselLengthMessage: string := "Pesel must be 11 digits"
  const PeselCharactersMessage: string := "Phone number or pesel contains invalid characters"
  const ControlSumMessage: string := "Control sum is invalid"
  const PhoneInvalidMessage: string := "Phone number contains invalid characters"
  const PersonNotFoundMessage: string := "Person not found"
  const CompanyExistsMessage: string := "Company already exists"
  const KrsLengthMessage: string := "Krs must be 10 digits"
  const KrsCharactersMessage: string := "Phone number or krs contains invalid characters"
  const CompanyNotFoundMessage: string := "Company not found"

  // ---------------------------------------------------------------------------
  // Decisions, as functions of the tables

  function NewPerson(id: int, dto: PersonClientDto): Client {
    Client(id, dto.address, dto.email, dto.phoneNumber, None,
           PersonDetails(dto.firstName, dto.lastName, dto.pesel))
  }

  function NewCompany(id: int, dto: CompanyClientDto): Client {
    Client(id, dto.address, dto.email, dto.phoneNumber, None,
           CompanyDetails(dto.companyName, dto.krs))
  }

  /** The row AddNewPerson inserts, or the exception it throws. The older
      service skips the character test (`checksCharacters == false`). */
  function PersonDecision(clients: seq<Client>, nextId: int, dto: PersonClientDto, checksCharacters: bool): Result<Client> {
    if PeselTaken(clients, dto.pesel) then Failure(Error(Conflict, PersonExistsMessage))
    else if |dto.phoneNumber| != 9 then Failure(Error(BadRequest, PhoneLengthMessage))
    else if |dto.pesel| != 11 then Failure(Error(BadRequest, PeselLengthMessage))
    else if checksCharacters && (!IsNumeric(dto.phoneNumber) || !IsNumeric(dto.pesel)) then
      Failure(Error(BadRequest, PeselCharactersMessage))
    else if !ChecksumMatches(dto.pesel) then Failure(Error(BadRequest, ControlSumMessage))
    else Success(NewPerson(nextId, dto))
  }

  /** The row AddNewCompany inserts, or the exception it throws. */
  function CompanyDecision(clients: seq<Client>, nextId: int, dto: CompanyClientDto): Result<Client> {
    if KrsTaken(clients, dto.krs) then Failure(Error(Conflict, CompanyExistsMessage))
    else if |dto.phoneNumber| != 9 then Failure(Error(BadRequest, PhoneLengthMessage))
    else if |dto.krs| != 10 then Failure(Error(BadRequest, KrsLengthMessage))
    else if !IsNumeric(dto.phoneNumber) || !IsNumeric(dto.krs) then
      Failure(Error(BadRequest, KrsCharactersMessage))
    else Success(NewCompany(nextId, dto))
  }

  /** The first of the two updates: the columns every client has. */
  function WithContact(c: Client, address: string, email: string, phoneNumber: string): Client {
    c.(address := address, email := email, phoneNumber := phoneNumber)
  }

  function WithPersonNames(c: Client, firstName: string, lastName: string): Client
    requires c.details.PersonDetails?
  {
    c.(details := c.details.(firstName := firstName, lastName := lastName))
  }

  function WithCompanyName(c: Client, companyName: string): Client
    requires c.details.CompanyDetails?
  {
    c.(details := c.details.(companyName := companyName))
  }

  /** The client table after UpdatePerson commits, or the exception it throws. */
  function UpdatePersonDecision(clients: seq<Client>, id: int, dto: PersonClientDto): Result<seq<Client>> {
    match FindVisiblePerson(clients, id)
    case None => Failure(Error(NotFound, PersonNotFoundMessage))
    case Some(i) =>
      if |dto.phoneNumber| != 9 then Failure(Error(BadRequest, PhoneLengthMessage))
      else if !IsNumeric(dto.phoneNumber) then Failure(Error(BadRequest, PhoneInvalidMessage))
      else
        var c := WithContact(clients[i], dto.address, dto.email, dto.phoneNumber);
        Success(clients[i := WithPersonNames(c, dto.firstName, dto.lastName)])
  }

  /** The client table after UpdateCompany commits, or the exception it throws;
      the older service words the invalid-phone message differently. */
  function UpdateCompanyDecision(clients: seq<Client>, id: int, dto: CompanyClientDto, invalidPhoneMessage: string): Result<seq<Client>> {
    match FindVisibleCompany(clients, id)
    case None => Failure(Error(NotFound, CompanyNotFoundMessage))
    case Some(i) =>
      if |dto.phoneNumber| != 9 then Failure(Error(BadRequest, PhoneLengthMessage))
      else if !IsNumeric(dto.phoneNumber) then Failure(Error(BadRequest, invalidPhoneMessage))
      else
        var c := WithContact(clients[i], dto.address, dto.email, dto.phoneNumber);
        Success(clients[i := WithCompanyName(c, dto.companyName)])
  }

  /** The client table after DeletePerson, or the exception it throws: the row
      stays and is stamped with the deletion time. */
  function DeletePersonDecision(clients: seq<Client>, id: int, now: int): Result<seq<Client>> {
    match FindVisiblePerson(clients, id)
    case None => Failure(Error(NotFound, PersonNotFoundMessage))
    case Some(i) => Success(clients[i := clients[i].(deletionDate := Some(now))])
  }

  /** The database after an insertion decided by PersonDecision or CompanyDecision. */
  function InsertClient(d: Db, row: Client): Db {
    d.(clients := d.clients + [row], nextClientId := d.nextClientId + 1)
  }

  // ---------------------------------------------------------------------------
  // Service operations

  method AddNewPerson(db: Store, dto: PersonClientDto) returns (r: Outcome)
    requires db.Valid()
    modifies db
    ensures db.Valid()
    ensures match PersonDecision(old(db.clients), old(db.nextClientId), dto, true)
      case Success(row) => r == Pass && db.Tables() == InsertClient(old(db.Tables()), row)
      case Failure(e) => r == Fail(e) && db.Tables() == old(db.Tables())
  {
    if PeselTaken(db.clients, dto.pesel) {
      return Fail(Error(Conflict, PersonExistsMessage));
    }
    if |dto.phoneNumber| != 9 {
      return Fail(Error(BadRequest, PhoneLengthMessage));
    }
    if |dto.pesel| != 11 {
      return Fail(Error(BadRequest, PeselLengthMessage));
    }
    if !IsNumeric(dto.phoneNumber) || !IsNumeric(dto.pesel) {
      return Fail(Error(BadRequest, PeselCharactersMessage));
    }
    var controlSum := ControlSum(dto.pesel);
    if controlSum != DigitValue(dto.pesel[10]) {
      return Fail(Error(BadRequest, ControlSumMessage));
    }
    ClientInsertKeepsWellFormed(db.Tables(), NewPerson(db.nextClientId, dto));
    db.clients := db.clients + [NewPerson(db.nextClientId, dto)];
    db.nextClientId := db.nextClientId + 1;
    r := Pass;
  }

  method UpdatePerson(db: Store, id: int, dto: PersonClientDto) returns (r: Outcome)
    requires db.Valid()
    modifies db
    ensures db.Valid()
    ensures match UpdatePersonDecision(old(db.clients), id, dto)
      case Success(rows) => r == Pass && db.Tables() == old(db.Tables()).(clients := rows)
      case Failure(e) => r == Fail(e) && db.Tables() == old(db.Tables())
  {
    var snapshot := db.Tables();
    var found := FindVisiblePerson(db.clients, id);
    if found.None? {
      db.Restore(snapshot);
      return Fail(Error(NotFound, PersonNotFoundMessage));
    }
    if |dto.phoneNumber| != 9 {
      db.Restore(snapshot);
      return Fail(Error(BadRequest, PhoneLengthMessage));
    }
    if !IsNumeric(dto.phoneNumber) {
      db.Restore(snapshot);
      return Fail(Error(BadRequest, PhoneInvalidMessage));
    }
    var i := found.value;
    db.clients := db.clients[i := WithContact(db.clients[i], dto.address, dto.email, dto.phoneNumber)];
    db.clients := db.clients[i := WithPersonNames(db.clients[i], dto.firstName, dto.lastName)];
    ClientRowsKeepWellFormed(snapshot, db.clients);
    r := Pass;
  }

  method DeletePerson(db: Store, id: int, now: int) returns (r: Outcome)
    requires db.Valid()
    modifies db
    ensures db.Valid()
    ensures match DeletePersonDecision(old(db.clients), id, now)
      case Success(rows) => r == Pass && db.Tables() == old(db.Tables()).(clients := rows)
      case Failure(e) => r == Fail(e) && db.Tables() == old(db.Tables())
  {
    var found := FindVisiblePerson(db.clients, id);
    if found.None? {
      return Fail(Error(NotFound, PersonNotFoundMessage));
    }
    var i := found.value;
    ClientRowsKeepWellFormed(db.Tables(), db.clients[i := db.clients[i].(deletionDate := Some(now))]);
    db.clients := db.clients[i := db.clients[i].(deletionDate := Some(now))];
    r := Pass;
  }

  method AddNewCompany(db: Store, dto: CompanyClientDto) returns (r: Outcome)
    requires db.Valid()
    modifies db
    ensures db.Valid()
    ensures match CompanyDecision(old(db.clients), old(db.nextClientId), dto)
      case Success(row) => r == Pass && db.Tables() == InsertClient(old(db.Tables()), row)
      case Failure(e) => r == Fail(e) && db.Tables() == old(db.Tables())
  {
    if KrsTaken(db.clients, dto.krs) {
      return Fail(Error(Conflict, CompanyExistsMessage));
    }
    if |dto.phoneNumber| != 9 {
      return Fail(Error(BadRequest, PhoneLengthMessage));
    }
    if |dto.krs| != 10 {
      return Fail(Error(BadRequest, KrsLengthMessage));
    }
    if !IsNumeric(dto.phoneNumber) || !IsNumeric(dto.krs) {
      return Fail(Error(BadRequest, KrsCharactersMessage));
    }
    ClientInsertKeepsWellFormed(db.Tables(), NewCompany(db.nextClientId, dto));
    db.clients := db.clients + [NewCompany(db.nextClientId, dto)];
    db.nextClientId := db.nextClientId + 1;
    r := Pass;
  }

  method UpdateCompany(db: Store, id: int, dto: CompanyClientDto) returns (r: Outcome)
    requires db.Valid()
    modifies db
    ensures db.Valid()
    ensures match UpdateCompanyDecision(old(db.clients), id, dto, PhoneInvalidMessage)
      case Success(rows) => r == Pass && db.Tables() == old(db.Tables()).(clients := rows)
      case Failure(e) => r == Fail(e) && db.Tables() == old(db.Tables())
  {
    var snapshot := db.Tables();
    var found := FindVisibleCompany(db.clients, id);
    if found.None? {
      db.Restore(snapshot);
      return Fail(Error(NotFound, CompanyNotFoundMessage));
    }
    if |dto.phoneNumber| != 9 {
      db.Restore(snapshot);
      return Fail(Error(BadRequest, PhoneLengthMessage));
    }
    if !IsNumeric(dto.phoneNumber) {
      db.Restore(snapshot);
      return Fail(Error(BadRequest, PhoneInvalidMessage));
    }
    var i := found.value;
    db.clients := db.clients[i := WithContact(db.clients[i], dto.address, dto.email, dto.phoneNumber)];
    db.clients := db.clients[i := WithCompanyName(db.clients[i], dto.companyName)];
    ClientRowsKeepWellFormed(snapshot, db.clients);
    r := Pass;
  }

  // ---------------------------------------------------------------------------
  // Properties of the registry

  /** AddNewPerson succeeds exactly for an unused PESEL that satisfies the
      usual check-digit rule and a nine-digit phone; the row it adds carries
      the request's fields and is visible. */
  lemma AddPersonSucceedsIff(clients: seq<Client>, nextId: int, dto: PersonClientDto)
    ensures PersonDecision(clients, nextId, dto, true).Success? <==>
      && !PeselTaken(clients, dto.pesel)
      && |dto.phoneNumber| == 9 && IsNumeric(dto.phoneNumber)
      && PeselValid(dto.pesel)
    ensures PersonDecision(clients, nextId, dto, true).Success? ==>
      PersonDecision(clients, nextId, dto, true).value == NewPerson(nextId, dto)
  {
    if |dto.pesel| == 11 && IsNumeric(dto.pesel) {
      PeselChecksumIsStandardRule(dto.pesel);
    }
  }

  /** Once a person is added, adding anyone with the same PESEL is a Conflict. */
  lemma AddedPeselIsTaken(clients: seq<Client>, nextId: int, dto: PersonClientDto, again: PersonClientDto)
    requires PersonDecision(clients, nextId, dto, true).Success?
    requires again.pesel == dto.pesel
    ensures PersonDecision(clients + [NewPerson(nextId, dto)], nextId + 1, again, true)
      == Failure(Error(Conflict, PersonExistsMessage))
  {
    var rows := clients + [NewPerson(nextId, dto)];
    assert HoldsPesel(rows[|clients|], again.pesel);
  }

  /** AddNewCompany succeeds exactly for an unused ten-digit KRS and a
      nine-digit phone; the KRS has no check digit. */
  lemma AddCompanySucceedsIff(clients: seq<Client>, nextId: int, dto: CompanyClientDto)
    ensures CompanyDecision(clients, nextId, dto).Success? <==>
      && !KrsTaken(clients, dto.krs)
      && |dto.phoneNumber| == 9 && IsNumeric(dto.phoneNumber)
      && |dto.krs| == 10 && IsNumeric(dto.krs)
    ensures CompanyDecision(clients, nextId, dto).Success? ==>
      CompanyDecision(clients, nextId, dto).value == NewCompany(nextId, dto)
  {
  }

  /** UpdatePerson rewrites address, e-mail, phone and names of the one visible
      person with that id; id, PESEL and deletion date stay, other rows stay. */
  lemma UpdatePersonChangesOnlyThatPerson(clients: seq<Client>, id: int, dto: PersonClientDto)
    requires UniqueClientIds(clients)
    requires UpdatePersonDecision(clients, id, dto).Success?
    ensures var rows := UpdatePersonDecision(clients, id, dto).value;
      && |rows| == |clients|
      && (forall j :: 0 <= j < |clients| && clients[j].id != id ==> rows[j] == clients[j])
      && (forall j :: 0 <= j < |clients| && clients[j].id == id ==>
            clients[j].details.PersonDetails? &&
            rows[j] == Client(id, dto.address, dto.email, dto.phoneNumber, clients[j].deletionDate,
                              PersonDetails(dto.firstName, dto.lastName, clients[j].details.pesel)))
  {
    var i := FindVisiblePerson(clients, id).value;
    forall j | 0 <= j < |clients| && clients[j].id == id
      ensures j == i
    {
      if j != i {
        if j < i { assert false; } else { assert false; }
      }
    }
  }

  /** The PESEL in an update request is neither validated nor stored. */
  lemma UpdatePersonIgnoresPesel(clients: seq<Client>, id: int, dto: PersonClientDto, pesel: string)
    ensures UpdatePersonDecision(clients, id, dto.(pesel := pesel)) == UpdatePersonDecision(clients, id, dto)
  {
  }

  /** UpdateCompany rewrites address, e-mail, phone and name of the one visible
      company with that id; id, KRS and deletion date stay, other rows stay. */
  lemma UpdateCompanyChangesOnlyThatCompany(clients: seq<Client>, id: int, dto: CompanyClientDto, message: string)
    requires UniqueClientIds(clients)
    requires UpdateCompanyDecision(clients, id, dto, message).Success?
    ensures var rows := UpdateCompanyDecision(clients, id, dto, message).value;
      && |rows| == |clients|
      && (forall j :: 0 <= j < |clients| && clients[j].id != id ==> rows[j] == clients[j])
      && (forall j :: 0 <= j < |clients| && clients[j].id == id ==>
            clients[j].details.CompanyDetails? &&
            rows[j] == Client(id, dto.address, dto.email, dto.phoneNumber, clients[j].deletionDate,
                              CompanyDetails(dto.companyName, clients[j].details.krs)))
  {
    var i := FindVisibleCompany(clients, id).value;
    forall j | 0 <= j < |clients| && clients[j].id == id
      ensures j == i
    {
      if j != i {
        if j < i { assert false; } else { assert false; }
      }
    }
  }

  /** The KRS in an update request is neither validated nor stored. */
  lemma UpdateCompanyIgnoresKrs(clients: seq<Client>, id: int, dto: CompanyClientDto, message: string, krs: string)
    ensures UpdateCompanyDecision(clients, id, dto.(krs := krs), message) == UpdateCompanyDecision(clients, id, dto, message)
  {
  }

  /** Soft delete removes no row, and the person vanishes from every client
      query: deleting or updating it again is NotFound. */
  lemma DeletedPersonIsHidden(clients: seq<Client>, id: int, now: int, later: int, dto: PersonClientDto)
    requires UniqueClientIds(clients)
    requires DeletePersonDecision(clients, id, now).Success?
    ensures var rows := DeletePersonDecision(clients, id, now).value;
      && |rows| == |clients|
      && (forall j :: 0 <= j < |rows| ==> rows[j].id == clients[j].id)
      && FindVisibleClient(rows, id).None?
      && DeletePersonDecision(rows, id, later) == Failure(Error(NotFound, PersonNotFoundMessage))
      && UpdatePersonDecision(rows, id, dto) == Failure(Error(NotFound, PersonNotFoundMessage))
  {
    var i := FindVisiblePerson(clients, id).value;
    var rows := DeletePersonDecision(clients, id, now).value;
    forall j | 0 <= j < |rows|
      ensures !IsVisibleClient(rows[j], id)
    {
      if j != i && clients[j].id == id {
        if j < i { assert false; } else { assert false; }
      }
    }
    assert FindVisiblePerson(rows, id).None?;
  }

  /** After the only holder of a PESEL is soft-deleted, the PESEL no longer
      blocks AddNewPerson. */
  lemma DeletedPeselIsFree(clients: seq<Client>, id: int, now: int, nextId: int, dto: PersonClientDto)
    requires UniqueClientIds(clients)
    requires DeletePersonDecision(clients, id, now).Success?
    requires forall j :: 0 <= j < |clients| && HoldsPesel(clients[j], dto.pesel) ==> clients[j].id == id
    ensures !PeselTaken(DeletePersonDecision(clients, id, now).value, dto.pesel)
    ensures PersonDecision(DeletePersonDecision(clients, id, now).value, nextId, dto, true).Failure? ==>
      PersonDecision(DeletePersonDecision(clients, id, now).value, nextId, dto, true).error.kind == BadRequest
  {
    var i := FindVisiblePerson(clients, id).value;
    var rows := DeletePersonDecision(clients, id, now).value;
    forall j | 0 <= j < |rows|
      ensures !HoldsPesel(rows[j], dto.pesel)
    {
      if j != i && HoldsPesel(clients[j], dto.pesel) {
        if j < i { assert false; } else { assert false; }
      }
    }
  }

  // ---------------------------------------------------------------------------
  // Integrity

  lemma ClientRowsKeepWellFormed(d: Db, rows: seq<Client>)
    requires WellFormed(d)
    requires |rows| == |d.clients|
    requires forall j :: 0 <= j < |rows| ==> rows[j].id == d.clients[j].id
    ensures WellFormed(d.(clients := rows))
  {
    forall i | 0 <= i < |d.contracts|
      ensures HasClient(rows, d.contracts[i].clientId)
    {
      assert HasClient(d.clients, d.contracts[i].clientId);
      var j :| 0 <= j < |d.clients| && d.clients[j].id == d.contracts[i].clientId;
      assert rows[j].id == d.contracts[i].clientId;
    }
  }

  lemma ClientInsertKeepsWellFormed(d: Db, row: Client)
    requires WellFormed(d)
    requires row.id == d.nextClientId
    ensures WellFormed(InsertClient(d, row))
  {
    var rows := d.clients + [row];
    forall i | 0 <= i < |d.contracts|
      ensures HasClient(rows, d.contracts[i].clientId)
    {
      assert HasClient(d.clients, d.contracts[i].clientId);
      var j :| 0 <= j < |d.clients| && d.clients[j].id == d.contracts[i].clientId;
      assert rows[j].id == d.contracts[i].clientId;
    }
  }

  /** Adding a person or a company keeps client ids unique and below the next id. */
  lemma AddingKeepsWellFormed(d: Db, person: PersonClientDto, company: CompanyClientDto, checksCharacters: bool)
    requires WellFormed(d)
    ensures PersonDecision(d.clients, d.nextClientId, person, checksCharacters).Success? ==>
      WellFormed(InsertClient(d, PersonDecision(d.clients, d.nextClientId, person, checksCharacters).value))
    ensures CompanyDecision(d.clients, d.nextClientId, company).Success? ==>
      WellFormed(InsertClient(d, CompanyDecision(d.clients, d.nextClientId, company).value))
  {
    if PersonDecision(d.clients, d.nextClientId, person, checksCharacters).Success? {
      ClientInsertKeepsWellFormed(d, PersonDecision(d.clients, d.nextClientId, person, checksCharacters).value);
    }
    if CompanyDecision(d.clients, d.nextClientId, company).Success? {
      ClientInsertKeepsWellFormed(d, CompanyDecision(d.clients, d.nextClientId, company).value);
    }
  }

  /** Updating a person or a company keeps every id, so the database stays well formed. */
  lemma UpdatingKeepsWellFormed(d: Db, id: int, person: PersonClientDto, company: CompanyClientDto, message: string)
    requires WellFormed(d)
    ensures UpdatePersonDecision(d.clients, id, person).Success? ==>
      WellFormed(d.(clients := UpdatePersonDecision(d.clients, id, person).value))
    ensures UpdateCompanyDecision(d.clients, id, company, message).Success? ==>
      WellFormed(d.(clients := UpdateCompanyDecision(d.clients, id, company, message).value))
  {
    if UpdatePersonDecision(d.clients, id, person).Success? {
      ClientRowsKeepWellFormed(d, UpdatePersonDecision(d.clients, id, person).value);
    }
    if UpdateCompanyDecision(d.clients, id, company, message).Success? {
      ClientRowsKeepWellFormed(d, UpdateCompanyDecision(d.clients, id, company, message).value);
    }
  }

  /** A soft delete keeps the row, so contracts still find their client. */
  lemma SoftDeleteKeepsWellFormed(d: Db, id: int, now: int)
    requires WellFormed(d)
    ensures DeletePersonDecision(d.clients, id, now).Success? ==>
      WellFormed(d.(clients := DeletePersonDecision(d.clients, id, now).value))
  {
    if DeletePersonDecision(d.clients, id, now).Success? {
      ClientRowsKeepWellFormed(d, DeletePersonDecision(d.clients, id, now).value);
    }
  }

}
