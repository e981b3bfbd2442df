/** The database context the services share: one class whose fields are the
    tables, the queries the services run against them, and the integrity the
    schema's keys and cascades maintain. */
module Database {
  import opened Common
  import opened Entities

  // ---------------------------------------------------------------------------
  // Queries

  /** `FirstOrDefault(p)` on a table: the position of the first row satisfying p. */
  function FirstIndex<T>(s: seq<T>, p: T -> bool): (r: Option<nat>)
    ensures r.Some? ==> r.value < |s| && p(s[r.value]) && forall j :: 0 <= j < r.value ==> !p(s[j])
    ensures r.None? ==> forall j :: 0 <= j < |s| ==> !p(s[j])
  {
    if |s| == 0 then None
    else if p(s[0]) then Some(0)
    else
      match FirstIndex(s[1..], p)
      case None => None
      case Some(k) => Some(k + 1)
  }

  predicate IsVisibleClient(c: Client, id: int) {
    c.id == id && c.Visible()
  }

  predicate IsVisiblePerson(c: Client, id: int) {
    IsVisibleClient(c, id) && c.details.PersonDetails?
  }

  predicate IsVisibleCompany(c: Client, id: int) {
    IsVisibleClient(c, id) && c.details.CompanyDetails?
  }

  /** `Clients.FirstOrDefault(e => e.IdClient == id)`; soft-deleted rows are filtered out. */
  function FindVisibleClient(clients: seq<Client>, id: int): (r: Option<nat>)
    ensures r.Some? ==> r.value < |clients| && IsVisibleClient(clients[r.value], id)
    ensures r.Some? ==> forall j :: 0 <= j < r.value ==> !IsVisibleClient(clients[j], id)
    ensures r.None? ==> forall j :: 0 <= j < |clients| ==> !IsVisibleClient(clients[j], id)
  {
    FirstIndex(clients, (c: Client) => IsVisibleClient(c, id))
  }

  /** `Persons.FirstOrDefault(e => e.IdClient == id)`. */
  function FindVisiblePerson(clients: seq<Client>, id: int): (r: Option<nat>)
    ensures r.Some? ==> r.value < |clients| && IsVisiblePerson(clients[r.value], id)
    ensures r.Some? ==> forall j :: 0 <= j < r.value ==> !IsVisiblePerson(clients[j], id)
    ensures r.None? ==> forall j :: 0 <= j < |clients| ==> !IsVisiblePerson(clients[j], id)
  {
    FirstIndex(clients, (c: Client) => IsVisiblePerson(c, id))
  }

  /** `Companies.FirstOrDefault(e => e.IdClient == id)`. */
  function FindVisibleCompany(clients: seq<Client>, id: int): (r: Option<nat>)
    ensures r.Some? ==> r.value < |clients| && IsVisibleCompany(clients[r.value], id)
    ensures r.Some? ==> forall j :: 0 <= j < r.value ==> !IsVisibleCompany(clients[j], id)
    ensures r.None? ==> forall j :: 0 <= j < |clients| ==> !IsVisibleCompany(clients[j], id)
  {
    FirstIndex(clients, (c: Client) => IsVisibleCompany(c, id))
  }

  predicate HoldsPesel(c: Client, pesel: string) {
    c.Visible() && c.details.PersonDetails? && c.details.pesel == pesel
  }

  predicate HoldsKrs(c: Client, krs: string) {
    c.Visible() && c.details.CompanyDetails? && c.details.krs == krs
  }

  /** `Persons.FirstOrDefault(e => e.Pesel == pesel) != null`. */
  predicate PeselTaken(clients: seq<Client>, pesel: string) {
    exists j :: 0 <= j < |clients| && HoldsPesel(clients[j], pesel)
  }

  /** `Companies.FirstOrDefault(e => e.Krs == krs) != null`. */
  predicate KrsTaken(clients: seq<Client>, krs: string) {
    exists j :: 0 <= j < |clients| && HoldsKrs(clients[j], krs)
  }

  /** `Softwares.FirstOrDefault(e => e.SoftwareId == id && e.Version == version)`. */
  function FindSoftware(softwares: seq<Software>, id: int, version: real): (r: Option<Software>)
    ensures r.Some? ==> r.value in softwares && r.value.id == id && r.value.version == version
    ensures r.None? ==> forall s :: s in softwares ==> !(s.id == id && s.version == version)
  {
    match FirstIndex(softwares, (s: Software) => s.id == id && s.version == version)
    case None => None
    case Some(k) => Some(softwares[k])
  }

  /** The row a join-table entry's `Discount` navigation reaches. */
  function FindDiscount(discounts: seq<Discount>, id: int): (r: Option<Discount>)
    ensures r.Some? ==> r.value in discounts && r.value.id == id
    ensures r.None? ==> forall d :: d in discounts ==> d.id != id
  {
    match FirstIndex(discounts, (d: Discount) => d.id == id)
    case None => None
    case Some(k) => Some(discounts[k])
  }

  /** `Contracts.FirstOrDefault(e => e.ContractId == id)`. */
  function FindContract(contracts: seq<Contract>, id: int): (r: Option<nat>)
    ensures r.Some? ==> r.value < |contracts| && contracts[r.value].id == id
    ensures r.None? ==> forall j :: 0 <= j < |contracts| ==> contracts[j].id != id
  {
    FirstIndex(contracts, (c: Contract) => c.id == id)
  }

  predicate SamePair(c: Contract, clientId: int, softwareId: int) {
    c.clientId == clientId && c.softwareId == softwareId
  }

  /** `Contracts.FirstOrDefault(e => e.ClientId == clientId && e.SoftwareId == softwareId)`,
      taking the earliest matching row in insertion order; the query has no
      `OrderBy`, so the database may return another matching row. */
  function FirstContractFor(contracts: seq<Contract>, clientId: int, softwareId: int): (r: Option<nat>)
    ensures r.Some? ==> r.value < |contracts| && SamePair(contracts[r.value], clientId, softwareId)
    ensures r.Some? ==> forall j :: 0 <= j < r.value ==> !SamePair(contracts[j], clientId, softwareId)
    ensures r.None? ==> forall j :: 0 <= j < |contracts| ==> !SamePair(contracts[j], clientId, softwareId)
  {
    FirstIndex(contracts, (c: Contract) => SamePair(c, clientId, softwareId))
  }

  /** `Payments.Where(e => e.ContractId == id)`, in table order. */
  function PaymentsOf(payments: seq<Payment>, contractId: int): (r: seq<Payment>)
    ensures |r| <= |payments|
    ensures forall p :: p in r <==> p in payments && p.contractId == contractId
  {
    if payments == [] then []
    else
      var rest := PaymentsOf(payments[1..], contractId);
      if payments[0].contractId == contractId then [payments[0]] + rest else rest
  }

  /** The payments left once those of one contract are deleted. */
  function PaymentsExcept(payments: seq<Payment>, contractId: int): (r: seq<Payment>)
    ensures |r| <= |payments|
    ensures forall p :: p in r <==> p in payments && p.contractId != contractId
  {
    if payments == [] then []
    else
      var rest := PaymentsExcept(payments[1..], contractId);
      if payments[0].contractId != contractId then [payments[0]] + rest else rest
  }

  /** The contracts left once the rows with one id are deleted. */
  function ContractsExcept(contracts: seq<Contract>, id: int): (r: seq<Contract>)
    ensures |r| <= |contracts|
    ensures forall c :: c in r <==> c in contracts && c.id != id
  {
    if contracts == [] then []
    else
      var rest := ContractsExcept(contracts[1..], id);
      if contracts[0].id != id then [contracts[0]] + rest else rest
  }

  // ---------------------------------------------------------------------------
  // Integrity

  predicate HasContract(contracts: seq<Contract>, id: int) {
    exists j :: 0 <= j < |contracts| && contracts[j].id == id
  }

  predicate HasSoftware(softwares: seq<Software>, id: int) {
    exists j :: 0 <= j < |softwares| && softwares[j].id == id
  }

  predicate HasClient(clients: seq<Client>, id: int) {
    exists j :: 0 <= j < |clients| && clients[j].id == id
  }

  predicate UniqueClientIds(clients: seq<Client>) {
    forall i, j :: 0 <= i < j < |clients| ==> clients[i].id != clients[j].id
  }

  predicate UniqueContractIds(contracts: seq<Contract>) {
    forall i, j :: 0 <= i < j < |contracts| ==> contracts[i].id != contracts[j].id
  }

  /** What the identity columns and foreign keys guarantee: ids are unique and
      below the next identity value, every contract names an existing client
      and software, every payment an existing contract. */
  predicate WellFormed(d: Db) {
    && UniqueClientIds(d.clients)
    && (forall i :: 0 <= i < |d.clients| ==> d.clients[i].id < d.nextClientId)
    && UniqueContractIds(d.contracts)
    && (forall i :: 0 <= i < |d.contracts| ==> d.contracts[i].id < d.nextContractId)
    && (forall i :: 0 <= i < |d.contracts| ==> HasClient(d.clients, d.contracts[i].clientId))
    && (forall i :: 0 <= i < |d.contracts| ==> HasSoftware(d.softwares, d.contracts[i].softwareId))
    && (forall i :: 0 <= i < |d.payments| ==> d.payments[i].id < d.nextPaymentId)
    && (forall i :: 0 <= i < |d.payments| ==> HasContract(d.contracts, d.payments[i].contractId))
  }

  /** How many payments the contract has: `Payments.Where(...).ToList().Count`. */
  function PaymentCount(payments: seq<Payment>, contractId: int): nat {
    |PaymentsOf(payments, contractId)|
  }

  /** A contract's fulfilment flag agrees with its payments: an instalment
      contract is fulfilled exactly when it has as many payments as its
      (positive) quantity and never has more; a lump-sum contract is
      fulfilled exactly when it has been paid. */
  predicate ContractLedgerConsistent(c: Contract, count: nat) {
    if c.isInstalment then
      && (c.isFulfilled <==> (c.instalmentsQuantity.Some? && c.instalmentsQuantity.value >= 1 && count == c.instalmentsQuantity.value))
      && (c.instalmentsQuantity.Some? && c.instalmentsQuantity.value >= 0 ==> count <= c.instalmentsQuantity.value)
    else
      c.isFulfilled <==> count >= 1
  }

  predicate LedgerConsistent(d: Db) {
    forall i :: 0 <= i < |d.contracts| ==> ContractLedgerConsistent(d.contracts[i], PaymentCount(d.payments, d.contracts[i].id))
  }

  // ---------------------------------------------------------------------------
  // The context

  class Store {
    var clients: seq<Client>
    var softwares: seq<Software>
    var discounts: seq<Discount>
    var discountSoftwares: seq<DiscountLink>
    var contracts: seq<Contract>
    var payments: seq<Payment>
    var nextClientId: int
    var nextContractId: int
    var nextPaymentId: int

    /** The current contents of every table. */
    function Tables(): Db
      reads this
    {
      Db(clients, softwares, discounts, discountSoftwares, contracts, payments,
         nextClientId, nextContractId, nextPaymentId)
    }

    /** The keys hold and every contract's flag agrees with its payments. */
    predicate Valid()
      reads this
    {
      WellFormed(Tables()) && LedgerConsistent(Tables())
    }

    /** A fresh database holding only the catalogue; identities start at 1. */
    constructor (softwares: seq<Software>, discounts: seq<Discount>, links: seq<DiscountLink>)
      ensures Valid()
      ensures Tables() == Db([], softwares, discounts, links, [], [], 1, 1, 1)
    {
      this.clients := [];
      this.softwares := softwares;
      this.discounts := discounts;
      this.discountSoftwares := links;
      this.contracts := [];
      this.payments := [];
      this.nextClientId := 1;
      this.nextContractId := 1;
      this.nextPaymentId := 1;
    }

    /** Transaction rollback: every table returns to the snapshot. */
    method Restore(snapshot: Db)
      modifies this
      ensures Tables() == snapshot
    {
      clients := snapshot.clients;
      softwares := snapshot.softwares;
      discounts := snapshot.discounts;
      discountSoftwares := snapshot.discountSoftwares;
      contracts := snapshot.contracts;
      payments := snapshot.payments;
      nextClientId := snapshot.nextClientId;
      nextContractId := snapshot.nextContractId;
      nextPaymentId := snapshot.nextPaymentId;
    }
  }
}
