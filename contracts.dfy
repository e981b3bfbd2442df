/** The contract engine's decisions: pricing and creating licence contracts,
    recording payments and instalments inside a transaction, and deleting
    contracts, each as the database it leaves or the exception it throws. */
module Contracts {
  import opened Common
  import opened Entities
  import opened Database

  // Error messages of the contract engine
  const ClientNotFoundMessage: string := "Client not found"
  const SoftwareNotFoundMessage: string := "Software not found"
  const DatesReversedMessage: string := "End date cannot be before start date"
  const ContractExistsMessage: string := "Contract on this software already exists"
  const SpanRejectedMessage: string := "Difference between start and end dates must be between 3 and 30 days"
  const UpdateYearsMessage: string := "UpdateYears must be between 1 and 4 years"
  const ContractNotFoundMessage: string := "Contract not found"
  const ExpiredMessage: string := "Contract has expired"
  const AlreadyPaidMessage: string := "Contract has been already paid"

  // ---------------------------------------------------------------------------
  // Pricing

  /** A join-table row of the software whose discount row exists and has
      started by `start`; the end of the discount's window is not consulted. */
  predicate Applies(link: DiscountLink, discounts: seq<Discount>, softwareId: int, start: int) {
    && link.softwareId == softwareId
    && match FindDiscount(discounts, link.discountId)
       case None => false
       case Some(row) => row.fromDate <= start
  }

  /** The value of the discount a join-table row points at. */
  function LinkedValue(link: DiscountLink, discounts: seq<Discount>, softwareId: int, start: int): real
    requires Applies(link, discounts, softwareId, start)
  {
    FindDiscount(discounts, link.discountId).value.value
  }

  /** The values of the discounts the pricing query collects. */
  function ApplicableValues(links: seq<DiscountLink>, discounts: seq<Discount>, softwareId: int, start: int): (r: seq<real>)
    ensures forall l :: l in links && Applies(l, discounts, softwareId, start) ==>
      LinkedValue(l, discounts, softwareId, start) in r
    ensures forall v :: v in r ==>
      (exists l :: l in links && Applies(l, discounts, softwareId, start) && LinkedValue(l, discounts, softwareId, start) == v)
  {
    if links == [] then []
    else
      var rest := ApplicableValues(links[1..], discounts, softwareId, start);
      assert forall l :: l in links[1..] ==> l in links;
      if Applies(links[0], discounts, softwareId, start) then
        [LinkedValue(links[0], discounts, softwareId, start)] + rest
      else rest
  }

  /** LINQ `Max`: the largest value of a non-empty list, None for an empty one. */
  function MaxValue(vs: seq<real>): (m: Option<real>)
    ensures m.None? <==> vs == []
    ensures m.Some? ==> m.value in vs
    ensures m.Some? ==> forall v :: v in vs ==> v <= m.value
  {
    if vs == [] then None
    else
      assert forall v :: v in vs ==> v == vs[0] || v in vs[1..];
      match MaxValue(vs[1..])
      case None => Some(vs[0])
      case Some(rest) => Some(if vs[0] >= rest then vs[0] else rest)
  }

  /** `discounts.Any() ? discounts.Max(e => e.Value) : 0m`. */
  function BestDiscount(d: Db, softwareId: int, start: int): real {
    MaxValue(ApplicableValues(d.discountSoftwares, d.discounts, softwareId, start)).GetOr(0.0)
  }

  /** The discount points a returning client receives on top; nothing caps the sum. */
  const ReturningBonus: real := 0.05

  function DiscountRate(best: real, returning: bool): real {
    if returning then best + ReturningBonus else best
  }

  /** The list price plus 1000 for every update year beyond the first. */
  function BasePrice(price: real, updateYears: int): real {
    price + ((updateYears - 1) * 1000) as real
  }

  function ContractPrice(price: real, updateYears: int, rate: real): real {
    BasePrice(price, updateYears) * (1.0 - rate)
  }

  // ---------------------------------------------------------------------------
  // Creating a contract

  predicate IsActive(c: Contract, now: int) {
    c.endDate > now
  }

  /** What the contracts already recorded for the pair tell the service:
      whether one of them blocks the purchase, and whether the client returns. */
  datatype PriorState = PriorState(blocked: bool, returning: bool)

  /** The check as written: only the first contract recorded for the pair is
      looked at; it blocks when still active and otherwise makes the client
      a returning one. */
  function FirstPriorState(contracts: seq<Contract>, clientId: int, softwareId: int, now: int): PriorState {
    match FirstContractFor(contracts, clientId, softwareId)
    case None => PriorState(false, false)
    case Some(k) => PriorState(IsActive(contracts[k], now), true)
  }

  /** The check as the business rule states it: any active contract for the
      pair blocks, and any earlier contract makes the client a returning one. */
  function AnyPriorState(contracts: seq<Contract>, clientId: int, softwareId: int, now: int): PriorState {
    PriorState(
      exists j :: 0 <= j < |contracts| && SamePair(contracts[j], clientId, softwareId) && IsActive(contracts[j], now),
      exists j :: 0 <= j < |contracts| && SamePair(contracts[j], clientId, softwareId))
  }

  /** `(end - start).Days` lies between 3 and 30. */
  predicate SpanAccepted(start: int, end: int) {
    3 <= WholeDays(end - start) <= 30
  }

  /** The row CreateContract inserts; the quantity is kept only for an
      instalment contract and the version comes from the software row. */
  function NewContract(id: int, clientId: int, softwareId: int, software: Software, dto: ContractDto, rate: real): Contract {
    Contract(id, dto.startDate, dto.endDate, ContractPrice(software.price, dto.updateYears, rate),
             dto.updateYears, software.version, dto.isInstalment,
             if dto.isInstalment then dto.instalmentNumber else None,
             false, clientId, softwareId)
  }

  /** The contract CreateContract inserts, or the exception it throws, given
      what the prior-contract check reported. */
  function ContractDecision(d: Db, clientId: int, softwareId: int, dto: ContractDto, prior: PriorState): Result<Contract> {
    if FindVisibleClient(d.clients, clientId).None? then Failure(Error(NotFound, ClientNotFoundMessage))
    else
      match FindSoftware(d.softwares, softwareId, dto.softwareVersion)
      case None => Failure(Error(NotFound, SoftwareNotFoundMessage))
      case Some(software) =>
        if dto.endDate < dto.startDate then Failure(Error(Conflict, DatesReversedMessage))
        else if prior.blocked then Failure(Error(Conflict, ContractExistsMessage))
        else if !SpanAccepted(dto.startDate, dto.endDate) then
          Failure(Error(BadRequest, SpanRejectedMessage))
        else if dto.updateYears < 1 || dto.updateYears > 4 then
          Failure(Error(BadRequest, UpdateYearsMessage))
        else
          var rate := DiscountRate(BestDiscount(d, softwareId, dto.startDate), prior.returning);
          Success(NewContract(d.nextContractId, clientId, softwareId, software, dto, rate))
  }

  /** CreateContract exactly as written (first contract of the pair only). */
  function CreateAsWritten(d: Db, clientId: int, softwareId: int, dto: ContractDto, now: int): Result<Contract> {
    ContractDecision(d, clientId, softwareId, dto, FirstPriorState(d.contracts, clientId, softwareId, now))
  }

  /** CreateContract with the prior-contract check the business rule calls
      for: the corrected reference; the service methods keep CreateAsWritten. */
  function CreateDecision(d: Db, clientId: int, softwareId: int, dto: ContractDto, now: int): Result<Contract> {
    ContractDecision(d, clientId, softwareId, dto, AnyPriorState(d.contracts, clientId, softwareId, now))
  }

  function InsertContract(d: Db, c: Contract): Db {
    d.(contracts := d.contracts + [c], nextContractId := d.nextContractId + 1)
  }

  // ---------------------------------------------------------------------------
  // Paying a contract

  /** `ExecuteUpdate(IsFulfilled = true)` on the rows with that id. */
  function SetFulfilled(contracts: seq<Contract>, id: int): (r: seq<Contract>)
    ensures |r| == |contracts|
    ensures forall i :: 0 <= i < |r| ==> r[i].(isFulfilled := contracts[i].isFulfilled) == contracts[i]
    ensures forall i :: 0 <= i < |r| ==> r[i].isFulfilled == (contracts[i].isFulfilled || contracts[i].id == id)
  {
    seq(|contracts|, i requires 0 <= i < |contracts| =>
      if contracts[i].id == id then contracts[i].(isFulfilled := true) else contracts[i])
  }

  /** The instalment contract's divisor: `InstalmentsQuantity ?? 1`. */
  function Divisor(c: Contract): int {
    c.instalmentsQuantity.GetOr(1)
  }

  /** The database after PayContract commits, or the exception it rethrows
      after rolling the transaction back. */
  function PayDecision(d: Db, contractId: int, now: int): Result<Db> {
    match FindContract(d.contracts, contractId)
    case None => Failure(Error(NotFound, ContractNotFoundMessage))
    case Some(k) =>
      var c := d.contracts[k];
      if c.endDate < now then Failure(Error(BadRequest, ExpiredMessage))
      else if c.isInstalment then
        var count := PaymentCount(d.payments, contractId);
        if c.instalmentsQuantity == Some(count) then Failure(Error(Conflict, AlreadyPaidMessage))
        else if Divisor(c) == 0 then Failure(Error(DivideByZero, DivideByZeroMessage))
        else
          var instalment := Payment(d.nextPaymentId, c.totalPrice / Divisor(c) as real, now, contractId, Some(count + 1));
          var contracts := if c.instalmentsQuantity == Some(count + 1) then SetFulfilled(d.contracts, contractId) else d.contracts;
          Success(d.(contracts := contracts, payments := d.payments + [instalment], nextPaymentId := d.nextPaymentId + 1))
      else
        var payment := Payment(d.nextPaymentId, c.totalPrice, now, contractId, None);
        Success(d.(contracts := SetFulfilled(d.contracts, contractId), payments := d.payments + [payment],
                   nextPaymentId := d.nextPaymentId + 1))
  }

  // ---------------------------------------------------------------------------
  // Deleting a contract

  /** The database after DeleteContract: the rows with that id go, and the
      foreign key's cascade takes their payments with them. */
  function DeleteDecision(d: Db, contractId: int): Result<Db> {
    if FindContract(d.contracts, contractId).None? then Failure(Error(NotFound, ContractNotFoundMessage))
    else Success(d.(contracts := ContractsExcept(d.contracts, contractId),
                    payments := PaymentsExcept(d.payments, contractId)))
  }
}
