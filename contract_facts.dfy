/** What the contract engine guarantees: when a purchase is accepted and at
    what price, that payments and the fulfilment flag stay in step, how an
    instalment schedule runs out, and what a deletion removes. */
module ContractFacts {
  import opened Common
  import opened Entities
  import opened Database
  import opened Contracts

  // ---------------------------------------------------------------------------
  // Table lemmas

  lemma {:induction false} PaymentsOfAppend(payments: seq<Payment>, p: Payment, x: int)
    ensures PaymentsOf(payments + [p], x) == PaymentsOf(payments, x) + (if p.contractId == x then [p] else [])
  {
    if payments == [] {
      assert payments + [p] == [p];
    } else {
      assert (payments + [p])[1..] == payments[1..] + [p];
      PaymentsOfAppend(payments[1..], p, x);
    }
  }

  lemma {:induction false} PaymentsOfExcept(payments: seq<Payment>, x: int, y: int)
    requires x != y
    ensures PaymentsOf(PaymentsExcept(payments, x), y) == PaymentsOf(payments, y)
  {
    if payments != [] {
      PaymentsOfExcept(payments[1..], x, y);
      var rest := PaymentsExcept(payments[1..], x);
      if payments[0].contractId != x {
        assert ([payments[0]] + rest)[1..] == rest;
      }
    }
  }

  lemma NoPaymentsOf(payments: seq<Payment>, x: int)
    requires forall p :: p in payments ==> p.contractId != x
    ensures PaymentsOf(payments, x) == []
  {
  }

  lemma {:induction false} ContractsExceptUnique(contracts: seq<Contract>, id: int)
    requires UniqueContractIds(contracts)
    ensures UniqueContractIds(ContractsExcept(contracts, id))
  {
    if contracts != [] {
      var tail := contracts[1..];
      var rest := ContractsExcept(tail, id);
      ContractsExceptUnique(tail, id);
      if contracts[0].id != id {
        var r := [contracts[0]] + rest;
        forall i, j | 0 <= i < j < |r|
          ensures r[i].id != r[j].id
        {
          if i == 0 {
            assert r[j] == rest[j - 1];
            assert r[j] in tail;
            var k :| 0 <= k < |tail| && tail[k] == r[j];
            assert contracts[k + 1] == r[j];
          } else {
            assert r[i] == rest[i - 1] && r[j] == rest[j - 1];
          }
        }
      }
    }
  }

  /** Marking rows fulfilled moves no row: every lookup by id finds the same position. */
  lemma SetFulfilledKeepsPositions(contracts: seq<Contract>, id: int, x: int)
    ensures FindContract(SetFulfilled(contracts, id), x) == FindContract(contracts, x)
  {
  }

  // ---------------------------------------------------------------------------
  // Pricing

  /** The discount used is the largest value among the discounts linked to the
      software that have started by the contract's start, and 0 when none has. */
  lemma BestDiscountIsMaximum(d: Db, softwareId: int, start: int)
    ensures (forall l :: l in d.discountSoftwares ==> !Applies(l, d.discounts, softwareId, start)) ==>
      BestDiscount(d, softwareId, start) == 0.0
    ensures forall l :: l in d.discountSoftwares && Applies(l, d.discounts, softwareId, start) ==>
      LinkedValue(l, d.discounts, softwareId, start) <= BestDiscount(d, softwareId, start)
    ensures (exists l :: l in d.discountSoftwares && Applies(l, d.discounts, softwareId, start)) ==>
      (exists l :: l in d.discountSoftwares && Applies(l, d.discounts, softwareId, start) &&
        LinkedValue(l, d.discounts, softwareId, start) == BestDiscount(d, softwareId, start))
  {
    var vs := ApplicableValues(d.discountSoftwares, d.discounts, softwareId, start);
    if vs != [] {
      assert vs[0] in vs;
    }
  }

  /** With list price and discounts between 0 and 0.95, the price of a
      contract lies between 0 and the undiscounted price. */
  lemma PriceWithinBase(price: real, updateYears: int, best: real, returning: bool)
    requires price >= 0.0 && updateYears >= 1
    requires 0.0 <= best <= 1.0 - ReturningBonus
    ensures 0.0 <= ContractPrice(price, updateYears, DiscountRate(best, returning)) <= BasePrice(price, updateYears)
  {
    var base := BasePrice(price, updateYears);
    var m := 1.0 - DiscountRate(best, returning);
    assert 0.0 <= base && 0.0 <= m <= 1.0;
    assert base * m >= 0.0 * m;
    assert base * (1.0 - m) >= 0.0 * (1.0 - m);
    assert base * m + base * (1.0 - m) == base;
  }

  // ---------------------------------------------------------------------------
  // Creating a contract

  /** `(end - start).Days` in [3, 30] is a window of ticks: at least three
      whole days and less than thirty-one. */
  lemma SpanAcceptedInTicks(start: int, end: int)
    requires start <= end
    ensures SpanAccepted(start, end) <==> 3 * TicksPerDay <= end - start < 31 * TicksPerDay
  {
    var days := WholeDays(end - start);
    if 3 <= days <= 30 {
      assert 3 * TicksPerDay <= days * TicksPerDay;
      assert (days + 1) * TicksPerDay <= 31 * TicksPerDay;
    } else if days < 3 {
      assert (days + 1) * TicksPerDay <= 3 * TicksPerDay;
    } else {
      assert 31 * TicksPerDay <= days * TicksPerDay;
    }
  }

  lemma DaySpanExamples(start: int)
    ensures SpanAccepted(start, start + 19 * TicksPerDay)
    ensures !SpanAccepted(start, start + 58 * TicksPerDay)
    ensures !SpanAccepted(start, start + 3 * TicksPerDay - 1)
    ensures SpanAccepted(start, start + 31 * TicksPerDay - 1)
  {
    SpanAcceptedInTicks(start, start + 19 * TicksPerDay);
    SpanAcceptedInTicks(start, start + 58 * TicksPerDay);
    SpanAcceptedInTicks(start, start + 3 * TicksPerDay - 1);
    SpanAcceptedInTicks(start, start + 31 * TicksPerDay - 1);
  }

  /** No contract of the pair comes before position j. */
  predicate FirstOfPair(contracts: seq<Contract>, j: int, clientId: int, softwareId: int)
    requires 0 <= j <= |contracts|
  {
    forall i :: 0 <= i < j ==> !SamePair(contracts[i], clientId, softwareId)
  }

  /** A purchase is accepted exactly when the client is visible, the software
      exists in the requested version, the dates are ordered and three to
      thirty whole days apart, the first contract recorded for the pair (if
      any) is no longer running, and one to four update years are bought. */
  lemma CreateSucceedsIff(d: Db, clientId: int, softwareId: int, dto: ContractDto, now: int)
    ensures CreateAsWritten(d, clientId, softwareId, dto, now).Success? <==>
      && (exists j :: 0 <= j < |d.clients| && IsVisibleClient(d.clients[j], clientId))
      && (exists s :: s in d.softwares && s.id == softwareId && s.version == dto.softwareVersion)
      && dto.startDate <= dto.endDate
      && 3 * TicksPerDay <= dto.endDate - dto.startDate < 31 * TicksPerDay
      && (forall j :: (0 <= j < |d.contracts| && SamePair(d.contracts[j], clientId, softwareId) &&
                       FirstOfPair(d.contracts, j, clientId, softwareId)) ==> d.contracts[j].endDate <= now)
      && 1 <= dto.updateYears <= 4
  {
    if dto.startDate <= dto.endDate {
      SpanAcceptedInTicks(dto.startDate, dto.endDate);
    }
    var found := FindVisibleClient(d.clients, clientId);
    if found.Some? {
      assert IsVisibleClient(d.clients[found.value], clientId);
    }
    match FirstContractFor(d.contracts, clientId, softwareId)
    case None =>
    case Some(k) =>
      assert FirstOfPair(d.contracts, k, clientId, softwareId);
      forall j | 0 <= j < |d.contracts| && SamePair(d.contracts[j], clientId, softwareId) &&
          FirstOfPair(d.contracts, j, clientId, softwareId)
        ensures j == k
      {
      }
  }

  /** The contract a successful purchase inserts: the next id, the requested
      client, software, dates and update years, the software's version, not
      fulfilled, and the quantity only for an instalment contract. */
  lemma CreatedContract(d: Db, clientId: int, softwareId: int, dto: ContractDto, now: int)
    requires CreateAsWritten(d, clientId, softwareId, dto, now).Success?
    ensures var c := CreateAsWritten(d, clientId, softwareId, dto, now).value;
      && c.id == d.nextContractId
      && c.clientId == clientId && c.softwareId == softwareId
      && c.startDate == dto.startDate && c.endDate == dto.endDate
      && c.updateYears == dto.updateYears && c.softwareVersion == dto.softwareVersion
      && !c.isFulfilled && c.isInstalment == dto.isInstalment
      && c.instalmentsQuantity == (if dto.isInstalment then dto.instalmentNumber else None)
  {
    var s := FindSoftware(d.softwares, softwareId, dto.softwareVersion).value;
    var rate := DiscountRate(BestDiscount(d, softwareId, dto.startDate), FirstPriorState(d.contracts, clientId, softwareId, now).returning);
    assert CreateAsWritten(d, clientId, softwareId, dto, now).value == NewContract(d.nextContractId, clientId, softwareId, s, dto, rate);
  }

  /** The client has had a contract for that software. */
  predicate BoughtBefore(contracts: seq<Contract>, clientId: int, softwareId: int) {
    exists j :: 0 <= j < |contracts| && SamePair(contracts[j], clientId, softwareId)
  }

  /** The price of the inserted contract, whichever check judged the prior
      contracts: the list price of the software in the requested version
      plus 1000 per extra update year, discounted by the best discount, and
      by the bonus on top for a returning client. */
  lemma CreatedContractPrice(d: Db, clientId: int, softwareId: int, dto: ContractDto, prior: PriorState)
    requires ContractDecision(d, clientId, softwareId, dto, prior).Success?
    ensures exists s :: (s in d.softwares && s.id == softwareId && s.version == dto.softwareVersion &&
      ContractDecision(d, clientId, softwareId, dto, prior).value.totalPrice ==
        (s.price + ((dto.updateYears - 1) * 1000) as real) *
        (1.0 - BestDiscount(d, softwareId, dto.startDate) - (if prior.returning then ReturningBonus else 0.0)))
  {
    var s := FindSoftware(d.softwares, softwareId, dto.softwareVersion).value;
    var best := BestDiscount(d, softwareId, dto.startDate);
    assert ContractDecision(d, clientId, softwareId, dto, prior).value ==
      NewContract(d.nextContractId, clientId, softwareId, s, dto, DiscountRate(best, prior.returning));
    DiscountedPrice(s.price, dto.updateYears, best, prior.returning);
  }

  /** As written, the client counts as returning exactly when it has had a
      contract for that software before, as the business rule says. */
  lemma ReturningIffBoughtBefore(contracts: seq<Contract>, clientId: int, softwareId: int, now: int)
    ensures FirstPriorState(contracts, clientId, softwareId, now).returning <==> BoughtBefore(contracts, clientId, softwareId)
    ensures AnyPriorState(contracts, clientId, softwareId, now).returning <==> BoughtBefore(contracts, clientId, softwareId)
  {
    match FirstContractFor(contracts, clientId, softwareId)
    case None =>
    case Some(k) =>
      assert SamePair(contracts[k], clientId, softwareId);
  }

  /** The price at a discount rate, written out: base price times one minus
      the discount and the bonus. */
  lemma DiscountedPrice(price: real, updateYears: int, best: real, returning: bool)
    ensures ContractPrice(price, updateYears, DiscountRate(best, returning)) ==
      (price + ((updateYears - 1) * 1000) as real) * (1.0 - best - (if returning then ReturningBonus else 0.0))
  {
    var bonus := if returning then ReturningBonus else 0.0;
    assert 1.0 - DiscountRate(best, returning) == 1.0 - best - bonus;
  }

  /** A client's first purchase of a software blocks buying it again while
      the new contract still runs: the new contract is then the first of the
      pair, the one the check inspects. */
  lemma SecondPurchaseWhileActiveConflicts(d: Db, clientId: int, softwareId: int, dto: ContractDto, now: int, later: int)
    requires CreateAsWritten(d, clientId, softwareId, dto, now).Success?
    requires forall j :: 0 <= j < |d.contracts| ==> !SamePair(d.contracts[j], clientId, softwareId)
    requires later < dto.endDate
    ensures CreateAsWritten(InsertContract(d, CreateAsWritten(d, clientId, softwareId, dto, now).value), clientId, softwareId, dto, later)
      == Failure(Error(Conflict, ContractExistsMessage))
  {
    var c := CreateAsWritten(d, clientId, softwareId, dto, now).value;
    var d1 := InsertContract(d, c);
    assert FindVisibleClient(d1.clients, clientId).Some?;
    assert d1.contracts[|d.contracts|] == c;
    assert SamePair(d1.contracts[|d.contracts|], clientId, softwareId);
    assert FirstContractFor(d1.contracts, clientId, softwareId) == Some(|d.contracts|);
  }

  /** With the corrected check, any purchase of the pair while an accepted
      contract still runs is a Conflict, whatever was bought before. */
  lemma CorrectedRepurchaseConflicts(d: Db, clientId: int, softwareId: int, dto: ContractDto, now: int, later: int)
    requires CreateDecision(d, clientId, softwareId, dto, now).Success?
    requires later < dto.endDate
    ensures CreateDecision(InsertContract(d, CreateDecision(d, clientId, softwareId, dto, now).value), clientId, softwareId, dto, later)
      == Failure(Error(Conflict, ContractExistsMessage))
  {
    var c := CreateDecision(d, clientId, softwareId, dto, now).value;
    var d1 := InsertContract(d, c);
    assert FindVisibleClient(d1.clients, clientId).Some?;
    assert d1.contracts[|d.contracts|] == c;
    assert SamePair(d1.contracts[|d.contracts|], clientId, softwareId) && IsActive(d1.contracts[|d.contracts|], later);
  }

  // ---------------------------------------------------------------------------
  // Concrete prices

  const Buyer: Client := Client(1, "123 Main St", "john.doe@example.pl", "123456789", None,
                                PersonDetails("John", "Doe", "92030412346"))
  const Office: Software := Software(1, "OfficePro", "Pakiet biurowy", 2025.1, "Biurowe", 500.0)
  const TwoYears: ContractDto := ContractDto(0, 19 * TicksPerDay, 2, 2025.1, false, None)

  /** The contract of a first-time buyer with an expired earlier contract or
      not, and a discount row whose value is `value`. */
  function Catalogue(value: real, earlier: seq<Contract>): Db {
    Db([Buyer], [Office], [Discount(1, "Summer", "", value, 0, 40 * TicksPerDay)], [DiscountLink(1, 1)],
       earlier, [], 2, 2, 1)
  }

  const Expired: Contract := Contract(1, -20 * TicksPerDay, -10 * TicksPerDay, 500.0, 1, 2025.1, false, None, true, 1, 1)

  /** In the catalogue, buying two update years of OfficePro succeeds with the
      catalogue's discount value as the best discount, plus the bonus when
      the buyer has an earlier, finished contract. */
  lemma CataloguePurchase(value: real, earlier: seq<Contract>)
    requires forall c :: c in earlier ==> SamePair(c, 1, 1) && !IsActive(c, 0)
    ensures CreateAsWritten(Catalogue(value, earlier), 1, 1, TwoYears, 0) ==
      Success(NewContract(2, 1, 1, Office, TwoYears, DiscountRate(value, earlier != [])))
  {
    var d := Catalogue(value, earlier);
    DaySpanExamples(0);
    assert FindDiscount(d.discounts, 1) == Some(d.discounts[0]);
    assert Applies(d.discountSoftwares[0], d.discounts, 1, 0);
    assert ApplicableValues(d.discountSoftwares, d.discounts, 1, 0) == [value];
    assert FindVisibleClient([Buyer], 1) == Some(0);
    assert FindSoftware([Office], 1, 2025.1) == Some(Office);
    if earlier != [] {
      assert earlier[0] in earlier;
      assert SamePair(d.contracts[0], 1, 1);
    }
    assert !FirstPriorState(earlier, 1, 1, 0).blocked;
  }

  /** Price 500 and two update years cost 1500 for a first-time buyer. */
  lemma FirstPurchasePrice()
    ensures CreateAsWritten(Catalogue(0.0, []), 1, 1, TwoYears, 0).Success?
    ensures CreateAsWritten(Catalogue(0.0, []), 1, 1, TwoYears, 0).value.totalPrice == 1500.0
  {
    CataloguePurchase(0.0, []);
  }

  /** A 10% discount together with the returning-client bonus brings 1500
      down to 1275. */
  lemma ReturningPurchasePrice()
    ensures CreateAsWritten(Catalogue(0.10, [Expired]), 1, 1, TwoYears, 0).Success?
    ensures CreateAsWritten(Catalogue(0.10, [Expired]), 1, 1, TwoYears, 0).value.totalPrice == 1275.0
  {
    CataloguePurchase(0.10, [Expired]);
  }

  /** The bonus is not capped: a full discount plus the bonus makes the
      price negative. */
  lemma UncappedDiscountPrice()
    ensures CreateAsWritten(Catalogue(1.0, [Expired]), 1, 1, TwoYears, 0).Success?
    ensures CreateAsWritten(Catalogue(1.0, [Expired]), 1, 1, TwoYears, 0).value.totalPrice == -75.0
  {
    CataloguePurchase(1.0, [Expired]);
  }

  // ---------------------------------------------------------------------------
  // Keeping the tables consistent

  /** Appending a contract under the next id whose client and software exist
      and which starts out consistent keeps the database consistent. */
  lemma InsertKeepsConsistency(d: Db, c: Contract)
    requires WellFormed(d) && LedgerConsistent(d)
    requires c.id == d.nextContractId
    requires HasClient(d.clients, c.clientId) && HasSoftware(d.softwares, c.softwareId)
    requires ContractLedgerConsistent(c, 0)
    ensures WellFormed(InsertContract(d, c))
    ensures LedgerConsistent(InsertContract(d, c))
  {
    InsertKeepsWellFormed(d, c);
    InsertKeepsLedger(d, c);
  }

  lemma InsertKeepsWellFormed(d: Db, c: Contract)
    requires WellFormed(d)
    requires c.id == d.nextContractId
    requires HasClient(d.clients, c.clientId) && HasSoftware(d.softwares, c.softwareId)
    ensures WellFormed(InsertContract(d, c))
  {
    var after := InsertContract(d, c);
    forall i | 0 <= i < |after.payments|
      ensures HasContract(after.contracts, after.payments[i].contractId)
    {
      assert after.payments[i] == d.payments[i];
      assert HasContract(d.contracts, d.payments[i].contractId);
      var j :| 0 <= j < |d.contracts| && d.contracts[j].id == d.payments[i].contractId;
      assert after.contracts[j] == d.contracts[j];
    }
    assert after.contracts[|d.contracts|] == c;
  }

  lemma InsertKeepsLedger(d: Db, c: Contract)
    requires WellFormed(d) && LedgerConsistent(d)
    requires c.id == d.nextContractId
    requires ContractLedgerConsistent(c, 0)
    ensures LedgerConsistent(InsertContract(d, c))
  {
    var after := InsertContract(d, c);
    forall p | p in d.payments
      ensures p.contractId != c.id
    {
      var i :| 0 <= i < |d.payments| && d.payments[i] == p;
      assert HasContract(d.contracts, p.contractId);
      var j :| 0 <= j < |d.contracts| && d.contracts[j].id == p.contractId;
    }
    NoPaymentsOf(d.payments, c.id);
    assert after.contracts[|d.contracts|] == c;
  }

  /** Inserting an accepted contract keeps the keys, references and ledger
      intact, whichever prior-contract check accepted it. */
  lemma CreateKeepsConsistency(d: Db, clientId: int, softwareId: int, dto: ContractDto, prior: PriorState)
    requires WellFormed(d) && LedgerConsistent(d)
    requires ContractDecision(d, clientId, softwareId, dto, prior).Success?
    ensures WellFormed(InsertContract(d, ContractDecision(d, clientId, softwareId, dto, prior).value))
    ensures LedgerConsistent(InsertContract(d, ContractDecision(d, clientId, softwareId, dto, prior).value))
  {
    var c := ContractDecision(d, clientId, softwareId, dto, prior).value;
    var ci := FindVisibleClient(d.clients, clientId).value;
    var s := FindSoftware(d.softwares, softwareId, dto.softwareVersion).value;
    var si :| 0 <= si < |d.softwares| && d.softwares[si] == s;
    assert c.clientId == clientId && c.softwareId == softwareId && !c.isFulfilled;
    assert HasClient(d.clients, c.clientId) by { assert d.clients[ci].id == clientId; }
    assert HasSoftware(d.softwares, c.softwareId) by { assert d.softwares[si].id == softwareId; }
    InsertKeepsConsistency(d, c);
  }

  /** Recording a payment for an existing contract, while at most the flags
      of the contract rows change, keeps the keys and references intact. */
  lemma PaymentKeepsWellFormed(d: Db, contracts: seq<Contract>, p: Payment)
    requires WellFormed(d)
    requires |contracts| == |d.contracts|
    requires forall i :: 0 <= i < |contracts| ==> contracts[i].(isFulfilled := d.contracts[i].isFulfilled) == d.contracts[i]
    requires p.id == d.nextPaymentId && HasContract(d.contracts, p.contractId)
    ensures WellFormed(d.(contracts := contracts, payments := d.payments + [p], nextPaymentId := d.nextPaymentId + 1))
  {
    var after := d.(contracts := contracts, payments := d.payments + [p], nextPaymentId := d.nextPaymentId + 1);
    forall i | 0 <= i < |contracts|
      ensures contracts[i].id == d.contracts[i].id
      ensures contracts[i].clientId == d.contracts[i].clientId
      ensures contracts[i].softwareId == d.contracts[i].softwareId
    {
      assert contracts[i].(isFulfilled := d.contracts[i].isFulfilled) == d.contracts[i];
    }
    forall i | 0 <= i < |after.payments|
      ensures HasContract(contracts, after.payments[i].contractId)
    {
      assert HasContract(d.contracts, after.payments[i].contractId);
      var j :| 0 <= j < |d.contracts| && d.contracts[j].id == after.payments[i].contractId;
      assert contracts[j].id == d.contracts[j].id;
    }
  }

  /** Recording a payment for contract row k keeps the ledger when row k is
      consistent with one more payment and no other row changes. */
  lemma PaymentKeepsLedger(d: Db, contracts: seq<Contract>, p: Payment, k: nat)
    requires UniqueContractIds(d.contracts) && LedgerConsistent(d)
    requires |contracts| == |d.contracts| && k < |contracts|
    requires d.contracts[k].id == p.contractId && contracts[k].id == p.contractId
    requires forall i :: 0 <= i < |contracts| && i != k ==> contracts[i] == d.contracts[i]
    requires ContractLedgerConsistent(contracts[k], PaymentCount(d.payments, p.contractId) + 1)
    ensures LedgerConsistent(d.(contracts := contracts, payments := d.payments + [p], nextPaymentId := d.nextPaymentId + 1))
  {
    forall x
      ensures PaymentCount(d.payments + [p], x) == PaymentCount(d.payments, x) + (if x == p.contractId then 1 else 0)
    {
      PaymentsOfAppend(d.payments, p, x);
    }
    forall i | 0 <= i < |contracts| && i != k
      ensures contracts[i].id != p.contractId
    {
      if i < k { assert d.contracts[i].id != d.contracts[k].id; }
      else { assert d.contracts[k].id != d.contracts[i].id; }
    }
  }

  /** A successful payment keeps the keys, references and ledger intact. */
  lemma PayKeepsConsistency(d: Db, contractId: int, now: int)
    requires WellFormed(d) && LedgerConsistent(d)
    requires PayDecision(d, contractId, now).Success?
    ensures WellFormed(PayDecision(d, contractId, now).value)
    ensures LedgerConsistent(PayDecision(d, contractId, now).value)
  {
    PayKeepsWellFormed(d, contractId, now);
    PayKeepsLedger(d, contractId, now);
  }

  lemma PayKeepsWellFormed(d: Db, contractId: int, now: int)
    requires WellFormed(d)
    requires PayDecision(d, contractId, now).Success?
    ensures WellFormed(PayDecision(d, contractId, now).value)
  {
    var after := PayDecision(d, contractId, now).value;
    var p := after.payments[|d.payments|];
    assert after == d.(contracts := after.contracts, payments := d.payments + [p], nextPaymentId := d.nextPaymentId + 1);
    assert HasContract(d.contracts, p.contractId);
    PaymentKeepsWellFormed(d, after.contracts, p);
  }

  lemma PayKeepsLedger(d: Db, contractId: int, now: int)
    requires UniqueContractIds(d.contracts) && LedgerConsistent(d)
    requires PayDecision(d, contractId, now).Success?
    ensures LedgerConsistent(PayDecision(d, contractId, now).value)
  {
    var k := FindContract(d.contracts, contractId).value;
    var c := d.contracts[k];
    var after := PayDecision(d, contractId, now).value;
    var p := after.payments[|d.payments|];
    assert after == d.(contracts := after.contracts, payments := d.payments + [p], nextPaymentId := d.nextPaymentId + 1);
    assert ContractLedgerConsistent(c, PaymentCount(d.payments, contractId));
    if after.contracts != d.contracts {
      assert after.contracts == SetFulfilled(d.contracts, contractId);
      forall i | 0 <= i < |d.contracts| && i != k
        ensures after.contracts[i] == d.contracts[i]
      {
        if i < k { assert d.contracts[i].id != d.contracts[k].id; }
        else { assert d.contracts[k].id != d.contracts[i].id; }
      }
    }
    PaymentKeepsLedger(d, after.contracts, p, k);
  }

  /** A deletion keeps the keys, references and ledger of what remains intact. */
  lemma DeleteKeepsConsistency(d: Db, contractId: int)
    requires WellFormed(d) && LedgerConsistent(d)
    requires DeleteDecision(d, contractId).Success?
    ensures WellFormed(DeleteDecision(d, contractId).value)
    ensures LedgerConsistent(DeleteDecision(d, contractId).value)
  {
    DeleteKeepsWellFormed(d, contractId);
    DeleteKeepsLedger(d, contractId);
  }

  lemma DeleteKeepsWellFormed(d: Db, contractId: int)
    requires WellFormed(d)
    requires DeleteDecision(d, contractId).Success?
    ensures WellFormed(DeleteDecision(d, contractId).value)
  {
    var after := DeleteDecision(d, contractId).value;
    ContractsExceptUnique(d.contracts, contractId);
    forall i | 0 <= i < |after.contracts|
      ensures after.contracts[i].id < after.nextContractId
      ensures HasClient(after.clients, after.contracts[i].clientId)
      ensures HasSoftware(after.softwares, after.contracts[i].softwareId)
    {
      var c := after.contracts[i];
      assert c in after.contracts;
      var j :| 0 <= j < |d.contracts| && d.contracts[j] == c;
    }
    forall i | 0 <= i < |after.payments|
      ensures after.payments[i].id < after.nextPaymentId
      ensures HasContract(after.contracts, after.payments[i].contractId)
    {
      var p := after.payments[i];
      assert p in after.payments;
      var j :| 0 <= j < |d.payments| && d.payments[j] == p;
      assert HasContract(d.contracts, p.contractId);
      var m :| 0 <= m < |d.contracts| && d.contracts[m].id == p.contractId;
      assert d.contracts[m] in after.contracts;
    }
  }

  lemma DeleteKeepsLedger(d: Db, contractId: int)
    requires LedgerConsistent(d)
    requires DeleteDecision(d, contractId).Success?
    ensures LedgerConsistent(DeleteDecision(d, contractId).value)
  {
    var after := DeleteDecision(d, contractId).value;
    forall i | 0 <= i < |after.contracts|
      ensures ContractLedgerConsistent(after.contracts[i], PaymentCount(after.payments, after.contracts[i].id))
    {
      var c := after.contracts[i];
      assert c in after.contracts;
      var j :| 0 <= j < |d.contracts| && d.contracts[j] == c;
      PaymentsOfExcept(d.payments, contractId, c.id);
    }
  }

  /** On a consistent ledger a payment never divides by zero: a quantity of 0
      already counts as paid. */
  lemma NoDivisionByZero(d: Db, contractId: int, now: int)
    requires LedgerConsistent(d)
    ensures PayDecision(d, contractId, now).Failure? ==> PayDecision(d, contractId, now).error.kind != DivideByZero
  {
    match FindContract(d.contracts, contractId)
    case None =>
    case Some(k) =>
      assert ContractLedgerConsistent(d.contracts[k], PaymentCount(d.payments, contractId));
  }

  /** A contract with quantity 0 that already has a payment (a ledger the
      service never produces) makes PayContract divide by zero. */
  lemma DivisionByZeroOnBrokenLedger()
    ensures var c := Contract(1, 0, TicksPerDay, 100.0, 1, 1.0, true, Some(0), false, 1, 1);
      var d := Db([Buyer], [Office], [], [], [c], [Payment(1, 100.0, 0, 1, Some(1))], 2, 2, 2);
      PayDecision(d, 1, 0) == Failure(Error(DivideByZero, DivideByZeroMessage))
  {
  }

  // ---------------------------------------------------------------------------
  // Payment schedules

  /** The database after `times` calls of PayContract, or the first exception. */
  function PayTimes(d: Db, contractId: int, now: int, times: nat): Result<Db> {
    if times == 0 then Success(d)
    else
      match PayTimes(d, contractId, now, times - 1)
      case Failure(e) => Failure(e)
      case Success(d1) => PayDecision(d1, contractId, now)
  }

  /** Payments numbered 1, 2, ... in order, each of the given price. */
  predicate InstalmentSchedule(ps: seq<Payment>, price: real) {
    forall j :: 0 <= j < |ps| ==> ps[j].instalmentNumber == Some(j + 1) && ps[j].price == price
  }

  /** Paying an unpaid running instalment contract of quantity n: the k-th
      payment (k <= n) is instalment number k of a price total/n, the
      contract stays where it is and is fulfilled exactly after the n-th. */
  lemma {:induction false} InstalmentPayments(d: Db, contractId: int, now: int, k: nat, n: int, times: nat)
    requires FindContract(d.contracts, contractId) == Some(k)
    requires d.contracts[k].isInstalment && !d.contracts[k].isFulfilled
    requires d.contracts[k].instalmentsQuantity == Some(n) && n >= 1
    requires now <= d.contracts[k].endDate
    requires PaymentCount(d.payments, contractId) == 0
    requires times <= n
    ensures PayTimes(d, contractId, now, times).Success?
    ensures var after := PayTimes(d, contractId, now, times).value;
      && FindContract(after.contracts, contractId) == Some(k)
      && after.contracts[k] == d.contracts[k].(isFulfilled := times == n)
      && |PaymentsOf(after.payments, contractId)| == times
      && InstalmentSchedule(PaymentsOf(after.payments, contractId), d.contracts[k].totalPrice / n as real)
  {
    if times > 0 {
      var m := times - 1;
      InstalmentPayments(d, contractId, now, k, n, m);
      var before := PayTimes(d, contractId, now, m).value;
      InstalmentNext(d.contracts[k], before, contractId, now, k, n, m);
      assert PayTimes(d, contractId, now, times) == PayDecision(before, contractId, now);
    }
  }

  /** The inductive step of InstalmentPayments: after m < n instalments of
      contract row c, the next payment is instalment m + 1. */
  lemma InstalmentNext(c: Contract, before: Db, contractId: int, now: int, k: nat, n: int, m: nat)
    requires c.isInstalment && !c.isFulfilled && c.instalmentsQuantity == Some(n) && m < n
    requires now <= c.endDate
    requires FindContract(before.contracts, contractId) == Some(k)
    requires before.contracts[k] == c.(isFulfilled := m == n)
    requires |PaymentsOf(before.payments, contractId)| == m
    requires InstalmentSchedule(PaymentsOf(before.payments, contractId), c.totalPrice / n as real)
    ensures PayDecision(before, contractId, now).Success?
    ensures var after := PayDecision(before, contractId, now).value;
      && FindContract(after.contracts, contractId) == Some(k)
      && after.contracts[k] == c.(isFulfilled := m + 1 == n)
      && |PaymentsOf(after.payments, contractId)| == m + 1
      && InstalmentSchedule(PaymentsOf(after.payments, contractId), c.totalPrice / n as real)
  {
    var price := c.totalPrice / n as real;
    var p := Payment(before.nextPaymentId, price, now, contractId, Some(m + 1));
    var after := PayDecision(before, contractId, now).value;
    assert after.payments == before.payments + [p];
    PaymentsOfAppend(before.payments, p, contractId);
    SetFulfilledKeepsPositions(before.contracts, contractId, contractId);
    ScheduleAppend(PaymentsOf(before.payments, contractId), p, price);
  }

  lemma ScheduleAppend(ps: seq<Payment>, p: Payment, price: real)
    requires InstalmentSchedule(ps, price)
    requires p.instalmentNumber == Some(|ps| + 1) && p.price == price
    ensures InstalmentSchedule(ps + [p], price)
  {
    forall j | 0 <= j < |ps + [p]|
      ensures (ps + [p])[j].instalmentNumber == Some(j + 1) && (ps + [p])[j].price == price
    {
      if j < |ps| {
        assert (ps + [p])[j] == ps[j];
      }
    }
  }

  /** One payment of a running instalment contract that is not yet paid off:
      it appends instalment count+1 of total/n and flags the contract exactly
      when that was the last one. */
  lemma InstalmentStep(d: Db, contractId: int, now: int, k: nat, n: int)
    requires FindContract(d.contracts, contractId) == Some(k)
    requires d.contracts[k].isInstalment && d.contracts[k].instalmentsQuantity == Some(n) && n >= 1
    requires now <= d.contracts[k].endDate
    requires PaymentCount(d.payments, contractId) < n
    ensures PayDecision(d, contractId, now).Success?
    ensures var after := PayDecision(d, contractId, now).value;
      var count := PaymentCount(d.payments, contractId);
      && FindContract(after.contracts, contractId) == Some(k)
      && after.contracts[k] == d.contracts[k].(isFulfilled := d.contracts[k].isFulfilled || count + 1 == n)
      && PaymentsOf(after.payments, contractId) ==
           PaymentsOf(d.payments, contractId) + [Payment(d.nextPaymentId, d.contracts[k].totalPrice / n as real, now, contractId, Some(count + 1))]
  {
    var count := PaymentCount(d.payments, contractId);
    var p := Payment(d.nextPaymentId, d.contracts[k].totalPrice / n as real, now, contractId, Some(count + 1));
    var after := PayDecision(d, contractId, now).value;
    assert after.payments == d.payments + [p];
    PaymentsOfAppend(d.payments, p, contractId);
    SetFulfilledKeepsPositions(d.contracts, contractId, contractId);
  }

  /** Once all n instalments are paid, a further payment is a Conflict. */
  lemma InstalmentOverpaymentConflicts(d: Db, contractId: int, now: int, k: nat, n: int)
    requires FindContract(d.contracts, contractId) == Some(k)
    requires d.contracts[k].isInstalment && !d.contracts[k].isFulfilled
    requires d.contracts[k].instalmentsQuantity == Some(n) && n >= 1
    requires now <= d.contracts[k].endDate
    requires PaymentCount(d.payments, contractId) == 0
    ensures PayTimes(d, contractId, now, n + 1) == Failure(Error(Conflict, AlreadyPaidMessage))
  {
    InstalmentPayments(d, contractId, now, k, n, n);
  }

  /** A running lump-sum contract accepts any number of payments, each of the
      full price, and is fulfilled from the first one on. */
  lemma {:induction false} LumpSumPayments(d: Db, contractId: int, now: int, k: nat, times: nat)
    requires FindContract(d.contracts, contractId) == Some(k)
    requires !d.contracts[k].isInstalment
    requires now <= d.contracts[k].endDate
    ensures PayTimes(d, contractId, now, times).Success?
    ensures var after := PayTimes(d, contractId, now, times).value;
      && FindContract(after.contracts, contractId) == Some(k)
      && after.contracts[k] == d.contracts[k].(isFulfilled := d.contracts[k].isFulfilled || times > 0)
      && PaymentCount(after.payments, contractId) == PaymentCount(d.payments, contractId) + times
      && LumpSumTail(PaymentsOf(after.payments, contractId), PaymentCount(d.payments, contractId), d.contracts[k].totalPrice)
  {
    if times > 0 {
      var m := times - 1;
      LumpSumPayments(d, contractId, now, k, m);
      var before := PayTimes(d, contractId, now, m).value;
      LumpSumNext(d.contracts[k], before, contractId, now, k, PaymentCount(d.payments, contractId), m);
      assert PayTimes(d, contractId, now, times) == PayDecision(before, contractId, now);
    }
  }

  /** Payments from position `from` on, each of the full price and without an instalment number. */
  predicate LumpSumTail(ps: seq<Payment>, from: nat, price: real) {
    forall j :: from <= j < |ps| ==> ps[j].price == price && ps[j].instalmentNumber.None?
  }

  /** The inductive step of LumpSumPayments: one more payment of lump-sum contract row c. */
  lemma LumpSumNext(c: Contract, before: Db, contractId: int, now: int, k: nat, from: nat, m: nat)
    requires !c.isInstalment && now <= c.endDate
    requires FindContract(before.contracts, contractId) == Some(k)
    requires before.contracts[k] == c.(isFulfilled := c.isFulfilled || m > 0)
    requires PaymentCount(before.payments, contractId) == from + m
    requires LumpSumTail(PaymentsOf(before.payments, contractId), from, c.totalPrice)
    ensures PayDecision(before, contractId, now).Success?
    ensures var after := PayDecision(before, contractId, now).value;
      && FindContract(after.contracts, contractId) == Some(k)
      && after.contracts[k] == c.(isFulfilled := true)
      && PaymentCount(after.payments, contractId) == from + m + 1
      && LumpSumTail(PaymentsOf(after.payments, contractId), from, c.totalPrice)
  {
    var after := PayDecision(before, contractId, now).value;
    var p := after.payments[|before.payments|];
    assert after.payments == before.payments + [p];
    PaymentsOfAppend(before.payments, p, contractId);
    SetFulfilledKeepsPositions(before.contracts, contractId, contractId);
    var ps := PaymentsOf(before.payments, contractId);
    forall j | from <= j < |ps + [p]|
      ensures (ps + [p])[j].price == c.totalPrice && (ps + [p])[j].instalmentNumber.None?
    {
      if j < |ps| {
        assert (ps + [p])[j] == ps[j];
      }
    }
  }

  // ---------------------------------------------------------------------------
  // Deleting a contract

  /** A deletion removes every row with that id and exactly their payments;
      afterwards paying or deleting it again is NotFound. */
  lemma DeleteRemovesContract(d: Db, contractId: int, now: int)
    requires DeleteDecision(d, contractId).Success?
    ensures var after := DeleteDecision(d, contractId).value;
      && !HasContract(after.contracts, contractId)
      && (forall c :: c in d.contracts && c.id != contractId ==> c in after.contracts)
      && PaymentsOf(after.payments, contractId) == []
      && (forall x :: x != contractId ==> PaymentsOf(after.payments, x) == PaymentsOf(d.payments, x))
      && PayDecision(after, contractId, now) == Failure(Error(NotFound, ContractNotFoundMessage))
      && DeleteDecision(after, contractId) == Failure(Error(NotFound, ContractNotFoundMessage))
  {
    var after := DeleteDecision(d, contractId).value;
    forall j | 0 <= j < |after.contracts|
      ensures after.contracts[j].id != contractId
    {
      assert after.contracts[j] in after.contracts;
    }
    NoPaymentsOf(after.payments, contractId);
    forall x | x != contractId
      ensures PaymentsOf(after.payments, x) == PaymentsOf(d.payments, x)
    {
      PaymentsOfExcept(d.payments, contractId, x);
    }
  }

  // ---------------------------------------------------------------------------
  // One running contract per client and software

  /** No two contracts of the same client and software both run at `now`. */
  predicate AtMostOneActive(contracts: seq<Contract>, now: int) {
    forall i, j :: 0 <= i < j < |contracts| && SamePair(contracts[i], contracts[j].clientId, contracts[j].softwareId) ==>
      !(IsActive(contracts[i], now) && IsActive(contracts[j], now))
  }

  /** With the corrected check, an accepted purchase never gives a client a
      second running contract for the same software. */
  lemma CreateKeepsOneActive(d: Db, clientId: int, softwareId: int, dto: ContractDto, now: int)
    requires AtMostOneActive(d.contracts, now)
    requires CreateDecision(d, clientId, softwareId, dto, now).Success?
    ensures AtMostOneActive(InsertContract(d, CreateDecision(d, clientId, softwareId, dto, now).value).contracts, now)
  {
    var c := CreateDecision(d, clientId, softwareId, dto, now).value;
    var cs := InsertContract(d, c).contracts;
    assert c.clientId == clientId && c.softwareId == softwareId;
    forall i, j | 0 <= i < j < |cs| && SamePair(cs[i], cs[j].clientId, cs[j].softwareId)
      ensures !(IsActive(cs[i], now) && IsActive(cs[j], now))
    {
      if j == |d.contracts| {
        assert cs[i] == d.contracts[i];
      } else {
        assert cs[i] == d.contracts[i] && cs[j] == d.contracts[j];
      }
    }
  }

  /** Wherever the corrected check accepts a purchase, the check as written
      accepts it too and inserts the same contract. */
  lemma CorrectedCheckIsStricter(d: Db, clientId: int, softwareId: int, dto: ContractDto, now: int)
    requires CreateDecision(d, clientId, softwareId, dto, now).Success?
    ensures CreateAsWritten(d, clientId, softwareId, dto, now) == CreateDecision(d, clientId, softwareId, dto, now)
  {
    match FirstContractFor(d.contracts, clientId, softwareId)
    case None =>
    case Some(k) =>
      assert SamePair(d.contracts[k], clientId, softwareId);
  }

  const FirstTerm: ContractDto := ContractDto(0, 10 * TicksPerDay, 1, 2025.1, false, None)
  const SecondTerm: ContractDto := ContractDto(20 * TicksPerDay, 30 * TicksPerDay, 1, 2025.1, false, None)
  const ThirdTerm: ContractDto := ContractDto(21 * TicksPerDay, 31 * TicksPerDay, 1, 2025.1, false, None)

  /** As written, a client buys a licence, renews it after it expired, and
      then buys it once more while the renewal still runs: the first,
      expired contract is the only one inspected, so the third purchase is
      accepted and two contracts run side by side. The corrected check
      rejects that purchase. */
  lemma AsWrittenAllowsTwoActive()
    ensures CreateAsWritten(Catalogue(0.0, []), 1, 1, FirstTerm, 0).Success?
    ensures var d1 := InsertContract(Catalogue(0.0, []), CreateAsWritten(Catalogue(0.0, []), 1, 1, FirstTerm, 0).value);
      && CreateAsWritten(d1, 1, 1, SecondTerm, 20 * TicksPerDay).Success?
      && (var d2 := InsertContract(d1, CreateAsWritten(d1, 1, 1, SecondTerm, 20 * TicksPerDay).value);
          && AtMostOneActive(d2.contracts, 21 * TicksPerDay)
          && CreateAsWritten(d2, 1, 1, ThirdTerm, 21 * TicksPerDay).Success?
          && !AtMostOneActive(InsertContract(d2, CreateAsWritten(d2, 1, 1, ThirdTerm, 21 * TicksPerDay).value).contracts, 21 * TicksPerDay)
          && CreateDecision(d2, 1, 1, ThirdTerm, 21 * TicksPerDay) == Failure(Error(Conflict, ContractExistsMessage)))
  {
    var d0 := Catalogue(0.0, []);
    assert FindVisibleClient(d0.clients, 1) == Some(0);
    assert FindSoftware(d0.softwares, 1, 2025.1) == Some(Office);
    SpanAcceptedInTicks(0, 10 * TicksPerDay);
    SpanAcceptedInTicks(20 * TicksPerDay, 30 * TicksPerDay);
    SpanAcceptedInTicks(21 * TicksPerDay, 31 * TicksPerDay);
    var c1 := CreateAsWritten(d0, 1, 1, FirstTerm, 0).value;
    var d1 := InsertContract(d0, c1);
    assert FirstContractFor(d1.contracts, 1, 1) == Some(0);
    var c2 := CreateAsWritten(d1, 1, 1, SecondTerm, 20 * TicksPerDay).value;
    var d2 := InsertContract(d1, c2);
    assert d2.contracts == [c1, c2];
    assert FirstContractFor(d2.contracts, 1, 1) == Some(0);
    var c3 := CreateAsWritten(d2, 1, 1, ThirdTerm, 21 * TicksPerDay).value;
    var cs := InsertContract(d2, c3).contracts;
    assert cs[1] == c2 && cs[2] == c3;
    assert SamePair(d2.contracts[1], 1, 1) && IsActive(d2.contracts[1], 21 * TicksPerDay);
  }
}
