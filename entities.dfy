/** Rows of the licensing database and the request records the services take.
    Dates are tick counts, money and versions are exact decimals (`real`). */
module Entities {
  import opened Common

  /** The Person/Company subtypes of the abstract Client, as a tagged variant. */
  datatype ClientDetails =
    | PersonDetails(firstName: string, lastName: string, pesel: string)
    | CompanyDetails(companyName: string, krs: string)

  datatype Client = Client(
    id: int,
    address: string,
    email: string,
    phoneNumber: string,
    deletionDate: Option<int>,
    details: ClientDetails)
  {
    /** The global query filter on clients: rows with a deletion date are hidden. */
    predicate Visible() {
      deletionDate.None?
    }
  }

  datatype Software = Software(
    id: int,
    name: string,
    description: string,
    version: real,
    category: string,
    price: real)

  datatype Discount = Discount(
    id: int,
    name: string,
    description: string,
    value: real,
    fromDate: int,
    toDate: int)

  /** A row of the Discount-Software join table. */
  datatype DiscountLink = DiscountLink(softwareId: int, discountId: int)

  datatype Contract = Contract(
    id: int,
    startDate: int,
    endDate: int,
    totalPrice: real,
    updateYears: int,
    softwareVersion: real,
    isInstalment: bool,
    instalmentsQuantity: Option<int>,
    isFulfilled: bool,
    clientId: int,
    softwareId: int)

  /** A payment; an Instalment row is a payment that also carries its number. */
  datatype Payment = Payment(
    id: int,
    price: real,
    paymentDate: int,
    contractId: int,
    instalmentNumber: Option<int>)

  /** The whole database as a value, with the next identity of each table
      whose rows the services insert. */
  datatype Db = Db(
    clients: seq<Client>,
    softwares: seq<Software>,
    discounts: seq<Discount>,
    discountSoftwares: seq<DiscountLink>,
    contracts: seq<Contract>,
    payments: seq<Payment>,
    nextClientId: int,
    nextContractId: int,
    nextPaymentId: int)

  datatype PersonClientDto = PersonClientDto(
    firstName: string,
    lastName: string,
    address: string,
    email: string,
    phoneNumber: string,
    pesel: string)

  datatype CompanyClientDto = CompanyClientDto(
    companyName: string,
    address: string,
    email: string,
    phoneNumber: string,
    krs: string)

  datatype ContractDto = ContractDto(
    startDate: int,
    endDate: int,
    updateYears: int,
    softwareVersion: real,
    isInstalment: bool,
    instalmentNumber: Option<int>)

  /** The request record of the older service; its payment date and ids are
      carried but never read. */
  datatype PaymentDto = PaymentDto(
    startDate: int,
    endDate: int,
    paymentDate: Option<int>,
    updateYears: int,
    softwareVersion: real,
    isInstalment: bool,
    instalmentNumber: Option<int>,
    clientId: int,
    softwareId: int)
}
