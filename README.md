# Software licensing backend: contracts, clients and profits

This project models the business core of an ASP.NET licensing backend.
Clients are persons (identified by a PESEL number) or companies (identified by a KRS number).
They buy time-limited licence contracts for versions of a software product.
A contract is paid either in one lump sum or in numbered instalments.
Revenue is reported per software, in PLN or converted at an exchange rate.

The model has one module per concern:

- `Common` holds results and errors, C#'s truncating remainder and whole-day spans, and ASCII digit tests and upper-casing.
- `Entities` holds the table rows and the request records.
- `Database` holds the table lookups. Its class `Store` holds the tables; the service methods reassign them.
  Every client lookup skips soft-deleted rows, as the context's query filter does.
  A transaction takes a `Db` snapshot with `Tables()` and rolls back with `Restore`.
- `Clients` models the client registry: the PESEL check-digit loop, and adding, updating and soft-deleting persons and companies.
- `Contracts` models the contract engine's decisions: creation with its validation chain and price, the payment state machine, and deletion.
- `ContractsService` holds the contract service's methods on the `Store`, which run those checks in the code's order.
- `ContractFacts` proves what the contract engine promises.
  This includes the ledger invariant that ties each contract's payments to its fulfilment flag, which keeps the instalment division away from zero.
  It also holds the instalment schedule and the finding below.
- `Profits` models the profit report: selection, grouping, the total, the PLN short-circuit, and conversion with two-place banker's rounding.
- `Legacy` models the older all-in-one service. It reuses the decisions above and is modelled separately only where it differs.

Every state-changing operation is a method on a `Store`.
Each method's `ensures` ties its result and the new tables to a decision function of the old tables.
On success that is the new tables; on failure the error, with the tables unchanged.
Each method also requires and keeps `Store.Valid()`: the keys and references are intact, and every contract's fulfilment flag agrees with its payments.
The lemmas about those decision functions state what the services promise.

The request instant (`DateTime.Now`) is a `now` parameter, in ticks of 100 ns.
The exchange rate is an `Option<real>` parameter: `None` means the rate request failed.

## Model

| member | source | states |
|---|---|---|
| Common.CsRem10 | projekt/Services/ClientsService.cs:52 | C#'s `%` by 10: agrees with the mathematical remainder on non-negative input, is in (-10, 0] on negative input, and differs from it by a multiple of 10 |
| Common.WholeDays | projekt/Services/ContractsService.cs:47 | `TimeSpan.Days` truncates toward zero: the whole number of days in a span, bracketing the span from below for non-negative spans and from above for negative ones |
| Common.ToUpper | projekt/Services/ProfitsService.cs:52 | upper-casing keeps the length and every character that is not a lower-case ASCII letter, and maps each lower-case ASCII letter to its capital (code point minus 32) |
| Database.FindVisibleClient | projekt/Data/DatabaseContext.cs:43 | the first client row with the id that has no deletion date, or none when every row with that id is soft-deleted |
| Database.FindVisiblePerson | projekt/Services/ClientsService.cs:77-83 | the first visible person with the id, or none when no visible person has it |
| Database.FindVisibleCompany | projekt/Services/ClientsService.cs:175-181 | the first visible company with the id, or none when no visible company has it |
| Database.FindSoftware | projekt/Services/ContractsService.cs:25-26 | a software row with both the id and the requested version, or none when no row matches both |
| Database.FindDiscount | projekt/Services/ContractsService.cs:53 | the discount row a link points to, or none when it is missing |
| Database.FindContract | projekt/Services/ContractsService.cs:99-104 | the position of a contract with the id, or none when no contract has it |
| Database.FirstContractFor | projekt/Services/ContractsService.cs:35-36 | the FIRST contract of the client and software pair: it matches, and no earlier row matches |
| Database.PaymentsOf | projekt/Services/ContractsService.cs:115 | exactly the payments of the contract |
| Database.PaymentsExcept | projekt/Migrations/20250618150805_Init.cs:173-178 | exactly the payments of every other contract (the cascade on contract deletion) |
| Database.ContractsExcept | projekt/Services/ContractsService.cs:168 | exactly the contracts with another id |
| Database.Store.constructor | projekt/Data/DatabaseContext.cs:8-26 | a fresh database holds only the catalogue, has identities starting at 1, and is valid |
| Database.Store.Restore | projekt/Services/ContractsService.cs:152-156 | a rollback puts every table back to the snapshot |
| Clients.CheckDigit | projekt/Services/ClientsService.cs:44-52 | the check digit computed from the first ten characters lies in 0..9 |
| Clients.ControlSum | projekt/Services/ClientsService.cs:45-52 | the accumulating loop computes exactly the check digit of the first ten characters |
| Clients.WeightedSumOfDigits | projekt/Services/ClientsService.cs:47-50 | on digits, the ten-term weighted sum is non-negative and equals the standard PESEL sum without its last term |
| Clients.PeselChecksumIsStandardRule | projekt/Services/ClientsService.cs:44-56 | on eleven digits, the service's test `(10 - sum % 10) % 10 == d11` holds iff the full weighted sum with weights 1,3,7,9,1,3,7,9,1,3,1 is a multiple of 10 |
| Clients.CheckDigitRule | projekt/Services/ClientsService.cs:52-56 | for a non-negative sum and a digit d, `(10 - sum % 10) % 10 == d` iff `sum + d` is a multiple of 10 |
| Clients.PeselExamples | projekt/UnitTests/TestsClients.cs:123-138 | "92030412346" passes, "62093044351" fails and "01120178916" is a valid PESEL |
| Clients.AddNewPerson | projekt/Services/ClientsService.cs:20-70 | adds exactly one person carrying the request's fields under the next id, or fails with the first failing check and leaves the tables unchanged; the tables stay valid |
| Clients.AddPersonSucceedsIff | projekt/Services/ClientsService.cs:22-69 | adding a person succeeds iff no visible person holds the PESEL, the phone is 9 digits and the PESEL is valid; the new row carries the request |
| Clients.AddedPeselIsTaken | projekt/Services/ClientsService.cs:22-27 | after a person is added, adding anyone with the same PESEL is a Conflict "Person already exists" |
| Clients.AddNewCompany | projekt/Services/ClientsService.cs:133-168 | adds exactly one company under the next id, or fails with the first failing check and leaves the tables unchanged; the tables stay valid |
| Clients.AddCompanySucceedsIff | projekt/Services/ClientsService.cs:135-167 | adding a company succeeds iff no visible company holds the KRS, the phone is 9 digits and the KRS is 10 digits; there is no KRS checksum |
| Clients.UpdatePerson | projekt/Services/ClientsService.cs:72-116 | on success the person's row is replaced as decided; on failure the transaction rolls back and the tables are unchanged; the tables stay valid |
| Clients.UpdatePersonChangesOnlyThatPerson | projekt/Services/ClientsService.cs:95-106 | a successful update changes only address, email, phone, first and last name of that person; PESEL, deletion date and every other row stay |
| Clients.UpdatePersonIgnoresPesel | projekt/Services/ClientsService.cs:72-106 | the PESEL in the request has no influence on the update |
| Clients.UpdateCompany | projekt/Services/ClientsService.cs:170-212 | on success the company's row is replaced as decided; on failure the tables are unchanged; the tables stay valid |
| Clients.UpdateCompanyChangesOnlyThatCompany | projekt/Services/ClientsService.cs:193-203 | a successful update changes only address, email, phone and company name; KRS and every other row stay |
| Clients.UpdateCompanyIgnoresKrs | projekt/Services/ClientsService.cs:170-203 | the KRS in the request has no influence on the update |
| Clients.DeletePerson | projekt/Services/ClientsService.cs:118-131 | stamps the deletion date of the visible person, or fails with NotFound leaving the tables unchanged; the tables stay valid |
| Clients.DeletedPersonIsHidden | projekt/Data/DatabaseContext.cs:43 | a soft delete removes no row and changes no id; the person is no longer visible, and a second delete or an update is NotFound |
| Clients.DeletedPeselIsFree | projekt/Services/ClientsService.cs:22-27 | once its only holder is soft-deleted, a PESEL is free again: re-adding can fail only on format, never with Conflict |
| Clients.ClientInsertKeepsWellFormed | projekt/Services/ClientsService.cs:63-64 | a client row inserted under the next id keeps client ids unique and below the next id, and every contract's client present |
| Clients.ClientRowsKeepWellFormed | projekt/Services/ClientsService.cs:95-106 | rewriting client rows in place without changing any id keeps the tables well formed |
| Clients.AddingKeepsWellFormed | projekt/Services/ClientsService.cs:20-168 | every successful person or company insertion, in either service's variant, keeps the tables well formed |
| Clients.UpdatingKeepsWellFormed | projekt/Services/ClientsService.cs:72-212 | every successful person or company update keeps the tables well formed |
| Clients.SoftDeleteKeepsWellFormed | projekt/Services/ClientsService.cs:118-131 | a successful soft delete keeps the row, so every contract still finds its client |
| Contracts.ApplicableValues | projekt/Services/ContractsService.cs:52-55 | exactly the values of discounts linked to the software whose start is not after the contract's start; the end date is not consulted |
| Contracts.MaxValue | projekt/Services/ContractsService.cs:56 | none on an empty list; otherwise a member that is at least every member |
| Contracts.SetFulfilled | projekt/Services/ContractsService.cs:131-133 | only the fulfilment flag changes, and it becomes set on exactly the rows with the id |
| ContractsService.CreateContractBody | projekt/Services/ContractsService.cs:18-92 | the checks run in the code's order, with the prior-contract check looking only at the first contract of the pair: inserts the contract decided as written under the next id, or fails with the first failing check and leaves the tables unchanged |
| ContractsService.CreateContract | projekt/Services/ContractsService.cs:18-92 | the same effect as written, on valid tables, which stay valid |
| ContractsService.PayContractBody | projekt/Services/ContractsService.cs:94-157 | commits the decided payment, or rolls back; in the expired branch the payment purge is undone, so every failure leaves the tables unchanged |
| ContractsService.PayContract | projekt/Services/ContractsService.cs:94-157 | the same effect on valid tables, which stay valid |
| ContractsService.DeleteContract | projekt/Services/ContractsService.cs:159-170 | removes the contract and its payments, or fails with NotFound leaving the tables unchanged; the tables stay valid |
| ContractFacts.PaymentsOfAppend | projekt/Services/ContractsService.cs:127-128 | a new payment row is counted for its own contract and no other |
| ContractFacts.PaymentsOfExcept | projekt/Migrations/20250618150805_Init.cs:173-178 | the cascade on deleting one contract does not touch another contract's payments |
| ContractFacts.ContractsExceptUnique | projekt/Services/ContractsService.cs:168 | removing a contract keeps contract ids unique |
| ContractFacts.BestDiscountIsMaximum | projekt/Services/ContractsService.cs:52-56 | the discount is 0 when none applies, at least every applicable value, and equal to one of them |
| ContractFacts.PriceWithinBase | projekt/Services/ContractsService.cs:68-69 | while the best discount is at most 0.95, the price lies between 0 and the base price plus update surcharge |
| ContractFacts.SpanAcceptedInTicks | projekt/Services/ContractsService.cs:47-50 | the whole-day test accepts exactly spans of at least 3 days and less than 31 days |
| ContractFacts.DaySpanExamples | projekt/UnitTests/TestsContracts.cs:152-193 | 19 days pass, 58 days fail, and the boundaries fall just before 3 days and just before 31 days |
| ContractFacts.CreateSucceedsIff | projekt/Services/ContractsService.cs:20-66 | creation as written succeeds iff the client is visible, the software exists in that version, the dates are ordered, the span is accepted, the first contract recorded for the pair (if any) is no longer running, and update years are 1 to 4 |
| ContractFacts.CreatedContract | projekt/Services/ContractsService.cs:70-88 | the new contract gets the next id, the request's client, software, dates, years and version; it is unfulfilled; the instalment quantity is copied only when instalments are asked for |
| ContractFacts.CreatedContractPrice | projekt/Services/ContractsService.cs:52-69 | whichever check judged the earlier contracts, the price is (list price of the requested version + 1000 per extra update year) times (1 - best discount - 0.05 for a returning client) |
| ContractFacts.DiscountedPrice | projekt/Services/ContractsService.cs:58-69 | the price at the combined rate is the base price times one minus the best discount and the bonus |
| ContractFacts.ReturningIffBoughtBefore | projekt/Services/ContractsService.cs:35-61 | the first-row check and the any-row check both count the client as returning exactly when a contract of the pair exists |
| ContractFacts.SecondPurchaseWhileActiveConflicts | projekt/Services/ContractsService.cs:35-41 | as written, after a client's first purchase of a software, buying it again while that contract runs is a Conflict |
| ContractFacts.CorrectedRepurchaseConflicts | projekt/Services/ContractsService.cs:35-41 | with the corrected check, buying again while any accepted contract of the pair runs is a Conflict, whatever was bought before |
| ContractFacts.CataloguePurchase | projekt/Services/ContractsService.cs:52-88 | in a one-product catalogue whose earlier contracts of the pair have all expired, a two-year purchase succeeds at the discount found, plus the returning bonus exactly when there were earlier contracts |
| ContractFacts.FirstPurchasePrice | projekt/Services/ContractsService.cs:68-69 | a first two-year purchase of a 500 product without discounts costs 1500 |
| ContractFacts.ReturningPurchasePrice | projekt/Services/ContractsService.cs:56-61 | a returning client with a 10% discount pays 1275 for the same purchase |
| ContractFacts.UncappedDiscountPrice | projekt/Services/ContractsService.cs:58-61 | a 100% discount plus the returning bonus gives a price of -75: the bonus is not capped |
| ContractFacts.InsertKeepsWellFormed | projekt/Services/ContractsService.cs:90-91 | a contract inserted under the next id whose client and software exist keeps ids unique and every reference present |
| ContractFacts.InsertKeepsLedger | projekt/Services/ContractsService.cs:90-91 | a new contract with no payments that is consistent with a count of 0 keeps the ledger consistent |
| ContractFacts.InsertKeepsConsistency | projekt/Services/ContractsService.cs:90-91 | inserting an unpaid, consistent contract keeps the tables well formed and the ledger consistent |
| ContractFacts.CreateKeepsConsistency | projekt/Services/ContractsService.cs:18-92 | every successful creation, whichever prior-contract check accepted it, keeps the tables well formed and the ledger consistent |
| ContractFacts.PaymentKeepsWellFormed | projekt/Services/ContractsService.cs:120-147 | a new payment of an existing contract, with only fulfilment flags changed, keeps the tables well formed |
| ContractFacts.PaymentKeepsLedger | projekt/Services/ContractsService.cs:120-147 | a payment that leaves its own contract consistent with one more payment keeps the whole ledger consistent |
| ContractFacts.PayKeepsWellFormed | projekt/Services/ContractsService.cs:94-157 | every successful payment keeps ids unique and every reference present |
| ContractFacts.PayKeepsLedger | projekt/Services/ContractsService.cs:94-157 | every successful payment keeps the ledger consistent |
| ContractFacts.PayKeepsConsistency | projekt/Services/ContractsService.cs:94-157 | every successful payment keeps the tables well formed and the ledger consistent |
| ContractFacts.DeleteKeepsWellFormed | projekt/Services/ContractsService.cs:159-170 | deletion keeps ids unique and every remaining reference present |
| ContractFacts.DeleteKeepsLedger | projekt/Services/ContractsService.cs:159-170 | deletion keeps the ledger of the remaining contracts consistent |
| ContractFacts.DeleteKeepsConsistency | projekt/Services/ContractsService.cs:159-170 | deletion keeps the tables well formed and the ledger consistent |
| ContractFacts.NoDivisionByZero | projekt/Services/ContractsService.cs:124 | on a consistent ledger, paying never fails with a division by zero |
| ContractFacts.DivisionByZeroOnBrokenLedger | projekt/Services/ContractsService.cs:124 | an instalment contract whose quantity is 0 but that already has a payment makes paying divide by zero |
| ContractFacts.InstalmentStep | projekt/Services/ContractsService.cs:113-134 | one payment of a running instalment contract with fewer than n payments appends instalment count+1 of total/n, keeps the row in place and sets it fulfilled exactly when that was the n-th |
| ContractFacts.InstalmentPayments | projekt/Services/ContractsService.cs:113-134 | paying an n-instalment contract k times (k ≤ n) succeeds and yields k instalments numbered 1..k, each of total/n; the contract is fulfilled iff k = n |
| ContractFacts.InstalmentOverpaymentConflicts | projekt/UnitTests/TestsContracts.cs:248-310 | the (n+1)-th payment of an n-instalment contract is a Conflict "Contract has been already paid" |
| ContractFacts.LumpSumPayments | projekt/Services/ContractsService.cs:136-148 | every payment of a lump-sum contract succeeds, adds one payment of the full price without a number, and sets the contract fulfilled |
| ContractFacts.DeleteRemovesContract | projekt/Services/ContractsService.cs:159-170 | after deletion the contract and its payments are gone, other contracts and their payments remain, and paying or deleting it again is NotFound |
| ContractFacts.CreateKeepsOneActive | projekt/Services/ContractsService.cs:35-45 | with the corrected check, creation keeps at most one running contract per client and software |
| ContractFacts.CorrectedCheckIsStricter | projekt/Services/ContractsService.cs:35-45 | whenever the corrected check lets a purchase through, the check as written decides the same |
| ContractFacts.AsWrittenAllowsTwoActive | projekt/Services/ContractsService.cs:35-45 | as written, buy, renew after expiry, then buy again leaves two running contracts for one pair; the corrected check refuses the third purchase |
| Profits.Filter | projekt/Services/ProfitsService.cs:26 | exactly the elements satisfying the predicate, never more than the input |
| Profits.SoftwareRow | projekt/Services/ProfitsService.cs:27 | the software row a contract includes, or none when no row has the id |
| Profits.GroupKeys | projekt/Services/ProfitsService.cs:34 | distinct keys, exactly the software ids of the selected contracts |
| Profits.Lines | projekt/Services/ProfitsService.cs:43-49 | one report line per contract, in order, carrying its id, dates and price |
| Profits.ConvertReport | projekt/Services/ProfitsService.cs:64-73 | the nested loops divide the total and every line by the rate and round each to 2 places, keeping everything else |
| Profits.CalculateProfit | projekt/Services/ProfitsService.cs:21-75 | PLN in any case gives the unconverted report; a failed rate request is NotFound "Invalid request"; a zero rate divides by zero; otherwise the converted report |
| Profits.Round2Error | projekt/Services/ProfitsService.cs:65 | rounding to 2 places moves a value by at most 0.005 |
| Profits.Round2Idempotent | projekt/Services/ProfitsService.cs:65 | rounding a rounded value changes nothing |
| Profits.Round2Nearest | projekt/Services/ProfitsService.cs:65 | the rounded value is a whole number of hundredths, no whole number of hundredths is closer to the input, and of two equally close ones the one with an even count is taken |
| Profits.Round2Examples | projekt/Services/ProfitsService.cs:71 | ties go to the even cent: 2.345 gives 2.34, 2.355 gives 2.36, -2.345 gives -2.34 |
| Profits.TotalIsSumOfGroups | projekt/Services/ProfitsService.cs:34-38 | the total of the selected contracts equals the sum of the per-software group totals |
| Profits.GroupTotalsAppendContract | projekt/Services/ProfitsService.cs:34 | a new contract adds its price to the group totals exactly when its software is one of the keys |
| Profits.NewGroupTotal | projekt/Services/ProfitsService.cs:34 | when a contract's software is not yet a key, adding that key to the grouping adds exactly the contract's price to the group totals |
| Profits.GroupTotalsAppendKey | projekt/Services/ProfitsService.cs:34 | a further key adds the total of its members |
| Profits.LinesTotalOfContracts | projekt/Services/ProfitsService.cs:43-49 | report lines carry the contracts' total |
| Profits.GroupsTotalOfKeys | projekt/Services/ProfitsService.cs:39-50 | the report's groups carry the per-key totals |
| Profits.BaseReportAddsUp | projekt/Services/ProfitsService.cs:35-51 | the report's sum is the total of the fulfilled (and, if asked, same-software) contracts, and equals the sum over its groups |
| Profits.BaseReportGroups | projekt/Services/ProfitsService.cs:23-50 | groups have distinct software ids; every line comes from a selected contract of that software, and every selected contract appears in its software's group |
| Profits.ConvertedReportShape | projekt/Services/ProfitsService.cs:64-73 | conversion keeps code, groups, names and lines; the sum and each price are within 0.005 of the value divided by the rate |
| Profits.RoundedLinesNeedNotAddUp | projekt/Services/ProfitsService.cs:64-73 | the converted sum is rounded from the unrounded total: two lines of 0.02 at rate 4 give lines of 0.00 but a sum of 0.01 |
| Profits.CurrencyCodeCaseIgnored | projekt/Services/ProfitsService.cs:52 | "pln" and "Pln" count as PLN; "eur" does not |
| Legacy.AddNewPerson | projekt/Services/DbService.cs:19-65 | the older service adds a person without testing that phone and PESEL are digits; otherwise as the newer one; the tables stay valid |
| Legacy.UpdatePerson | projekt/Services/DbService.cs:67-111 | identical to the newer service's update; the tables stay valid |
| Legacy.DeletePerson | projekt/Services/DbService.cs:113-126 | identical to the newer service's soft delete; the tables stay valid |
| Legacy.AddNewCompany | projekt/Services/DbService.cs:128-163 | identical to the newer service's company insertion; the tables stay valid |
| Legacy.UpdateCompany | projekt/Services/DbService.cs:165-207 | as the newer service, but a non-digit phone fails with "Phone number contains onvalid characters"; the tables stay valid |
| Legacy.CreateContractBody | projekt/Services/DbService.cs:209-284 | the same decision as written as the newer service (first contract of the pair only), on the fields of the older request record, without the repeated version comparison |
| Legacy.CreateContract | projekt/Services/DbService.cs:209-284 | the same effect on valid tables, which stay valid |
| Legacy.PayContract | projekt/Services/DbService.cs:286-349 | identical to the newer service's payment; the tables stay valid |
| Legacy.DeleteContract | projekt/Services/DbService.cs:351-362 | identical to the newer service's deletion; the tables stay valid |
| Legacy.AddPersonAcceptsMore | projekt/Services/DbService.cs:19-51 | whatever the newer service accepts the older one accepts alike, and the two agree when phone and PESEL are digits |
| Legacy.AddPersonAcceptsLetters | projekt/Services/DbService.cs:39-51 | the older service adds a person with PESEL "a0000000001" and phone "12345678a"; the newer one rejects the same request |
| Legacy.UpdateCompanyDiffersOnlyInMessage | projekt/Services/DbService.cs:183-186 | the two UpdateCompany versions succeed together, with the same rows, and fail with the same kind; only the invalid-phone message differs |

## Left out

- The code and the design disagree in three places; the service methods follow the code.
  - An expired contract's payments are meant to be purged. In the code, the purge runs inside the payment transaction and is then rolled back by the exception that follows, so nothing changes (`ContractsService.PayContractBody`).
  - Only one running contract per client and software is meant to exist. The code inspects only the first contract of the pair (see Findings); the corrected check, `Contracts.CreateDecision`, is modelled beside it and proved about, but no method uses it.
  - A lump-sum contract is meant to carry a single payment. The code pays it again on every call (`ContractFacts.LumpSumPayments`).
- `int.TryParse` and `long.TryParse` also accept a leading sign and surrounding whitespace. "Numeric" is modelled as non-empty and all ASCII digits.
- `ToUpper` is culture-sensitive in .NET; the model upper-cases ASCII letters only.
- `DateTime.Now` is read at several points of one request. The model uses one instant per call.
- `decimal` has 28 significant digits, and the money columns are `decimal(10,2)`, which rounds stored prices to cents. Money is an exact `real`, and stored values are not rounded.
- 32-bit `int` overflow of ids, update years and instalment counts is not modelled; integers are unbounded.
- The exchange-rate request to the National Bank of Poland and its JSON parsing are not modelled. The rate is an `Option<real>` input.
- An empty rate list in a successful rate response dereferences null in the source; the model has no such case.
- The profit report is mutated in place by the conversion loops. The model rebuilds it as a value, so aliasing between the report and its lines is not captured.
- Asynchrony, EF Core change tracking, the order of `ExecuteUpdate`/`ExecuteDelete` relative to `SaveChanges`, and races between concurrent requests are not modelled.
- Controllers, routing, the mapping of exceptions to HTTP statuses, sign-in and role management are not modelled. Migrations are not modelled beyond the payment cascade and the soft-delete filter.
- A discount's end date is ignored, as the code ignores it.
- Legacy.AddNewPerson: string lengths and `c - '0'` are taken over Unicode scalar values, not over the UTF-16 code units C# counts (projekt/Services/DbService.cs:28-48), so input with a character outside the Basic Multilingual Plane is measured differently and may be accepted or rejected differently. The same holds for `Clients.AddNewPerson`, `Clients.AddNewCompany` and the update methods, where only the reported message can differ, because those characters are not digits.
- Database.FirstContractFor: takes the earliest matching row in insertion order, where `FirstOrDefaultAsync` without `OrderBy` (projekt/Services/ContractsService.cs:35-36, projekt/Services/DbService.cs:227-228) leaves the row to the database. `ContractFacts.CreateSucceedsIff` and `ContractFacts.CreatedContract` are stated for that choice. The same holds for the order of the profit report's groups and lines (`Profits.GroupKeys`, `Profits.Lines`), which follow the table order returned by `ToListAsync`. The Findings entry does not depend on the choice: whichever single row is inspected, it can be an expired one while another contract of the pair runs.
- Profits.SoftwareRow: keys the report's group by software id (the first row with that id) rather than by the tracked software entity.

## Findings

| source | as written | input that shows it | evidently intended | confidence | as-written member | corrected member |
|---|---|---|---|---|---|---|
| projekt/Services/ContractsService.cs:35-45 | only the first contract of the client and software pair is looked at; an older expired one hides a newer running one (same code at projekt/Services/DbService.cs:227-237) | buy for days 0-10; at day 20, buy again for days 20-30, which is accepted as a return; at day 21, buy for days 21-31: the expired first contract is found and the purchase is accepted, leaving two running contracts | a purchase is refused while any contract of the pair is still running, so at most one runs at a time | medium, not executed | ContractFacts.AsWrittenAllowsTwoActive | ContractFacts.CreateKeepsOneActive |

The service methods `ContractsService.CreateContract` and `Legacy.CreateContract` keep the check as written.
The corrected decision `Contracts.CreateDecision` is the reference the corrected member is proved about; `ContractFacts.CorrectedCheckIsStricter` and `ContractFacts.CorrectedRepurchaseConflicts` relate it to the code.
