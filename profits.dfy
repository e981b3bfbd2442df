/** The profit report: fulfilled contracts grouped by software with their
    overall sum, converted at the central bank's mid rate when another
    currency than the złoty is asked for. */
module Profits {
  import opened Common
  import opened Entities
  import opened Database

  // ---------------------------------------------------------------------------
  // The report

  datatype ContractLine = ContractLine(contractId: int, startDate: int, endDate: int, totalPrice: real)

  datatype SoftwareGroup = SoftwareGroup(softwareId: int, softwareName: string, contracts: seq<ContractLine>)

  datatype ProfitReport = ProfitReport(currencyCode: string, sum: real, softwares: seq<SoftwareGroup>)

  /** The currency amounts are stored in; reports in it are not converted. */
  const BaseCurrency: string := "PLN"
  const InvalidRequestMessage: string := "Invalid request"

  // ---------------------------------------------------------------------------
  // Sequences

  /** LINQ `Where`, keeping the order of the source. */
  function Filter<T(!new)>(s: seq<T>, p: T -> bool): (r: seq<T>)
    ensures |r| <= |s|
    ensures forall x :: x in r <==> x in s && p(x)
  {
    if s == [] then []
    else
      var init := Filter(s[..|s| - 1], p);
      assert s == s[..|s| - 1] + [s[|s| - 1]];
      if p(s[|s| - 1]) then init + [s[|s| - 1]] else init
  }

  /** `Sum(e => e.TotalPrice)`. */
  function Total(cs: seq<Contract>): real {
    if cs == [] then 0.0 else Total(cs[..|cs| - 1]) + cs[|cs| - 1].totalPrice
  }

  // ---------------------------------------------------------------------------
  // Selecting and grouping

  /** The row `Include(e => e.Software)` joins to a contract. */
  function SoftwareRow(softwares: seq<Software>, id: int): (r: Option<Software>)
    ensures r.Some? ==> r.value in softwares && r.value.id == id
    ensures r.None? ==> forall s :: s in softwares ==> s.id != id
  {
    match FirstIndex(softwares, (s: Software) => s.id == id)
    case None => None
    case Some(k) => Some(softwares[k])
  }

  /** A contract the query loads: fulfilled, of the requested software if one
      is named, and joined to its software row. */
  predicate Counted(softwares: seq<Software>, softwareId: Option<int>, c: Contract) {
    && c.isFulfilled
    && (softwareId.None? || c.softwareId == softwareId.value)
    && SoftwareRow(softwares, c.softwareId).Some?
  }

  function Selected(d: Db, softwareId: Option<int>): seq<Contract> {
    Filter(d.contracts, (c: Contract) => Counted(d.softwares, softwareId, c))
  }

  /** The group keys of `GroupBy(e => e.Software)`, in order of first appearance
      in insertion order; the query has no `OrderBy`, so the database may
      order groups and lines differently. */
  function GroupKeys(cs: seq<Contract>): (keys: seq<int>)
    ensures forall i, j :: 0 <= i < j < |keys| ==> keys[i] != keys[j]
    ensures forall x :: x in keys <==> exists c :: c in cs && c.softwareId == x
  {
    if cs == [] then []
    else
      var init := cs[..|cs| - 1];
      var last := cs[|cs| - 1];
      assert cs == init + [last];
      var keys := GroupKeys(init);
      if last.softwareId in keys then keys else keys + [last.softwareId]
  }

  /** The contracts of one group, in the order they were loaded. */
  function Members(cs: seq<Contract>, key: int): seq<Contract> {
    Filter(cs, (c: Contract) => c.softwareId == key)
  }

  function Line(c: Contract): ContractLine {
    ContractLine(c.id, c.startDate, c.endDate, c.totalPrice)
  }

  function Lines(cs: seq<Contract>): (r: seq<ContractLine>)
    ensures |r| == |cs|
    ensures forall i :: 0 <= i < |cs| ==> r[i] == Line(cs[i])
  {
    seq(|cs|, i requires 0 <= i < |cs| => Line(cs[i]))
  }

  function Group(softwares: seq<Software>, cs: seq<Contract>, key: int): SoftwareGroup {
    var name := match SoftwareRow(softwares, key) case Some(s) => s.name case None => "";
    SoftwareGroup(key, name, Lines(Members(cs, key)))
  }

  /** The report before any conversion. */
  function BaseReport(d: Db, currencyCode: string, softwareId: Option<int>): ProfitReport {
    var cs := Selected(d, softwareId);
    var keys := GroupKeys(cs);
    ProfitReport(currencyCode, Total(cs), seq(|keys|, i requires 0 <= i < |keys| => Group(d.softwares, cs, keys[i])))
  }

  // ---------------------------------------------------------------------------
  // Conversion

  /** `decimal.Round(x, 2)`: to two places, halves to the even neighbour. */
  function Round2(x: real): real {
    var scaled := x * 100.0;
    var f := scaled.Floor;
    var frac := scaled - f as real;
    var n := if frac < 0.5 then f else if frac > 0.5 then f + 1 else if f % 2 == 0 then f else f + 1;
    n as real / 100.0
  }

  function ConvertLine(line: ContractLine, rate: real): ContractLine
    requires rate != 0.0
  {
    line.(totalPrice := Round2(line.totalPrice / rate))
  }

  function ConvertGroup(group: SoftwareGroup, rate: real): SoftwareGroup
    requires rate != 0.0
  {
    group.(contracts := seq(|group.contracts|, j requires 0 <= j < |group.contracts| => ConvertLine(group.contracts[j], rate)))
  }

  /** The report with the sum and every contract price divided by the rate
      and rounded, each on its own. */
  function ConvertedReport(report: ProfitReport, rate: real): ProfitReport
    requires rate != 0.0
  {
    report.(sum := Round2(report.sum / rate),
            softwares := seq(|report.softwares|, i requires 0 <= i < |report.softwares| => ConvertGroup(report.softwares[i], rate)))
  }

  /** The two nested loops that convert the report's amounts. */
  method ConvertReport(report: ProfitReport, rate: real) returns (converted: ProfitReport)
    requires rate != 0.0
    ensures converted == ConvertedReport(report, rate)
  {
    var groups := report.softwares;
    var i := 0;
    while i < |groups|
      invariant 0 <= i <= |groups| == |report.softwares|
      invariant forall k :: 0 <= k < i ==> groups[k] == ConvertGroup(report.softwares[k], rate)
      invariant forall k :: i <= k < |groups| ==> groups[k] == report.softwares[k]
    {
      var lines := groups[i].contracts;
      var j := 0;
      while j < |lines|
        invariant 0 <= j <= |lines| == |report.softwares[i].contracts|
        invariant forall k :: 0 <= k < j ==> lines[k] == ConvertLine(report.softwares[i].contracts[k], rate)
        invariant forall k :: j <= k < |lines| ==> lines[k] == report.softwares[i].contracts[k]
      {
        lines := lines[j := lines[j].(totalPrice := Round2(lines[j].totalPrice / rate))];
        j := j + 1;
      }
      groups := groups[i := groups[i].(contracts := lines)];
      i := i + 1;
    }
    converted := report.(sum := Round2(report.sum / rate), softwares := groups);
  }

  /** CalculateProfit; the rate is what the exchange-rate request yields, None
      when the request fails or the currency is unknown. */
  method CalculateProfit(db: Store, currencyCode: string, softwareId: Option<int>, rate: Option<real>)
    returns (r: Result<ProfitReport>)
    ensures ToUpper(currencyCode) == BaseCurrency ==>
      r == Success(BaseReport(db.Tables(), currencyCode, softwareId))
    ensures ToUpper(currencyCode) != BaseCurrency && rate.None? ==>
      r == Failure(Error(NotFound, InvalidRequestMessage))
    ensures ToUpper(currencyCode) != BaseCurrency && rate == Some(0.0) ==>
      r == Failure(Error(DivideByZero, DivideByZeroMessage))
    ensures ToUpper(currencyCode) != BaseCurrency && rate.Some? && rate.value != 0.0 ==>
      r == Success(ConvertedReport(BaseReport(db.Tables(), currencyCode, softwareId), rate.value))
  {
    var res := BaseReport(db.Tables(), currencyCode, softwareId);
    if ToUpper(currencyCode) == BaseCurrency {
      return Success(res);
    }
    if rate.None? {
      return Failure(Error(NotFound, InvalidRequestMessage));
    }
    if rate.value == 0.0 {
      return Failure(Error(DivideByZero, DivideByZeroMessage));
    }
    res := ConvertReport(res, rate.value);
    r := Success(res);
  }

  // ---------------------------------------------------------------------------
  // Rounding

  /** Rounding moves an amount by at most half a grosz. */
  lemma Round2Error(x: real)
    ensures -0.005 <= Round2(x) - x <= 0.005
  {
  }

  /** A rounded amount is already rounded. */
  lemma Round2Idempotent(x: real)
    ensures Round2(Round2(x)) == Round2(x)
  {
    var r := Round2(x);
    var scaled := x * 100.0;
    var f := scaled.Floor;
    var frac := scaled - f as real;
    var n := if frac < 0.5 then f else if frac > 0.5 then f + 1 else if f % 2 == 0 then f else f + 1;
    assert r == n as real / 100.0;
    assert r * 100.0 == n as real;
    assert (r * 100.0).Floor == n;
  }

  function Distance(a: real, b: real): real {
    if a <= b then b - a else a - b
  }

  /** Rounding lands on a whole number of grosze, no whole number of grosze
      lies closer to the amount, and of two equally close ones the even one
      is taken. */
  lemma Round2Nearest(x: real, m: int)
    ensures (Round2(x) * 100.0).Floor as real == Round2(x) * 100.0
    ensures Distance(Round2(x) * 100.0, x * 100.0) <= Distance(m as real, x * 100.0)
    ensures Distance(Round2(x) * 100.0, x * 100.0) == Distance(m as real, x * 100.0) && m as real != Round2(x) * 100.0 ==>
      (Round2(x) * 100.0).Floor % 2 == 0
  {
    var scaled := x * 100.0;
    var f := scaled.Floor;
    var frac := scaled - f as real;
    var n := if frac < 0.5 then f else if frac > 0.5 then f + 1 else if f % 2 == 0 then f else f + 1;
    assert Round2(x) * 100.0 == n as real;
    assert m <= f || f + 1 <= m;
  }

  lemma Round2Examples()
    ensures Round2(2.345) == 2.34
    ensures Round2(2.355) == 2.36
    ensures Round2(-2.345) == -2.34
    ensures Round2(1.006) == 1.01
    ensures Round2(1275.0 / 4.0) == 318.75
  {
    assert (2.345 * 100.0).Floor == 234;
    assert (2.355 * 100.0).Floor == 235;
    assert (-2.345 * 100.0).Floor == -235;
    assert (1.006 * 100.0).Floor == 100;
    assert (1275.0 / 4.0 * 100.0).Floor == 31875;
  }

  // ---------------------------------------------------------------------------
  // Groups add up to the sum

  /** The subtotals of the groups with the given keys. */
  function GroupTotals(keys: seq<int>, cs: seq<Contract>): real {
    if keys == [] then 0.0 else Total(Members(cs, keys[0])) + GroupTotals(keys[1..], cs)
  }

  lemma TotalAppend(cs: seq<Contract>, c: Contract)
    ensures Total(cs + [c]) == Total(cs) + c.totalPrice
  {
    assert (cs + [c])[..|cs|] == cs;
  }

  lemma MembersAppend(cs: seq<Contract>, c: Contract, key: int)
    ensures Members(cs + [c], key) == Members(cs, key) + (if c.softwareId == key then [c] else [])
  {
    assert (cs + [c])[..|cs|] == cs;
  }

  lemma NoMembers(cs: seq<Contract>, key: int)
    requires key !in GroupKeys(cs)
    ensures Members(cs, key) == []
  {
  }

  lemma {:induction false} GroupTotalsAppendContract(keys: seq<int>, cs: seq<Contract>, c: Contract)
    requires forall i, j :: 0 <= i < j < |keys| ==> keys[i] != keys[j]
    ensures GroupTotals(keys, cs + [c]) == GroupTotals(keys, cs) + (if c.softwareId in keys then c.totalPrice else 0.0)
  {
    if keys != [] {
      GroupTotalsAppendContract(keys[1..], cs, c);
      MembersAppend(cs, c, keys[0]);
      if c.softwareId == keys[0] {
        TotalAppend(Members(cs, keys[0]), c);
        assert c.softwareId !in keys[1..];
      }
      assert c.softwareId in keys <==> c.softwareId == keys[0] || c.softwareId in keys[1..];
    }
  }

  lemma {:induction false} GroupTotalsAppendKey(keys: seq<int>, key: int, cs: seq<Contract>)
    ensures GroupTotals(keys + [key], cs) == GroupTotals(keys, cs) + Total(Members(cs, key))
  {
    if keys == [] {
      assert ([key])[1..] == [];
    } else {
      assert (keys + [key])[1..] == keys[1..] + [key];
      GroupTotalsAppendKey(keys[1..], key, cs);
    }
  }

  /** A contract whose software has no group yet opens a group of its own. */
  lemma NewGroupTotal(init: seq<Contract>, last: Contract)
    requires last.softwareId !in GroupKeys(init)
    ensures GroupTotals(GroupKeys(init) + [last.softwareId], init + [last]) ==
      GroupTotals(GroupKeys(init), init + [last]) + last.totalPrice
  {
    var key := last.softwareId;
    GroupTotalsAppendKey(GroupKeys(init), key, init + [last]);
    MembersAppend(init, last, key);
    NoMembers(init, key);
    assert Members(init + [last], key) == [last];
    assert Total([last]) == Total([]) + last.totalPrice;
  }

  /** Grouping loses and duplicates nothing: the subtotals of the groups add
      up to the total of the loaded contracts. */
  lemma {:induction false} TotalIsSumOfGroups(cs: seq<Contract>)
    ensures Total(cs) == GroupTotals(GroupKeys(cs), cs)
  {
    if cs != [] {
      var init := cs[..|cs| - 1];
      var last := cs[|cs| - 1];
      assert cs == init + [last];
      TotalIsSumOfGroups(init);
      var keys := GroupKeys(init);
      GroupTotalsAppendContract(keys, init, last);
      TotalAppend(init, last);
      if last.softwareId !in keys {
        NewGroupTotal(init, last);
        assert GroupKeys(cs) == keys + [last.softwareId];
      } else {
        assert GroupKeys(cs) == keys;
      }
    }
  }

  /** What the report's lines add up to. */
  function LinesTotal(lines: seq<ContractLine>): real {
    if lines == [] then 0.0 else LinesTotal(lines[..|lines| - 1]) + lines[|lines| - 1].totalPrice
  }

  function GroupsTotal(groups: seq<SoftwareGroup>): real {
    if groups == [] then 0.0 else LinesTotal(groups[0].contracts) + GroupsTotal(groups[1..])
  }

  lemma {:induction false} LinesTotalOfContracts(cs: seq<Contract>)
    ensures LinesTotal(Lines(cs)) == Total(cs)
  {
    if cs != [] {
      LinesTotalOfContracts(cs[..|cs| - 1]);
      assert Lines(cs)[..|cs| - 1] == Lines(cs[..|cs| - 1]);
    }
  }

  lemma {:induction false} GroupsTotalOfKeys(softwares: seq<Software>, cs: seq<Contract>, keys: seq<int>)
    ensures GroupsTotal(seq(|keys|, i requires 0 <= i < |keys| => Group(softwares, cs, keys[i]))) == GroupTotals(keys, cs)
  {
    if keys != [] {
      var groups := seq(|keys|, i requires 0 <= i < |keys| => Group(softwares, cs, keys[i]));
      var tail := keys[1..];
      assert groups[1..] == seq(|tail|, i requires 0 <= i < |tail| => Group(softwares, cs, tail[i]));
      GroupsTotalOfKeys(softwares, cs, tail);
      LinesTotalOfContracts(Members(cs, keys[0]));
    }
  }

  /** In the unconverted report the sum is the exact total of the loaded
      contracts, and the per-software groups add up to it. */
  lemma BaseReportAddsUp(d: Db, currencyCode: string, softwareId: Option<int>)
    ensures BaseReport(d, currencyCode, softwareId).sum == Total(Selected(d, softwareId))
    ensures GroupsTotal(BaseReport(d, currencyCode, softwareId).softwares) == BaseReport(d, currencyCode, softwareId).sum
  {
    var cs := Selected(d, softwareId);
    TotalIsSumOfGroups(cs);
    GroupsTotalOfKeys(d.softwares, cs, GroupKeys(cs));
  }

  /** Each software appears in one group only, and a contract's line appears
      in a group exactly when the contract is fulfilled (of the requested
      software) and belongs to that group's software. */
  lemma BaseReportGroups(d: Db, currencyCode: string, softwareId: Option<int>)
    ensures var groups := BaseReport(d, currencyCode, softwareId).softwares;
      && (forall i, j :: 0 <= i < j < |groups| ==> groups[i].softwareId != groups[j].softwareId)
      && (forall i, line :: 0 <= i < |groups| && line in groups[i].contracts ==>
            exists c :: c in d.contracts && Counted(d.softwares, softwareId, c) &&
              c.softwareId == groups[i].softwareId && Line(c) == line)
      && (forall c :: c in d.contracts && Counted(d.softwares, softwareId, c) ==>
            exists i :: 0 <= i < |groups| && groups[i].softwareId == c.softwareId && Line(c) in groups[i].contracts)
  {
    var cs := Selected(d, softwareId);
    var keys := GroupKeys(cs);
    var groups := BaseReport(d, currencyCode, softwareId).softwares;
    forall i, line | 0 <= i < |groups| && line in groups[i].contracts
      ensures exists c :: (c in d.contracts && Counted(d.softwares, softwareId, c) &&
        c.softwareId == groups[i].softwareId && Line(c) == line)
    {
      var ms := Members(cs, keys[i]);
      var k :| 0 <= k < |Lines(ms)| && Lines(ms)[k] == line;
      assert ms[k] in ms;
    }
    forall c | c in d.contracts && Counted(d.softwares, softwareId, c)
      ensures exists i :: 0 <= i < |groups| && groups[i].softwareId == c.softwareId && Line(c) in groups[i].contracts
    {
      assert c in cs;
      assert c.softwareId in keys;
      var i :| 0 <= i < |keys| && keys[i] == c.softwareId;
      var ms := Members(cs, keys[i]);
      assert c in ms;
      var k :| 0 <= k < |ms| && ms[k] == c;
      assert Lines(ms)[k] == Line(c);
      assert groups[i].softwareId == c.softwareId;
    }
  }

  // ---------------------------------------------------------------------------
  // Conversion

  /** Conversion keeps the report's shape, ids, names and dates, and moves
      every amount to within half a grosz of its exact value at the rate. */
  lemma ConvertedReportShape(report: ProfitReport, rate: real)
    requires rate != 0.0
    ensures var out := ConvertedReport(report, rate);
      && out.currencyCode == report.currencyCode
      && -0.005 <= out.sum - report.sum / rate <= 0.005
      && |out.softwares| == |report.softwares|
      && (forall i :: 0 <= i < |out.softwares| ==>
            && out.softwares[i].softwareId == report.softwares[i].softwareId
            && out.softwares[i].softwareName == report.softwares[i].softwareName
            && |out.softwares[i].contracts| == |report.softwares[i].contracts|)
      && (forall i, j :: 0 <= i < |out.softwares| && 0 <= j < |out.softwares[i].contracts| ==>
            && out.softwares[i].contracts[j].(totalPrice := 0.0) == report.softwares[i].contracts[j].(totalPrice := 0.0)
            && -0.005 <= out.softwares[i].contracts[j].totalPrice - report.softwares[i].contracts[j].totalPrice / rate <= 0.005)
  {
    Round2Error(report.sum / rate);
    forall i, j | 0 <= i < |report.softwares| && 0 <= j < |report.softwares[i].contracts|
      ensures -0.005 <= Round2(report.softwares[i].contracts[j].totalPrice / rate) - report.softwares[i].contracts[j].totalPrice / rate <= 0.005
    {
      Round2Error(report.softwares[i].contracts[j].totalPrice / rate);
    }
  }

  /** Amounts are rounded one by one, so the converted lines need not add up
      to the converted sum: two lines of 0.02 at a rate of 4 become 0.00
      each while the sum 0.04 becomes 0.01. */
  lemma RoundedLinesNeedNotAddUp()
    ensures var report := ProfitReport("EUR", 0.04, [SoftwareGroup(1, "OfficePro",
              [ContractLine(1, 0, 0, 0.02), ContractLine(2, 0, 0, 0.02)])]);
      var out := ConvertedReport(report, 4.0);
      && GroupsTotal(report.softwares) == report.sum
      && out.sum == 0.01
      && GroupsTotal(out.softwares) == 0.0
  {
    var lines := [ContractLine(1, 0, 0, 0.02), ContractLine(2, 0, 0, 0.02)];
    assert lines[..1] == [lines[0]] && [lines[0]][..0] == [];
    assert LinesTotal(lines) == 0.04;
    assert (0.02 / 4.0 * 100.0).Floor == 0;
    assert (0.04 / 4.0 * 100.0).Floor == 1;
    var zero := ContractLine(1, 0, 0, 0.0);
    var converted := [zero, zero.(contractId := 2)];
    assert converted[..1] == [converted[0]] && [converted[0]][..0] == [];
    assert LinesTotal(converted) == 0.0;
    var report := ProfitReport("EUR", 0.04, [SoftwareGroup(1, "OfficePro", lines)]);
    var out := ConvertedReport(report, 4.0);
    assert Round2(0.02 / 4.0) == 0.0;
    assert out.softwares[0].contracts == converted;
    assert out.softwares[1..] == [];
  }

  /** The currency code is compared after upper-casing it. */
  lemma CurrencyCodeCaseIgnored()
    ensures ToUpper("pln") == BaseCurrency
    ensures ToUpper("Pln") == BaseCurrency
    ensures ToUpper("eur") != BaseCurrency
  {
    var lower := ToUpper("pln");
    assert lower[0] == 'P' && lower[1] == 'L' && lower[2] == 'N';
    var mixed := ToUpper("Pln");
    assert mixed[0] == 'P' && mixed[1] == 'L' && mixed[2] == 'N';
    assert ToUpper("eur")[0] == 'E';
  }
}
