/** The threat report: the list of generated threats with two filters, the
    categories offered in the filter menus, deletion by id, the summary
    counts and the workbook export. */
module ThreatMatrix {
  import Lists

  /** One generated threat, with the fields the back end returns. */
  datatype Threat = Threat(
    id: string,
    scenario: string,
    ciaTriad: string,
    stride: string,
    mitreTactic: string,
    mitreTechnique: string,
    mitigations: string)

  /** The filter value that lets every threat through. */
  const All := "all"

  function IdOf(t: Threat): string { t.id }
  function StrideOf(t: Threat): string { t.stride }
  function CiaOf(t: Threat): string { t.ciaTriad }

  /** The ids, STRIDE categories and CIA values of a list, in list order. */
  function Ids(threats: seq<Threat>): seq<string> { Lists.MapSeq(threats, IdOf) }
  function Strides(threats: seq<Threat>): seq<string> { Lists.MapSeq(threats, StrideOf) }
  function CiaValues(threats: seq<Threat>): seq<string> { Lists.MapSeq(threats, CiaOf) }

  // ---------------------------------------------------------------------------
  // filteredThreats

  /** The test `filteredThreats` applies to each threat. */
  function Passes(strideFilter: string, ciaFilter: string): Threat -> bool {
    (t: Threat) => (strideFilter == All || t.stride == strideFilter) && (ciaFilter == All || t.ciaTriad == ciaFilter)
  }

  /** The threats shown in the table and exported as detail rows. */
  function FilteredThreats(threats: seq<Threat>, strideFilter: string, ciaFilter: string): seq<Threat> {
    Lists.Filter(threats, Passes(strideFilter, ciaFilter))
  }

  /** A threat is shown exactly when it is in the list and each filter is
      `all` or equals the threat's field; the shown threats keep their order. */
  lemma FilteredThreatsSpec(threats: seq<Threat>, strideFilter: string, ciaFilter: string)
    ensures forall t :: t in FilteredThreats(threats, strideFilter, ciaFilter) <==>
      t in threats && (strideFilter == All || t.stride == strideFilter) && (ciaFilter == All || t.ciaTriad == ciaFilter)
    ensures Lists.IsSubseq(FilteredThreats(threats, strideFilter, ciaFilter), threats)
  {
    Lists.FilterIsSubseq(threats, Passes(strideFilter, ciaFilter));
  }

  /** With both filters at `all` the whole list is shown. */
  lemma FilterAllShowsEverything(threats: seq<Threat>)
    ensures FilteredThreats(threats, All, All) == threats
  {
    Lists.FilterAll(threats, Passes(All, All));
  }

  // ---------------------------------------------------------------------------
  // strideCategories, ciaCategories

  /** `[...new Set(threats.map(field))]`. */
  function Categories(threats: seq<Threat>, field: Threat -> string): seq<string> {
    Lists.Distinct(Lists.MapSeq(threats, field))
  }

  function StrideCategories(threats: seq<Threat>): seq<string> { Categories(threats, StrideOf) }
  function CiaCategories(threats: seq<Threat>): seq<string> { Categories(threats, CiaOf) }

  /** The categories are the values the field takes in the list, each once,
      in the order of their first occurrence. */
  lemma CategoriesSpec(threats: seq<Threat>, field: Threat -> string)
    ensures forall c :: c in Categories(threats, field) <==> exists t :: t in threats && field(t) == c
    ensures Lists.NoDuplicates(Categories(threats, field))
    ensures var values := Lists.MapSeq(threats, field); var r := Categories(threats, field);
      forall i, j :: 0 <= i < j < |r| ==> Lists.FirstIndex(values, r[i]) < Lists.FirstIndex(values, r[j])
  {
    forall c ensures c in Categories(threats, field) <==> exists t :: t in threats && field(t) == c {
      Lists.InMapSeq(threats, field, c);
    }
  }

  // ---------------------------------------------------------------------------
  // deleteThreat

  function HasId(id: string): Threat -> bool { (t: Threat) => t.id == id }
  function OtherId(id: string): Threat -> bool { (t: Threat) => t.id != id }

  /** `threats.filter((t) => t.id !== id)`. */
  function DeleteById(threats: seq<Threat>, id: string): seq<Threat> {
    Lists.Filter(threats, OtherId(id))
  }

  /** Deleting drops every threat with the id, keeps every other threat in its
      order, and shrinks the list by the number of threats with that id. */
  lemma DeleteByIdSpec(threats: seq<Threat>, id: string)
    ensures forall t :: t in DeleteById(threats, id) <==> t in threats && t.id != id
    ensures Lists.IsSubseq(DeleteById(threats, id), threats)
    ensures |DeleteById(threats, id)| == |threats| - multiset(Ids(threats))[id]
  {
    Lists.FilterIsSubseq(threats, OtherId(id));
    Lists.FilterCountsField(threats, IdOf, id, HasId(id));
    Lists.FilterSplitsLength(threats, HasId(id), OtherId(id));
  }

  /** Deleting an id no threat has changes nothing. */
  lemma DeleteMissingId(threats: seq<Threat>, id: string)
    requires forall t :: t in threats ==> t.id != id
    ensures DeleteById(threats, id) == threats
  {
    Lists.FilterAll(threats, OtherId(id));
  }

  // ---------------------------------------------------------------------------
  // stats

  /** The summary counts shown above the table. */
  datatype Stats = Stats(total: nat, confidentiality: nat, integrity: nat, availability: nat)

  function HasCia(v: string): Threat -> bool { (t: Threat) => t.ciaTriad == v }
  function HasStride(v: string): Threat -> bool { (t: Threat) => t.stride == v }

  const Confidentiality := "Confidentiality"
  const Integrity := "Integrity"
  const Availability := "Availability"

  /** The threats whose CIA value is one of the three counted ones. */
  function CountedCia(): Threat -> bool {
    (t: Threat) => t.ciaTriad == Confidentiality || t.ciaTriad == Integrity || t.ciaTriad == Availability
  }

  function ConfidentialityOrIntegrity(): Threat -> bool {
    (t: Threat) => t.ciaTriad == Confidentiality || t.ciaTriad == Integrity
  }

  /** `stats`, computed over all threats whatever the filters. */
  function StatsOf(threats: seq<Threat>): Stats {
    Stats(
      |threats|,
      |Lists.Filter(threats, HasCia(Confidentiality))|,
      |Lists.Filter(threats, HasCia(Integrity))|,
      |Lists.Filter(threats, HasCia(Availability))|)
  }

  /** The total is the length of the list, each CIA count is the number of
      threats with exactly that value, and the three counts add up to at
      most the total. */
  lemma StatsSpec(threats: seq<Threat>)
    ensures StatsOf(threats).total == |threats|
    ensures StatsOf(threats).confidentiality == multiset(CiaValues(threats))[Confidentiality]
    ensures StatsOf(threats).integrity == multiset(CiaValues(threats))[Integrity]
    ensures StatsOf(threats).availability == multiset(CiaValues(threats))[Availability]
    ensures StatsOf(threats).confidentiality + StatsOf(threats).integrity + StatsOf(threats).availability <= StatsOf(threats).total
  {
    Lists.FilterCountsField(threats, CiaOf, Confidentiality, HasCia(Confidentiality));
    Lists.FilterCountsField(threats, CiaOf, Integrity, HasCia(Integrity));
    Lists.FilterCountsField(threats, CiaOf, Availability, HasCia(Availability));
    Lists.FilterDisjointSum(threats, HasCia(Confidentiality), HasCia(Integrity), ConfidentialityOrIntegrity());
    Lists.FilterDisjointSum(threats, ConfidentialityOrIntegrity(), HasCia(Availability), CountedCia());
  }

  /** Deleting by id lowers the total by exactly the number of threats that
      had that id. */
  lemma DeleteLowersTotal(threats: seq<Threat>, id: string)
    ensures StatsOf(DeleteById(threats, id)).total == StatsOf(threats).total - multiset(Ids(threats))[id]
  {
    DeleteByIdSpec(threats, id);
  }

  // ---------------------------------------------------------------------------
  // exportToExcel

  /** One row of the STRIDE breakdown sheet. */
  datatype BreakdownRow = BreakdownRow(category: string, count: nat)

  /** The STRIDE breakdown sheet: one row per STRIDE category with the number
      of threats in it, over all threats. */
  function StrideBreakdown(threats: seq<Threat>): seq<BreakdownRow> {
    Lists.MapSeq(StrideCategories(threats), (cat: string) => BreakdownRow(cat, |Lists.Filter(threats, HasStride(cat))|))
  }

  /** The sum of the counts of a breakdown. */
  function RowsTotal(rows: seq<BreakdownRow>): nat
    decreases |rows|
  {
    if |rows| == 0 then 0 else RowsTotal(rows[..|rows| - 1]) + rows[|rows| - 1].count
  }

  lemma {:induction false} RowsTotalIsSumCounts(rows: seq<BreakdownRow>, d: seq<string>, m: multiset<string>)
    requires |rows| == |d|
    requires forall i :: 0 <= i < |rows| ==> rows[i].count == m[d[i]]
    ensures RowsTotal(rows) == Lists.SumCounts(d, m)
    decreases |rows|
  {
    if |rows| > 0 {
      var n := |rows| - 1;
      RowsTotalIsSumCounts(rows[..n], d[..n], m);
    }
  }

  /** The breakdown has one row per distinct STRIDE category, in the order of
      the filter menu, each counting the threats of that category, and the
      counts add up to the number of threats. */
  lemma StrideBreakdownSpec(threats: seq<Threat>)
    ensures |StrideBreakdown(threats)| == |StrideCategories(threats)|
    ensures forall i :: 0 <= i < |StrideBreakdown(threats)| ==>
      && StrideBreakdown(threats)[i].category == StrideCategories(threats)[i]
      && StrideBreakdown(threats)[i].count == multiset(Strides(threats))[StrideCategories(threats)[i]]
    ensures RowsTotal(StrideBreakdown(threats)) == |threats|
  {
    var rows := StrideBreakdown(threats);
    var d := StrideCategories(threats);
    var m := multiset(Strides(threats));
    forall i | 0 <= i < |rows| ensures rows[i].category == d[i] && rows[i].count == m[d[i]] {
      Lists.FilterCountsField(threats, StrideOf, d[i], HasStride(d[i]));
    }
    RowsTotalIsSumCounts(rows, d, m);
    Lists.SumCountsOfDistinct(Strides(threats));
  }

  /** What the exported workbook holds: the summary counts, the detail rows
      and the STRIDE breakdown. Column widths, the date and the file name are
      not modelled. */
  datatype Workbook = Workbook(summary: Stats, details: seq<Threat>, breakdown: seq<BreakdownRow>)

  /** The report component's state. */
  class Report {
    var threats: seq<Threat>
    var strideFilter: string
    var ciaFilter: string

    /** The component starts from the generated threats, both filters `all`. */
    constructor (initialThreats: seq<Threat>)
      ensures threats == initialThreats && strideFilter == All && ciaFilter == All
    {
      threats := initialThreats;
      strideFilter := All;
      ciaFilter := All;
    }

    /** The threats currently shown. */
    function Shown(): seq<Threat>
      reads this
    {
      FilteredThreats(threats, strideFilter, ciaFilter)
    }

    /** `deleteThreat(id)`. */
    method DeleteThreat(id: string)
      modifies this
      ensures threats == DeleteById(old(threats), id)
      ensures strideFilter == old(strideFilter) && ciaFilter == old(ciaFilter)
    {
      threats := DeleteById(threats, id);
    }

    /** The STRIDE filter menu's `onChange`. */
    method SetStrideFilter(value: string)
      modifies this
      ensures strideFilter == value
      ensures threats == old(threats) && ciaFilter == old(ciaFilter)
    {
      strideFilter := value;
    }

    /** The CIA filter menu's `onChange`. */
    method SetCiaFilter(value: string)
      modifies this
      ensures ciaFilter == value
      ensures threats == old(threats) && strideFilter == old(strideFilter)
    {
      ciaFilter := value;
    }

    /** `exportToExcel`: the summary and the breakdown cover all threats, the
        detail rows only the shown ones. */
    method ExportToExcel() returns (wb: Workbook)
      ensures wb.summary.total == |threats|
      ensures wb.details == Shown()
      ensures RowsTotal(wb.breakdown) == wb.summary.total
      ensures wb == Workbook(StatsOf(threats), Shown(), StrideBreakdown(threats))
    {
      var summary := StatsOf(threats);
      var details := FilteredThreats(threats, strideFilter, ciaFilter);
      var breakdown := StrideBreakdown(threats);
      StrideBreakdownSpec(threats);
      wb := Workbook(summary, details, breakdown);
    }
  }
}
