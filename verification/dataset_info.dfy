/**
 * src/components/tables/DatasetInfoTable.tsx: the fixed table of in-house cohorts, its
 * grand totals, and the cards that group its rows by organ with per-organ totals.
 */
module DatasetInfo {
  import opened Collections

  /** One row of `datasetInfo`. */
  datatype DatasetRow = DatasetRow(organ: string, source: string, cohort: string, caseNumber: nat, slidesNumber: nat)

  /** `datasetInfo`. */
  const Rows: seq<DatasetRow> := [
    DatasetRow("Lung", "H1", "Metastatic-Cohort", 846, 1422),
    DatasetRow("Lung", "H5", "Metastatic-Cohort", 493, 493),
    DatasetRow("Lung", "H6", "Metastatic-Cohort", 826, 1422),
    DatasetRow("Stomach", "H7", "Biopsy-Cohort", 1345, 2700),
    DatasetRow("Stomach", "H1", "Gastric-Cohort", 403, 404),
    DatasetRow("Stomach", "H4", "Gastric-Cohort", 320, 320),
    DatasetRow("Stomach", "H3", "Gastric-Cohort", 260, 260),
    DatasetRow("Colorectal", "H8", "Colorectal-Cohort", 622, 2779),
    DatasetRow("Colorectal", "H1", "Colorectal-Cohort", 294, 301),
    DatasetRow("Breast", "H9", "Breast-Cohort", 418, 421),
    DatasetRow("Breast", "H2", "Breast-Cohort", 2045, 4275),
    DatasetRow("Brain", "H1", "Glioma-Cohort", 677, 1362)
  ]

  // ---------------------------------------------------------------------------------
  // Totals

  /** The two numeric columns. */
  datatype Column = Cases | Slides

  function Value(row: DatasetRow, column: Column): nat
  {
    match column
    case Cases => row.caseNumber
    case Slides => row.slidesNumber
  }

  /** `rows.reduce((sum, item) => sum + item.<column>, 0)`. */
  function Sum(rows: seq<DatasetRow>, column: Column): nat
  {
    if rows == [] then 0 else Sum(rows[..|rows| - 1], column) + Value(rows[|rows| - 1], column)
  }

  lemma SumSnoc(rows: seq<DatasetRow>, row: DatasetRow, column: Column)
    ensures Sum(rows + [row], column) == Sum(rows, column) + Value(row, column)
  {
    assert (rows + [row])[..|rows|] == rows;
  }

  function Sources(rows: seq<DatasetRow>): (r: seq<string>)
    ensures |r| == |rows| && forall i :: 0 <= i < |rows| ==> r[i] == rows[i].source
  {
    seq(|rows|, i requires 0 <= i < |rows| => rows[i].source)
  }

  function Organs(rows: seq<DatasetRow>): (r: seq<string>)
    ensures |r| == |rows| && forall i :: 0 <= i < |rows| ==> r[i] == rows[i].organ
  {
    seq(|rows|, i requires 0 <= i < |rows| => rows[i].organ)
  }

  /** `new Set(rows.map(...)).size`. */
  function DistinctCount(keys: seq<string>): (n: nat)
    ensures n <= |keys|
    ensures keys != [] ==> n >= 1
  {
    var d := Distinct(keys);
    assert keys != [] ==> keys[0] in d;
    |d|
  }

  /** The four figures of the summary. */
  datatype Summary = Summary(totalCases: nat, totalSlides: nat, totalHospitals: nat, totalOrgans: nat)

  function SummaryOf(rows: seq<DatasetRow>): Summary
  {
    Summary(Sum(rows, Cases), Sum(rows, Slides), DistinctCount(Sources(rows)), DistinctCount(Organs(rows)))
  }

  /** One column of the rows, as numbers. */
  function ColumnOf(rows: seq<DatasetRow>, column: Column): (r: seq<nat>)
    ensures |r| == |rows| && forall i :: 0 <= i < |rows| ==> r[i] == Value(rows[i], column)
  {
    seq(|rows|, i requires 0 <= i < |rows| => Value(rows[i], column))
  }

  function SumOfNats(xs: seq<nat>): nat
  {
    if xs == [] then 0 else SumOfNats(xs[..|xs| - 1]) + xs[|xs| - 1]
  }

  lemma {:induction false} SumIsSumOfColumn(rows: seq<DatasetRow>, column: Column)
    ensures Sum(rows, column) == SumOfNats(ColumnOf(rows, column))
  {
    if rows != [] {
      SumIsSumOfColumn(rows[..|rows| - 1], column);
      assert ColumnOf(rows, column)[..|rows| - 1] == ColumnOf(rows[..|rows| - 1], column);
    }
  }

  lemma {:induction false} SumOfNatsAppend(xs: seq<nat>, ys: seq<nat>)
    ensures SumOfNats(xs + ys) == SumOfNats(xs) + SumOfNats(ys)
  {
    if ys == [] {
      assert xs + ys == xs;
    } else {
      var init := ys[..|ys| - 1];
      SumOfNatsAppend(xs, init);
      assert (xs + ys)[..|xs + ys| - 1] == xs + init;
      assert (xs + ys)[|xs + ys| - 1] == ys[|ys| - 1];
    }
  }

  lemma SumOfFour(a: nat, b: nat, c: nat, d: nat)
    ensures SumOfNats([a, b, c, d]) == a + b + c + d
  {
    assert [a][..0] == [];
    assert SumOfNats([a]) == a;
    assert [a, b][..1] == [a];
    assert SumOfNats([a, b]) == a + b;
    assert [a, b, c][..2] == [a, b];
    assert SumOfNats([a, b, c]) == a + b + c;
    assert [a, b, c, d][..3] == [a, b, c];
  }

  /** The fixed table covers 8549 cases. */
  lemma FixedCases()
    ensures Sum(Rows, Cases) == 8549
  {
    CasesColumn();
    SumIsSumOfColumn(Rows, Cases);
    CasesColumnSum();
  }

  lemma CasesColumn()
    ensures ColumnOf(Rows, Cases) == [846, 493, 826, 1345, 403, 320, 260, 622, 294, 418, 2045, 677]
  {
  }

  lemma CasesColumnSum()
    ensures SumOfNats([846, 493, 826, 1345, 403, 320, 260, 622, 294, 418, 2045, 677]) == 8549
  {
    assert [846, 493, 826, 1345, 403, 320, 260, 622, 294, 418, 2045, 677] == [846, 493, 826, 1345] + [403, 320, 260, 622] + [294, 418, 2045, 677];
    SumOfNatsAppend([846, 493, 826, 1345] + [403, 320, 260, 622], [294, 418, 2045, 677]);
    SumOfNatsAppend([846, 493, 826, 1345], [403, 320, 260, 622]);
    SumOfFour(846, 493, 826, 1345);
    SumOfFour(403, 320, 260, 622);
    SumOfFour(294, 418, 2045, 677);
  }

  /** The fixed table covers 16159 slides. */
  lemma FixedSlides()
    ensures Sum(Rows, Slides) == 16159
  {
    SlidesColumn();
    SumIsSumOfColumn(Rows, Slides);
    SlidesColumnSum();
  }

  lemma SlidesColumn()
    ensures ColumnOf(Rows, Slides) == [1422, 493, 1422, 2700, 404, 320, 260, 2779, 301, 421, 4275, 1362]
  {
  }

  lemma SlidesColumnSum()
    ensures SumOfNats([1422, 493, 1422, 2700, 404, 320, 260, 2779, 301, 421, 4275, 1362]) == 16159
  {
    assert [1422, 493, 1422, 2700, 404, 320, 260, 2779, 301, 421, 4275, 1362] == [1422, 493, 1422, 2700] + [404, 320, 260, 2779] + [301, 421, 4275, 1362];
    SumOfNatsAppend([1422, 493, 1422, 2700] + [404, 320, 260, 2779], [301, 421, 4275, 1362]);
    SumOfNatsAppend([1422, 493, 1422, 2700], [404, 320, 260, 2779]);
    SumOfFour(1422, 493, 1422, 2700);
    SumOfFour(404, 320, 260, 2779);
    SumOfFour(301, 421, 4275, 1362);
  }

  /** A duplicate-free list with the same members as `keys` has as many elements as the Set of `keys`. */
  lemma DistinctCountIs(keys: seq<string>, d: seq<string>)
    requires NoDup(d) && forall x :: x in keys <==> x in d
    ensures DistinctCount(keys) == |d|
  {
    NoDupSubsetLength(Distinct(keys), d);
    NoDupSubsetLength(d, Distinct(keys));
  }

  /** The fixed table draws on 9 hospitals. */
  lemma FixedHospitalCount()
    ensures DistinctCount(Sources(Rows)) == 9
  {
    var d := ["H1", "H5", "H6", "H7", "H4", "H3", "H8", "H9", "H2"];
    assert Sources(Rows) == ["H1", "H5", "H6", "H7", "H1", "H4", "H3", "H8", "H1", "H9", "H2", "H1"];
    DistinctCountIs(Sources(Rows), d);
  }

  /** The fixed table covers 5 organs. */
  lemma FixedOrganCount()
    ensures DistinctCount(Organs(Rows)) == 5
  {
    var d := ["Lung", "Stomach", "Colorectal", "Breast", "Brain"];
    assert Organs(Rows) == ["Lung", "Lung", "Lung", "Stomach", "Stomach", "Stomach", "Stomach",
                            "Colorectal", "Colorectal", "Breast", "Breast", "Brain"];
    DistinctCountIs(Organs(Rows), d);
  }

  /** The four figures shown for the fixed table. */
  lemma FixedSummary()
    ensures SummaryOf(Rows) == Summary(8549, 16159, 9, 5)
  {
    FixedCases();
    FixedSlides();
    FixedHospitalCount();
    FixedOrganCount();
  }

  // ---------------------------------------------------------------------------------
  // Grouping by organ

  /** The Record after the `reduce` over `rows`: each row pushed onto its organ's array, from the end. */
  function Grouped(rows: seq<DatasetRow>): map<string, seq<DatasetRow>>
  {
    if rows == [] then map[]
    else
      var acc := Grouped(rows[..|rows| - 1]);
      var row := rows[|rows| - 1];
      acc[row.organ := (if row.organ in acc then acc[row.organ] else []) + [row]]
  }

  /** The predicate `(item) => item.organ === organ`. */
  function OfOrgan(organ: string): DatasetRow -> bool
  {
    (row: DatasetRow) => row.organ == organ
  }

  /**
   * The Record is keyed by exactly the organs of the rows, and an organ's array holds
   * the rows of that organ in their original order.
   */
  lemma {:induction false} GroupedContents(rows: seq<DatasetRow>)
    ensures forall organ :: organ in Grouped(rows) <==> organ in Organs(rows)
    ensures forall organ :: organ in Grouped(rows) ==> Grouped(rows)[organ] == Filter(rows, OfOrgan(organ))
  {
    if rows != [] {
      var init, row := rows[..|rows| - 1], rows[|rows| - 1];
      assert rows == init + [row];
      assert Organs(rows) == Organs(init) + [row.organ];
      GroupedContents(init);
      forall organ | organ in Grouped(rows) ensures Grouped(rows)[organ] == Filter(rows, OfOrgan(organ)) {
        FilterSnoc(init, row, OfOrgan(organ));
        if organ == row.organ && organ !in Grouped(init) {
          GroupedAbsent(init, organ);
        }
      }
    }
  }

  /** An organ no row has keeps no row. */
  lemma {:induction false} GroupedAbsent(rows: seq<DatasetRow>, organ: string)
    requires organ !in Organs(rows)
    ensures Filter(rows, OfOrgan(organ)) == []
  {
    if rows != [] {
      var init, row := rows[..|rows| - 1], rows[|rows| - 1];
      assert rows == init + [row];
      assert Organs(rows) == Organs(init) + [row.organ];
      GroupedAbsent(init, organ);
      FilterSnoc(init, row, OfOrgan(organ));
    }
  }

  /** What the `reduce` holds after the first `i` rows. */
  ghost predicate GroupedUpTo(rows: seq<DatasetRow>, i: nat, organs: seq<string>, acc: map<string, seq<DatasetRow>>)
    requires i <= |rows|
  {
    organs == Distinct(Organs(rows[..i])) && acc == Grouped(rows[..i])
  }

  lemma GroupedStep(rows: seq<DatasetRow>, i: nat, organs: seq<string>, acc: map<string, seq<DatasetRow>>)
    requires i < |rows| && GroupedUpTo(rows, i, organs, acc)
    ensures var organ := rows[i].organ;
      && (organ in acc <==> organ in organs)
      && GroupedUpTo(rows, i + 1, if organ in organs then organs else organs + [organ],
           acc[organ := (if organ in acc then acc[organ] else []) + [rows[i]]])
  {
    var prefix := rows[..i];
    assert rows[..i + 1] == prefix + [rows[i]];
    assert Organs(rows[..i + 1]) == Organs(prefix) + [rows[i].organ];
    assert (prefix + [rows[i]])[..i] == prefix;
    DistinctSnoc(Organs(prefix), rows[i].organ);
    GroupedHasKey(prefix, rows[i].organ);
  }

  lemma GroupedHasKey(rows: seq<DatasetRow>, organ: string)
    ensures organ in Grouped(rows) <==> organ in Organs(rows)
  {
    GroupedContents(rows);
  }

  /**
   * The `reduce` grouping the rows by organ: `if (!acc[organ]) acc[organ] = []` and then
   * `acc[organ].push(item)`, with the keys in insertion order.
   */
  method GroupByOrgan(rows: seq<DatasetRow>) returns (organs: seq<string>, acc: map<string, seq<DatasetRow>>)
    ensures organs == Distinct(Organs(rows))
    ensures acc == Grouped(rows)
  {
    organs, acc := [], map[];
    for i := 0 to |rows|
      invariant GroupedUpTo(rows, i, organs, acc)
    {
      var item := rows[i];
      GroupedStep(rows, i, organs, acc);
      ghost var before := acc;
      if item.organ !in acc {
        organs := organs + [item.organ];
        acc := acc[item.organ := []];
      }
      acc := acc[item.organ := acc[item.organ] + [item]];
      assert acc == before[item.organ := (if item.organ in before then before[item.organ] else []) + [item]];
    }
    assert rows[..|rows|] == rows;
  }

  // ---------------------------------------------------------------------------------
  // The organ cards

  /** `count > 1 ? 's' : ''`. */
  function Plural(count: nat): string
  {
    if count > 1 then "s" else ""
  }

  /** One card: the organ, its rows, their totals, and the two counts with their plural suffixes. */
  datatype OrganCard = OrganCard(
    organ: string,
    items: seq<DatasetRow>,
    totalCases: nat,
    totalSlides: nat,
    hospitalCount: nat,
    hospitalSuffix: string,
    cohortSuffix: string)

  function CardOf(organ: string, items: seq<DatasetRow>): OrganCard
  {
    var hospitalCount := DistinctCount(Sources(items));
    OrganCard(organ, items, Sum(items, Cases), Sum(items, Slides), hospitalCount,
              Plural(hospitalCount), Plural(|items|))
  }

  /** The card of each organ of `d`, from its group. */
  function CardsOf(d: seq<string>, groups: map<string, seq<DatasetRow>>): (r: seq<OrganCard>)
    requires forall organ :: organ in d ==> organ in groups
    ensures |r| == |d|
    ensures forall i :: 0 <= i < |d| ==> r[i] == CardOf(d[i], groups[d[i]])
  {
    seq(|d|, i requires 0 <= i < |d| => CardOf(d[i], groups[d[i]]))
  }

  /** `Object.entries(grouped).map(...)`: a card per organ, in insertion order. */
  function Cards(rows: seq<DatasetRow>): seq<OrganCard>
  {
    GroupedContents(rows);
    CardsOf(Distinct(Organs(rows)), Grouped(rows))
  }

  /** The total of one column over the cards. */
  function CardsTotal(cards: seq<OrganCard>, column: Column): nat
  {
    if cards == [] then 0
    else
      var c := cards[|cards| - 1];
      CardsTotal(cards[..|cards| - 1], column) + match column case Cases => c.totalCases case Slides => c.totalSlides
  }

  /** The column total of the rows of each organ in `d`, added up. */
  function SumGroups(d: seq<string>, rows: seq<DatasetRow>, column: Column): nat
  {
    if d == [] then 0 else SumGroups(d[..|d| - 1], rows, column) + Sum(Filter(rows, OfOrgan(d[|d| - 1])), column)
  }

  /** One more row adds its value to the grouped total exactly when its organ is listed in `d`. */
  lemma {:induction false} SumGroupsSnoc(d: seq<string>, rows: seq<DatasetRow>, row: DatasetRow, column: Column)
    requires NoDup(d)
    ensures SumGroups(d, rows + [row], column) == SumGroups(d, rows, column) + if row.organ in d then Value(row, column) else 0
  {
    if d != [] {
      var init, organ := d[..|d| - 1], d[|d| - 1];
      assert d == init + [organ];
      NoDupSnoc(init, organ);
      SumGroupsSnoc(init, rows, row, column);
      FilterSnoc(rows, row, OfOrgan(organ));
      SumSnoc(Filter(rows, OfOrgan(organ)), row, column);
    }
  }

  lemma {:induction false} SumGroupsOfNone(d: seq<string>, column: Column)
    ensures SumGroups(d, [], column) == 0
  {
    if d != [] {
      SumGroupsOfNone(d[..|d| - 1], column);
    }
  }

  /** The predicate `(item) => d.includes(item.organ)`. */
  function InOrgans(d: seq<string>): DatasetRow -> bool
  {
    (row: DatasetRow) => row.organ in d
  }

  /** Over duplicate-free organs `d`, the per-organ totals add up to the total of the rows of those organs. */
  lemma {:induction false} SumGroupsIsFilterSum(d: seq<string>, rows: seq<DatasetRow>, column: Column)
    requires NoDup(d)
    ensures SumGroups(d, rows, column) == Sum(Filter(rows, InOrgans(d)), column)
  {
    if rows == [] {
      SumGroupsOfNone(d, column);
    } else {
      var init, row := rows[..|rows| - 1], rows[|rows| - 1];
      assert rows == init + [row];
      SumGroupsIsFilterSum(d, init, column);
      SumGroupsSnoc(d, init, row, column);
      FilterSnoc(init, row, InOrgans(d));
      SumSnoc(Filter(init, InOrgans(d)), row, column);
    }
  }

  lemma {:induction false} CardsTotalIsSumGroups(rows: seq<DatasetRow>, d: seq<string>, groups: map<string, seq<DatasetRow>>, column: Column)
    requires forall organ :: organ in d ==> organ in groups && groups[organ] == Filter(rows, OfOrgan(organ))
    ensures CardsTotal(CardsOf(d, groups), column) == SumGroups(d, rows, column)
  {
    if d != [] {
      var init := d[..|d| - 1];
      CardsTotalIsSumGroups(rows, init, groups, column);
      var cards, last := CardsOf(d, groups), d[|d| - 1];
      assert cards[..|init|] == CardsOf(init, groups);
      assert last in d;
      var items := Filter(rows, OfOrgan(last));
      assert cards[|d| - 1] == CardOf(last, items);
      assert CardsTotal(cards, column) == CardsTotal(CardsOf(init, groups), column) + Sum(items, column);
    }
  }

  /** The per-organ case and slide totals add up to the grand totals. */
  lemma CardsAddUp(rows: seq<DatasetRow>, column: Column)
    ensures CardsTotal(Cards(rows), column) == Sum(rows, column)
  {
    var d := Distinct(Organs(rows));
    GroupedContents(rows);
    CardsTotalIsSumGroups(rows, d, Grouped(rows), column);
    SumGroupsIsFilterSum(d, rows, column);
    assert forall row :: row in rows ==> InOrgans(d)(row) by {
      forall row | row in rows ensures row.organ in Organs(rows) {
        var k :| 0 <= k < |rows| && rows[k] == row;
        assert Organs(rows)[k] == row.organ;
      }
    }
  }

  /**
   * One card per distinct organ, in the order the organs first appear; each card holds
   * the rows of its organ in their order, counts at least one and at most that many
   * hospitals, and pluralises each count exactly when it exceeds one.
   */
  lemma CardsProperties(rows: seq<DatasetRow>)
    ensures var cards := Cards(rows);
      var organs := Distinct(Organs(rows));
      && |cards| == |organs|
      && forall i :: 0 <= i < |cards| ==>
           && cards[i].organ == organs[i]
           && cards[i].items == Filter(rows, OfOrgan(organs[i]))
           && cards[i].items != []
           && 1 <= cards[i].hospitalCount <= |cards[i].items|
           && cards[i].hospitalSuffix == (if cards[i].hospitalCount > 1 then "s" else "")
           && cards[i].cohortSuffix == (if |cards[i].items| > 1 then "s" else "")
  {
    var organs := Distinct(Organs(rows));
    var cards := Cards(rows);
    GroupedContents(rows);
    forall i | 0 <= i < |organs|
      ensures cards[i].items != []
      ensures 1 <= cards[i].hospitalCount <= |cards[i].items|
    {
      assert organs[i] in organs;
      OrganHasRows(rows, organs[i]);
      CardOfCounts(organs[i], Filter(rows, OfOrgan(organs[i])));
    }
  }

  lemma OrganHasRows(rows: seq<DatasetRow>, organ: string)
    requires organ in Organs(rows)
    ensures Filter(rows, OfOrgan(organ)) != []
  {
    var k :| 0 <= k < |rows| && Organs(rows)[k] == organ;
    assert rows[k] in Filter(rows, OfOrgan(organ));
  }

  lemma CardOfCounts(organ: string, items: seq<DatasetRow>)
    requires items != []
    ensures 1 <= CardOf(organ, items).hospitalCount <= |items|
  {
  }
}
