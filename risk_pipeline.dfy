/**
  The chart input computed by `update_graph` in app.py: keep the rows whose
  `Grupo_Edad` is selected, group them by (`sexo`, `Grupo_Edad`), take the mean
  of `riesgo_hipertension` per group and add the column `Riesgo (%)`, the mean
  times 100.
 */
module RiskPipeline {
  import opened Wrappers
  import opened AgeGroups
  import opened SexLabels

  /** One survey record as loaded from the CSV: `edad`, `sexo` code, `riesgo_hipertension`. */
  datatype Record = Record(edad: int, sexo: int, riesgo: real)

  /**
    One row of the frame once `Grupo_Edad` is assigned and `sexo` is mapped to
    its label (None is the missing value the map leaves for unknown codes).
   */
  datatype Row = Row(sexo: Option<string>, grupoEdad: string, riesgo: real)

  /** A group of the groupby: a sex label and an age-group label. */
  datatype GroupKey = GroupKey(sexo: string, grupoEdad: string)

  /** Running sum and number of the risks seen for one group. */
  datatype Tally = Tally(sum: real, count: nat)

  /** One row of `grouped`: the mean risk and the `Riesgo (%)` column. */
  datatype ChartRow = ChartRow(riesgo: real, riesgoPct: real)

  /**
    The row a record becomes after lines 48 and 54 of the script: its age
    label names its age bucket, its sex code 1 or 2 is Hombre or Mujer and any
    other code leaves the label missing, and its risk is kept.
   */
  function PrepareRow(rec: Record): (r: Row)
    ensures GroupOfName(r.grupoEdad) == Some(CategorizeAge(rec.edad))
    ensures r.sexo == Some("Hombre") <==> rec.sexo == 1
    ensures r.sexo == Some("Mujer") <==> rec.sexo == 2
    ensures r.sexo.None? <==> rec.sexo != 1 && rec.sexo != 2
    ensures r.riesgo == rec.riesgo
  {
    LabelIsOneOfFour(rec.edad);
    Row(SexLabel(rec.sexo), Name(CategorizeAge(rec.edad)), rec.riesgo)
  }

  /**
    The whole frame after lines 48 and 54: one row per record, in the same
    order, whose age label names the record's bucket, whose sex label follows
    the table 1 -> Hombre, 2 -> Mujer, otherwise missing, and whose risk is kept.
   */
  function PrepareRows(records: seq<Record>): (rows: seq<Row>)
    ensures |rows| == |records|
    ensures forall i :: 0 <= i < |records| ==> rows[i] == PrepareRow(records[i])
    ensures forall i :: 0 <= i < |records| ==>
      && GroupOfName(rows[i].grupoEdad) == Some(CategorizeAge(records[i].edad))
      && (rows[i].sexo == Some("Hombre") <==> records[i].sexo == 1)
      && (rows[i].sexo == Some("Mujer") <==> records[i].sexo == 2)
      && (rows[i].sexo.None? <==> records[i].sexo != 1 && records[i].sexo != 2)
      && rows[i].riesgo == records[i].riesgo
  {
    seq(|records|, i requires 0 <= i < |records| => PrepareRow(records[i]))
  }

  /** The `Grupo_Edad` column. */
  function GroupColumn(rows: seq<Row>): (col: seq<string>)
    ensures |col| == |rows|
    ensures forall i :: 0 <= i < |rows| ==> col[i] == rows[i].grupoEdad
  {
    seq(|rows|, i requires 0 <= i < |rows| => rows[i].grupoEdad)
  }

  // ---------------------------------------------------------------------------
  // Selection of age groups (the dropdown and `isin`)
  // ---------------------------------------------------------------------------

  /**
    `unique()` of a column: each value once, in the order of its first
    occurrence. The dropdown's options and default value are this.
   */
  function Unique(s: seq<string>): (u: seq<string>)
    ensures forall x :: x in u <==> x in s
    ensures forall i, j :: 0 <= i < j < |u| ==> u[i] != u[j]
  {
    if s == [] then []
    else
      var u := Unique(s[..|s| - 1]);
      assert s == s[..|s| - 1] + [s[|s| - 1]];
      if s[|s| - 1] in u then u else u + [s[|s| - 1]]
  }

  /**
    First-occurrence order: reading more of a column only appends to what
    `unique()` already listed.
   */
  lemma {:induction false} UniqueExtends(s: seq<string>, t: seq<string>)
    ensures Unique(s) <= Unique(s + t)
  {
    if t != [] {
      var init := t[..|t| - 1];
      UniqueExtends(s, init);
      assert (s + t)[..|s + t| - 1] == s + init;
    } else {
      assert s + t == s;
    }
  }

  /** The dropdown's default value: every age group present in the frame. */
  function DefaultSelection(rows: seq<Row>): (selected: seq<string>)
    ensures forall x :: x in selected <==> exists i :: 0 <= i < |rows| && rows[i].grupoEdad == x
    ensures forall i, j :: 0 <= i < j < |selected| ==> selected[i] != selected[j]
  {
    var col := GroupColumn(rows);
    assert forall x :: x in col <==> exists i :: 0 <= i < |rows| && rows[i].grupoEdad == x by {
      forall x ensures x in col <==> exists i :: 0 <= i < |rows| && rows[i].grupoEdad == x {
        if x in col {
          var i :| 0 <= i < |col| && col[i] == x;
          assert rows[i].grupoEdad == x;
        }
      }
    }
    Unique(col)
  }

  /** The `isin` filter of `update_graph` (app.py:87): the rows whose age group is selected. */
  function FilterGroups(rows: seq<Row>, selected: seq<string>): (kept: seq<Row>)
    ensures forall r :: r in kept <==> r in rows && r.grupoEdad in selected
  {
    if rows == [] then []
    else (if rows[0].grupoEdad in selected then [rows[0]] else []) + FilterGroups(rows[1..], selected)
  }

  // ---------------------------------------------------------------------------
  // The groupby mean of `update_graph` (app.py:88): mean risk per (sexo, Grupo_Edad) pair
  // ---------------------------------------------------------------------------

  /** The group of a row; a row whose `sexo` is missing belongs to no group. */
  function KeyOf(r: Row): Option<GroupKey> {
    match r.sexo
    case None => None
    case Some(sex) => Some(GroupKey(sex, r.grupoEdad))
  }

  /** Reference definition of a group: the rows that carry key k, in order. */
  function GroupRows(rows: seq<Row>, k: GroupKey): seq<Row> {
    if rows == [] then []
    else (if KeyOf(rows[0]) == Some(k) then [rows[0]] else []) + GroupRows(rows[1..], k)
  }

  /** A group holds exactly the rows with its key. */
  lemma {:induction false} GroupRowsMembers(rows: seq<Row>, k: GroupKey, r: Row)
    ensures r in GroupRows(rows, k) <==> r in rows && KeyOf(r) == Some(k)
  {
    if rows != [] {
      GroupRowsMembers(rows[1..], k, r);
      assert rows == [rows[0]] + rows[1..];
    }
  }

  /** Sum of `riesgo_hipertension` over some rows. */
  function Sum(rows: seq<Row>): real {
    if rows == [] then 0.0 else rows[0].riesgo + Sum(rows[1..])
  }

  /** The arithmetic mean of the risks of a non-empty group. */
  function Mean(group: seq<Row>): real
    requires group != []
  {
    Sum(group) / (|group| as real)
  }

  /** One pass over the rows, adding each labelled row's risk into its group's tally. */
  function Totals(rows: seq<Row>): (t: map<GroupKey, Tally>)
    ensures forall k :: k in t ==> t[k].count > 0
  {
    if rows == [] then map[]
    else
      var t := Totals(rows[1..]);
      match KeyOf(rows[0])
      case None => t
      case Some(k) =>
        var prev := if k in t then t[k] else Tally(0.0, 0);
        t[k := Tally(prev.sum + rows[0].riesgo, prev.count + 1)]
  }

  /**
    The groupby mean: an entry exactly for each group with rows, holding the
    sum of the group's risks divided by its size.
   */
  function GroupByMean(rows: seq<Row>): (grouped: map<GroupKey, real>)
    ensures forall k :: k in grouped <==> GroupRows(rows, k) != []
    ensures forall k :: k in grouped ==> grouped[k] == Mean(GroupRows(rows, k))
  {
    var t := Totals(rows);
    assert forall k :: (k in t <==> GroupRows(rows, k) != []) &&
                       (k in t ==> t[k] == Tally(Sum(GroupRows(rows, k)), |GroupRows(rows, k)|)) by {
      forall k
        ensures k in t <==> GroupRows(rows, k) != []
        ensures k in t ==> t[k] == Tally(Sum(GroupRows(rows, k)), |GroupRows(rows, k)|)
      {
        TotalsAreGroupTallies(rows, k);
      }
    }
    map k | k in t :: t[k].sum / (t[k].count as real)
  }

  /** The `Riesgo (%)` column that `update_graph` adds to the grouped table (app.py:89): the mean risk times 100. */
  function WithRiskPercent(grouped: map<GroupKey, real>): (chart: map<GroupKey, ChartRow>)
    ensures chart.Keys == grouped.Keys
  {
    map k | k in grouped :: ChartRow(grouped[k], grouped[k] * 100.0)
  }

  /**
    The table `update_graph` hands to the bar chart for a selection of age
    groups: a row exactly for each selected group with rows, holding the mean
    risk of ALL the frame's rows of that group and 100 times it.
   */
  function ChartInput(rows: seq<Row>, selected: seq<string>): (chart: map<GroupKey, ChartRow>)
    ensures forall k :: k in chart <==> k.grupoEdad in selected && GroupRows(rows, k) != []
    ensures forall k :: k in chart ==>
      && chart[k].riesgo == Mean(GroupRows(rows, k))
      && chart[k].riesgoPct == 100.0 * chart[k].riesgo
  {
    var filtered := FilterGroups(rows, selected);
    assert forall k :: GroupRows(filtered, k) == if k.grupoEdad in selected then GroupRows(rows, k) else [] by {
      forall k
        ensures GroupRows(filtered, k) == if k.grupoEdad in selected then GroupRows(rows, k) else []
      {
        FilterKeepsGroups(rows, selected, k);
      }
    }
    var grouped := GroupByMean(filtered);
    var chart := WithRiskPercent(grouped);
    assert forall k :: k in chart ==> chart[k] == ChartRow(grouped[k], grouped[k] * 100.0);
    chart
  }

  // ---------------------------------------------------------------------------
  // Properties of the selection
  // ---------------------------------------------------------------------------

  /** The filter keeps every selected row as often as it occurs and drops every other row. */
  lemma {:induction false} FilterCounts(rows: seq<Row>, selected: seq<string>, r: Row)
    ensures multiset(FilterGroups(rows, selected))[r]
            == if r.grupoEdad in selected then multiset(rows)[r] else 0
  {
    if rows != [] {
      FilterCounts(rows[1..], selected, r);
      assert rows == [rows[0]] + rows[1..];
    }
  }

  /** The filter keeps the relative order: filtering a concatenation filters each part. */
  lemma {:induction false} FilterAppend(a: seq<Row>, b: seq<Row>, selected: seq<string>)
    ensures FilterGroups(a + b, selected) == FilterGroups(a, selected) + FilterGroups(b, selected)
  {
    if a == [] {
      assert a + b == b;
    } else {
      var head := if a[0].grupoEdad in selected then [a[0]] else [];
      assert (a + b)[0] == a[0];
      assert (a + b)[1..] == a[1..] + b;
      FilterAppend(a[1..], b, selected);
      calc {
        FilterGroups(a + b, selected);
        head + FilterGroups(a[1..] + b, selected);
        head + (FilterGroups(a[1..], selected) + FilterGroups(b, selected));
        (head + FilterGroups(a[1..], selected)) + FilterGroups(b, selected);
        FilterGroups(a, selected) + FilterGroups(b, selected);
      }
    }
  }

  /** When every row's group is selected the filter returns its input unchanged. */
  lemma {:induction false} FilterKeepsAll(rows: seq<Row>, selected: seq<string>)
    requires forall i :: 0 <= i < |rows| ==> rows[i].grupoEdad in selected
    ensures FilterGroups(rows, selected) == rows
  {
    if rows != [] {
      FilterKeepsAll(rows[1..], selected);
    }
  }

  /** The default selection, every group present, shows the whole frame. */
  lemma DefaultSelectionKeepsAll(rows: seq<Row>)
    ensures FilterGroups(rows, DefaultSelection(rows)) == rows
  {
    var col := GroupColumn(rows);
    forall i | 0 <= i < |rows|
      ensures rows[i].grupoEdad in DefaultSelection(rows)
    {
      assert col[i] == rows[i].grupoEdad;
    }
    FilterKeepsAll(rows, DefaultSelection(rows));
  }

  // ---------------------------------------------------------------------------
  // Properties of the grouping
  // ---------------------------------------------------------------------------

  /** The one-pass tally agrees with the reference definition of each group. */
  lemma {:induction false} TotalsAreGroupTallies(rows: seq<Row>, k: GroupKey)
    ensures k in Totals(rows) <==> GroupRows(rows, k) != []
    ensures k in Totals(rows) ==>
      Totals(rows)[k] == Tally(Sum(GroupRows(rows, k)), |GroupRows(rows, k)|)
  {
    if rows != [] {
      TotalsAreGroupTallies(rows[1..], k);
      var rest := GroupRows(rows[1..], k);
      var t := Totals(rows[1..]);
      if KeyOf(rows[0]) == Some(k) {
        var prev := if k in t then t[k] else Tally(0.0, 0);
        assert prev == Tally(Sum(rest), |rest|);
        assert Totals(rows) == t[k := Tally(prev.sum + rows[0].riesgo, prev.count + 1)];
        assert GroupRows(rows, k) == [rows[0]] + rest;
        assert ([rows[0]] + rest)[0] == rows[0];
        assert ([rows[0]] + rest)[1..] == rest;
        assert Sum([rows[0]] + rest) == rows[0].riesgo + Sum(rest);
      } else {
        assert GroupRows(rows, k) == rest;
        assert KeyOf(rows[0]).Some? ==> Totals(rows) == t[KeyOf(rows[0]).value := Totals(rows)[KeyOf(rows[0]).value]];
      }
    }
  }

  /** A group has rows exactly when some row of the frame carries its key. */
  lemma GroupOccurs(rows: seq<Row>, k: GroupKey)
    ensures GroupRows(rows, k) != [] <==> exists r :: r in rows && KeyOf(r) == Some(k)
  {
    var g := GroupRows(rows, k);
    if g != [] {
      assert g[0] in g;
      GroupRowsMembers(rows, k, g[0]);
    }
    if exists r :: r in rows && KeyOf(r) == Some(k) {
      var r :| r in rows && KeyOf(r) == Some(k);
      GroupRowsMembers(rows, k, r);
    }
  }

  /** Filtering only leaves out whole groups: a selected group keeps all its rows. */
  lemma {:induction false} FilterKeepsGroups(rows: seq<Row>, selected: seq<string>, k: GroupKey)
    ensures GroupRows(FilterGroups(rows, selected), k)
            == if k.grupoEdad in selected then GroupRows(rows, k) else []
  {
    if rows != [] {
      var rest := FilterGroups(rows[1..], selected);
      FilterKeepsGroups(rows[1..], selected, k);
      if rows[0].grupoEdad in selected {
        assert FilterGroups(rows, selected) == [rows[0]] + rest;
        assert ([rows[0]] + rest)[0] == rows[0];
        assert ([rows[0]] + rest)[1..] == rest;
      } else {
        assert FilterGroups(rows, selected) == rest;
      }
    }
  }

  /** Grouping the filtered rows is restricting the grouping of all rows to the selected groups. */
  lemma FilterThenGroup(rows: seq<Row>, selected: seq<string>)
    ensures GroupByMean(FilterGroups(rows, selected))
            == map k | k in GroupByMean(rows) && k.grupoEdad in selected :: GroupByMean(rows)[k]
  {
    var filtered := FilterGroups(rows, selected);
    var lhs := GroupByMean(filtered);
    var rhs := map k | k in GroupByMean(rows) && k.grupoEdad in selected :: GroupByMean(rows)[k];
    forall k
      ensures k in lhs <==> k in rhs
      ensures k in lhs ==> lhs[k] == rhs[k]
    {
      FilterKeepsGroups(rows, selected, k);
      TotalsAreGroupTallies(filtered, k);
      TotalsAreGroupTallies(rows, k);
    }
  }

  /** A row with no sex label changes no group. */
  lemma {:induction false} UnlabelledRowIgnored(a: seq<Row>, r: Row, b: seq<Row>)
    requires r.sexo == None
    ensures Totals(a + [r] + b) == Totals(a + b)
    ensures GroupByMean(a + [r] + b) == GroupByMean(a + b)
  {
    if a == [] {
      assert a + [r] + b == [r] + b;
      assert ([r] + b)[1..] == b;
      assert a + b == b;
    } else {
      assert (a + [r] + b)[0] == a[0] && (a + b)[0] == a[0];
      assert (a + [r] + b)[1..] == a[1..] + [r] + b;
      assert (a + b)[1..] == a[1..] + b;
      UnlabelledRowIgnored(a[1..], r, b);
    }
  }

  // ---------------------------------------------------------------------------
  // Properties of the chart input
  // ---------------------------------------------------------------------------

  /** A chart row exists exactly for each selected (sex, age group) pair that occurs in the frame. */
  lemma ChartKeysOccur(rows: seq<Row>, selected: seq<string>, k: GroupKey)
    ensures k in ChartInput(rows, selected) <==>
      k.grupoEdad in selected && exists r :: r in rows && KeyOf(r) == Some(k)
  {
    GroupOccurs(rows, k);
  }

  /** A group of one record charts that record's risk times 100. */
  lemma SingletonGroup(rows: seq<Row>, selected: seq<string>, k: GroupKey, r: Row)
    requires GroupRows(rows, k) == [r]
    requires k.grupoEdad in selected
    ensures k in ChartInput(rows, selected)
    ensures ChartInput(rows, selected)[k].riesgoPct == 100.0 * r.riesgo
  {
    MeanOfOne(r);
  }

  /** The mean of one risk is that risk. */
  lemma MeanOfOne(r: Row)
    ensures Mean([r]) == r.riesgo
  {
    assert [r][1..] == [];
    assert Sum([r]) == r.riesgo;
    assert |[r]| as real == 1.0;
  }

  /** Risks that are fractions sum to at most the number of rows. */
  lemma {:induction false} SumBounds(rows: seq<Row>)
    requires forall r :: r in rows ==> 0.0 <= r.riesgo <= 1.0
    ensures 0.0 <= Sum(rows) <= |rows| as real
  {
    if rows != [] {
      assert rows[0] in rows;
      SumBounds(rows[1..]);
    }
  }

  /** The mean of n fractions is a fraction. */
  lemma MeanOfFractions(sum: real, n: nat)
    requires 0 < n && 0.0 <= sum <= n as real
    ensures 0.0 <= 100.0 * (sum / (n as real)) <= 100.0
  {
  }

  /** When every risk is a fraction, every `Riesgo (%)` is a percentage. */
  lemma PercentInRange(rows: seq<Row>, selected: seq<string>)
    requires forall r :: r in rows ==> 0.0 <= r.riesgo <= 1.0
    ensures forall k :: k in ChartInput(rows, selected) ==>
      0.0 <= ChartInput(rows, selected)[k].riesgoPct <= 100.0
  {
    var chart := ChartInput(rows, selected);
    forall k | k in chart
      ensures 0.0 <= chart[k].riesgoPct <= 100.0
    {
      var g := GroupRows(rows, k);
      forall r | r in g
        ensures 0.0 <= r.riesgo <= 1.0
      {
        GroupRowsMembers(rows, k, r);
      }
      SumBounds(g);
      MeanOfFractions(Sum(g), |g|);
    }
  }

  // ---------------------------------------------------------------------------
  // At most 2 x 4 rows
  // ---------------------------------------------------------------------------

  /** A row as the script produces it: a known sex label or none, and one of the four age labels. */
  predicate WellFormed(r: Row) {
    && (r.sexo.Some? ==> r.sexo.value in SEX_NAMES)
    && r.grupoEdad in GROUP_NAMES
  }

  /** Every group a well-formed frame can have. */
  const ALL_KEYS: set<GroupKey> := {
    GroupKey(SEXO_LABELS[1], Name(Ninos)), GroupKey(SEXO_LABELS[1], Name(Jovenes)),
    GroupKey(SEXO_LABELS[1], Name(Adultos)), GroupKey(SEXO_LABELS[1], Name(AdultosMayores)),
    GroupKey(SEXO_LABELS[2], Name(Ninos)), GroupKey(SEXO_LABELS[2], Name(Jovenes)),
    GroupKey(SEXO_LABELS[2], Name(Adultos)), GroupKey(SEXO_LABELS[2], Name(AdultosMayores))
  }

  /** The eight keys are distinct. */
  lemma AllKeysCount()
    ensures |ALL_KEYS| == 8
  {
    assert SEXO_LABELS[1] == "Hombre" && SEXO_LABELS[2] == "Mujer";
    var names := [Name(Ninos), Name(Jovenes), Name(Adultos), Name(AdultosMayores)];
    assert names == ["Niños", "Jóvenes", "Adultos", "Adultos Mayores"];
    assert ALL_KEYS == {
      GroupKey("Hombre", "Niños"), GroupKey("Hombre", "Jóvenes"),
      GroupKey("Hombre", "Adultos"), GroupKey("Hombre", "Adultos Mayores"),
      GroupKey("Mujer", "Niños"), GroupKey("Mujer", "Jóvenes"),
      GroupKey("Mujer", "Adultos"), GroupKey("Mujer", "Adultos Mayores")
    };
  }

  /** A known sex label and a known age label make one of the eight keys. */
  lemma KnownKey(sexo: string, grupoEdad: string)
    requires sexo in SEX_NAMES && grupoEdad in GROUP_NAMES
    ensures GroupKey(sexo, grupoEdad) in ALL_KEYS
  {
    LabelSet();
    assert SEXO_LABELS[1] == "Hombre" && SEXO_LABELS[2] == "Mujer";
  }

  lemma PreparedRowsWellFormed(records: seq<Record>)
    ensures forall r :: r in PrepareRows(records) ==> WellFormed(r)
  {
    LabelSet();
    forall r | r in PrepareRows(records)
      ensures WellFormed(r)
    {
      var i :| 0 <= i < |records| && PrepareRows(records)[i] == r;
      LabelIsOneOfFour(records[i].edad);
    }
  }

  /** A well-formed frame charts at most 2 x 4 = 8 groups, whatever is selected. */
  lemma AtMostEight(rows: seq<Row>, selected: seq<string>)
    requires forall r :: r in rows ==> WellFormed(r)
    ensures |ChartInput(rows, selected)| <= 8
  {
    var keys := ChartInput(rows, selected).Keys;
    forall k | k in keys
      ensures k in ALL_KEYS
    {
      ChartKeysOccur(rows, selected, k);
      var r :| r in rows && KeyOf(r) == Some(k);
      assert WellFormed(r);
      KnownKey(r.sexo.value, r.grupoEdad);
    }
    AllKeysCount();
    SubsetSize(keys, ALL_KEYS);
  }

  lemma SubsetSize(a: set<GroupKey>, b: set<GroupKey>)
    requires a <= b
    ensures |a| <= |b|
  {
    assert a * b == a;
    // Mentioning b - a brings in the axiom |b| == |a| + |b - a| for a <= b.
    assert |b - a| >= 0;
  }

  /** Two charts with the same keys and the same entries are equal. */
  lemma SameEntries(a: map<GroupKey, ChartRow>, b: map<GroupKey, ChartRow>)
    requires forall k :: k in a ==> k in b
    requires forall k :: k in b ==> k in a && a[k] == b[k]
    ensures a == b
  {
    assert a.Keys == b.Keys;
  }

  /** Every key that occurs among the three example rows is one of their three keys. */
  lemma ExampleKeyOccurs(rows: seq<Row>, k: GroupKey)
    requires rows == [Row(Some("Hombre"), "Niños", 0.2), Row(Some("Hombre"), "Adultos", 0.4),
                      Row(Some("Mujer"), "Adultos Mayores", 0.6)]
    requires exists r :: r in rows && KeyOf(r) == Some(k)
    ensures k in {GroupKey("Hombre", "Niños"), GroupKey("Hombre", "Adultos"),
                  GroupKey("Mujer", "Adultos Mayores")}
  {
    var r :| r in rows && KeyOf(r) == Some(k);
    assert r == rows[0] || r == rows[1] || r == rows[2];
  }

  /** Each of the three example rows forms a group of its own. */
  lemma ExampleGroups(rows: seq<Row>)
    requires rows == [Row(Some("Hombre"), "Niños", 0.2), Row(Some("Hombre"), "Adultos", 0.4),
                      Row(Some("Mujer"), "Adultos Mayores", 0.6)]
    ensures GroupRows(rows, GroupKey("Hombre", "Niños")) == [rows[0]]
    ensures GroupRows(rows, GroupKey("Hombre", "Adultos")) == [rows[1]]
    ensures GroupRows(rows, GroupKey("Mujer", "Adultos Mayores")) == [rows[2]]
  {
    var k0, k1, k2 := GroupKey("Hombre", "Niños"), GroupKey("Hombre", "Adultos"),
                      GroupKey("Mujer", "Adultos Mayores");
    var tail, last := rows[1..], rows[2..];
    assert tail == [rows[1], rows[2]] && tail[1..] == last && last == [rows[2]] && last[1..] == [];
    assert GroupRows(last, k0) == [] && GroupRows(last, k1) == [] && GroupRows(last, k2) == [rows[2]];
    assert GroupRows(tail, k0) == [] && GroupRows(tail, k1) == [rows[1]] && GroupRows(tail, k2) == [rows[2]];
  }

  /** The chart of the three example rows, with every age group selected. */
  lemma ExampleChart(rows: seq<Row>, selected: seq<string>)
    requires rows == [Row(Some("Hombre"), "Niños", 0.2), Row(Some("Hombre"), "Adultos", 0.4),
                      Row(Some("Mujer"), "Adultos Mayores", 0.6)]
    requires selected == ["Niños", "Jóvenes", "Adultos", "Adultos Mayores"]
    ensures ChartInput(rows, selected)
      == map[GroupKey("Hombre", "Niños") := ChartRow(0.2, 20.0),
             GroupKey("Hombre", "Adultos") := ChartRow(0.4, 40.0),
             GroupKey("Mujer", "Adultos Mayores") := ChartRow(0.6, 60.0)]
  {
    var k0, k1, k2 := GroupKey("Hombre", "Niños"), GroupKey("Hombre", "Adultos"),
                      GroupKey("Mujer", "Adultos Mayores");
    ExampleGroups(rows);
    SingletonGroup(rows, selected, k0, rows[0]);
    SingletonGroup(rows, selected, k1, rows[1]);
    SingletonGroup(rows, selected, k2, rows[2]);
    var chart := ChartInput(rows, selected);
    var want := map[k0 := ChartRow(0.2, 20.0), k1 := ChartRow(0.4, 40.0), k2 := ChartRow(0.6, 60.0)];
    forall k | k in chart
      ensures k in want
    {
      ChartKeysOccur(rows, selected, k);
      ExampleKeyOccurs(rows, k);
    }
    assert k0 in chart && k1 in chart && k2 in chart;
    forall k | k in want
      ensures k in chart && chart[k] == want[k]
    {
    }
    SameEntries(chart, want);
  }

  /** The three-record example: a 17-year-old man, a 40-year-old man and a 70-year-old woman. */
  lemma Example()
    ensures ChartInput(PrepareRows([Record(17, 1, 0.2), Record(40, 1, 0.4), Record(70, 2, 0.6)]),
                       ["Niños", "Jóvenes", "Adultos", "Adultos Mayores"])
      == map[GroupKey("Hombre", "Niños") := ChartRow(0.2, 20.0),
             GroupKey("Hombre", "Adultos") := ChartRow(0.4, 40.0),
             GroupKey("Mujer", "Adultos Mayores") := ChartRow(0.6, 60.0)]
  {
    var rows := PrepareRows([Record(17, 1, 0.2), Record(40, 1, 0.4), Record(70, 2, 0.6)]);
    assert rows == [Row(Some("Hombre"), "Niños", 0.2), Row(Some("Hombre"), "Adultos", 0.4),
                    Row(Some("Mujer"), "Adultos Mayores", 0.6)];
    ExampleChart(rows, ["Niños", "Jóvenes", "Adultos", "Adultos Mayores"]);
  }
}
