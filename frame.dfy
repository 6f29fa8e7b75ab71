/**
  The data frame of app.py, which the script changes in place: it is loaded
  with the columns `edad`, `sexo` and `riesgo_hipertension`, then gains the
  column `Grupo_Edad` (line 48) and has `sexo` overwritten by its labels
  (line 54); `update_graph` reads it for every selection.
 */
module Frames {
  import opened Wrappers
  import opened AgeGroups
  import opened SexLabels
  import opened RiskPipeline

  /** A cell of the `sexo` column: a survey code as loaded, a label once mapped, or missing. */
  datatype SexoCell = Code(code: int) | Label(name: string) | Missing

  /**
    `Series.map(sexo_labels)` on one cell: a code that is a key of the
    dictionary becomes its label, and every other value becomes missing.
   */
  function MapSexoCell(c: SexoCell): (r: SexoCell)
    ensures !r.Code?
    ensures r == Label("Hombre") <==> c == Code(1)
    ensures r == Label("Mujer") <==> c == Code(2)
    ensures r == Missing <==> c != Code(1) && c != Code(2)
  {
    match c
    case Code(code) =>
      (match SexLabel(code)
       case Some(name) => Label(name)
       case None => Missing)
    case _ => Missing
  }

  /** The label a mapped cell holds, None for a missing one. */
  function CellLabel(c: SexoCell): Option<string> {
    if c.Label? then Some(c.name) else None
  }

  class Frame {
    var edad: seq<int>
    var sexo: seq<SexoCell>
    var riesgo: seq<real>
    /** Absent until line 48 assigns it. */
    var grupoEdad: Option<seq<string>>

    /** All columns have the same length. */
    ghost predicate Valid()
      reads this
    {
      && |sexo| == |edad|
      && |riesgo| == |edad|
      && (grupoEdad.Some? ==> |grupoEdad.value| == |edad|)
    }

    /** The state `update_graph` expects: `Grupo_Edad` present and no raw code left in `sexo`. */
    ghost predicate Prepared()
      reads this
    {
      && Valid()
      && grupoEdad.Some?
      && forall i :: 0 <= i < |sexo| ==> !sexo[i].Code?
    }

    /** `pd.read_csv`: the loaded columns, nothing derived yet. */
    constructor (records: seq<Record>)
      ensures Valid() && grupoEdad == None
      ensures |edad| == |records|
      ensures forall i :: 0 <= i < |records| ==>
        edad[i] == records[i].edad && sexo[i] == Code(records[i].sexo) && riesgo[i] == records[i].riesgo
    {
      edad := seq(|records|, i requires 0 <= i < |records| => records[i].edad);
      sexo := seq(|records|, i requires 0 <= i < |records| => Code(records[i].sexo));
      riesgo := seq(|records|, i requires 0 <= i < |records| => records[i].riesgo);
      grupoEdad := None;
    }

    /** Line 48: `Grupo_Edad` is the label of each row's age bucket; nothing else changes. */
    method AssignAgeGroups()
      requires Valid()
      modifies this
      ensures Valid()
      ensures edad == old(edad) && sexo == old(sexo) && riesgo == old(riesgo)
      ensures grupoEdad.Some?
      ensures forall i :: 0 <= i < |edad| ==> grupoEdad.value[i] == Name(CategorizeAge(edad[i]))
    {
      var ages := edad;
      grupoEdad := Some(seq(|ages|, i requires 0 <= i < |ages| => Name(CategorizeAge(ages[i]))));
    }

    /** Line 54: every `sexo` cell is replaced by its label or by a missing value; nothing else changes. */
    method MapSexo()
      requires Valid()
      modifies this
      ensures Valid()
      ensures edad == old(edad) && riesgo == old(riesgo) && grupoEdad == old(grupoEdad)
      ensures |sexo| == |old(sexo)|
      ensures forall i :: 0 <= i < |sexo| ==> sexo[i] == MapSexoCell(old(sexo)[i])
    {
      var codes := sexo;
      sexo := seq(|codes|, i requires 0 <= i < |codes| => MapSexoCell(codes[i]));
    }

    /** The frame read row by row. */
    function Rows(): seq<Row>
      reads this
      requires Prepared()
    {
      var labels, groups, risks := sexo, grupoEdad.value, riesgo;
      seq(|labels|, i requires 0 <= i < |labels| => Row(CellLabel(labels[i]), groups[i], risks[i]))
    }

    /** `update_graph(selected)`: filter by age group, group by (sexo, Grupo_Edad), mean, times 100. */
    method UpdateGraph(selected: seq<string>) returns (grouped: map<GroupKey, ChartRow>)
      requires Prepared()
      ensures grouped == ChartInput(Rows(), selected)
    {
      var filtered := FilterGroups(Rows(), selected);
      var means := GroupByMean(filtered);
      grouped := WithRiskPercent(means);
    }
  }

  /**
    Lines 32 to 54 of the script: the loaded frame, once both columns are
    assigned, holds exactly the prepared records.
   */
  method Load(records: seq<Record>) returns (df: Frame)
    ensures fresh(df) && df.Prepared()
    ensures df.Rows() == PrepareRows(records)
  {
    df := new Frame(records);
    df.AssignAgeGroups();
    df.MapSexo();
    forall i | 0 <= i < |records|
      ensures df.Rows()[i] == PrepareRow(records[i])
    {
      assert df.sexo[i] == MapSexoCell(Code(records[i].sexo));
    }
  }
}
