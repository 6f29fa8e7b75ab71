/** The `sexo_labels` lookup of app.py and the way `Series.map` applies it. */
module SexLabels {
  import opened Wrappers

  /** The survey's sex codes and their display labels. */
  const SEXO_LABELS: map<int, string> := map[1 := "Hombre", 2 := "Mujer"]

  /** The labels, the values of SEXO_LABELS. */
  const SEX_NAMES: set<string> := SEXO_LABELS.Values

  /** Mapping a code with the dictionary: a code that is not a key gives a missing value. */
  function SexLabel(code: int): (r: Option<string>)
    ensures r == Some("Hombre") <==> code == 1
    ensures r == Some("Mujer") <==> code == 2
    ensures r.None? <==> code != 1 && code != 2
  {
    if code in SEXO_LABELS then Some(SEXO_LABELS[code]) else None
  }

  /** The dictionary has exactly the two labels. */
  lemma LabelSet()
    ensures SEX_NAMES == {"Hombre", "Mujer"}
  {
    assert SEXO_LABELS[1] in SEX_NAMES && SEXO_LABELS[2] in SEX_NAMES;
    forall v | v in SEX_NAMES
      ensures v == "Hombre" || v == "Mujer"
    {
      var c :| c in SEXO_LABELS && SEXO_LABELS[c] == v;
    }
  }

  /** Every label a code gets is one of the dictionary's labels. */
  lemma LabelValues(code: int)
    ensures SexLabel(code).Some? ==> SexLabel(code).value in SEX_NAMES
  {
    LabelSet();
  }

  /** Labels identify codes: the two labelled groups never merge. */
  lemma LabelInjective(a: int, b: int)
    requires SexLabel(a).Some?
    ensures SexLabel(a) == SexLabel(b) ==> a == b
  {
  }
}
