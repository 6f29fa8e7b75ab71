/**
  The age buckets of the dashboard (`categorize_age` in app.py) and the
  labels stored in the `Grupo_Edad` column.
 */
module AgeGroups {
  import opened Wrappers

  /** The four buckets, youngest first. */
  datatype AgeGroup = Ninos | Jovenes | Adultos | AdultosMayores

  /** Position of a bucket in the order Niños < Jóvenes < Adultos < Adultos Mayores. */
  function Rank(g: AgeGroup): (n: nat)
    ensures n < 4
  {
    match g
    case Ninos => 0
    case Jovenes => 1
    case Adultos => 2
    case AdultosMayores => 3
  }

  /** The label that `categorize_age` returns for a bucket. */
  function Name(g: AgeGroup): string {
    match g
    case Ninos => "Niños"
    case Jovenes => "Jóvenes"
    case Adultos => "Adultos"
    case AdultosMayores => "Adultos Mayores"
  }

  /** Every label the `Grupo_Edad` column can hold. */
  const GROUP_NAMES: set<string> := {Name(Ninos), Name(Jovenes), Name(Adultos), Name(AdultosMayores)}

  /** Reads a `Grupo_Edad` label back; any other text names no bucket. */
  function GroupOfName(s: string): (r: Option<AgeGroup>)
    ensures r.Some? <==> s in GROUP_NAMES
    ensures r.Some? ==> Name(r.value) == s
  {
    if s == Name(Ninos) then Some(Ninos)
    else if s == Name(Jovenes) then Some(Jovenes)
    else if s == Name(Adultos) then Some(Adultos)
    else if s == Name(AdultosMayores) then Some(AdultosMayores)
    else None
  }

  /**
    The lower age bounds of Jóvenes, Adultos and Adultos Mayores: bucket
    number n (by Rank) holds the ages from THRESHOLDS[n-1] (no bound for
    n = 0) up to, but not including, THRESHOLDS[n] (no bound for n = 3).
   */
  const THRESHOLDS: seq<int> := [18, 36, 61]

  /** The half-open age interval of a bucket, written from THRESHOLDS. */
  predicate InBucket(edad: int, g: AgeGroup) {
    && (Rank(g) == 0 || THRESHOLDS[Rank(g) - 1] <= edad)
    && (Rank(g) == 3 || edad < THRESHOLDS[Rank(g)])
  }

  /** `categorize_age`: defined for every integer age, negative ones included. */
  function CategorizeAge(edad: int): (g: AgeGroup)
    ensures InBucket(edad, g)
  {
    if edad < 18 then Ninos
    else if edad < 36 then Jovenes
    else if edad < 61 then Adultos
    else AdultosMayores
  }

  /** The buckets partition the integers: an age lies in exactly one interval, the one chosen. */
  lemma BucketsPartition(edad: int, g: AgeGroup)
    ensures InBucket(edad, g) <==> CategorizeAge(edad) == g
  {
  }

  /** Every age gets exactly one of the four labels. */
  lemma LabelIsOneOfFour(edad: int)
    ensures Name(CategorizeAge(edad)) in GROUP_NAMES
    ensures GroupOfName(Name(CategorizeAge(edad))) == Some(CategorizeAge(edad))
  {
  }

  /** Distinct buckets have distinct labels, so the label column loses nothing. */
  lemma NameInjective(g: AgeGroup, h: AgeGroup)
    ensures Name(g) == Name(h) ==> g == h
  {
  }

  /** The bounds are lower-inclusive; ages below 18, negative ones too, are children. */
  lemma Boundaries(edad: int)
    ensures edad < 0 ==> CategorizeAge(edad) == Ninos
    ensures CategorizeAge(17) == Ninos && CategorizeAge(18) == Jovenes
    ensures CategorizeAge(35) == Jovenes && CategorizeAge(36) == Adultos
    ensures CategorizeAge(60) == Adultos && CategorizeAge(61) == AdultosMayores
  {
  }

  /** An older person is never put in a younger bucket. */
  lemma Monotone(a: int, b: int)
    requires a <= b
    ensures Rank(CategorizeAge(a)) <= Rank(CategorizeAge(b))
  {
  }
}
