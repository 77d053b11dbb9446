/** The bike document (`Velo`) as the storage schema defines it. */
module Velos {
  import opened Wrappers
  import Text

  /** Frame size, the schema's `taille` enumeration. */
  datatype Taille = Grand | Moyenne | Petit

  /** Drive type, the schema's `type` enumeration. */
  datatype VeloType = Normal | Electrique

  function TailleName(t: Taille): string {
    match t
    case Grand => "Grand"
    case Moyenne => "Moyenne"
    case Petit => "petit"
  }

  function TypeName(k: VeloType): string {
    match k
    case Normal => "normal"
    case Electrique => "electrique"
  }

  /** The `enum` validator of `taille`: exactly the three listed spellings. */
  function ParseTaille(s: string): (r: Option<Taille>)
    ensures r.Some? <==> s in ["Grand", "Moyenne", "petit"]
    ensures r.Some? ==> TailleName(r.value) == s
  {
    if s == "Grand" then Some(Grand)
    else if s == "Moyenne" then Some(Moyenne)
    else if s == "petit" then Some(Petit)
    else None
  }

  /** The `enum` validator of `type`: exactly `normal` and `electrique`. */
  function ParseType(s: string): (r: Option<VeloType>)
    ensures r.Some? <==> s in ["normal", "electrique"]
    ensures r.Some? ==> TypeName(r.value) == s
  {
    if s == "normal" then Some(Normal)
    else if s == "electrique" then Some(Electrique)
    else None
  }

  lemma TailleRoundTrip(t: Taille)
    ensures ParseTaille(TailleName(t)) == Some(t)
  {
  }

  lemma TypeRoundTrip(k: VeloType)
    ensures ParseType(TypeName(k)) == Some(k)
  {
  }

  /** A stored bike. `prix` and `image` are optional. `available` is a
      boolean: the schema's default fills a missing flag, and a flag stored
      as null is not modelled. */
  datatype Velo = Velo(
    id: int,
    model: string,
    taille: Taille,
    kind: VeloType,
    prix: Option<int>,
    image: Option<string>,
    available: bool)

  /** What a create request may carry: every field may be missing. */
  datatype VeloInput = VeloInput(
    id: Option<int>,
    model: Option<string>,
    taille: Option<string>,
    kind: Option<string>,
    prix: Option<int>,
    image: Option<string>,
    available: Option<bool>)

  /** The schema paths that can fail validation. */
  datatype VeloField = IdField | ModelField | TailleField | TypeField

  /** A stored bike satisfies the schema. */
  predicate Valid(v: Velo) {
    |v.model| > 0
  }

  /** The paths whose validators fail on `inp`: a missing required value, or
      a present value outside its enumeration. */
  function VeloErrors(inp: VeloInput): (errs: set<VeloField>)
    ensures IdField in errs <==> inp.id.None?
    ensures ModelField in errs <==> !Text.HasText(inp.model)
    ensures TailleField in errs <==> !Text.HasText(inp.taille) || ParseTaille(inp.taille.value).None?
    ensures TypeField in errs <==> !Text.HasText(inp.kind) || ParseType(inp.kind.value).None?
  {
    (if inp.id.None? then {IdField} else {})
    + (if !Text.HasText(inp.model) then {ModelField} else {})
    + (if !Text.HasText(inp.taille) || ParseTaille(inp.taille.value).None? then {TailleField} else {})
    + (if !Text.HasText(inp.kind) || ParseType(inp.kind.value).None? then {TypeField} else {})
  }

  /** Creating a bike document: it fails with every failing path, or it
      succeeds with a valid bike carrying the given values and `available`
      defaulting to true. */
  function CreateVelo(inp: VeloInput): (r: Result<Velo, set<VeloField>>)
    ensures r.Failure? <==> VeloErrors(inp) != {}
    ensures r.Failure? ==> r.error == VeloErrors(inp)
    ensures r.Success? ==> Valid(r.value)
    ensures r.Success? ==>
      && Some(r.value.id) == inp.id
      && Some(r.value.model) == inp.model
      && Some(TailleName(r.value.taille)) == inp.taille
      && Some(TypeName(r.value.kind)) == inp.kind
      && r.value.prix == inp.prix
      && r.value.image == inp.image
    ensures r.Success? ==> r.value.available == inp.available.GetOr(true)
  {
    var errs := VeloErrors(inp);
    if errs != {} then Failure(errs)
    else Success(Velo(
      inp.id.value, inp.model.value,
      ParseTaille(inp.taille.value).value, ParseType(inp.kind.value).value,
      inp.prix, inp.image, inp.available.GetOr(true)))
  }

  /** The input that describes an existing bike in full. */
  function ToInput(v: Velo): VeloInput {
    VeloInput(Some(v.id), Some(v.model), Some(TailleName(v.taille)),
              Some(TypeName(v.kind)), v.prix, v.image, Some(v.available))
  }

  /** Every valid bike can be created again from its own description. */
  lemma CreateVeloRoundTrip(v: Velo)
    requires Valid(v)
    ensures CreateVelo(ToInput(v)) == Success(v)
  {
    TailleRoundTrip(v.taille);
    TypeRoundTrip(v.kind);
  }
}
