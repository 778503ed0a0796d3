/** The model registry (`mcp.json`): an ordered list of models, each with an
    ordered list of field entries `name -> type expression`, and the
    field-type mini-language every generator reads:
      `string` | `number` | `text` | `datetime`   scalar keywords
      `enum:v1|v2|...`                            enumeration, first literal is the default
      `foreign:Model`                             reference to another model
    Any other unprefixed text is passed through as an opaque scalar. */
module Registry {
  import opened JsString

  datatype Field = Field(name: string, typ: string)

  datatype Model = Model(name: string, fields: seq<Field>)

  /** A field-type expression, decided once. */
  datatype FieldKind =
    | Scalar(keyword: string)
    | Enum(values: seq<string>)
    | Foreign(target: string)

  const EnumPrefix: string := "enum:"
  const ForeignPrefix: string := "foreign:"

  predicate IsEnumType(t: string) { StartsWith(t, EnumPrefix) }

  predicate IsForeignType(t: string) { StartsWith(t, ForeignPrefix) }

  /** `t.split(':')[1].split('|')` */
  function EnumValues(t: string): seq<string> {
    Split(At(Split(t, ':'), 1), '|')
  }

  /** `t.split(':')[1]` */
  function ForeignTarget(t: string): string {
    At(Split(t, ':'), 1)
  }

  /** A type expression cannot carry both prefixes. */
  lemma PrefixesExclusive(t: string)
    ensures !(IsEnumType(t) && IsForeignType(t))
  {
    assert IsEnumType(t) ==> t[0] == t[..|EnumPrefix|][0] == 'e';
    assert IsForeignType(t) ==> t[0] == t[..|ForeignPrefix|][0] == 'f';
  }

  /** A type starting with neither `e` nor `f` carries no prefix. */
  lemma UnprefixedByFirstChar(t: string)
    requires |t| > 0 && t[0] != 'e' && t[0] != 'f'
    ensures !IsEnumType(t) && !IsForeignType(t)
  {
    PrefixesExclusive(t);
  }

  function Parse(t: string): (k: FieldKind)
    ensures k.Enum? <==> IsEnumType(t)
    ensures k.Foreign? <==> IsForeignType(t)
    ensures k.Scalar? ==> k.keyword == t
    ensures k.Enum? ==> |k.values| >= 1
  {
    PrefixesExclusive(t);
    if IsEnumType(t) then Enum(EnumValues(t))
    else if IsForeignType(t) then Foreign(ForeignTarget(t))
    else Scalar(t)
  }

  /** The type expression that denotes a kind. */
  function Print(k: FieldKind): string {
    match k
    case Scalar(keyword) => keyword
    case Enum(values) => EnumPrefix + Join(values, "|")
    case Foreign(target) => ForeignPrefix + target
  }

  /** Kinds that have a type expression: literals and model names free of
      the grammar's separators, at least one enum literal, and scalar
      keywords that do not look prefixed. */
  predicate WellFormedKind(k: FieldKind) {
    match k
    case Scalar(keyword) => !IsEnumType(keyword) && !IsForeignType(keyword)
    case Enum(values) =>
      |values| >= 1 && forall i :: 0 <= i < |values| ==> ':' !in values[i] && '|' !in values[i]
    case Foreign(target) => ':' !in target
  }

  /** Type expressions whose remainder after the prefix has no further `:`;
      the generators would silently drop everything after such a colon. */
  predicate IsCanonical(t: string) {
    && (IsEnumType(t) ==> ':' !in t[|EnumPrefix|..])
    && (IsForeignType(t) ==> ':' !in t[|ForeignPrefix|..])
  }

  /** `w:rest` splits on `:` into `w` followed by the pieces of `rest`. */
  lemma SplitAfterTag(t: string, w: string)
    requires ':' !in w && StartsWith(t, w + ":")
    ensures Split(t, ':') == [w] + Split(t[|w| + 1..], ':')
  {
    assert t == w + [':'] + t[|w| + 1..];
    SplitAtSeparator(w, t[|w| + 1..], ':');
  }

  lemma EnumValuesOf(t: string)
    requires IsEnumType(t)
    ensures EnumValues(t) == Split(Head(t[|EnumPrefix|..], ':'), '|')
  {
    SplitAfterTag(t, "enum");
  }

  lemma ForeignTargetOf(t: string)
    requires IsForeignType(t)
    ensures ForeignTarget(t) == Head(t[|ForeignPrefix|..], ':')
  {
    SplitAfterTag(t, "foreign");
  }

  /** Printing a well-formed kind and parsing it back gives the kind. */
  lemma ParsePrint(k: FieldKind)
    requires WellFormedKind(k)
    ensures Parse(Print(k)) == k
  {
    var t := Print(k);
    match k
    case Scalar(keyword) =>
    case Enum(values) =>
      var body := Join(values, "|");
      assert t[|EnumPrefix|..] == body;
      JoinAvoids(values, "|", ':');
      EnumValuesOf(t);
      SplitNoSeparator(body, ':');
      SplitJoin(values, '|');
    case Foreign(target) =>
      assert t[|ForeignPrefix|..] == target;
      ForeignTargetOf(t);
      SplitNoSeparator(target, ':');
  }

  /** Parsing a canonical type expression and printing it back gives the
      same text. */
  lemma PrintParse(t: string)
    requires IsCanonical(t)
    ensures Print(Parse(t)) == t
  {
    PrefixesExclusive(t);
    if IsEnumType(t) {
      var body := t[|EnumPrefix|..];
      EnumValuesOf(t);
      SplitNoSeparator(body, ':');
      JoinSplit(body, '|');
      assert t == EnumPrefix + body;
    } else if IsForeignType(t) {
      var body := t[|ForeignPrefix|..];
      ForeignTargetOf(t);
      SplitNoSeparator(body, ':');
      assert t == ForeignPrefix + body;
    }
  }

  function FieldNames(fields: seq<Field>): (names: seq<string>)
    ensures |names| == |fields|
    ensures forall i :: 0 <= i < |fields| ==> names[i] == fields[i].name
  {
    seq(|fields|, i requires 0 <= i < |fields| => fields[i].name)
  }

  function ModelNames(models: seq<Model>): (names: seq<string>)
    ensures |names| == |models|
    ensures forall i :: 0 <= i < |models| ==> names[i] == models[i].name
  {
    seq(|models|, i requires 0 <= i < |models| => models[i].name)
  }

  /** No two models share a name. */
  predicate DistinctNames(models: seq<Model>) {
    forall i, j :: 0 <= i < j < |models| ==> models[i].name != models[j].name
  }

  /** `f` ends in `Id` and is typed `foreign:`: a relation column, which gets
      an index of its own in the schema. */
  predicate IsForeignKey(f: Field) {
    EndsWith(f.name, "Id") && IsForeignType(f.typ)
  }
}
