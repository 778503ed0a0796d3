/** The TypeScript types emitter (`generateTypeDefinitions`, written to
    `frontend/src/types/models.ts`).

    The file is a fixed header, then one `export enum` block for EVERY
    enum-typed field occurrence (no de-duplication, unlike the Prisma
    schema), then three interfaces per registry model: the entity, its
    `Create…Input` and its `Update…Input`. */
module TypeDefs {
  import opened JsString
  import opened Seqs
  import opened Registry

  function Comment(text: string): string {
    "// " + text
  }

  const Header: seq<string> := [
    Comment("Tipos gerados automaticamente a partir do MCP"),
    Comment("NÃO EDITE ESTE ARQUIVO DIRETAMENTE"),
    "",
    "export type TenantId = string;",
    ""
  ]

  // ---------------------------------------------------------------------
  // Enums

  function EnumHeader(fieldName: string): string {
    "export enum " + Capitalize(fieldName) + " {"
  }

  /** One enum member: the upper-cased literal bound to the literal. */
  function EnumMemberLine(value: string): string {
    "  " + ToUpper(value) + " = \"" + value + "\","
  }

  function EnumMemberLines(values: seq<string>): (lines: seq<string>)
    ensures |lines| == |values|
    ensures forall k :: 0 <= k < |values| ==> lines[k] == EnumMemberLine(values[k])
  {
    seq(|values|, k requires 0 <= k < |values| => EnumMemberLine(values[k]))
  }

  function EnumBlock(f: Field): seq<string> {
    [EnumHeader(f.name)] + EnumMemberLines(EnumValues(f.typ)) + ["}", ""]
  }

  predicate HasEnumType(f: Field) {
    IsEnumType(f.typ)
  }

  /** The enum blocks of one model's fields, in field order. */
  function EnumBlocks(fields: seq<Field>): seq<string>
    decreases |fields|
  {
    if |fields| == 0 then []
    else (if HasEnumType(fields[0]) then EnumBlock(fields[0]) else []) + EnumBlocks(fields[1..])
  }

  /** The enum blocks of the whole registry: models in order, fields in
      order. */
  function EnumSection(models: seq<Model>): seq<string>
    decreases |models|
  {
    if |models| == 0 then [] else EnumBlocks(models[0].fields) + EnumSection(models[1..])
  }

  /** Every enum-typed field occurrence of the registry, repeats included. */
  function EnumFields(models: seq<Model>): seq<Field>
    decreases |models|
  {
    if |models| == 0 then [] else Filter(models[0].fields, HasEnumType) + EnumFields(models[1..])
  }

  // ---------------------------------------------------------------------
  // Interfaces

  /** The TypeScript type written for a field. A `foreign:` reference and
      any unknown type fall through to `string`. */
  function TsType(fieldName: string, t: string): string {
    if t == "number" then "number"
    else if t == "datetime" then "Date"
    else if t == "text" then "string | null"
    else if IsEnumType(t) then Capitalize(fieldName)
    else "string"
  }

  datatype Member = Member(name: string, optional: bool, tsType: string)

  datatype Interface = Interface(name: string, members: seq<Member>)

  function MemberLine(m: Member): string {
    "  " + m.name + (if m.optional then "?" else "") + ": " + m.tsType + ";"
  }

  function InterfaceHeader(name: string): string {
    "export interface " + name + " {"
  }

  function InterfaceLines(i: Interface): seq<string> {
    [InterfaceHeader(i.name)]
    + seq(|i.members|, k requires 0 <= k < |i.members| => MemberLine(i.members[k]))
    + ["}", ""]
  }

  /** A field that belongs in the input interfaces: any but `id`. */
  predicate IsDataField(f: Field) {
    f.name != "id"
  }

  function DataFields(fields: seq<Field>): seq<Field> {
    Filter(fields, IsDataField)
  }

  /** The positions of the data fields among all the fields, in order. */
  function DataPositions(fields: seq<Field>): seq<nat> {
    DataPositionsFrom(fields, 0)
  }

  /** The positions of the data fields at `i` or later. */
  function DataPositionsFrom(fields: seq<Field>, i: nat): seq<nat>
    requires i <= |fields|
    decreases |fields| - i
  {
    if i == |fields| then []
    else (if IsDataField(fields[i]) then [i] else []) + DataPositionsFrom(fields, i + 1)
  }

  /** A field is optional on creation when it is `text` or the tenant key. */
  predicate OptionalOnCreate(f: Field) {
    f.typ == "text" || f.name == "tenantId"
  }

  function EntityInterface(m: Model): Interface {
    Interface(m.name,
      seq(|m.fields|, k requires 0 <= k < |m.fields| =>
        Member(m.fields[k].name, false, TsType(m.fields[k].name, m.fields[k].typ)))
      + [Member("createdAt", false, "Date"), Member("updatedAt", false, "Date")])
  }

  function CreateInterface(m: Model): Interface {
    var ds := DataFields(m.fields);
    Interface("Create" + m.name + "Input",
      seq(|ds|, k requires 0 <= k < |ds| =>
        Member(ds[k].name, OptionalOnCreate(ds[k]), TsType(ds[k].name, ds[k].typ))))
  }

  function UpdateInterface(m: Model): Interface {
    var ds := DataFields(m.fields);
    Interface("Update" + m.name + "Input",
      [Member("id", false, "string")]
      + seq(|ds|, k requires 0 <= k < |ds| => Member(ds[k].name, true, TsType(ds[k].name, ds[k].typ))))
  }

  /** The three interfaces of one model, in emission order. */
  function ModelInterfaces(m: Model): seq<string> {
    InterfaceLines(EntityInterface(m)) + InterfaceLines(CreateInterface(m))
    + InterfaceLines(UpdateInterface(m))
  }

  function InterfaceSection(models: seq<Model>): seq<string> {
    Flatten(seq(|models|, i requires 0 <= i < |models| => ModelInterfaces(models[i])))
  }

  function TypeLines(models: seq<Model>): seq<string> {
    Header + EnumSection(models) + InterfaceSection(models)
  }

  /** `generateTypeDefinitions` */
  function GenerateTypeDefinitions(models: seq<Model>): string {
    Text(TypeLines(models))
  }

  // ---------------------------------------------------------------------
  // The type map

  /** The type map as a function of the parsed field kind. */
  function TsTypeOfKind(fieldName: string, k: FieldKind): string {
    match k
    case Scalar(keyword) =>
      if keyword == "number" then "number"
      else if keyword == "datetime" then "Date"
      else if keyword == "text" then "string | null"
      else "string"
    case Enum(_) => Capitalize(fieldName)
    case Foreign(_) => "string"
  }

  /** The emitter's chain of string tests agrees with the kind-based map:
      `number`, `datetime` and `text` have their own types, an enum is
      typed by its capitalised field name, and a reference or any other
      text is a plain `string`. */
  lemma TsTypeFollowsGrammar(fieldName: string, t: string)
    ensures TsType(fieldName, t) == TsTypeOfKind(fieldName, Parse(t))
  {
    UnprefixedByFirstChar("number");
    UnprefixedByFirstChar("datetime");
    UnprefixedByFirstChar("text");
  }

  /** Only an enum field can carry a type other than the four fixed ones,
      and then it is the field's own capitalised name. */
  lemma TsTypeRange(fieldName: string, t: string)
    ensures TsType(fieldName, t) in ["number", "Date", "string | null", "string"]
      || (IsEnumType(t) && TsType(fieldName, t) == Capitalize(fieldName))
    ensures IsForeignType(t) ==> TsType(fieldName, t) == "string"
  {
    UnprefixedByFirstChar("number");
    UnprefixedByFirstChar("datetime");
    UnprefixedByFirstChar("text");
    PrefixesExclusive(t);
  }

  // ---------------------------------------------------------------------
  // Interface contents

  /** The entity lists every field in order with its mapped type, none
      optional, and then the two audit timestamps. */
  lemma EntityMembers(m: Model)
    ensures var ms := EntityInterface(m).members;
      && |ms| == |m.fields| + 2
      && (forall k :: 0 <= k < |m.fields| ==>
            ms[k].name == m.fields[k].name && !ms[k].optional
            && ms[k].tsType == TsTypeOfKind(m.fields[k].name, Parse(m.fields[k].typ)))
      && ms[|m.fields|] == Member("createdAt", false, "Date")
      && ms[|m.fields| + 1] == Member("updatedAt", false, "Date")
  {
    forall k | 0 <= k < |m.fields|
      ensures TsType(m.fields[k].name, m.fields[k].typ)
        == TsTypeOfKind(m.fields[k].name, Parse(m.fields[k].typ))
    {
      TsTypeFollowsGrammar(m.fields[k].name, m.fields[k].typ);
    }
  }

  /** A capitalised name never reads `string | null`. */
  lemma CapitalizedIsNotNullable(name: string)
    ensures Capitalize(name) != "string | null"
  {
    if |name| > 0 {
      assert Capitalize(name)[0] == UpperChar(name[0]) != 's';
    }
  }

  /** The data fields are the non-`id` fields in field order: data field
      `k` is the field at position `k` of a strictly increasing list of
      positions that holds every non-`id` field. */
  lemma DataPositionsSpec(fields: seq<Field>)
    ensures var ps := DataPositions(fields);
      var ds := DataFields(fields);
      && |ps| == |ds|
      && (forall k :: 0 <= k < |ps| ==> ps[k] < |fields| && ds[k] == fields[ps[k]])
      && (forall k, l :: 0 <= k < l < |ps| ==> ps[k] < ps[l])
      && (forall j :: 0 <= j < |fields| && fields[j].name != "id" ==> j in ps)
  {
    assert fields[0..] == fields;
    DataPositionsAt(fields, 0);
    DataPositionsIncrease(fields, 0);
    DataPositionsCover(fields, 0);
  }

  lemma {:induction false} DataPositionsAt(fields: seq<Field>, i: nat)
    requires i <= |fields|
    ensures |DataPositionsFrom(fields, i)| == |DataFields(fields[i..])|
    ensures forall k :: 0 <= k < |DataPositionsFrom(fields, i)| ==>
      i <= DataPositionsFrom(fields, i)[k] < |fields|
      && DataFields(fields[i..])[k] == fields[DataPositionsFrom(fields, i)[k]]
    decreases |fields| - i
  {
    if i < |fields| {
      DataPositionsAt(fields, i + 1);
      assert fields[i..][1..] == fields[i + 1..];
      assert fields[i..][0] == fields[i];
      var head := if IsDataField(fields[i]) then [fields[i]] else [];
      assert DataFields(fields[i..]) == head + DataFields(fields[i + 1..]);
    }
  }

  lemma {:induction false} DataPositionsIncrease(fields: seq<Field>, i: nat)
    requires i <= |fields|
    ensures forall k :: 0 <= k < |DataPositionsFrom(fields, i)| ==> i <= DataPositionsFrom(fields, i)[k]
    ensures forall k, l :: 0 <= k < l < |DataPositionsFrom(fields, i)| ==>
      DataPositionsFrom(fields, i)[k] < DataPositionsFrom(fields, i)[l]
    decreases |fields| - i
  {
    if i < |fields| {
      DataPositionsIncrease(fields, i + 1);
      var rest := DataPositionsFrom(fields, i + 1);
      var ps := DataPositionsFrom(fields, i);
      if IsDataField(fields[i]) {
        assert ps == [i] + rest;
        forall k, l | 0 <= k < l < |ps|
          ensures ps[k] < ps[l]
        {
          assert ps[l] == rest[l - 1];
          if k > 0 {
            assert ps[k] == rest[k - 1];
          }
        }
      }
    }
  }

  lemma {:induction false} DataPositionsCover(fields: seq<Field>, i: nat)
    requires i <= |fields|
    ensures forall j :: i <= j < |fields| && fields[j].name != "id" ==> j in DataPositionsFrom(fields, i)
    decreases |fields| - i
  {
    if i < |fields| {
      DataPositionsCover(fields, i + 1);
    }
  }

  /** Member `k` of the create input describes data field `k`: it is the
      entity member at the `k`-th position of the non-`id` fields, with
      the same name and type, and it is optional exactly when it is
      nullable or the tenant key. */
  lemma CreateMemberAt(m: Model, k: nat)
    requires k < |CreateInterface(m).members|
    ensures var c := CreateInterface(m).members[k];
      var e := EntityInterface(m).members;
      var ps := DataPositions(m.fields);
      && |CreateInterface(m).members| == |ps|
      && ps[k] < |m.fields|
      && m.fields[ps[k]].name != "id"
      && e[ps[k]] == Member(c.name, false, c.tsType)
      && (c.optional <==> (c.tsType == "string | null" || c.name == "tenantId"))
  {
    var ds := DataFields(m.fields);
    var f := ds[k];
    var c := CreateInterface(m).members[k];
    DataPositionsSpec(m.fields);
    var p := DataPositions(m.fields)[k];
    assert c == Member(f.name, OptionalOnCreate(f), TsType(f.name, f.typ));
    CapitalizedIsNotNullable(f.name);
    assert TsType(f.name, f.typ) == "string | null" <==> f.typ == "text";
    assert m.fields[p] == f;
    assert EntityInterface(m).members[p] == Member(c.name, false, c.tsType);
  }

  /** The update input is a required `id` followed by the create input's
      members, each made optional. */
  lemma UpdateMembers(m: Model)
    ensures var c := CreateInterface(m).members;
      var u := UpdateInterface(m).members;
      && |u| == |c| + 1
      && u[0] == Member("id", false, "string")
      && forall k :: 0 <= k < |c| ==> u[k + 1] == c[k].(optional := true)
  {
    var ds := DataFields(m.fields);
    var c := CreateInterface(m).members;
    var u := UpdateInterface(m).members;
    var tail := seq(|ds|, k requires 0 <= k < |ds| => Member(ds[k].name, true, TsType(ds[k].name, ds[k].typ)));
    assert u == [Member("id", false, "string")] + tail;
    forall k | 0 <= k < |c|
      ensures u[k + 1] == c[k].(optional := true)
    {
      assert u[k + 1] == tail[k];
    }
  }

  /** The three interfaces describe each non-`id` field alike: the create
      input has one member per non-`id` field, in field order, with the
      entity's name and type; it marks a field optional exactly when it is
      nullable or `tenantId`; the update input puts a required `id: string`
      first and then the same members, all optional. */
  lemma InputInterfacesAgree(m: Model)
    ensures var c := CreateInterface(m).members;
      var u := UpdateInterface(m).members;
      var e := EntityInterface(m).members;
      var ps := DataPositions(m.fields);
      && |c| == |ps|
      && |u| == |c| + 1
      && u[0] == Member("id", false, "string")
      && (forall k :: 0 <= k < |c| ==>
            && ps[k] < |m.fields|
            && m.fields[ps[k]].name != "id"
            && e[ps[k]] == Member(c[k].name, false, c[k].tsType)
            && (c[k].optional <==> (c[k].tsType == "string | null" || c[k].name == "tenantId"))
            && u[k + 1] == c[k].(optional := true))
      && (forall k, l :: 0 <= k < l < |ps| ==> ps[k] < ps[l])
      && (forall j :: 0 <= j < |m.fields| && m.fields[j].name != "id" ==> j in ps)
  {
    var c := CreateInterface(m).members;
    var ps := DataPositions(m.fields);
    DataPositionsSpec(m.fields);
    UpdateMembers(m);
    forall k | 0 <= k < |c|
      ensures ps[k] < |m.fields| && m.fields[ps[k]].name != "id"
      ensures EntityInterface(m).members[ps[k]] == Member(c[k].name, false, c[k].tsType)
      ensures c[k].optional <==> (c[k].tsType == "string | null" || c[k].name == "tenantId")
    {
      CreateMemberAt(m, k);
    }
  }

  // ---------------------------------------------------------------------
  // Declaration headers

  predicate IsEnumHeader(line: string) {
    StartsWith(line, "export enum ")
  }

  predicate IsInterfaceHeader(line: string) {
    StartsWith(line, "export interface ")
  }

  /** Both kinds of header open with `e`, and neither is mistaken for the
      other. */
  lemma HeaderKinds(line: string)
    ensures IsEnumHeader(line) ==> |line| > 0 && line[0] == 'e' && !IsInterfaceHeader(line)
    ensures IsInterfaceHeader(line) ==> |line| > 0 && line[0] == 'e' && !IsEnumHeader(line)
  {
    if IsEnumHeader(line) {
      assert line[..12][0] == 'e' && line[..12][7] == 'e';
    }
    if IsInterfaceHeader(line) {
      assert line[..17][0] == 'e' && line[..17][7] == 'i';
    }
  }

  /** Lines that do not open with `e` hold no header of either kind. */
  lemma NoHeaders(lines: seq<string>)
    requires forall i :: 0 <= i < |lines| ==> |lines[i]| == 0 || lines[i][0] != 'e'
    ensures Filter(lines, IsEnumHeader) == [] && Filter(lines, IsInterfaceHeader) == []
  {
    forall line | IsEnumHeader(line)
      ensures |line| > 0 && line[0] == 'e'
    {
      HeaderKinds(line);
    }
    forall line | IsInterfaceHeader(line)
      ensures |line| > 0 && line[0] == 'e'
    {
      HeaderKinds(line);
    }
    FilterNoneByHead(lines, 'e', IsEnumHeader);
    FilterNoneByHead(lines, 'e', IsInterfaceHeader);
  }

  /** Each interface block holds exactly one interface header, its own,
      and no enum header. */
  lemma InterfaceLinesHeaders(i: Interface)
    ensures Filter(InterfaceLines(i), IsInterfaceHeader) == [InterfaceHeader(i.name)]
    ensures Filter(InterfaceLines(i), IsEnumHeader) == []
  {
    var h := [InterfaceHeader(i.name)];
    var body := seq(|i.members|, k requires 0 <= k < |i.members| => MemberLine(i.members[k]));
    assert InterfaceLines(i) == h + body + ["}", ""];
    assert InterfaceHeader(i.name)[..17] == "export interface ";
    HeaderKinds(InterfaceHeader(i.name));
    NoHeaders(body);
    NoHeaders(["}", ""]);
    FilterAppend(h, body, IsInterfaceHeader);
    FilterAppend(h + body, ["}", ""], IsInterfaceHeader);
    FilterAppend(h, body, IsEnumHeader);
    FilterAppend(h + body, ["}", ""], IsEnumHeader);
  }

  function ModelInterfaceHeaders(name: string): seq<string> {
    [InterfaceHeader(name), InterfaceHeader("Create" + name + "Input"),
     InterfaceHeader("Update" + name + "Input")]
  }

  lemma ModelInterfacesHeaders(m: Model)
    ensures Filter(ModelInterfaces(m), IsInterfaceHeader) == ModelInterfaceHeaders(m.name)
    ensures Filter(ModelInterfaces(m), IsEnumHeader) == []
  {
    var a := InterfaceLines(EntityInterface(m));
    var b := InterfaceLines(CreateInterface(m));
    var c := InterfaceLines(UpdateInterface(m));
    InterfaceLinesHeaders(EntityInterface(m));
    InterfaceLinesHeaders(CreateInterface(m));
    InterfaceLinesHeaders(UpdateInterface(m));
    FilterAppend(a, b, IsInterfaceHeader);
    FilterAppend(a + b, c, IsInterfaceHeader);
    FilterAppend(a, b, IsEnumHeader);
    FilterAppend(a + b, c, IsEnumHeader);
  }

  function InterfaceHeaderBlocks(models: seq<Model>): (hss: seq<seq<string>>)
    ensures |hss| == |models|
    ensures forall i :: 0 <= i < |models| ==> hss[i] == ModelInterfaceHeaders(models[i].name)
  {
    seq(|models|, i requires 0 <= i < |models| => ModelInterfaceHeaders(models[i].name))
  }

  lemma InterfaceSectionFilters(models: seq<Model>)
    ensures Filter(InterfaceSection(models), IsInterfaceHeader) == Flatten(InterfaceHeaderBlocks(models))
    ensures Filter(InterfaceSection(models), IsEnumHeader) == []
  {
    var blocks := seq(|models|, i requires 0 <= i < |models| => ModelInterfaces(models[i]));
    var hss := InterfaceHeaderBlocks(models);
    var none: seq<seq<string>> := seq(|models|, i requires 0 <= i < |models| => []);
    forall i | 0 <= i < |models|
      ensures Filter(blocks[i], IsInterfaceHeader) == hss[i]
      ensures Filter(blocks[i], IsEnumHeader) == none[i]
    {
      ModelInterfacesHeaders(models[i]);
    }
    FilterFlatten(blocks, IsInterfaceHeader, hss);
    FilterFlatten(blocks, IsEnumHeader, none);
    FlattenUniformLength(none, 0);
  }

  /** The interface section declares exactly three interfaces per model,
      in registry order: `N`, `CreateNInput`, `UpdateNInput`, and no
      enum. */
  lemma InterfaceSectionHeaders(models: seq<Model>)
    ensures var hs := Filter(InterfaceSection(models), IsInterfaceHeader);
      && |hs| == 3 * |models|
      && forall i :: 0 <= i < |models| ==>
           && hs[3 * i] == InterfaceHeader(models[i].name)
           && hs[3 * i + 1] == InterfaceHeader("Create" + models[i].name + "Input")
           && hs[3 * i + 2] == InterfaceHeader("Update" + models[i].name + "Input")
    ensures Filter(InterfaceSection(models), IsEnumHeader) == []
  {
    InterfaceSectionFilters(models);
    var hss := InterfaceHeaderBlocks(models);
    FlattenUniformLength(hss, 3);
    forall i | 0 <= i < |models|
      ensures Flatten(hss)[3 * i] == InterfaceHeader(models[i].name)
      ensures Flatten(hss)[3 * i + 1] == InterfaceHeader("Create" + models[i].name + "Input")
      ensures Flatten(hss)[3 * i + 2] == InterfaceHeader("Update" + models[i].name + "Input")
    {
      InterfaceHeadersAt(models, i);
    }
  }

  lemma InterfaceHeadersAt(models: seq<Model>, i: nat)
    requires i < |models|
    ensures var hs := Flatten(InterfaceHeaderBlocks(models));
      && 3 * i + 2 < |hs|
      && hs[3 * i] == InterfaceHeader(models[i].name)
      && hs[3 * i + 1] == InterfaceHeader("Create" + models[i].name + "Input")
      && hs[3 * i + 2] == InterfaceHeader("Update" + models[i].name + "Input")
  {
    var hss := InterfaceHeaderBlocks(models);
    FlattenUniformAt(hss, 3, i, 0);
    FlattenUniformAt(hss, 3, i, 1);
    FlattenUniformAt(hss, 3, i, 2);
  }

  /** An enum field's block holds its one header and no interface header. */
  lemma EnumBlockHeaders(f: Field)
    ensures Filter(EnumBlock(f), IsEnumHeader) == [EnumHeader(f.name)]
    ensures Filter(EnumBlock(f), IsInterfaceHeader) == []
  {
    var h := [EnumHeader(f.name)];
    var body := EnumMemberLines(EnumValues(f.typ));
    EnumHeaderKind(f.name);
    assert Filter(h, IsEnumHeader) == h && Filter(h, IsInterfaceHeader) == [] by {
      assert h[1..] == [];
    }
    MemberLinesIndented(EnumValues(f.typ));
    NoHeaders(body);
    NoHeaders(["}", ""]);
    FilterAppend(h, body, IsEnumHeader);
    FilterAppend(h + body, ["}", ""], IsEnumHeader);
    FilterAppend(h, body, IsInterfaceHeader);
    FilterAppend(h + body, ["}", ""], IsInterfaceHeader);
  }

  lemma EnumHeaderKind(name: string)
    ensures IsEnumHeader(EnumHeader(name)) && !IsInterfaceHeader(EnumHeader(name))
  {
    assert EnumHeader(name)[..12] == "export enum ";
    HeaderKinds(EnumHeader(name));
  }

  /** Enum member lines open with the indentation. */
  lemma MemberLinesIndented(values: seq<string>)
    ensures var lines := EnumMemberLines(values);
      forall k :: 0 <= k < |lines| ==> |lines[k]| > 0 && lines[k][0] == ' '
  {
    var lines := EnumMemberLines(values);
    forall k | 0 <= k < |lines|
      ensures |lines[k]| > 0 && lines[k][0] == ' '
    {
      var v := values[k];
      assert lines[k] == "  " + ToUpper(v) + " = \"" + v + "\",";
      assert lines[k][0] == "  "[0];
    }
  }

  function EnumHeaders(fields: seq<Field>): seq<string> {
    seq(|fields|, k requires 0 <= k < |fields| => EnumHeader(fields[k].name))
  }

  lemma EnumHeadersAppend(a: seq<Field>, b: seq<Field>)
    ensures EnumHeaders(a + b) == EnumHeaders(a) + EnumHeaders(b)
  {
  }

  /** One model's enum blocks: one header per enum-typed field, in field
      order. */
  lemma FilterEnumFieldsCons(fields: seq<Field>)
    requires |fields| > 0
    ensures Filter(fields, HasEnumType)
      == (if HasEnumType(fields[0]) then [fields[0]] else []) + Filter(fields[1..], HasEnumType)
  {
  }

  lemma {:induction false} EnumBlocksHeaders(fields: seq<Field>)
    ensures Filter(EnumBlocks(fields), IsEnumHeader) == EnumHeaders(Filter(fields, HasEnumType))
    ensures Filter(EnumBlocks(fields), IsInterfaceHeader) == []
    decreases |fields|
  {
    if |fields| > 0 {
      EnumBlocksHeaders(fields[1..]);
      FilterEnumFieldsCons(fields);
      if HasEnumType(fields[0]) {
        assert EnumBlocks(fields) == EnumBlock(fields[0]) + EnumBlocks(fields[1..]);
        EnumFieldStep(fields[0], Filter(fields[1..], HasEnumType), EnumBlocks(fields[1..]));
      } else {
        assert EnumBlocks(fields) == EnumBlocks(fields[1..]);
        assert Filter(fields, HasEnumType) == Filter(fields[1..], HasEnumType);
      }
    }
  }

  /** An enum-typed field's block adds its header before the headers of
      the blocks after it. */
  lemma EnumFieldStep(f: Field, enums: seq<Field>, rest: seq<string>)
    requires Filter(rest, IsEnumHeader) == EnumHeaders(enums)
    requires Filter(rest, IsInterfaceHeader) == []
    ensures Filter(EnumBlock(f) + rest, IsEnumHeader) == EnumHeaders([f] + enums)
    ensures Filter(EnumBlock(f) + rest, IsInterfaceHeader) == []
  {
    EnumBlockHeaders(f);
    FilterAppend(EnumBlock(f), rest, IsEnumHeader);
    FilterAppend(EnumBlock(f), rest, IsInterfaceHeader);
    EnumHeadersAppend([f], enums);
    assert EnumHeaders([f]) == [EnumHeader(f.name)];
  }

  /** The enum section has one block per enum-typed field occurrence, in
      registry order: two fields with the same enum give two blocks. */
  lemma {:induction false} EnumSectionHeaders(models: seq<Model>)
    ensures Filter(EnumSection(models), IsEnumHeader) == EnumHeaders(EnumFields(models))
    ensures Filter(EnumSection(models), IsInterfaceHeader) == []
    decreases |models|
  {
    if |models| > 0 {
      EnumSectionHeaders(models[1..]);
      EnumBlocksHeaders(models[0].fields);
      FilterAppend(EnumBlocks(models[0].fields), EnumSection(models[1..]), IsEnumHeader);
      FilterAppend(EnumBlocks(models[0].fields), EnumSection(models[1..]), IsInterfaceHeader);
      EnumHeadersAppend(Filter(models[0].fields, HasEnumType), EnumFields(models[1..]));
    }
  }

  /** An enum block lists the literals of its type in order, each under
      its upper-cased name, between its header and the closing brace. */
  lemma EnumBlockLayout(f: Field)
    ensures var values := EnumValues(f.typ);
      var b := EnumBlock(f);
      && |b| == |values| + 3
      && b[0] == EnumHeader(f.name)
      && (forall k :: 0 <= k < |values| ==>
            b[k + 1] == "  " + ToUpper(values[k]) + " = \"" + values[k] + "\",")
      && b[|b| - 2] == "}" && b[|b| - 1] == ""
  {
    EnumLinesLayout(EnumHeader(f.name), EnumValues(f.typ));
  }

  /** A header, one member line per literal, and the closing brace. */
  lemma EnumLinesLayout(header: string, values: seq<string>)
    ensures var b := [header] + EnumMemberLines(values) + ["}", ""];
      && |b| == |values| + 3
      && b[0] == header
      && (forall k :: 0 <= k < |values| ==> b[k + 1] == EnumMemberLine(values[k]))
      && b[|b| - 2] == "}" && b[|b| - 1] == ""
  {
    var mid := EnumMemberLines(values);
    var b := [header] + mid + ["}", ""];
    forall k | 0 <= k < |values|
      ensures b[k + 1] == EnumMemberLine(values[k])
    {
      assert b[k + 1] == mid[k];
    }
  }

  // ---------------------------------------------------------------------
  // The whole file

  /** A comment line declares nothing. */
  lemma CommentIsNoHeader(line: string)
    requires |line| > 0 && line[0] == '/'
    ensures !IsEnumHeader(line) && !IsInterfaceHeader(line)
  {
    HeaderKinds(line);
  }

  lemma CommentDeclaresNothing(text: string)
    ensures !IsEnumHeader(Comment(text)) && !IsInterfaceHeader(Comment(text))
  {
    assert Comment(text)[0] == '/';
    CommentIsNoHeader(Comment(text));
  }

  /** The type alias is neither kind of header: both read `export ` and
      then differ from `type`. */
  lemma AliasDeclaresNothing(line: string)
    requires |line| > 7 && line[7] == 't'
    ensures !IsEnumHeader(line) && !IsInterfaceHeader(line)
  {
    assert "export enum "[7] == 'e';
    assert "export interface "[7] == 'i';
    if |line| >= 12 {
      assert line[..12][7] == 't';
    }
    if |line| >= 17 {
      assert line[..17][7] == 't';
    }
  }

  lemma HeaderHasNoDeclarations()
    ensures Filter(Header, IsEnumHeader) == [] && Filter(Header, IsInterfaceHeader) == []
  {
    forall i | 0 <= i < |Header|
      ensures !IsEnumHeader(Header[i]) && !IsInterfaceHeader(Header[i])
    {
      if i == 0 {
        CommentDeclaresNothing("Tipos gerados automaticamente a partir do MCP");
      } else if i == 1 {
        CommentDeclaresNothing("NÃO EDITE ESTE ARQUIVO DIRETAMENTE");
      } else if i == 3 {
        AliasDeclaresNothing("export type TenantId = string;");
      }
    }
    FilterNone(Header, IsEnumHeader);
    FilterNone(Header, IsInterfaceHeader);
  }

  /** The file opens with its fixed header; it declares one enum per
      enum-typed field occurrence and then three interfaces per model, and
      nothing else. */
  lemma TypeFileDeclarations(models: seq<Model>)
    ensures TypeLines(models)[..|Header|] == Header
    ensures Filter(TypeLines(models), IsEnumHeader) == EnumHeaders(EnumFields(models))
    ensures Filter(TypeLines(models), IsInterfaceHeader) == Filter(InterfaceSection(models), IsInterfaceHeader)
  {
    HeaderHasNoDeclarations();
    EnumSectionHeaders(models);
    InterfaceSectionFilters(models);
    FilterAppend(Header, EnumSection(models), IsEnumHeader);
    FilterAppend(Header + EnumSection(models), InterfaceSection(models), IsEnumHeader);
    FilterAppend(Header, EnumSection(models), IsInterfaceHeader);
    FilterAppend(Header + EnumSection(models), InterfaceSection(models), IsInterfaceHeader);
  }
}
