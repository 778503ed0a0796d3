/** The Prisma schema emitter (`generatePrismaSchema` with its helpers
    `mapFieldTypeToPrisma` and `mapFieldToPrismaAttribute`).

    The schema text is the fixed generator/datasource preamble, then every
    distinct enum declaration text once, then one `model` block per
    registry model. Enum declarations are collected into a JavaScript `Set`
    of their full texts, so de-duplication is by text and keeps first
    occurrences (models in order, fields in order). */
module PrismaSchema {
  import opened JsString
  import opened Seqs
  import opened Registry

  /** `mapFieldTypeToPrisma` */
  function PrismaType(t: string): string {
    if t == "string" then "String"
    else if t == "number" then "Float"
    else if t == "text" then "String?"
    else if t == "datetime" then "DateTime"
    else if IsEnumType(t) then Capitalize(At(Split(t, ':'), 0))
    else if IsForeignType(t) then ForeignTarget(t)
    else t
  }

  /** The scalar keywords and foreign references map to Prisma types; any
      other unprefixed type expression passes through unchanged. */
  lemma PrismaTypeMapping(t: string)
    ensures PrismaType("string") == "String" && PrismaType("number") == "Float"
    ensures PrismaType("text") == "String?" && PrismaType("datetime") == "DateTime"
    ensures IsForeignType(t) ==> PrismaType(t) == Parse(t).target
    ensures t !in ["string", "number", "text", "datetime"] && Parse(t).Scalar? ==> PrismaType(t) == t
  {
    UnprefixedByFirstChar("string");
    UnprefixedByFirstChar("number");
    UnprefixedByFirstChar("text");
    UnprefixedByFirstChar("datetime");
    PrefixesExclusive(t);
  }

  /** `mapFieldToPrismaAttribute` */
  function Attribute(fieldName: string, t: string, modelName: string): string {
    if fieldName == "id" then "@id @default(uuid())"
    else if fieldName == "email" && modelName == "User" then "@unique"
    else if t == "text" then "?"
    else if EndsWith(fieldName, "Id") && IsForeignType(t) then ""
    else ""
  }

  /** The fixed `generator` and `datasource` blocks that open the schema. */
  const Preamble: seq<string> := [
    "generator client {",
    "  provider = \"prisma-client-js\"",
    "}",
    "",
    "datasource db {",
    "  provider = \"postgresql\"",
    "  url      = env(\"DATABASE_URL\")",
    "}",
    ""
  ]

  function Indent(xs: seq<string>): (r: seq<string>)
    ensures |r| == |xs|
    ensures forall i :: 0 <= i < |xs| ==> r[i] == "  " + xs[i]
  {
    seq(|xs|, i requires 0 <= i < |xs| => "  " + xs[i])
  }

  /** The declaration emitted for an `enum:` field: named after the
      capitalised field name, one member per `|`-separated literal. */
  function EnumDeclaration(f: Field): seq<string> {
    ["enum " + Capitalize(f.name) + " {"] + Indent(EnumValues(f.typ)) + ["}", ""]
  }

  /** The declaration texts of the enum fields of `fields`, in field order. */
  function EnumTexts(fields: seq<Field>): seq<string>
    decreases |fields|
  {
    if |fields| == 0 then []
    else
      (if IsEnumType(fields[0].typ) then [Text(EnumDeclaration(fields[0]))] else [])
      + EnumTexts(fields[1..])
  }

  /** Every declaration text in the order the emitter adds it to its `Set`. */
  function EnumCandidates(models: seq<Model>): seq<string>
    decreases |models|
  {
    if |models| == 0 then [] else EnumTexts(models[0].fields) + EnumCandidates(models[1..])
  }

  /** The enum declarations as emitted: the `Set`'s iteration order. */
  function EnumDeclarations(models: seq<Model>): seq<string> {
    Dedup(EnumCandidates(models))
  }

  /** `t.split('|')[0].split(':')[1]`: the default of an enum column. */
  function EnumDefault(t: string): string {
    At(Split(At(Split(t, '|'), 0), ':'), 1)
  }

  /** The relation accessor of a `foreign:` field: the field name with its
      first `Id` removed, typed by the referenced model. */
  function RelationAccessor(fieldName: string, target: string): string {
    "  " + ReplaceFirst(fieldName, "Id", "") + "    " + target
    + "          @relation(fields: [" + fieldName + "], references: [id])"
  }

  /** The lines one registry field contributes to its model block. */
  function ColumnLines(f: Field, modelName: string): seq<string> {
    if IsForeignType(f.typ) then
      [RelationAccessor(f.name, ForeignTarget(f.typ)), "  " + f.name + "  String"]
    else if IsEnumType(f.typ) then
      ["  " + f.name + "      " + Capitalize(f.name) + "     @default(" + EnumDefault(f.typ) + ")"]
    else
      var attribute := Attribute(f.name, f.typ, modelName);
      ["  " + f.name + "      " + PrismaType(f.typ) + (if attribute != "" then " " + attribute else "")]
  }

  /** The column lines of all fields, in field order. */
  function ColumnSection(fields: seq<Field>, modelName: string): seq<string>
    decreases |fields|
  {
    if |fields| == 0 then [] else ColumnLines(fields[0], modelName) + ColumnSection(fields[1..], modelName)
  }

  /** One `@@index` per relation column, in field order. */
  function ForeignKeyIndexes(fields: seq<Field>): seq<string>
    decreases |fields|
  {
    if |fields| == 0 then []
    else
      (if IsForeignKey(fields[0]) then ["  @@index([" + fields[0].name + "])"] else [])
      + ForeignKeyIndexes(fields[1..])
  }

  const AuditColumns: seq<string> := ["  createdAt DateTime @default(now())", "  updatedAt DateTime @updatedAt"]

  const TenantIndex: seq<string> := ["", "  @@index([tenantId])"]

  /** The one hard-coded reverse relation: `Client` and `Service` own
      appointments. */
  function ReverseRelation(modelName: string): seq<string> {
    if modelName == "Client" || modelName == "Service" then ["", "  appointments Appointment[]"] else []
  }

  function ModelHeader(name: string): string {
    "model " + name + " {"
  }

  function ModelBlock(m: Model): seq<string> {
    [ModelHeader(m.name)] + ColumnSection(m.fields, m.name) + AuditColumns + ReverseRelation(m.name)
    + TenantIndex + ForeignKeyIndexes(m.fields) + ["}", ""]
  }

  /** The model blocks of the whole registry, in registry order. */
  function ModelSection(models: seq<Model>): seq<string> {
    Flatten(seq(|models|, i requires 0 <= i < |models| => ModelBlock(models[i])))
  }

  /** `generatePrismaSchema` */
  function GeneratePrismaSchema(models: seq<Model>): string {
    Text(Preamble) + Concat(EnumDeclarations(models)) + Text(ModelSection(models))
  }

  // ---------------------------------------------------------------------
  // Enum defaults and the field-type grammar

  /** The default written on an enum column is the first literal of its
      type, although the two are cut out of the type text in opposite
      orders (`|` then `:` for the default, `:` then `|` for the literals). */
  lemma EnumDefaultIsFirstValue(t: string)
    requires IsEnumType(t)
    ensures EnumDefault(t) == EnumValues(t)[0]
  {
    var x := t[|EnumPrefix|..];
    EnumValuesOf(t);
    assert t == "enum:" + x;
    SplitGluedPrefix("enum:", x, '|');
    var y := "enum:" + Head(x, '|');
    assert At(Split(t, '|'), 0) == y;
    SplitAfterTag(y, "enum");
    assert y[5..] == Head(x, '|');
    HeadCommute(x, ':', '|');
  }

  /** The column lines as a function of the parsed field kind: a reference
      emitter that inspects the type once. */
  function ColumnLinesOfKind(name: string, k: FieldKind, modelName: string): seq<string> {
    match k
    case Foreign(target) => [RelationAccessor(name, target), "  " + name + "  String"]
    case Enum(values) =>
      ["  " + name + "      " + Capitalize(name) + "     @default(" + At(values, 0) + ")"]
    case Scalar(keyword) =>
      var attribute := Attribute(name, keyword, modelName);
      ["  " + name + "      " + PrismaType(keyword) + (if attribute != "" then " " + attribute else "")]
  }

  /** The emitter, which re-inspects the raw type string in each branch,
      agrees with the reference that parses it once. */
  lemma ColumnLinesFollowGrammar(f: Field, modelName: string)
    ensures ColumnLines(f, modelName) == ColumnLinesOfKind(f.name, Parse(f.typ), modelName)
  {
    PrefixesExclusive(f.typ);
    if IsEnumType(f.typ) {
      EnumDefaultIsFirstValue(f.typ);
    }
  }

  /** An enum column is typed by the declaration named after its field, and
      its default is that declaration's first member. */
  lemma EnumColumnMatchesDeclaration(f: Field, modelName: string)
    requires IsEnumType(f.typ)
    ensures |EnumDeclaration(f)| == |EnumValues(f.typ)| + 3
    ensures EnumDeclaration(f)[0] == "enum " + Capitalize(f.name) + " {"
    ensures EnumDeclaration(f)[1] == "  " + EnumValues(f.typ)[0]
    ensures ColumnLines(f, modelName)
      == ["  " + f.name + "      " + Capitalize(f.name) + "     @default(" + EnumValues(f.typ)[0] + ")"]
  {
    PrefixesExclusive(f.typ);
    EnumDefaultIsFirstValue(f.typ);
  }

  /** The members of an enum declaration are the literals of its field's
      type, in order: for a canonical type they re-encode it exactly. */
  lemma EnumDeclarationMembers(f: Field)
    requires IsEnumType(f.typ) && IsCanonical(f.typ)
    ensures var n := |EnumValues(f.typ)|;
      && n >= 1
      && EnumDeclaration(f)[1..n + 1] == Indent(EnumValues(f.typ))
      && EnumPrefix + Join(EnumValues(f.typ), "|") == f.typ
  {
    PrintParse(f.typ);
  }

  /** Column attributes, by priority: the primary key, the unique e-mail
      of the model named exactly `User`, the `?` of a `text` field, and no
      attribute otherwise. */
  lemma AttributeCases(fieldName: string, t: string, modelName: string)
    ensures Attribute(fieldName, t, modelName) == "@id @default(uuid())" <==> fieldName == "id"
    ensures Attribute(fieldName, t, modelName) == "@unique" <==>
      fieldName == "email" && modelName == "User"
    ensures Attribute(fieldName, t, modelName) == "?" <==>
      fieldName != "id" && !(fieldName == "email" && modelName == "User") && t == "text"
    ensures Attribute(fieldName, t, modelName) == "" <==>
      fieldName != "id" && !(fieldName == "email" && modelName == "User") && t != "text"
  {
  }

  /** A plain `text` field gets both the optional type and the `?`
      attribute, so its line reads `String? ?`. */
  lemma TextColumnLine(name: string, modelName: string)
    requires name != "id" && !(name == "email" && modelName == "User")
    ensures ColumnLines(Field(name, "text"), modelName) == ["  " + name + "      String? ?"]
  {
    UnprefixedByFirstChar("text");
    var f := Field(name, "text");
    assert Attribute(name, "text", modelName) == "?";
    assert PrismaType("text") == "String?";
    var prefix := "  " + name + "      ";
    assert ColumnLines(f, modelName) == [prefix + "String?" + (" " + "?")];
    assert (prefix + "String?") + (" " + "?") == prefix + "String? ?";
    assert prefix + "String? ?" == "  " + name + "      String? ?";
  }

  // ---------------------------------------------------------------------
  // Model blocks

  /** Each field contributes one line, a `foreign:` field two. */
  predicate HasForeignType(f: Field) {
    IsForeignType(f.typ)
  }

  lemma {:induction false} ColumnSectionSize(fields: seq<Field>, modelName: string)
    ensures |ColumnSection(fields, modelName)| == |fields| + Count(fields, HasForeignType)
    decreases |fields|
  {
    if |fields| > 0 {
      ColumnSectionSize(fields[1..], modelName);
      PrefixesExclusive(fields[0].typ);
    }
  }

  lemma {:induction false} ColumnSectionAppend(a: seq<Field>, b: seq<Field>, modelName: string)
    ensures ColumnSection(a + b, modelName) == ColumnSection(a, modelName) + ColumnSection(b, modelName)
    decreases |a|
  {
    if |a| == 0 {
      assert a + b == b;
    } else {
      assert (a + b)[1..] == a[1..] + b;
      ColumnSectionAppend(a[1..], b, modelName);
    }
  }

  /** The columns of field `i` follow those of the fields before it. */
  lemma ColumnSectionAt(fields: seq<Field>, modelName: string, i: nat)
    requires i < |fields|
    ensures ColumnSection(fields, modelName)
      == ColumnSection(fields[..i], modelName) + ColumnLines(fields[i], modelName)
         + ColumnSection(fields[i + 1..], modelName)
  {
    assert fields == fields[..i] + ([fields[i]] + fields[i + 1..]);
    ColumnSectionAppend(fields[..i], [fields[i]] + fields[i + 1..], modelName);
    ColumnSectionCons(fields[i], fields[i + 1..], modelName);
  }

  /** The first field's columns, then the rest's. */
  lemma ColumnSectionCons(f: Field, rest: seq<Field>, modelName: string)
    ensures ColumnSection([f] + rest, modelName) == ColumnLines(f, modelName) + ColumnSection(rest, modelName)
  {
    assert ([f] + rest)[1..] == rest;
  }

  function IndexLine(name: string): string {
    "  @@index([" + name + "])"
  }

  /** The foreign-key indexes are exactly the relation columns, in field
      order. */
  lemma {:induction false} ForeignKeyIndexesAreRelationColumns(fields: seq<Field>)
    ensures ForeignKeyIndexes(fields)
      == seq(|Filter(fields, IsForeignKey)|, i requires 0 <= i < |Filter(fields, IsForeignKey)| =>
             IndexLine(Filter(fields, IsForeignKey)[i].name))
    decreases |fields|
  {
    if |fields| > 0 {
      ForeignKeyIndexesAreRelationColumns(fields[1..]);
    }
  }

  /** A model block holds, in order: its header, its fields' columns in
      field order, `createdAt` and `updatedAt`, the `appointments` reverse
      relation exactly when the model is `Client` or `Service`, the tenant
      index, one index per relation column, and the closing brace. */
  lemma ModelBlockLayout(m: Model)
    ensures var b := ModelBlock(m);
      var c := |ColumnSection(m.fields, m.name)|;
      var r := if m.name == "Client" || m.name == "Service" then 2 else 0;
      var x := |ForeignKeyIndexes(m.fields)|;
      && |b| == c + r + x + 7
      && b[0] == "model " + m.name + " {"
      && b[1..c + 1] == ColumnSection(m.fields, m.name)
      && b[c + 1] == "  createdAt DateTime @default(now())"
      && b[c + 2] == "  updatedAt DateTime @updatedAt"
      && (r == 2 ==> b[c + 3] == "" && b[c + 4] == "  appointments Appointment[]")
      && b[c + r + 3] == "" && b[c + r + 4] == "  @@index([tenantId])"
      && b[c + r + 5..c + r + 5 + x] == ForeignKeyIndexes(m.fields)
      && b[|b| - 2] == "}" && b[|b| - 1] == ""
  {
    BlockParts(ModelHeader(m.name), ColumnSection(m.fields, m.name), ReverseRelation(m.name),
      ForeignKeyIndexes(m.fields));
  }

  /** Where each part of a model block sits, whatever the parts hold. */
  lemma BlockParts(header: string, cols: seq<string>, rev: seq<string>, fks: seq<string>)
    ensures var b := [header] + cols + AuditColumns + rev + TenantIndex + fks + ["}", ""];
      var c, r, x := |cols|, |rev|, |fks|;
      && |b| == c + r + x + 7
      && b[0] == header
      && b[1..c + 1] == cols
      && b[c + 1] == AuditColumns[0] && b[c + 2] == AuditColumns[1]
      && b[c + 3..c + r + 3] == rev
      && b[c + r + 3] == TenantIndex[0] && b[c + r + 4] == TenantIndex[1]
      && b[c + r + 5..c + r + 5 + x] == fks
      && b[|b| - 2] == "}" && b[|b| - 1] == ""
  {
    var c, r := |cols|, |rev|;
    var front := [header] + cols + AuditColumns + rev;
    var back := TenantIndex + fks + ["}", ""];
    assert [header] + cols + AuditColumns + rev + TenantIndex + fks + ["}", ""] == front + back;
    assert |front| == c + r + 3;
    assert front[1..c + 1] == cols;
    assert front[c + 3..c + r + 3] == rev;
    assert back[2..2 + |fks|] == fks;
  }

  /** A `foreign:` field `nameId` becomes, at its place among the columns,
      the accessor `name` typed by the referenced model followed by the
      scalar key column; when it ends in `Id` it also gets an index. */
  lemma ForeignFieldExpansion(m: Model, i: nat)
    requires i < |m.fields| && IsForeignType(m.fields[i].typ)
    ensures var f := m.fields[i];
      var b := ModelBlock(m);
      var k := 1 + |ColumnSection(m.fields[..i], m.name)|;
      && k + 1 < |b|
      && b[k] == RelationAccessor(f.name, Parse(f.typ).target)
      && b[k + 1] == "  " + f.name + "  String"
      && (EndsWith(f.name, "Id") ==> IndexLine(f.name) in b)
  {
    var f := m.fields[i];
    ColumnSectionAt(m.fields, m.name, i);
    var k := 1 + |ColumnSection(m.fields[..i], m.name)|;
    BlockColumnAt(m, k - 1);
    BlockColumnAt(m, k);
    ForeignColumnLines(f, m.name);
    if EndsWith(f.name, "Id") {
      RelationColumnIndexed(m, i);
    }
  }

  /** A relation column's two lines: the accessor typed by the referenced
      model, then the scalar key. */
  lemma ForeignColumnLines(f: Field, modelName: string)
    requires IsForeignType(f.typ)
    ensures ColumnLines(f, modelName) == [RelationAccessor(f.name, Parse(f.typ).target), "  " + f.name + "  String"]
  {
  }

  /** The block's lines after the header are its column lines. */
  lemma BlockColumnAt(m: Model, n: nat)
    requires n < |ColumnSection(m.fields, m.name)|
    ensures 1 + n < |ModelBlock(m)| && ModelBlock(m)[1 + n] == ColumnSection(m.fields, m.name)[n]
  {
    var head := [ModelHeader(m.name)] + ColumnSection(m.fields, m.name);
    assert head[1 + n] == ColumnSection(m.fields, m.name)[n];
    assert ModelBlock(m) == head + (AuditColumns + ReverseRelation(m.name) + TenantIndex + ForeignKeyIndexes(m.fields) + ["}", ""]);
  }

  /** Every relation column of a model has its index line in the model's
      block. */
  lemma RelationColumnIndexed(m: Model, i: nat)
    requires i < |m.fields| && IsForeignKey(m.fields[i])
    ensures IndexLine(m.fields[i].name) in ModelBlock(m)
  {
    var f := m.fields[i];
    ForeignKeyIndexesAreRelationColumns(m.fields);
    var keys := Filter(m.fields, IsForeignKey);
    assert f in keys;
    var j :| 0 <= j < |keys| && keys[j] == f;
    assert ForeignKeyIndexes(m.fields)[j] == IndexLine(f.name);
    ModelBlockLayout(m);
  }

  /** A key `<base>Id` whose base has no capital `I` (such as `clientId`)
      yields the accessor `<base>`: the `Id` removed is the suffix. */
  lemma AccessorDropsIdSuffix(base: string, target: string)
    requires 'I' !in base
    ensures RelationAccessor(base + "Id", target)
      == "  " + base + "    " + target + "          @relation(fields: [" + (base + "Id") + "], references: [id])"
  {
    ReplaceFirstRemovesSuffix(base, "Id");
  }

  // ---------------------------------------------------------------------
  // The whole schema

  predicate IsModelHeader(line: string) {
    StartsWith(line, "model ")
  }

  predicate Indented(line: string) {
    |line| > 0 && line[0] == ' '
  }

  lemma ColumnLinesIndented(f: Field, modelName: string)
    ensures forall i :: 0 <= i < |ColumnLines(f, modelName)| ==> Indented(ColumnLines(f, modelName)[i])
  {
  }

  lemma {:induction false} ColumnSectionIndented(fields: seq<Field>, modelName: string)
    ensures forall i :: 0 <= i < |ColumnSection(fields, modelName)| ==> Indented(ColumnSection(fields, modelName)[i])
    decreases |fields|
  {
    if |fields| > 0 {
      ColumnLinesIndented(fields[0], modelName);
      ColumnSectionIndented(fields[1..], modelName);
    }
  }

  lemma {:induction false} ForeignKeyIndexesIndented(fields: seq<Field>)
    ensures forall i :: 0 <= i < |ForeignKeyIndexes(fields)| ==> Indented(ForeignKeyIndexes(fields)[i])
    decreases |fields|
  {
    if |fields| > 0 {
      ForeignKeyIndexesIndented(fields[1..]);
    }
  }

  lemma NoHeaderAmong(lines: seq<string>)
    requires forall i :: 0 <= i < |lines| ==> |lines[i]| == 0 || lines[i][0] != 'm'
    ensures Filter(lines, IsModelHeader) == []
  {
    forall line | IsModelHeader(line)
      ensures |line| > 0 && line[0] == 'm'
    {
      assert line[..6][0] == 'm';
    }
    FilterNoneByHead(lines, 'm', IsModelHeader);
  }

  lemma ModelBlockHasOneHeader(m: Model)
    ensures Filter(ModelBlock(m), IsModelHeader) == [ModelHeader(m.name)]
  {
    var cols := ColumnSection(m.fields, m.name);
    var fks := ForeignKeyIndexes(m.fields);
    ColumnSectionIndented(m.fields, m.name);
    ForeignKeyIndexesIndented(m.fields);
    IndentedNoHeader(cols);
    IndentedNoHeader(fks);
    FixedLinesHeaders(m.name);
    FilterConcat7([ModelHeader(m.name)], cols, AuditColumns, ReverseRelation(m.name), TenantIndex, fks, ["}", ""], IsModelHeader);
  }

  /** Indented lines are never model headers. */
  lemma IndentedNoHeader(lines: seq<string>)
    requires forall i :: 0 <= i < |lines| ==> Indented(lines[i])
    ensures Filter(lines, IsModelHeader) == []
  {
    NoHeaderAmong(lines);
  }

  /** Of the lines a model block writes whatever its fields, only the
      opening line is a model header. */
  lemma FixedLinesHeaders(name: string)
    ensures Filter([ModelHeader(name)], IsModelHeader) == [ModelHeader(name)]
    ensures Filter(AuditColumns, IsModelHeader) == []
    ensures Filter(ReverseRelation(name), IsModelHeader) == []
    ensures Filter(TenantIndex, IsModelHeader) == []
    ensures Filter(["}", ""], IsModelHeader) == []
  {
    NoHeaderAmong(AuditColumns);
    NoHeaderAmong(ReverseRelation(name));
    NoHeaderAmong(TenantIndex);
    NoHeaderAmong(["}", ""]);
    assert ModelHeader(name)[..6] == "model ";
  }

  /** The model section declares each registry model exactly once, in
      registry order. */
  lemma ModelSectionHeaders(models: seq<Model>)
    ensures Filter(ModelSection(models), IsModelHeader)
      == seq(|models|, i requires 0 <= i < |models| => ModelHeader(models[i].name))
  {
    var blocks := seq(|models|, i requires 0 <= i < |models| => ModelBlock(models[i]));
    forall i | 0 <= i < |models|
      ensures Filter(blocks[i], IsModelHeader) == [ModelHeader(models[i].name)]
    {
      ModelBlockHasOneHeader(models[i]);
    }
    FilterFlattenSingles(blocks, IsModelHeader,
      seq(|models|, i requires 0 <= i < |models| => ModelHeader(models[i].name)));
  }

  /** Every enum field of every model has its declaration text in the enum
      section, and every declaration there comes from some enum field. */
  lemma {:induction false} EnumTextsMembers(fields: seq<Field>)
    ensures forall j :: 0 <= j < |fields| && IsEnumType(fields[j].typ) ==>
      Text(EnumDeclaration(fields[j])) in EnumTexts(fields)
    ensures forall d :: d in EnumTexts(fields) ==>
      exists j :: 0 <= j < |fields| && IsEnumType(fields[j].typ) && d == Text(EnumDeclaration(fields[j]))
    decreases |fields|
  {
    if |fields| > 0 {
      EnumTextsMembers(fields[1..]);
      forall j | 1 <= j < |fields|
        ensures fields[j] == fields[1..][j - 1]
      {
      }
      forall d | d in EnumTexts(fields)
        ensures exists j :: 0 <= j < |fields| && IsEnumType(fields[j].typ) && d == Text(EnumDeclaration(fields[j]))
      {
        if d !in EnumTexts(fields[1..]) {
          assert IsEnumType(fields[0].typ) && d == Text(EnumDeclaration(fields[0]));
        } else {
          var j :| 0 <= j < |fields[1..]| && IsEnumType(fields[1..][j].typ) && d == Text(EnumDeclaration(fields[1..][j]));
          assert fields[1..][j] == fields[j + 1];
        }
      }
    }
  }

  lemma {:induction false} EnumCandidatesMembers(models: seq<Model>)
    ensures forall i, j :: 0 <= i < |models| && 0 <= j < |models[i].fields| && IsEnumType(models[i].fields[j].typ) ==>
      Text(EnumDeclaration(models[i].fields[j])) in EnumCandidates(models)
    ensures forall d :: d in EnumCandidates(models) ==>
      exists i, j :: 0 <= i < |models| && 0 <= j < |models[i].fields|
        && IsEnumType(models[i].fields[j].typ) && d == Text(EnumDeclaration(models[i].fields[j]))
    decreases |models|
  {
    if |models| > 0 {
      EnumCandidatesMembers(models[1..]);
      EnumTextsMembers(models[0].fields);
      forall i | 1 <= i < |models|
        ensures models[i] == models[1..][i - 1]
      {
      }
      forall d | d in EnumCandidates(models)
        ensures (exists i, j :: 0 <= i < |models| && 0 <= j < |models[i].fields|
                   && IsEnumType(models[i].fields[j].typ) && d == Text(EnumDeclaration(models[i].fields[j])))
      {
        if d in EnumTexts(models[0].fields) {
          var j :| 0 <= j < |models[0].fields| && IsEnumType(models[0].fields[j].typ)
            && d == Text(EnumDeclaration(models[0].fields[j]));
          assert 0 <= 0 < |models|;
        } else {
          var i, j :| 0 <= i < |models[1..]| && 0 <= j < |models[1..][i].fields|
            && IsEnumType(models[1..][i].fields[j].typ) && d == Text(EnumDeclaration(models[1..][i].fields[j]));
          assert models[1..][i] == models[i + 1];
        }
      }
    }
  }

  /** The enum section declares each distinct declaration text exactly
      once, covers every enum field of every model and nothing else, and
      lists declarations in the order of their first occurrence. */
  lemma EnumDeclarationsOnce(models: seq<Model>)
    ensures NoDuplicates(EnumDeclarations(models))
    ensures forall i, j :: 0 <= i < |models| && 0 <= j < |models[i].fields| && IsEnumType(models[i].fields[j].typ) ==>
      Text(EnumDeclaration(models[i].fields[j])) in EnumDeclarations(models)
    ensures forall d :: d in EnumDeclarations(models) ==>
      exists i, j :: 0 <= i < |models| && 0 <= j < |models[i].fields|
        && IsEnumType(models[i].fields[j].typ) && d == Text(EnumDeclaration(models[i].fields[j]))
    ensures var ds := EnumDeclarations(models);
      forall a, b :: 0 <= a < b < |ds| ==>
        FirstIndex(EnumCandidates(models), ds[a]) < FirstIndex(EnumCandidates(models), ds[b])
  {
    EnumCandidatesMembers(models);
    DedupFirstOccurrenceOrder(EnumCandidates(models));
    var cs := EnumCandidates(models);
    var ds := Dedup(cs);
    forall d | d in ds
      ensures d in cs
    {
      var k :| 0 <= k < |ds| && ds[k] == d;
    }
    forall d | d in cs
      ensures d in ds
    {
      var k :| 0 <= k < |cs| && cs[k] == d;
    }
  }
}
