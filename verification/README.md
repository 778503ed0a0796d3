# MCP code generators, modelled in Dafny

ProAgendify keeps its data model in one registry file, `mcp.json`, which the
project calls the MCP. The registry is a list of models. Each model has an
ordered map from field name to a type expression in a small language:
`string`, `number`, `text`, `datetime`, `enum:v1|v2|...` or `foreign:Model`.
Four Node scripts turn the registry into the rest of the project:

- `syncMCP.js` writes the Prisma schema (`schema.prisma`) and the
  TypeScript types of the front end (`models.ts`);
- `generateFullMCP.js` expands the registry into the project descriptor
  (`mcp-full.json`): REST routes, controllers, middleware, UI components,
  pages, layouts and deployment targets;
- `generateMCPDocs.js` renders the descriptor as `DOCUMENTATION.md`;
- `addMCPModel.js` asks questions on the terminal and appends one new
  model to the registry.

The model is functional. The registry is a `seq<Model>`, and a model's
fields are a `seq<Field>` in insertion order. Every generated file is a
sequence of lines, with `JsString.Text` giving the file's text. The
JavaScript string operations the scripts rely on are written out in
`js_string.dfy` with their JavaScript behaviour:

- `split` on one character;
- `replace` of the first occurrence;
- `arr[i]` past the end, which renders as `undefined`;
- `startsWith`, `endsWith` and `includes`;
- ASCII case mapping.

The terminal session of `addMCPModel.js` is a scripted sequence of
answers, consumed one per question.

| file | module | models |
|---|---|---|
| js_string.dfy | JsString | the JavaScript string built-ins used by the scripts |
| seqs.dfy | Seqs | optional values, flattening, filtering and first-occurrence de-duplication (a JavaScript `Set`) |
| js_object.dfy | JsObject | plain-object semantics: the keys every object inherits, and the array-index keys listed first in numeric order |
| registry.dfy | Registry | models, fields, and the field-type language with its parser and printer |
| prisma_schema.dfy | PrismaSchema | `generatePrismaSchema` and its two type/attribute maps |
| type_defs.dfy | TypeDefs | `generateTypeDefinitions` |
| descriptor.dfy | Descriptor | the `fullMCP` descriptor of `generateFullMCP.js` |
| markdown.dfy | Markdown | table rows and titled tables of the documentation |
| doc_components.dfy | DocComponents | grouping of UI components by model in a plain object, the order `Object.entries` lists the groups, and their tables |
| doc_pages.dfy | DocPages | page sections and page descriptions |
| docs.dfy | Docs | the whole `DOCUMENTATION.md` |
| registry_editor.dfy | RegistryEditor | `addModel`, including `parseInt` and the field-entry loop |

## Model

| member | source | states |
|---|---|---|
| Registry.Parse | syncMCP.js:63-70 | a type is an enumeration exactly when it starts with `enum:` and a reference exactly when it starts with `foreign:`; an enumeration has at least one literal |
| Registry.PrefixesExclusive | syncMCP.js:134-142 | no type carries both prefixes, so the order of the emitters' prefix tests does not matter |
| Registry.ParsePrint | syncMCP.js:107-110 | writing a well-formed kind as a type expression and reading it back as the emitters do gives the same kind |
| Registry.PrintParse | syncMCP.js:107-110 | a type expression with no stray `:` after its prefix reads and writes back to the same text |
| PrismaSchema.PrismaTypeMapping | syncMCP.js:58-71 | the four keywords map to `String`, `Float`, `String?` and `DateTime`; a reference maps to its target model; any other plain text passes through unchanged |
| PrismaSchema.AttributeCases | syncMCP.js:74-88 | `@id @default(uuid())` exactly for `id`; `@unique` exactly for `email` on `User`; `?` exactly for other `text` fields; nothing otherwise, relation keys included |
| PrismaSchema.EnumDefaultIsFirstValue | syncMCP.js:138-141 | the default written on an enum column is the first literal of the enumeration, although the two are cut out of the type in opposite orders |
| PrismaSchema.ColumnLinesFollowGrammar | syncMCP.js:133-147 | the column emitter, which tests the raw type text in each branch, agrees with an emitter that parses the type once |
| PrismaSchema.EnumColumnMatchesDeclaration | syncMCP.js:107-141 | an enum column is typed by the declaration named after its field, and its default is that declaration's first member |
| PrismaSchema.EnumDeclarationMembers | syncMCP.js:107-116 | an enum declaration lists the type's literals in order, and they re-encode the type exactly |
| PrismaSchema.TextColumnLine | syncMCP.js:142-146 | a plain `text` field gets both the optional type and the `?` attribute, so its line reads `String? ?` |
| PrismaSchema.ColumnSectionSize | syncMCP.js:133-147 | every field gives one column line and a reference gives two |
| PrismaSchema.ForeignKeyIndexesAreRelationColumns | syncMCP.js:161-166 | the extra indexes are exactly the fields named `…Id` with a `foreign:` type, in field order |
| PrismaSchema.ModelBlockLayout | syncMCP.js:129-168 | a model block is: its header, the columns, the two audit columns, the `appointments` relation only for `Client` and `Service`, the tenant index, the key indexes and the closing brace |
| PrismaSchema.ForeignFieldExpansion | syncMCP.js:134-137 | a reference becomes a relation line to the target model followed by a `String` key column, and an `…Id` reference also gets an index |
| PrismaSchema.RelationColumnIndexed | syncMCP.js:161-166 | every relation column's index line is in its model's block |
| PrismaSchema.AccessorDropsIdSuffix | syncMCP.js:136 | for a key `<base>Id` whose base has no capital `I`, the relation accessor is named `<base>` |
| PrismaSchema.ModelSectionHeaders | syncMCP.js:129-130 | the schema declares each registry model exactly once, in registry order |
| PrismaSchema.EnumDeclarationsOnce | syncMCP.js:103-126 | the enum section holds each distinct declaration once, in order of first occurrence; every enum field has its declaration there and nothing else is there |
| TypeDefs.TsTypeFollowsGrammar | syncMCP.js:204-217 | the chain of string tests agrees with a type map over the parsed kind |
| TypeDefs.TsTypeRange | syncMCP.js:205-217 | only an enumeration gets a type other than `number`, `Date`, the nullable string or `string`, and then it is the capitalised field name; a reference is a `string` |
| TypeDefs.EntityMembers | syncMCP.js:201-226 | the entity interface lists every field in order, none optional, then `createdAt` and `updatedAt` |
| TypeDefs.DataPositionsSpec | syncMCP.js:231-232 | the fields the input interfaces describe are exactly the non-`id` fields, each once, in registry order |
| TypeDefs.CreateMemberAt | syncMCP.js:228-250 | member `k` of the create input is the `k`-th non-`id` field in registry order, with the entity's name and type, optional exactly when nullable or the tenant key |
| TypeDefs.InputInterfacesAgree | syncMCP.js:228-278 | the create input has one member per non-`id` field, in registry order, with the entity's name and type; the update input is `id` followed by the same members, all optional |
| TypeDefs.InterfaceSectionHeaders | syncMCP.js:200-279 | each model gives exactly three interfaces, `<N>`, `Create<N>Input` and `Update<N>Input`, in registry order |
| TypeDefs.EnumBlockLayout | syncMCP.js:186-196 | an enum block lists each literal under its upper-cased name, in order |
| TypeDefs.EnumSectionHeaders | syncMCP.js:183-198 | one enum block for every enum-typed field occurrence, in registry order, with no de-duplication |
| TypeDefs.TypeFileDeclarations | syncMCP.js:175-282 | the file opens with the fixed header; its enum declarations are the enum fields' and its interfaces are the models' |
| Descriptor.RouteNameShape | generateFullMCP.js:10-18 | the route name lowers the first letter, keeps the rest, and appends one `s` whatever the name ends with; capitalising the route without the `s` gives the model name back |
| Descriptor.RouteNameExamples | generateFullMCP.js:16-18 | `Service` becomes `services` and `Class` becomes `classs` |
| Descriptor.EndpointsShape | generateFullMCP.js:21-63 | five endpoints, GET GET POST PUT DELETE, on the base and item paths, all behind `auth` then `tenant`; no two share both verb and path |
| Descriptor.EndpointsUseController | generateFullMCP.js:21-101 | the endpoints call, in order, exactly the methods of the model's controller, which is named `<N>Controller` |
| Descriptor.BackendPerModel | generateFullMCP.js:87-101 | one route and one controller per model, in registry order, each route calling its own model's controller; the models are kept unchanged |
| Descriptor.ComponentsLayout | generateFullMCP.js:114-118 | four components per model in registry order: component `j` of model `i` is at `4i+j` |
| Descriptor.ModulePagesUnderRoute | generateFullMCP.js:74-79 | every page of a model lies under `/dashboard/<route>` |
| Descriptor.PagesLayout | generateFullMCP.js:119-128 | the three fixed pages come first, then four pages per model in registry order |
| Descriptor.StaticMetadata | generateFullMCP.js:84-149 | name, version, middleware, layouts and deployment targets are the same for every registry |
| Docs.FieldDescriptionFollowsGrammar | generateMCPDocs.js:41-55 | the field description follows the priority id, tenant key, enumeration, reference, keyword over the parsed kind |
| Docs.FieldDescriptionOfPrintedKind | generateMCPDocs.js:47-49 | a written enumeration is described by its literals joined with commas |
| Docs.ModelTableLayout | generateMCPDocs.js:35-60 | one heading per model and one row per field, in field order |
| Docs.ModelTablesHeadings | generateMCPDocs.js:35-36 | the model section has one heading per model, in order |
| Docs.RouteTableLayout | generateMCPDocs.js:73-83 | one heading per route and one row per endpoint, in order |
| Docs.RouteTablesHeadings | generateMCPDocs.js:73-74 | the route section has one heading per base path, in order |
| Docs.DescriptorRouteRows | generateMCPDocs.js:78-80 | every generated endpoint row shows the middleware as `auth, tenant` |
| Docs.UniformRouteRows | generateMCPDocs.js:78-80 | when all endpoints of a route share their middleware, every row shows that list joined by commas |
| Docs.ControllerTableLayout | generateMCPDocs.js:90-114 | one heading per controller and one row per method, in order |
| Docs.ControllerTablesHeadings | generateMCPDocs.js:90-91 | the controller section has one heading per controller, in order |
| Docs.MiddlewareBlocksHeadings | generateMCPDocs.js:121-124 | each middleware gives one heading, provided its description is not itself a heading |
| Docs.ListMethodDescription | generateMCPDocs.js:98-99 | the list method is described with the whole name lower-cased, its `s` included |
| Docs.GetMethodDescription | generateMCPDocs.js:98-101 | the by-id method is described as such, unless the model name ends in `s`, when it reads as a second list method |
| Docs.CreateMethodDescription | generateMCPDocs.js:102-103 | the create method reads `Criar novo` and the lower-cased name |
| Docs.UpdateMethodDescription | generateMCPDocs.js:104-105 | the update method reads `Atualizar`, the lower-cased name and `existente` |
| Docs.DeleteMethodDescription | generateMCPDocs.js:106-107 | the delete method reads `Excluir` and the lower-cased name |
| Docs.ListDescriptionsAgree | generateMCPDocs.js:98-99 | the controller table and the route table describe the list method alike exactly when the model name has no capital after its first letter |
| Docs.LayoutDescriptions | generateMCPDocs.js:226-238 | exactly the three known layouts get a description; every layout line starts with its bold name |
| Docs.TitleLinesHeadings | generateMCPDocs.js:11-15 | the title block gives the project title and the index heading |
| Docs.IndexLinesHeadings | generateMCPDocs.js:17-26 | the index itself contains no heading |
| Docs.ModelsIntroHeadings | generateMCPDocs.js:28-32 | the data-model introduction gives one heading |
| Docs.BackendIntroHeadings | generateMCPDocs.js:64-70 | the backend introduction gives the backend and routes headings |
| Docs.FrontendIntroHeadings | generateMCPDocs.js:127-133 | the frontend introduction gives the frontend and components headings |
| Docs.LayoutLinesHeadings | generateMCPDocs.js:226-238 | the layout list contains no heading |
| Docs.DeploymentHeadings | generateMCPDocs.js:243-254 | the deployment part gives one heading |
| Docs.BackendLinesHeadings | generateMCPDocs.js:63-124 | the backend part's headings are its introduction's, one per route, one per controller and one per middleware |
| Docs.FrontendLinesHeadings | generateMCPDocs.js:126-240 | the frontend part's headings are one per component group, in the order `Object.entries` lists the groups, the three page sections and the layouts heading |
| Docs.OverviewLinesHeadings | generateMCPDocs.js:11-60 | the part before the backend has the title and index headings, the data-model heading and one heading per model |
| Docs.ArchitectureLinesHeadings | generateMCPDocs.js:63-254 | the backend, frontend and deployment parts give their headings in that order |
| Docs.DocumentOutline | generateMCPDocs.js:11-254 | the document's headings, in order, are exactly the outline of the descriptor |
| Docs.DescriptorBackendHeadings | generateMCPDocs.js:63-124 | for a generated descriptor: one route heading and one controller heading per model, then `auth` and `tenant` |
| Docs.DescriptorFrontendHeadings | generateMCPDocs.js:126-224 | for a generated descriptor with distinct, untagged names: one component heading per model, in the order `Object.entries` lists the model names |
| Docs.DescriptorMiddlewarePlain | generateFullMCP.js:102-111 | no fixed middleware description reads as a heading |
| Docs.DescriptorOutline | generateMCPDocs.js:11-254 | the documentation of a generated descriptor has one heading per model in each of the model, route and controller sections, in registry order, and one per model in the component section, in `Object.entries` order |
| Docs.DocumentationWritten | generateMCPDocs.js:136-147 | `DOCUMENTATION.md` is written exactly when no component's key is inherited by every object, and then it holds the whole document |
| DocComponents.NoMatchAcrossTag | generateMCPDocs.js:140 | a tag appended to a name cannot create a tag match that starts inside the name |
| DocComponents.StripNameAndTag | generateMCPDocs.js:139-140 | removing the tags from an untagged model name plus one tag gives the model name |
| DocComponents.CardHolderGroupedAsHolder | generateMCPDocs.js:140 | a model named `CardHolder` loses its `Card` too, so its list joins model `Holder`'s group |
| DocComponents.AddToGroupsSpec | generateMCPDocs.js:142-146 | a component with a known key extends that group in place, and one with a new key creates its entry after all existing ones, as a plain object records keys in creation order |
| DocComponents.GroupingMatchesReference | generateMCPDocs.js:136-147 | the grouping loop creates the entries of the distinct keys in first-occurrence order, each holding its components in order |
| DocComponents.CollectGroupsSpec | generateMCPDocs.js:138-147 | the loop stops with a `TypeError` exactly when some component's key is one every object inherits; otherwise it builds the groups above |
| DocComponents.InheritedKeyStopsGrouping | generateMCPDocs.js:140-146 | the editor-accepted name `Listconstructor` gives the key `constructor`, and the grouping stops |
| DocComponents.SortByRankSorted | generateMCPDocs.js:150 | the array-index entries are put in ascending numeric order |
| DocComponents.SortByRankKeeps | generateMCPDocs.js:150 | putting them in order keeps every entry |
| DocComponents.EntriesOrder | generateMCPDocs.js:150 | `Object.entries` lists the same entries, keys still distinct, array indices first in ascending numeric order, the other keys after them in creation order |
| DocComponents.EntriesWithoutIndices | generateMCPDocs.js:150 | with no array-index key, `Object.entries` lists the entries in creation order |
| DocComponents.IndexKeyListedFirst | generateMCPDocs.js:136-150 | components `UserList` then `List1List` are listed under `1` first, then `User` |
| DocComponents.GroupingPartitions | generateMCPDocs.js:136-147 | the groups have distinct keys, hold every component exactly once, and hold only components with their key |
| DocComponents.DescriptorComponentGroups | generateMCPDocs.js:136-147 | for distinct, untagged model names the entries are created one per model, in registry order, each holding its four components in order |
| DocComponents.DescriptorComponentDescriptions | generateMCPDocs.js:155-166 | each of a model's four components gets its own description with the lower-cased model name |
| DocComponents.GroupTableLayout | generateMCPDocs.js:150-171 | one heading per group and one row per member, in order |
| DocComponents.ComponentTablesHeadings | generateMCPDocs.js:150-151 | the component section has one heading per group, in the order `Object.entries` lists the groups |
| DocComponents.ModelGroupsInRegistryOrder | generateMCPDocs.js:150 | when no model name is an array index, the groups are listed in registry order |
| DocComponents.DescriptorComponentHeadings | generateMCPDocs.js:136-172 | for distinct, untagged model names the component section has one table per model, in `Object.entries` order, which is registry order when no name is an array index |
| JsObject.ArrayIndexIsDecimal | generateMCPDocs.js:150 | a key is listed as an array index exactly when it is the decimal form, without leading zeros, of a number below 2^32 - 1 |
| JsObject.ArrayIndexInjective | generateMCPDocs.js:150 | distinct array-index keys have distinct numbers, so their numeric order is strict |
| JsObject.LetterKeyNotIndex | generateMCPDocs.js:150 | a key starting with a letter, as every PascalCase model name does, is no array index |
| JsObject.ArrayIndexExamples | generateMCPDocs.js:150 | `1` and `42` are array indices, `01` and `4294967295` are not |
| DocPages.SectionsDisjoint | generateMCPDocs.js:180-184 | no page belongs to two sections |
| DocPages.FixedPageSections | generateMCPDocs.js:180-184 | login and register are authentication pages and the dashboard is the dashboard page |
| DocPages.ModulePageSections | generateMCPDocs.js:180-184 | every model page is in the module section and in no other |
| DocPages.DescriptorSections | generateMCPDocs.js:180-184 | for a generated descriptor the sections partition the pages: each page is listed exactly once, in order |
| DocPages.EntityOfModulePath | generateMCPDocs.js:202 | the entity of a module page is its route name |
| DocPages.ListPageDescription | generateMCPDocs.js:210-212 | the list page is described as listing the route's records, in the list endpoint's words |
| DocPages.NewPageDescription | generateMCPDocs.js:201-203 | the new page reads `Criar novo` and the route name |
| DocPages.DetailPageDescription | generateMCPDocs.js:207-209 | the detail page reads `Visualizar detalhes de` and the route name |
| DocPages.EditPageDescription | generateMCPDocs.js:204-206 | the edit page reads `Editar` and the route name, not the detail description it also matches |
| DocPages.SectionTableLayout | generateMCPDocs.js:187-218 | one heading per section and one row per page, in order |
| DocPages.PageTablesHeadings | generateMCPDocs.js:187-188 | the page section always has the three section headings, in order, even when a section is empty |
| RegistryEditor.AddModelRejects | addMCPModel.js:42-55 | nothing is written when the name is not PascalCase or is already a model's name, and these are the only two refusals |
| RegistryEditor.LowercaseNameRejected | addMCPModel.js:44-48 | `product` is refused before any field is asked |
| RegistryEditor.AddModelAppends | addMCPModel.js:57-147 | an added model is appended after the unchanged registry, with the given fresh name, `id` and `tenantId` first, and valid fields |
| RegistryEditor.EnterFields | addMCPModel.js:68-141 | the field loop only appends fields, and reads at least the answer that ends it |
| RegistryEditor.EnterFieldsConsumes | addMCPModel.js:68-141 | the field loop reads its answers in order: what it leaves unread is a tail of them |
| RegistryEditor.EnterFieldsValid | addMCPModel.js:70-141 | the fields stay distinct, non-blank and not inherited object properties, and each has a type the menu offers |
| RegistryEditor.EnterBlank | addMCPModel.js:73-76 | a blank name ends field entry |
| RegistryEditor.EnterTaken | addMCPModel.js:78-81 | a name already present, or inherited by every object, is refused without asking for a type |
| RegistryEditor.KeywordChoice | addMCPModel.js:95-107 | choices `1` to `4`, and only they, give one of the four keywords |
| RegistryEditor.EnterKeyword | addMCPModel.js:95-107 | a new field with choice `1` to `4` is appended with its keyword |
| RegistryEditor.EnterEnum | addMCPModel.js:108-115 | choice `5` with values appends an `enum:` field |
| RegistryEditor.EnterEmptyEnum | addMCPModel.js:109-113 | choice `5` with no values skips the field |
| RegistryEditor.EnterForeign | addMCPModel.js:116-133 | choice `6` with a valid menu number appends a `foreign:` field to the chosen model |
| RegistryEditor.PickModel | addMCPModel.js:123-132 | a menu answer picks only the name of a model already in the registry |
| RegistryEditor.MenuChoiceSelects | addMCPModel.js:118-132 | answering the number printed next to a model picks that model |
| RegistryEditor.MenuChoiceOutOfRange | addMCPModel.js:124-129 | an answer with no digits, or one outside `1..|models|`, picks nothing |
| JsString.DecimalValue | addMCPModel.js:119-121 | the menu numbers read back as the numbers printed |
| JsString.CanonicalIsDecimal | generateMCPDocs.js:150 | a digit string is the printed form of its own value exactly when it has no leading zero |
| RegistryEditor.ParseIntDecimal | addMCPModel.js:124 | `parseInt` reads a run of decimal digits that does not start with `0` as its value, and ignores whatever follows the run |
| RegistryEditor.ParseIntSkipsWhitespace | addMCPModel.js:124 | `parseInt` ignores leading white space |
| RegistryEditor.ParseIntMinus | addMCPModel.js:124 | a leading minus negates the value, so `-1` picks nothing |
| RegistryEditor.WrittenTypeParses | addMCPModel.js:95-133 | each type the editor writes is read by the generators as a keyword, an enumeration, or a reference to a listed model |
| RegistryEditor.AddModelSync | addMCPModel.js:143-157 | once the fields are entered the model is written, and the generators run exactly when the next answer is `s` or `S` |
| RegistryEditor.AddModelKeepsRegistryValid | addMCPModel.js:50-147 | adding a model keeps the names PascalCase and distinct and every reference resolving |
| RegistryEditor.ProductSession | addMCPModel.js:42-157 | a whole scripted session: a taken name and an empty enumeration are skipped, the other fields are added in order, and `S` runs the generators |

## Left out

- File and process I/O is not modelled: reading and writing `mcp.json`,
  `mcp-full.json`, `schema.prisma`, `models.ts` and `DOCUMENTATION.md`;
  `JSON.parse` and `JSON.stringify`; creating directories; the `execSync`
  chain in `syncMCP.js`; and `process.exit`. Each generator is a function
  from its input value to the text it writes.
- Console colours and logging are not modelled. In `addMCPModel.js` the
  colour table has no `red` entry, so error messages print with an
  `undefined` prefix. That affects only the terminal, never a file.
- The terminal is modelled as a finite list of answers. When the answers
  run out, the script waits for input forever. The model calls this
  outcome `Abandoned` if the registry was not yet written. If it happens
  at the final question, the model returns `Added` without running the
  generators.
- The `enum:` branch of `mapFieldTypeToPrisma` (syncMCP.js:63-66) is
  modelled but never reached from the schema emitter. It would yield the
  capitalised prefix `Enum`, and no property rests on it.
- Case mapping (`toUpperCase`, `toLowerCase`, `charAt(0).toUpperCase()`)
  is ASCII only. Letters outside A–Z keep their case in the model.
- RegistryEditor.AddModelAppends: the fields object of a new model is
  kept in insertion order. JavaScript lists array-index keys (such as a
  field named `5`) before all other keys, so `JSON.stringify` would write
  such a field before `id`. The plain-object order is modelled for the
  component grouping of the documentation (JsObject, DocComponents.Entries)
  but not for the registry's field maps.
- The registry is assumed to hold at most one entry per field name, as a
  JSON object does after `JSON.parse`.
- `parseInt` is modelled on exact integers. JavaScript rounds values
  beyond 2^53. Such values are out of range of any menu, so no outcome
  changes.
- The Express backend and the Next.js frontend under `backend/` and
  `frontend/` are not modelled. They are the targets of the generated
  files, and their behaviour rests on libraries outside this model.
- DocComponents.DescriptorComponentGroups: requires model names in which
  no `List`, `Form`, `Detail` or `Card` occurs. The script removes those
  words anywhere in a name, and DocComponents.CardHolderGroupedAsHolder
  shows what happens otherwise.
- DocComponents.DescriptorComponentHeadings: the same requirement on
  names, and also distinct names. Two models with one name share a group.
- Docs.DescriptorFrontendHeadings and Docs.DescriptorOutline: the same two
  requirements, inherited from the component grouping.
- DocPages.ListPageDescription, DocPages.NewPageDescription,
  DocPages.DetailPageDescription and DocPages.EditPageDescription: require
  model names of letters and digits. A name containing `/` or `:` would
  move the page's entity segment or match the `/:id` tests early.
- Docs.DocumentOutline: requires that no middleware description is itself
  a heading. Docs.DescriptorMiddlewarePlain shows that the descriptor's
  fixed middleware list meets this.
- PrismaSchema.EnumDeclarationMembers: requires a type with no `:` after
  `enum:`. The emitters cut an enumeration at its second `:` and drop
  the rest.
