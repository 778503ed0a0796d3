/** The documentation renderer (`generateMCPDocs.js`, writing
    `DOCUMENTATION.md` from `mcp-full.json`): a title and index, one table
    per model, the routes, controllers and middleware of the backend, the
    grouped components, the sectioned pages and the layouts of the
    frontend, and the deployment targets. The document is a sequence of
    lines, each written with a trailing newline. */
module Docs {
  import opened JsString
  import opened Seqs
  import opened Markdown
  import opened Registry
  import opened Descriptor
  import opened DocComponents
  import opened DocPages
  import opened JsObject

  // ---------------------------------------------------------------------
  // Title, index and data models

  function TitleLines(name: string, version: string): seq<string> {
    ["# " + name + " - Documentação do Projeto", "", "Versão: " + version, "", "## 📋 Índice", ""]
  }

  const IndexLines: seq<string> := [
    "1. [Modelos de Dados](#modelos-de-dados)",
    "2. [Backend](#backend)",
    "   - [Rotas](#rotas)",
    "   - [Controllers](#controllers)",
    "   - [Middlewares](#middlewares)",
    "3. [Frontend](#frontend)",
    "   - [Componentes](#componentes)",
    "   - [Páginas](#páginas)",
    "   - [Layouts](#layouts)",
    "4. [Implantação](#implantação)"
  ]

  const ModelsIntro: seq<string> :=
    ["", "## Modelos de Dados", "", "O sistema utiliza" + " os seguintes modelos de dados:", ""]

  /** The description column of a field: the two conventional columns by
      name, then by type expression. */
  function FieldDescription(f: Field): string {
    if f.name == "id" then "Identificador único"
    else if f.name == "tenantId" then "ID do tenant (multi-tenancy)"
    else if StartsWith(f.typ, "enum:") then "Enum: " + Join(EnumValues(f.typ), ", ")
    else if StartsWith(f.typ, "foreign:") then "Chave estrangeira para " + ForeignTarget(f.typ)
    else "Campo do tipo " + f.typ
  }

  /** The same column, read off the decided kind of the field. */
  function FieldDescriptionOfKind(name: string, k: FieldKind): string {
    if name == "id" then "Identificador único"
    else if name == "tenantId" then "ID do tenant (multi-tenancy)"
    else
      match k
      case Enum(values) => "Enum: " + Join(values, ", ")
      case Foreign(target) => "Chave estrangeira para " + target
      case Scalar(keyword) => "Campo do tipo " + keyword
  }

  function FieldRow(f: Field): string {
    Row([f.name, f.typ, FieldDescription(f)])
  }

  function ModelTable(m: Model): seq<string> {
    Table("### " + m.name, Row(["Campo", "Tipo", "Descrição"]), Row(["-----", "----", "---------"]),
      Rows(seq(|m.fields|, j requires 0 <= j < |m.fields| =>
        [m.fields[j].name, m.fields[j].typ, FieldDescription(m.fields[j])])))
  }

  function ModelTables(models: seq<Model>): seq<string> {
    Flatten(seq(|models|, i requires 0 <= i < |models| => ModelTable(models[i])))
  }

  // ---------------------------------------------------------------------
  // Backend

  const BackendIntro: seq<string> :=
    ["## Backend", "", "O backend fornece uma API RESTful" + " para interação com os dados.", "", "### Rotas", ""]

  function EndpointCells(e: Endpoint): seq<string> {
    [e.httpMethod, e.path, e.description, e.controller, Join(e.middleware, ", ")]
  }

  function RouteTable(r: Route): seq<string> {
    Table("#### " + r.basePath,
      Row(["Método", "Rota", "Descrição", "Controller", "Middleware"]),
      Row(["------", "----", "---------", "----------", "----------"]),
      Rows(seq(|r.endpoints|, j requires 0 <= j < |r.endpoints| => EndpointCells(r.endpoints[j]))))
  }

  function RouteTables(routes: seq<Route>): seq<string> {
    Flatten(seq(|routes|, i requires 0 <= i < |routes| => RouteTable(routes[i])))
  }

  /** The description of a controller method, by its name alone: a `get`
      name ending in `s` is taken for the list method. */
  function MethodDescription(m: string): string {
    if StartsWith(m, "get") && EndsWith(m, "s") then "Listar todos os " + ToLower(ReplaceFirst(m, "get", ""))
    else if StartsWith(m, "get") then "Obter " + ToLower(ReplaceFirst(m, "get", "")) + " por ID"
    else if StartsWith(m, "create") then "Criar novo " + ToLower(ReplaceFirst(m, "create", ""))
    else if StartsWith(m, "update") then "Atualizar " + ToLower(ReplaceFirst(m, "update", "")) + " existente"
    else if StartsWith(m, "delete") then "Excluir " + ToLower(ReplaceFirst(m, "delete", ""))
    else ""
  }

  function ControllerTable(c: Controller): seq<string> {
    Table("#### " + c.name, Row(["Método", "Descrição"]), Row(["------", "---------"]),
      Rows(seq(|c.methods|, j requires 0 <= j < |c.methods| => [c.methods[j], MethodDescription(c.methods[j])])))
  }

  function ControllerTables(cs: seq<Controller>): seq<string> {
    Flatten(seq(|cs|, i requires 0 <= i < |cs| => ControllerTable(cs[i])))
  }

  function MiddlewareBlock(mw: Middleware): seq<string> {
    ["#### " + mw.name, "", mw.description, ""]
  }

  function MiddlewareBlocks(mws: seq<Middleware>): seq<string> {
    Flatten(seq(|mws|, i requires 0 <= i < |mws| => MiddlewareBlock(mws[i])))
  }

  function BackendLines(b: Backend): seq<string> {
    BackendIntro + RouteTables(b.routes)
    + ["### Controllers", ""] + ControllerTables(b.controllers)
    + ["### Middlewares", ""] + MiddlewareBlocks(b.middleware)
  }

  // ---------------------------------------------------------------------
  // Frontend

  const FrontendIntro: seq<string> := [
    "## Frontend", "",
    "O frontend do sistema é construído" + " com Next.js e Tailwind CSS," + " seguindo uma abordagem mobile-first.",
    "", "### Componentes", ""]

  function LayoutDescription(layout: string): string {
    if layout == "AuthLayout" then "Layout para páginas de autenticação (login/registro)"
    else if layout == "DashboardLayout" then "Layout principal para páginas logadas com sidebar e header"
    else if layout == "ClientLayout" then "Layout para páginas públicas de agendamento"
    else ""
  }

  function LayoutLine(layout: string): string {
    "- **" + layout + "**: " + LayoutDescription(layout)
  }

  function LayoutLines(layouts: seq<string>): seq<string> {
    seq(|layouts|, i requires 0 <= i < |layouts| => LayoutLine(layouts[i]))
  }

  function FrontendLines(f: Frontend): seq<string> {
    FrontendIntro + ComponentTables(f.components)
    + ["### Páginas", ""] + PageTables(f.pages)
    + ["### Layouts", ""] + LayoutLines(f.layouts) + [""]
  }

  // ---------------------------------------------------------------------
  // Deployment and the whole document

  function DeploymentLines(d: Deployment): seq<string> {
    ["## Implantação", "",
     "O sistema está configurado para" + " implantação nas seguintes plataformas:",
     "",
     "- **Frontend**: " + d.frontend.platform + " (" + d.frontend.url + ")",
     "- **Backend**: " + d.backend.platform + " (" + d.backend.url + ")",
     "- **Banco de Dados**: " + d.database.platform + " (" + d.database.engine + ")",
     "", "---", "",
     "Documentação gerada automaticamente" + " a partir do MCP (Model-Code-Project)."]
  }

  /** The title, the index and the data models. */
  function OverviewLines(p: Project): seq<string> {
    TitleLines(p.name, p.version) + IndexLines + ModelsIntro + ModelTables(p.models)
  }

  /** The backend, the frontend and the deployment. */
  function ArchitectureLines(p: Project): seq<string> {
    BackendLines(p.backend) + FrontendLines(p.frontend) + DeploymentLines(p.deployment)
  }

  function DocumentLines(p: Project): seq<string> {
    OverviewLines(p) + ArchitectureLines(p)
  }

  /** The text of `DOCUMENTATION.md`, which is written only once the whole
      text is built: nothing when the component grouping stops on an
      inherited key. */
  function GenerateDocumentation(p: Project): Option<string> {
    match CollectGroups(p.frontend.components)
    case None => None
    case Some(_) => Some(Text(DocumentLines(p)))
  }

  // ---------------------------------------------------------------------
  // Field descriptions

  /** The chain of string tests agrees with the kind-based description. */
  lemma FieldDescriptionFollowsGrammar(f: Field)
    ensures FieldDescription(f) == FieldDescriptionOfKind(f.name, Parse(f.typ))
  {
  }

  /** Documenting the type expression of a well-formed kind describes that
      kind: an enum lists its literals separated by commas, a foreign key
      names its model, a scalar names its keyword. */
  lemma FieldDescriptionOfPrintedKind(name: string, k: FieldKind)
    requires WellFormedKind(k)
    ensures FieldDescription(Field(name, Print(k))) == FieldDescriptionOfKind(name, k)
    ensures name != "id" && name != "tenantId" && k.Enum? ==>
      FieldDescription(Field(name, Print(k))) == "Enum: " + Join(k.values, ", ")
  {
    ParsePrint(k);
  }

  // ---------------------------------------------------------------------
  // Table layouts

  /** A model's table has its heading and one row per field, in field
      order. */
  lemma ModelTableLayout(m: Model)
    ensures Filter(ModelTable(m), IsHeading) == ["### " + m.name]
    ensures |ModelTable(m)| == |m.fields| + 5
    ensures forall j :: 0 <= j < |m.fields| ==> ModelTable(m)[4 + j] == FieldRow(m.fields[j])
  {
    RowIsTableLine(["Campo", "Tipo", "Descrição"]);
    RowIsTableLine(["-----", "----", "---------"]);
    var rows := Rows(seq(|m.fields|, j requires 0 <= j < |m.fields| =>
        [m.fields[j].name, m.fields[j].typ, FieldDescription(m.fields[j])]));
    TableLayout("### " + m.name, Row(["Campo", "Tipo", "Descrição"]), Row(["-----", "----", "---------"]), rows);
    forall j | 0 <= j < |m.fields|
      ensures ModelTable(m)[4 + j] == FieldRow(m.fields[j])
    {
      assert ModelTable(m)[4..4 + |rows|][j] == rows[j];
    }
  }

  function ModelHeadings(models: seq<Model>): seq<string> {
    seq(|models|, i requires 0 <= i < |models| => "### " + models[i].name)
  }

  lemma ModelTablesHeadings(models: seq<Model>)
    ensures Filter(ModelTables(models), IsHeading) == ModelHeadings(models)
  {
    var blocks := seq(|models|, i requires 0 <= i < |models| => ModelTable(models[i]));
    forall i | 0 <= i < |models|
      ensures Filter(blocks[i], IsHeading) == [ModelHeadings(models)[i]]
    {
      ModelTableLayout(models[i]);
    }
    BlocksHeadings(blocks, ModelHeadings(models));
  }

  /** A route's table has its base path as heading and one row per
      endpoint, in order, with the middleware joined by commas. */
  lemma RouteTableLayout(r: Route)
    ensures Filter(RouteTable(r), IsHeading) == ["#### " + r.basePath]
    ensures |RouteTable(r)| == |r.endpoints| + 5
    ensures forall j :: 0 <= j < |r.endpoints| ==> RouteTable(r)[4 + j] == Row(EndpointCells(r.endpoints[j]))
  {
    var columns := Row(["Método", "Rota", "Descrição", "Controller", "Middleware"]);
    var rule := Row(["------", "----", "---------", "----------", "----------"]);
    RowIsTableLine(["Método", "Rota", "Descrição", "Controller", "Middleware"]);
    RowIsTableLine(["------", "----", "---------", "----------", "----------"]);
    var rows := Rows(seq(|r.endpoints|, j requires 0 <= j < |r.endpoints| => EndpointCells(r.endpoints[j])));
    TableLayout("#### " + r.basePath, columns, rule, rows);
    forall j | 0 <= j < |r.endpoints|
      ensures RouteTable(r)[4 + j] == Row(EndpointCells(r.endpoints[j]))
    {
      assert RouteTable(r)[4..4 + |rows|][j] == rows[j];
    }
  }

  function RouteHeadings(routes: seq<Route>): seq<string> {
    seq(|routes|, i requires 0 <= i < |routes| => "#### " + routes[i].basePath)
  }

  lemma RouteTablesHeadings(routes: seq<Route>)
    ensures Filter(RouteTables(routes), IsHeading) == RouteHeadings(routes)
  {
    var blocks := seq(|routes|, i requires 0 <= i < |routes| => RouteTable(routes[i]));
    forall i | 0 <= i < |routes|
      ensures Filter(blocks[i], IsHeading) == [RouteHeadings(routes)[i]]
    {
      RouteTableLayout(routes[i]);
    }
    BlocksHeadings(blocks, RouteHeadings(routes));
  }

  /** A generated route's table lists its five endpoints, each behind
      `auth, tenant`. */
  lemma DescriptorRouteRows(m: Model)
    ensures var r := GenerateEndpoints(m);
      forall j :: 0 <= j < 5 ==>
        && RouteTable(r)[4 + j] == Row(EndpointCells(r.endpoints[j]))
        && EndpointCells(r.endpoints[j])[4] == "auth, tenant"
  {
    var r := GenerateEndpoints(m);
    assert |r.endpoints| == 5;
    UniformRouteRows(r, EndpointMiddleware);
    MiddlewareJoined();
  }

  /** The middleware of a generated endpoint, as its table cell shows it. */
  lemma MiddlewareJoined()
    ensures Join(EndpointMiddleware, ", ") == "auth, tenant"
  {
    assert EndpointMiddleware[1..] == ["tenant"];
  }

  /** When every endpoint of a route carries the same middleware, every
      row of its table shows that middleware joined by commas. */
  lemma UniformRouteRows(r: Route, middleware: seq<string>)
    requires forall j :: 0 <= j < |r.endpoints| ==> r.endpoints[j].middleware == middleware
    ensures forall j :: 0 <= j < |r.endpoints| ==>
      && RouteTable(r)[4 + j] == Row(EndpointCells(r.endpoints[j]))
      && EndpointCells(r.endpoints[j])[4] == Join(middleware, ", ")
  {
    RouteTableLayout(r);
  }

  /** A controller's table has its name as heading and one row per method,
      in order. */
  lemma ControllerTableLayout(c: Controller)
    ensures Filter(ControllerTable(c), IsHeading) == ["#### " + c.name]
    ensures |ControllerTable(c)| == |c.methods| + 5
    ensures forall j :: 0 <= j < |c.methods| ==>
      ControllerTable(c)[4 + j] == Row([c.methods[j], MethodDescription(c.methods[j])])
  {
    RowIsTableLine(["Método", "Descrição"]);
    RowIsTableLine(["------", "---------"]);
    var rows := Rows(seq(|c.methods|, j requires 0 <= j < |c.methods| => [c.methods[j], MethodDescription(c.methods[j])]));
    TableLayout("#### " + c.name, Row(["Método", "Descrição"]), Row(["------", "---------"]), rows);
    forall j | 0 <= j < |c.methods|
      ensures ControllerTable(c)[4 + j] == Row([c.methods[j], MethodDescription(c.methods[j])])
    {
      assert ControllerTable(c)[4..4 + |rows|][j] == rows[j];
    }
  }

  function ControllerHeadings(cs: seq<Controller>): seq<string> {
    seq(|cs|, i requires 0 <= i < |cs| => "#### " + cs[i].name)
  }

  lemma ControllerTablesHeadings(cs: seq<Controller>)
    ensures Filter(ControllerTables(cs), IsHeading) == ControllerHeadings(cs)
  {
    var blocks := seq(|cs|, i requires 0 <= i < |cs| => ControllerTable(cs[i]));
    forall i | 0 <= i < |cs|
      ensures Filter(blocks[i], IsHeading) == [ControllerHeadings(cs)[i]]
    {
      ControllerTableLayout(cs[i]);
    }
    BlocksHeadings(blocks, ControllerHeadings(cs));
  }

  function MiddlewareHeadings(mws: seq<Middleware>): seq<string> {
    seq(|mws|, i requires 0 <= i < |mws| => "#### " + mws[i].name)
  }

  /** Each middleware contributes its name as a heading, provided its
      description is not itself written as a heading. */
  lemma MiddlewareBlocksHeadings(mws: seq<Middleware>)
    requires forall i :: 0 <= i < |mws| ==> !IsHeading(mws[i].description)
    ensures Filter(MiddlewareBlocks(mws), IsHeading) == MiddlewareHeadings(mws)
  {
    var blocks := seq(|mws|, i requires 0 <= i < |mws| => MiddlewareBlock(mws[i]));
    forall i | 0 <= i < |mws|
      ensures Filter(blocks[i], IsHeading) == [MiddlewareHeadings(mws)[i]]
    {
      var h := "#### " + mws[i].name;
      assert h[0] == '#';
      assert blocks[i] == [h] + ["", mws[i].description, ""];
      FilterNone(["", mws[i].description, ""], IsHeading);
      FilterAppend([h], ["", mws[i].description, ""], IsHeading);
    }
    BlocksHeadings(blocks, MiddlewareHeadings(mws));
  }

  // ---------------------------------------------------------------------
  // Controller method descriptions

  /** The list method `get<Name>s` is described as listing the whole name
      lower-cased, with its `s`. */
  lemma ListMethodDescription(name: string)
    ensures MethodDescription(ControllerMethods(name)[0]) == "Listar todos os " + ToLower(name + "s")
  {
    assert ControllerMethods(name)[0] == "get" + (name + "s");
    StartsWithPrepended("get", name + "s", "get");
    assert "get" + name + "s" == ("get" + name) + "s";
    EndsWithAppended("get" + name, "s", "s");
    ReplaceFirstPrefix("get", name + "s");
  }

  /** The read method `get<Name>` is described as reading one record by
      id, unless the name ends in `s`: only the method name is consulted,
      so it then reads as a second list method. */
  lemma GetMethodDescription(name: string)
    ensures MethodDescription(ControllerMethods(name)[1])
      == if EndsWith(name, "s") then "Listar todos os " + ToLower(name)
         else "Obter " + ToLower(name) + " por ID"
  {
    StartsWithPrepended("get", name, "get");
    ReplaceFirstPrefix("get", name);
    EndsWithChar("get" + name, 's');
    EndsWithChar(name, 's');
    if |name| > 0 {
      assert ("get" + name)[|"get" + name| - 1] == name[|name| - 1];
    }
  }

  lemma CreateMethodDescription(name: string)
    ensures MethodDescription(ControllerMethods(name)[2]) == "Criar novo " + ToLower(name)
  {
    StartsWithPrepended("create", name, "get");
    StartsWithPrepended("create", name, "create");
    ReplaceFirstPrefix("create", name);
  }

  lemma UpdateMethodDescription(name: string)
    ensures MethodDescription(ControllerMethods(name)[3]) == "Atualizar " + ToLower(name) + " existente"
  {
    StartsWithPrepended("update", name, "get");
    StartsWithPrepended("update", name, "create");
    StartsWithPrepended("update", name, "update");
    ReplaceFirstPrefix("update", name);
  }

  lemma DeleteMethodDescription(name: string)
    ensures MethodDescription(ControllerMethods(name)[4]) == "Excluir " + ToLower(name)
  {
    StartsWithPrepended("delete", name, "get");
    StartsWithPrepended("delete", name, "create");
    StartsWithPrepended("delete", name, "update");
    StartsWithPrepended("delete", name, "delete");
    ReplaceFirstPrefix("delete", name);
  }

  /** The controller table's list description matches the list endpoint's
      description exactly when the model name has no capital after its
      first letter: the table lower-cases the whole name, the route name
      only its first letter. */
  lemma ListDescriptionsAgree(name: string)
    ensures MethodDescription(ControllerMethods(name)[0]) == GenerateEndpoints(Model(name, [])).endpoints[0].description
      <==> forall k :: 1 <= k < |name| ==> !IsUpper(name[k])
  {
    ListMethodDescription(name);
    var lowered := ToLower(name + "s");
    var route := RouteName(name);
    assert |lowered| == |route|;
    if forall k :: 1 <= k < |name| ==> !IsUpper(name[k]) {
      forall k | 0 <= k < |route|
        ensures lowered[k] == route[k]
      {
        if k == |name| {
          assert route[k] == 's';
        } else if k > 0 {
          assert route[k] == LowercaseFirst(name)[k] == name[k];
        }
      }
      assert lowered == route;
    } else {
      var k :| 1 <= k < |name| && IsUpper(name[k]);
      assert route[k] == LowercaseFirst(name)[k] == name[k];
      assert lowered[k] != route[k];
      assert ("Listar todos os " + lowered)[16 + k] == lowered[k];
      assert ("Listar todos os " + route)[16 + k] == route[k];
    }
  }

  // ---------------------------------------------------------------------
  // Layouts

  /** Exactly the three fixed layouts are described; any other layout
      gets an empty description after its name. */
  lemma LayoutDescriptions(layout: string)
    ensures LayoutDescription(layout) != "" <==> layout in Layouts
    ensures StartsWith(LayoutLine(layout), "- **" + layout + "**: ")
  {
    StartsWithPrepended("- **" + layout + "**: ", LayoutDescription(layout), "- **" + layout + "**: ");
  }

  // ---------------------------------------------------------------------
  // Document outline

  function TitleHeadings(name: string): seq<string> {
    ["# " + name + " - Documentação do Projeto", "## 📋 Índice"]
  }

  function BackendHeadings(b: Backend): seq<string> {
    ["## Backend", "### Rotas"] + RouteHeadings(b.routes)
    + ["### Controllers"] + ControllerHeadings(b.controllers)
    + ["### Middlewares"] + MiddlewareHeadings(b.middleware)
  }

  function FrontendHeadings(f: Frontend): seq<string> {
    ["## Frontend", "### Componentes"] + GroupHeadings(Entries(GroupComponents(f.components)))
    + ["### Páginas"] + SectionHeadings + ["### Layouts"]
  }

  /** The headings of the document, in order: title, index, one per
      model, the backend with one per route, controller and middleware,
      the frontend with one per component group and the three page
      sections, layouts, and deployment. */
  function Outline(p: Project): seq<string> {
    OverviewHeadings(p) + ArchitectureHeadings(p)
  }

  /** The title and index headings and one heading per model. */
  function OverviewHeadings(p: Project): seq<string> {
    TitleHeadings(p.name) + ["## Modelos de Dados"] + ModelHeadings(p.models)
  }

  /** The backend and frontend headings and the deployment heading. */
  function ArchitectureHeadings(p: Project): seq<string> {
    BackendHeadings(p.backend) + FrontendHeadings(p.frontend) + ["## Implantação"]
  }

  lemma TitleLinesHeadings(name: string, version: string)
    ensures Filter(TitleLines(name, version), IsHeading) == TitleHeadings(name)
  {
    var h := "# " + name + " - Documentação do Projeto";
    var v := "Versão: " + version;
    assert h[0] == '#';
    assert v[0] == 'V';
    var mid := ["", v, ""];
    FilterNone(mid, IsHeading);
    assert TitleLines(name, version) == [h] + mid + (["## 📋 Índice"] + [""]);
    FilterAppend([h] + mid, ["## 📋 Índice"] + [""], IsHeading);
    FilterAppend([h], mid, IsHeading);
    FilterAppend(["## 📋 Índice"], [""], IsHeading);
  }

  lemma IndexLinesHeadings()
    ensures Filter(IndexLines, IsHeading) == []
  {
    FilterNone(IndexLines, IsHeading);
  }

  lemma ModelsIntroHeadings()
    ensures Filter(ModelsIntro, IsHeading) == ["## Modelos de Dados"]
  {
    var prose := "O sistema utiliza";
    var rest := ["", prose + " os seguintes modelos de dados:", ""];
    PlainLine(prose, " os seguintes modelos de dados:");
    FilterNone(rest, IsHeading);
    assert ModelsIntro == [""] + ["## Modelos de Dados"] + rest;
    FilterAppend([""] + ["## Modelos de Dados"], rest, IsHeading);
    FilterAppend([""], ["## Modelos de Dados"], IsHeading);
  }

  lemma BackendIntroHeadings()
    ensures Filter(BackendIntro, IsHeading) == ["## Backend", "### Rotas"]
  {
    var prose := "O backend fornece uma API RESTful";
    var mid := ["", prose + " para interação com os dados.", ""];
    PlainLine(prose, " para interação com os dados.");
    FilterNone(mid, IsHeading);
    assert BackendIntro == ["## Backend"] + mid + (["### Rotas"] + [""]);
    FilterAppend(["## Backend"] + mid, ["### Rotas"] + [""], IsHeading);
    FilterAppend(["## Backend"], mid, IsHeading);
    FilterAppend(["### Rotas"], [""], IsHeading);
  }

  lemma FrontendIntroHeadings()
    ensures Filter(FrontendIntro, IsHeading) == ["## Frontend", "### Componentes"]
  {
    var prose := "O frontend do sistema é construído";
    var mid := ["", prose + " com Next.js e Tailwind CSS," + " seguindo uma abordagem mobile-first.", ""];
    PlainLine(prose, " com Next.js e Tailwind CSS,");
    PlainLine(prose + " com Next.js e Tailwind CSS,", " seguindo uma abordagem mobile-first.");
    FilterNone(mid, IsHeading);
    assert FrontendIntro == ["## Frontend"] + mid + (["### Componentes"] + [""]);
    FilterAppend(["## Frontend"] + mid, ["### Componentes"] + [""], IsHeading);
    FilterAppend(["## Frontend"], mid, IsHeading);
    FilterAppend(["### Componentes"], [""], IsHeading);
  }

  lemma DeploymentHeadings(d: Deployment)
    ensures Filter(DeploymentLines(d), IsHeading) == ["## Implantação"]
  {
    var lines := DeploymentLines(d);
    var rest := lines[1..];
    forall i | 0 <= i < |rest|
      ensures !IsHeading(rest[i])
    {
      if i == 3 {
        assert rest[i][0] == '-';
      } else if i == 4 {
        assert rest[i][0] == '-';
      } else if i == 5 {
        assert rest[i][0] == '-';
      }
    }
    FilterNone(rest, IsHeading);
    assert lines == ["## Implantação"] + rest;
    FilterAppend(["## Implantação"], rest, IsHeading);
  }

  lemma LayoutLinesHeadings(layouts: seq<string>)
    ensures Filter(LayoutLines(layouts), IsHeading) == []
  {
    var lines := LayoutLines(layouts);
    forall i | 0 <= i < |lines|
      ensures !IsHeading(lines[i])
    {
      assert lines[i][0] == '-';
    }
    FilterNone(lines, IsHeading);
  }

  /** The backend part: its two headings, then one per route, the
      controllers heading, one per controller, the middleware heading and
      one per middleware. */
  lemma BackendLinesHeadings(b: Backend)
    requires forall i :: 0 <= i < |b.middleware| ==> !IsHeading(b.middleware[i].description)
    ensures Filter(BackendLines(b), IsHeading) == BackendHeadings(b)
  {
    BackendIntroHeadings();
    RouteTablesHeadings(b.routes);
    ControllerTablesHeadings(b.controllers);
    MiddlewareBlocksHeadings(b.middleware);
    BackendParts(BackendIntro, RouteTables(b.routes), ControllerTables(b.controllers), MiddlewareBlocks(b.middleware),
      RouteHeadings(b.routes), ControllerHeadings(b.controllers), MiddlewareHeadings(b.middleware));
  }

  /** The backend part's shape, whatever its tables hold: the headings of
      its pieces, in order, with the controllers and middlewares headings
      between. */
  lemma BackendParts(intro: seq<string>, routes: seq<string>, controllers: seq<string>, middleware: seq<string>,
                     routeHeadings: seq<string>, controllerHeadings: seq<string>, middlewareHeadings: seq<string>)
    requires Filter(intro, IsHeading) == ["## Backend", "### Rotas"]
    requires Filter(routes, IsHeading) == routeHeadings
    requires Filter(controllers, IsHeading) == controllerHeadings
    requires Filter(middleware, IsHeading) == middlewareHeadings
    ensures Filter(intro + routes + ["### Controllers", ""] + controllers + ["### Middlewares", ""] + middleware, IsHeading)
      == ["## Backend", "### Rotas"] + routeHeadings + ["### Controllers"] + controllerHeadings
         + ["### Middlewares"] + middlewareHeadings
  {
    var a3: seq<string> := ["### Controllers", ""];
    var a5: seq<string> := ["### Middlewares", ""];
    assert Filter(a3, IsHeading) == ["### Controllers"] by {
      FilterAppend(["### Controllers"], [""], IsHeading);
      assert a3 == ["### Controllers"] + [""];
    }
    assert Filter(a5, IsHeading) == ["### Middlewares"] by {
      FilterAppend(["### Middlewares"], [""], IsHeading);
      assert a5 == ["### Middlewares"] + [""];
    }
    FilterAppend(intro, routes, IsHeading);
    FilterAppend(intro + routes, a3, IsHeading);
    FilterAppend(intro + routes + a3, controllers, IsHeading);
    FilterAppend(intro + routes + a3 + controllers, a5, IsHeading);
    FilterAppend(intro + routes + a3 + controllers + a5, middleware, IsHeading);
  }

  /** The frontend part: its two headings, one per component group, the
      pages heading with its three sections, and the layouts heading. */
  lemma FrontendLinesHeadings(f: Frontend)
    ensures Filter(FrontendLines(f), IsHeading) == FrontendHeadings(f)
  {
    FrontendIntroHeadings();
    ComponentTablesHeadings(f.components);
    PageTablesHeadings(f.pages);
    LayoutLinesHeadings(f.layouts);
    FrontendParts(FrontendIntro, ComponentTables(f.components), PageTables(f.pages),
      LayoutLines(f.layouts), GroupHeadings(Entries(GroupComponents(f.components))));
  }

  /** The frontend part's shape, whatever its tables hold: the headings of
      its pieces, in order, with the pages and layouts headings between. */
  lemma {:induction false} FrontendParts(intro: seq<string>, components: seq<string>, pages: seq<string>,
                                         layouts: seq<string>, groups: seq<string>)
    requires Filter(intro, IsHeading) == ["## Frontend", "### Componentes"]
    requires Filter(components, IsHeading) == groups
    requires Filter(pages, IsHeading) == SectionHeadings
    requires Filter(layouts, IsHeading) == []
    ensures Filter(intro + components + ["### Páginas", ""] + pages + ["### Layouts", ""] + layouts + [""], IsHeading)
      == ["## Frontend", "### Componentes"] + groups + ["### Páginas"] + SectionHeadings + ["### Layouts"]
  {
    var a3: seq<string> := ["### Páginas", ""];
    var a5: seq<string> := ["### Layouts", ""];
    var a7: seq<string> := [""];
    assert Filter(a3, IsHeading) == ["### Páginas"] by {
      FilterAppend(["### Páginas"], [""], IsHeading);
      assert a3 == ["### Páginas"] + [""];
    }
    assert Filter(a5, IsHeading) == ["### Layouts"] by {
      FilterAppend(["### Layouts"], [""], IsHeading);
      assert a5 == ["### Layouts"] + [""];
    }
    assert Filter(a7, IsHeading) == [];
    FilterConcat7(intro, components, a3, pages, a5, layouts, a7, IsHeading);
    assert ["## Frontend", "### Componentes"] + groups + ["### Páginas"] + SectionHeadings + ["### Layouts"] + [] + []
      == ["## Frontend", "### Componentes"] + groups + ["### Páginas"] + SectionHeadings + ["### Layouts"];
  }

  /** The document's headings are its outline, whatever the descriptor
      holds, as long as no middleware description is written as a
      heading. */
  lemma DocumentOutline(p: Project)
    requires forall i :: 0 <= i < |p.backend.middleware| ==> !IsHeading(p.backend.middleware[i].description)
    ensures Filter(DocumentLines(p), IsHeading) == Outline(p)
  {
    OverviewLinesHeadings(p);
    ArchitectureLinesHeadings(p);
    FilterAppend(OverviewLines(p), ArchitectureLines(p), IsHeading);
  }

  /** The first half of the document: title, index and one heading per
      model; the index lines hold no heading. */
  lemma OverviewLinesHeadings(p: Project)
    ensures Filter(OverviewLines(p), IsHeading) == OverviewHeadings(p)
  {
    var a1 := TitleLines(p.name, p.version);
    var a2 := IndexLines;
    var a3 := ModelsIntro;
    var a4 := ModelTables(p.models);
    TitleLinesHeadings(p.name, p.version);
    IndexLinesHeadings();
    ModelsIntroHeadings();
    ModelTablesHeadings(p.models);
    FilterAppend(a1, a2, IsHeading);
    FilterAppend(a1 + a2, a3, IsHeading);
    FilterAppend(a1 + a2 + a3, a4, IsHeading);
    assert TitleHeadings(p.name) + [] == TitleHeadings(p.name);
  }

  /** The second half: the backend, frontend and deployment headings. */
  lemma ArchitectureLinesHeadings(p: Project)
    requires forall i :: 0 <= i < |p.backend.middleware| ==> !IsHeading(p.backend.middleware[i].description)
    ensures Filter(ArchitectureLines(p), IsHeading) == ArchitectureHeadings(p)
  {
    BackendLinesHeadings(p.backend);
    FrontendLinesHeadings(p.frontend);
    DeploymentHeadings(p.deployment);
    FilterAppend(BackendLines(p.backend), FrontendLines(p.frontend), IsHeading);
    FilterAppend(BackendLines(p.backend) + FrontendLines(p.frontend), DeploymentLines(p.deployment), IsHeading);
  }

  /** One route heading per model, in registry order. */
  function ModelRouteHeadings(models: seq<Model>): seq<string> {
    seq(|models|, i requires 0 <= i < |models| => "#### " + BasePath(models[i].name))
  }

  /** One controller heading per model, in registry order. */
  function ModelControllerHeadings(models: seq<Model>): seq<string> {
    seq(|models|, i requires 0 <= i < |models| => "#### " + (models[i].name + "Controller"))
  }

  lemma DescriptorBackendHeadings(models: seq<Model>)
    ensures BackendHeadings(BuildProject(models).backend)
      == ["## Backend", "### Rotas"]
         + ModelRouteHeadings(models)
         + ["### Controllers"]
         + ModelControllerHeadings(models)
         + ["### Middlewares"] + ["#### " + "auth", "#### " + "tenant"]
  {
    var b := BuildProject(models).backend;
    assert RouteHeadings(b.routes)
      == ModelRouteHeadings(models);
    assert ControllerHeadings(b.controllers)
      == ModelControllerHeadings(models);
    assert MiddlewareHeadings(b.middleware) == ["#### " + "auth", "#### " + "tenant"];
  }

  lemma DescriptorFrontendHeadings(models: seq<Model>)
    requires DistinctNames(models)
    requires forall i :: 0 <= i < |models| ==> Untagged(models[i].name)
    ensures FrontendHeadings(BuildProject(models).frontend)
      == ["## Frontend", "### Componentes"]
         + GroupHeadings(Entries(ModelGroups(models)))
         + ["### Páginas"] + SectionHeadings + ["### Layouts"]
  {
    DescriptorComponentGroups(models);
  }

  lemma DescriptorMiddlewarePlain(models: seq<Model>)
    ensures var mws := BuildProject(models).backend.middleware;
      forall i :: 0 <= i < |mws| ==> !IsHeading(mws[i].description)
  {
    assert ("Verifica e valida o tenantId" + " para operações multi-tenant")[0] == 'V';
  }

  /** For a registry of distinct, untagged model names, the document of
      its descriptor has, after the title, one model heading, one route
      heading and one controller heading per model, each in registry
      order, the two middleware headings, and one component heading per
      model, in the order `Object.entries` lists the names (registry order
      when no name is an array index, by `ModelGroupsInRegistryOrder`). */
  lemma DescriptorOutline(models: seq<Model>)
    requires DistinctNames(models)
    requires forall i :: 0 <= i < |models| ==> Untagged(models[i].name)
    ensures Filter(DocumentLines(BuildProject(models)), IsHeading)
      == (TitleHeadings("ProAgendify") + ["## Modelos de Dados"] + ModelHeadings(models))
         + ((["## Backend", "### Rotas"]
             + ModelRouteHeadings(models)
             + ["### Controllers"]
             + ModelControllerHeadings(models)
             + ["### Middlewares"] + ["#### " + "auth", "#### " + "tenant"])
            + (["## Frontend", "### Componentes"]
               + GroupHeadings(Entries(ModelGroups(models)))
               + ["### Páginas"] + SectionHeadings + ["### Layouts"])
            + ["## Implantação"])
  {
    var p := BuildProject(models);
    DescriptorMiddlewarePlain(models);
    DocumentOutline(p);
    DescriptorBackendHeadings(models);
    DescriptorFrontendHeadings(models);
  }

  // ---------------------------------------------------------------------
  // Writing the file

  /** `DOCUMENTATION.md` is written exactly when no component is grouped
      under a key every object inherits, and then it holds the document's
      lines. */
  lemma DocumentationWritten(p: Project)
    ensures GenerateDocumentation(p).Some? <==>
      forall i :: 0 <= i < |p.frontend.components| ==> StripTags(p.frontend.components[i]) !in ObjectPrototypeKeys
    ensures GenerateDocumentation(p).Some? ==> GenerateDocumentation(p).value == Text(DocumentLines(p))
  {
    CollectGroupsSpec(p.frontend.components);
  }
}
