/** The project-descriptor builder (`generateFullMCP.js`, written to
    `mcp-full.json`): from the registry it derives one REST route with five
    CRUD endpoints and one controller per model, four UI components and
    four dashboard pages per model, and adds fixed metadata (project name
    and version, middleware, layouts, deployment targets). */
module Descriptor {
  import opened JsString
  import opened Seqs
  import opened Registry

  /** `routeName`: naive pluralisation, the first letter lowered and an
      `s` appended. */
  function RouteName(modelName: string): string {
    LowercaseFirst(modelName) + "s"
  }

  datatype Endpoint = Endpoint(
    path: string,
    httpMethod: string,
    description: string,
    controller: string,
    middleware: seq<string>)

  datatype Route = Route(basePath: string, endpoints: seq<Endpoint>)

  datatype Controller = Controller(name: string, methods: seq<string>)

  datatype Middleware = Middleware(name: string, description: string)

  datatype Backend = Backend(routes: seq<Route>, controllers: seq<Controller>, middleware: seq<Middleware>)

  datatype Frontend = Frontend(components: seq<string>, pages: seq<string>, layouts: seq<string>)

  datatype Hosting = Hosting(platform: string, url: string)

  datatype Database = Database(platform: string, engine: string)

  datatype Deployment = Deployment(frontend: Hosting, backend: Hosting, database: Database)

  /** The `mcp-full.json` document. */
  datatype Project = Project(
    name: string,
    version: string,
    models: seq<Model>,
    backend: Backend,
    frontend: Frontend,
    deployment: Deployment)

  /** Every generated endpoint passes through authentication, then the
      tenant check. */
  const EndpointMiddleware: seq<string> := ["auth", "tenant"]

  function BasePath(modelName: string): string {
    "/" + RouteName(modelName)
  }

  function ItemPath(modelName: string): string {
    BasePath(modelName) + "/:id"
  }

  /** The controller methods of a model, in the order list, get, create,
      update, delete. */
  function ControllerMethods(modelName: string): seq<string> {
    ["get" + modelName + "s", "get" + modelName, "create" + modelName,
     "update" + modelName, "delete" + modelName]
  }

  /** `generateEndpoints` */
  function GenerateEndpoints(m: Model): Route {
    var base := BasePath(m.name);
    var item := ItemPath(m.name);
    var lower := LowercaseFirst(m.name);
    Route(base, [
      Endpoint(base, "GET", "Listar todos os " + RouteName(m.name), "get" + m.name + "s", EndpointMiddleware),
      Endpoint(item, "GET", "Obter " + lower + " por ID", "get" + m.name, EndpointMiddleware),
      Endpoint(base, "POST", "Criar " + lower, "create" + m.name, EndpointMiddleware),
      Endpoint(item, "PUT", "Atualizar " + lower, "update" + m.name, EndpointMiddleware),
      Endpoint(item, "DELETE", "Excluir " + lower, "delete" + m.name, EndpointMiddleware)
    ])
  }

  function ControllerFor(m: Model): Controller {
    Controller(m.name + "Controller", ControllerMethods(m.name))
  }

  /** The UI components of one model (`generateFrontendComponents`). */
  function Components(modelName: string): seq<string> {
    [modelName + "List", modelName + "Form", modelName + "Detail", modelName + "Card"]
  }

  /** The dashboard pages of one model: list, new, detail, edit. */
  function ModulePages(modelName: string): seq<string> {
    var r := "/dashboard/" + RouteName(modelName);
    [r, r + "/new", r + "/:id", r + "/:id/edit"]
  }

  const FixedPages: seq<string> := ["/login", "/register", "/dashboard"]

  const Layouts: seq<string> := ["AuthLayout", "DashboardLayout", "ClientLayout"]

  const MiddlewareList: seq<Middleware> := [
    Middleware("auth", "Autentica o usuário via JWT"),
    Middleware("tenant", "Verifica e valida o tenantId" + " para operações multi-tenant")
  ]

  const Targets: Deployment := Deployment(
    Hosting("Vercel", "https://proagendify.vercel.app"),
    Hosting("Render", "https://proagendify-api.onrender.com"),
    Database("Neon", "PostgreSQL"))

  function AllComponents(models: seq<Model>): seq<string> {
    Flatten(seq(|models|, i requires 0 <= i < |models| => Components(models[i].name)))
  }

  function AllModulePages(models: seq<Model>): seq<string> {
    Flatten(seq(|models|, i requires 0 <= i < |models| => ModulePages(models[i].name)))
  }

  /** The `fullMCP` object. */
  function BuildProject(models: seq<Model>): Project {
    Project(
      "ProAgendify",
      "1.0.0",
      models,
      Backend(
        seq(|models|, i requires 0 <= i < |models| => GenerateEndpoints(models[i])),
        seq(|models|, i requires 0 <= i < |models| => ControllerFor(models[i])),
        MiddlewareList),
      Frontend(AllComponents(models), FixedPages + AllModulePages(models), Layouts),
      Targets)
  }

  // ---------------------------------------------------------------------
  // Route names

  /** The route name keeps the model name after its first letter, lowers
      that letter, and appends one `s`, whatever the name already ends
      with; for a name that starts with a capital, capitalising the route
      without its `s` gives the model name back. */
  lemma RouteNameShape(modelName: string)
    ensures var r := RouteName(modelName);
      && |r| == |modelName| + 1
      && r[|r| - 1] == 's'
      && (|modelName| > 0 ==> r[1..|modelName|] == modelName[1..] && !IsUpper(r[0]))
      && (|modelName| > 0 && IsUpper(modelName[0]) ==> Capitalize(r[..|modelName|]) == modelName)
  {
    CaseFirstInverse(modelName);
    var r := RouteName(modelName);
    assert r[..|modelName|] == LowercaseFirst(modelName);
  }

  lemma RouteNameExamples()
    ensures RouteName("Service") == "services"
    ensures RouteName("Class") == "classs"
  {
    assert LowercaseFirst("Service") == "service";
    assert LowercaseFirst("Class") == "class";
  }

  // ---------------------------------------------------------------------
  // Endpoints and controllers

  /** Five endpoints: list and create on the collection path, read,
      update and delete on the item path, all behind `auth` then `tenant`;
      no two share both verb and path. */
  lemma EndpointsShape(m: Model)
    ensures var route := GenerateEndpoints(m);
      var es := route.endpoints;
      && route.basePath == "/" + RouteName(m.name)
      && |es| == 5
      && seq(5, k requires 0 <= k < 5 => es[k].httpMethod) == ["GET", "GET", "POST", "PUT", "DELETE"]
      && es[0].path == route.basePath && es[2].path == route.basePath
      && es[1].path == route.basePath + "/:id" && es[3].path == es[1].path && es[4].path == es[1].path
      && (forall k :: 0 <= k < 5 ==> es[k].middleware == ["auth", "tenant"])
      && (forall j, k :: 0 <= j < k < 5 ==>
            es[j].httpMethod != es[k].httpMethod || es[j].path != es[k].path)
  {
    var route := GenerateEndpoints(m);
    var es := route.endpoints;
    assert es[0].path == BasePath(m.name);
    assert es[1].path == BasePath(m.name) + "/:id";
    assert |es[1].path| == |es[0].path| + 4;
  }

  /** The endpoints name, in order, exactly the methods of the model's
      controller, and the controller is named after the model. */
  lemma EndpointsUseController(m: Model)
    ensures var es := GenerateEndpoints(m).endpoints;
      && seq(|es|, k requires 0 <= k < |es| => es[k].controller) == ControllerFor(m).methods
      && ControllerFor(m).name == m.name + "Controller"
  {
  }

  /** The descriptor has one route and one controller per model, in
      registry order, keeps the registry as it is, and each route's
      endpoints call its own model's controller. */
  lemma BackendPerModel(models: seq<Model>)
    ensures var p := BuildProject(models);
      && p.models == models
      && |p.backend.routes| == |models| && |p.backend.controllers| == |models|
      && forall i :: 0 <= i < |models| ==>
           && p.backend.routes[i].basePath == "/" + RouteName(models[i].name)
           && p.backend.controllers[i].name == models[i].name + "Controller"
           && |p.backend.routes[i].endpoints| == |p.backend.controllers[i].methods|
           && forall k :: 0 <= k < |p.backend.routes[i].endpoints| ==>
                p.backend.routes[i].endpoints[k].controller == p.backend.controllers[i].methods[k]
  {
  }

  // ---------------------------------------------------------------------
  // Components and pages

  /** Four components per model, in registry order: component `j` of
      model `i` is at `4 * i + j`. */
  lemma ComponentsLayout(models: seq<Model>)
    ensures var cs := BuildProject(models).frontend.components;
      && |cs| == 4 * |models|
      && forall i, j :: 0 <= i < |models| && 0 <= j < 4 ==>
           cs[4 * i + j] == models[i].name + ["List", "Form", "Detail", "Card"][j]
  {
    var blocks := seq(|models|, i requires 0 <= i < |models| => Components(models[i].name));
    FlattenUniformLength(blocks, 4);
    forall i, j | 0 <= i < |models| && 0 <= j < 4
      ensures Flatten(blocks)[4 * i + j] == models[i].name + ["List", "Form", "Detail", "Card"][j]
    {
      FlattenUniformAt(blocks, 4, i, j);
    }
  }

  /** Every page of a model lies under its dashboard route. */
  lemma ModulePagesUnderRoute(modelName: string)
    ensures forall j :: 0 <= j < 4 ==>
      StartsWith(ModulePages(modelName)[j], "/dashboard/" + RouteName(modelName))
  {
    var r := "/dashboard/" + RouteName(modelName);
    assert (r + "/new")[..|r|] == r;
    assert (r + "/:id")[..|r|] == r;
    assert (r + "/:id/edit")[..|r|] == r;
  }

  /** The three fixed pages come first, then four pages per model in
      registry order: page `j` of model `i` is at `3 + 4 * i + j`, and
      all of them lie under `/dashboard/<route>`. */
  lemma PagesLayout(models: seq<Model>)
    ensures var ps := BuildProject(models).frontend.pages;
      && |ps| == 3 + 4 * |models|
      && ps[..3] == ["/login", "/register", "/dashboard"]
      && forall i, j :: 0 <= i < |models| && 0 <= j < 4 ==>
           && ps[3 + 4 * i + j] == ModulePages(models[i].name)[j]
           && StartsWith(ps[3 + 4 * i + j], "/dashboard/" + RouteName(models[i].name))
  {
    var blocks := seq(|models|, i requires 0 <= i < |models| => ModulePages(models[i].name));
    var ps := FixedPages + Flatten(blocks);
    FlattenUniformLength(blocks, 4);
    forall i, j | 0 <= i < |models| && 0 <= j < 4
      ensures ps[3 + 4 * i + j] == ModulePages(models[i].name)[j]
      ensures StartsWith(ps[3 + 4 * i + j], "/dashboard/" + RouteName(models[i].name))
    {
      FlattenUniformAt(blocks, 4, i, j);
      ModulePagesUnderRoute(models[i].name);
    }
  }

  // ---------------------------------------------------------------------
  // Fixed metadata

  /** Name, version, middleware, layouts and deployment targets do not
      depend on the registry. */
  lemma StaticMetadata(a: seq<Model>, b: seq<Model>)
    ensures var p, q := BuildProject(a), BuildProject(b);
      && p.name == q.name == "ProAgendify"
      && p.version == q.version == "1.0.0"
      && p.backend.middleware == q.backend.middleware
      && seq(|p.backend.middleware|, k requires 0 <= k < |p.backend.middleware| =>
           p.backend.middleware[k].name) == EndpointMiddleware
      && p.frontend.layouts == q.frontend.layouts == ["AuthLayout", "DashboardLayout", "ClientLayout"]
      && p.deployment == q.deployment
      && p.deployment.frontend.platform == "Vercel" && p.deployment.backend.platform == "Render"
      && p.deployment.database == Database("Neon", "PostgreSQL")
  {
  }
}
