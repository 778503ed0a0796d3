/** The page part of the documentation: the descriptor's pages are sorted
    into three sections by their path (authentication, the dashboard
    itself, the model modules), and each page is described from its path
    alone. */
module DocPages {
  import opened JsString
  import opened Seqs
  import opened Markdown
  import opened Registry
  import opened Descriptor

  predicate IsAuthPage(page: string) {
    StartsWith(page, "/login") || StartsWith(page, "/register")
  }

  predicate IsDashboardPage(page: string) {
    page == "/dashboard"
  }

  predicate IsModulePage(page: string) {
    StartsWith(page, "/dashboard/") && page != "/dashboard"
  }

  datatype Section = Section(title: string, pages: seq<string>)

  /** `pagesBySection`: each section keeps the pages it accepts in
      descriptor order; a page no section accepts is not documented. */
  function PageSections(pages: seq<string>): seq<Section> {
    [Section("Autenticação", Filter(pages, IsAuthPage)),
     Section("Dashboard", Filter(pages, IsDashboardPage)),
     Section("Módulos", Filter(pages, IsModulePage))]
  }

  /** `page.split('/')[2]`: the first path segment after the leading one. */
  function PageEntity(page: string): string {
    At(Split(page, '/'), 2)
  }

  /** The description of a page, the tests tried in order. */
  function PageDescription(page: string): string {
    if page == "/login" then "Página de login para acesso ao sistema"
    else if page == "/register" then "Registro de novo profissional/tenant"
    else if page == "/dashboard" then "Dashboard principal com KPIs e indicadores"
    else if EndsWith(page, "/new") then "Criar novo " + PageEntity(page)
    else if Includes(page, "/:id/edit") then "Editar " + PageEntity(page)
    else if Includes(page, "/:id") then "Visualizar detalhes de " + PageEntity(page)
    else "Listar todos os " + PageEntity(page)
  }

  function SectionTable(s: Section): seq<string> {
    Table("#### " + s.title, Row(["Rota", "Descrição"]), Row(["----", "---------"]),
      Rows(seq(|s.pages|, j requires 0 <= j < |s.pages| => [s.pages[j], PageDescription(s.pages[j])])))
  }

  function PageTables(pages: seq<string>): seq<string> {
    var sections := PageSections(pages);
    Flatten(seq(|sections|, i requires 0 <= i < |sections| => SectionTable(sections[i])))
  }

  // ---------------------------------------------------------------------
  // Sections

  /** A page starting with `p` has `p`'s second character second. */
  lemma SecondChar(page: string, p: string)
    requires |p| >= 2 && StartsWith(page, p)
    ensures page[1] == p[1]
  {
    assert page[..|p|][1] == page[1];
  }

  /** No page belongs to two sections: authentication paths continue
      with `l` or `r` after the slash, the others with `d`. */
  lemma SectionsDisjoint(page: string)
    ensures !(IsAuthPage(page) && IsDashboardPage(page))
    ensures !(IsAuthPage(page) && IsModulePage(page))
    ensures !(IsDashboardPage(page) && IsModulePage(page))
  {
    if StartsWith(page, "/login") {
      SecondChar(page, "/login");
    }
    if StartsWith(page, "/register") {
      SecondChar(page, "/register");
    }
    if StartsWith(page, "/dashboard/") {
      SecondChar(page, "/dashboard/");
    }
    assert page == "/dashboard" ==> page[1] == 'd';
  }

  /** Every page of a model module lies under `/dashboard/`. */
  lemma ModulePagesAreModulePages(models: seq<Model>)
    ensures forall k :: 0 <= k < |AllModulePages(models)| ==> IsModulePage(AllModulePages(models)[k])
  {
    var blocks := seq(|models|, i requires 0 <= i < |models| => ModulePages(models[i].name));
    forall k | 0 <= k < |Flatten(blocks)|
      ensures IsModulePage(Flatten(blocks)[k])
    {
      FlattenFrom(blocks, k);
      var i, j :| 0 <= i < |blocks| && 0 <= j < |blocks[i]| && Flatten(blocks)[k] == blocks[i][j];
      var page := blocks[i][j];
      var r := "/dashboard/" + RouteName(models[i].name);
      ModulePagesUnderRoute(models[i].name);
      assert page[..|r|][..11] == page[..11];
      assert |page| > 11;
    }
  }

  /** The fixed pages: login and register are authentication pages,
      the dashboard is the dashboard page, none is a module page. */
  lemma FixedPageSections()
    ensures Filter(FixedPages, IsAuthPage) == ["/login", "/register"]
    ensures Filter(FixedPages, IsDashboardPage) == ["/dashboard"]
    ensures Filter(FixedPages, IsModulePage) == []
  {
    FixedPageKinds();
    Filter3("/login", "/register", "/dashboard", IsAuthPage);
    Filter3("/login", "/register", "/dashboard", IsDashboardPage);
    Filter3("/login", "/register", "/dashboard", IsModulePage);
  }

  lemma FixedPageKinds()
    ensures IsAuthPage("/login") && IsAuthPage("/register") && !IsAuthPage("/dashboard")
    ensures !IsDashboardPage("/login") && !IsDashboardPage("/register") && IsDashboardPage("/dashboard")
    ensures !IsModulePage("/login") && !IsModulePage("/register") && !IsModulePage("/dashboard")
  {
    assert "/login"[..6] == "/login";
    assert "/register"[..9] == "/register";
    SectionsDisjoint("/login");
    SectionsDisjoint("/register");
    assert !StartsWith("/dashboard", "/login") by {
      assert "/dashboard"[..6][1] == 'd';
    }
    assert !StartsWith("/dashboard", "/register") by {
      assert "/dashboard"[..9][1] == 'd';
    }
  }

  /** The module pages: all in the module section, in order. */
  lemma ModulePageSections(models: seq<Model>)
    ensures Filter(AllModulePages(models), IsAuthPage) == []
    ensures Filter(AllModulePages(models), IsDashboardPage) == []
    ensures Filter(AllModulePages(models), IsModulePage) == AllModulePages(models)
  {
    var mods := AllModulePages(models);
    ModulePagesAreModulePages(models);
    forall k | 0 <= k < |mods|
      ensures !IsAuthPage(mods[k]) && !IsDashboardPage(mods[k])
    {
      SectionsDisjoint(mods[k]);
    }
    FilterNone(mods, IsAuthPage);
    FilterNone(mods, IsDashboardPage);
    FilterAll(mods, IsModulePage);
  }

  /** The descriptor's pages fall into the three sections exactly as they
      were built: the login and register pages, the dashboard, and every
      module page in registry order. */
  lemma DescriptorSections(models: seq<Model>)
    ensures PageSections(BuildProject(models).frontend.pages)
      == [Section("Autenticação", ["/login", "/register"]),
          Section("Dashboard", ["/dashboard"]),
          Section("Módulos", AllModulePages(models))]
  {
    var mods := AllModulePages(models);
    var pages := BuildProject(models).frontend.pages;
    assert pages == FixedPages + mods;
    FixedPageSections();
    ModulePageSections(models);
    FilterAppend(FixedPages, mods, IsAuthPage);
    FilterAppend(FixedPages, mods, IsDashboardPage);
    FilterAppend(FixedPages, mods, IsModulePage);
    assert Filter(pages, IsAuthPage) == ["/login", "/register"];
    assert Filter(pages, IsDashboardPage) == ["/dashboard"];
    assert Filter(pages, IsModulePage) == mods;
  }

  // ---------------------------------------------------------------------
  // Descriptions

  /** The text between the second and third `/` of a module path. */
  lemma EntityOfModulePath(route: string, suffix: string)
    requires '/' !in route
    requires suffix == "" || suffix[0] == '/'
    ensures PageEntity("/dashboard/" + route + suffix) == route
  {
    var page := "/dashboard/" + route + suffix;
    assert page == "" + ['/'] + ("dashboard" + ['/'] + (route + suffix));
    SplitAtSeparator("", "dashboard" + ['/'] + (route + suffix), '/');
    SplitAtSeparator("dashboard", route + suffix, '/');
    SplitGluedPrefix(route, suffix, '/');
    if suffix == "" {
      assert Split(suffix, '/')[0] == "";
    } else {
      assert Split(suffix, '/')[0] == "";
    }
    assert route + "" == route;
  }

  /** A model name made only of letters and digits gives a route name of
      letters and digits. */
  lemma RouteNameAlnum(name: string)
    requires forall k :: 0 <= k < |name| ==> IsAlnum(name[k])
    ensures forall k :: 0 <= k < |RouteName(name)| ==> IsAlnum(RouteName(name)[k])
  {
    CaseFirstInverse(name);
    var r := RouteName(name);
    forall k | 0 <= k < |r|
      ensures IsAlnum(r[k])
    {
      if 0 < k < |name| {
        assert r[k] == LowercaseFirst(name)[1..][k - 1] == name[k];
      }
    }
  }

  /** The route part of a module path holds no `/` and no `:`, and the
      list path ends with the route's `s`. */
  lemma ModuleRouteShape(name: string)
    requires forall k :: 0 <= k < |name| ==> IsAlnum(name[k])
    ensures var route := RouteName(name);
      var r := "/dashboard/" + route;
      && '/' !in route && ':' !in route && ':' !in r
      && |r| >= 12 && r[|r| - 1] == 's'
  {
    var route := RouteName(name);
    RouteNameAlnum(name);
    forall k | 0 <= k < |route|
      ensures route[k] != '/' && route[k] != ':'
    {
      assert IsAlnum(route[k]);
    }
    var r := "/dashboard/" + route;
    forall k | 0 <= k < |r|
      ensures r[k] != ':'
    {
      if k >= 11 {
        assert r[k] == route[k - 11];
      }
    }
  }

  /** A module page is none of the three fixed pages, being longer. */
  lemma NotFixed(route: string, suffix: string)
    requires |route| > 0
    ensures var page := "/dashboard/" + route + suffix;
      page != "/login" && page != "/register" && page != "/dashboard"
  {
    assert |"/dashboard/" + route + suffix| > 11;
  }

  /** The list page is described as listing the route's records, in the
      words of the list endpoint. */
  lemma ListPageDescription(name: string)
    requires forall k :: 0 <= k < |name| ==> IsAlnum(name[k])
    ensures PageDescription(ModulePages(name)[0]) == "Listar todos os " + RouteName(name)
    ensures PageDescription(ModulePages(name)[0]) == GenerateEndpoints(Model(name, [])).endpoints[0].description
  {
    var route := RouteName(name);
    var r := "/dashboard/" + route;
    ModuleRouteShape(name);
    NotFixed(route, "");
    assert r + "" == r;
    EndsWithAppended(r, "", "/new");
    NotIncludesByChar(r, "/:id/edit", 1);
    NotIncludesByChar(r, "/:id", 1);
    EntityOfModulePath(route, "");
  }

  lemma NewPageDescription(name: string)
    requires forall k :: 0 <= k < |name| ==> IsAlnum(name[k])
    ensures PageDescription(ModulePages(name)[1]) == "Criar novo " + RouteName(name)
  {
    var route := RouteName(name);
    var r := "/dashboard/" + route;
    ModuleRouteShape(name);
    NotFixed(route, "/new");
    EndsWithAppended(r, "/new", "/new");
    EntityOfModulePath(route, "/new");
  }

  lemma DetailPageDescription(name: string)
    requires forall k :: 0 <= k < |name| ==> IsAlnum(name[k])
    ensures PageDescription(ModulePages(name)[2]) == "Visualizar detalhes de " + RouteName(name)
  {
    var route := RouteName(name);
    var r := "/dashboard/" + route;
    var page := r + "/:id";
    ModuleRouteShape(name);
    NotFixed(route, "/:id");
    EndsWithAppended(r, "/:id", "/new");
    assert page[|r|..] == "/:id";
    assert forall i :: 0 <= i < |r| ==> page[i] == r[i];
    NotIncludesByChar(page, "/:id/edit", 1);
    IncludesAt(page, "/:id", |r|);
    EntityOfModulePath(route, "/:id");
  }

  lemma EditPageDescription(name: string)
    requires forall k :: 0 <= k < |name| ==> IsAlnum(name[k])
    ensures PageDescription(ModulePages(name)[3]) == "Editar " + RouteName(name)
  {
    var route := RouteName(name);
    var r := "/dashboard/" + route;
    var page := r + "/:id/edit";
    ModuleRouteShape(name);
    NotFixed(route, "/:id/edit");
    EndsWithAppended(r, "/:id/edit", "/new");
    assert page[|r|..] == "/:id/edit";
    IncludesAt(page, "/:id/edit", |r|);
    EntityOfModulePath(route, "/:id/edit");
  }

  // ---------------------------------------------------------------------
  // Tables

  /** A section's table has its heading and one row per page, in order. */
  lemma SectionTableLayout(sec: Section)
    ensures Filter(SectionTable(sec), IsHeading) == ["#### " + sec.title]
    ensures |SectionTable(sec)| == |sec.pages| + 5
    ensures forall j :: 0 <= j < |sec.pages| ==>
      SectionTable(sec)[4 + j] == Row([sec.pages[j], PageDescription(sec.pages[j])])
  {
    RowIsTableLine(["Rota", "Descrição"]);
    RowIsTableLine(["----", "---------"]);
    var rows := Rows(seq(|sec.pages|, j requires 0 <= j < |sec.pages| =>
        [sec.pages[j], PageDescription(sec.pages[j])]));
    TableLayout("#### " + sec.title, Row(["Rota", "Descrição"]), Row(["----", "---------"]), rows);
    forall j | 0 <= j < |sec.pages|
      ensures SectionTable(sec)[4 + j] == rows[j]
    {
      assert SectionTable(sec)[4..4 + |rows|][j] == rows[j];
    }
  }

  /** All three section tables are written, in a fixed order, even when a
      section is empty. */
  const SectionHeadings: seq<string> := ["#### Autenticação", "#### Dashboard", "#### Módulos"]

  lemma PageTablesHeadings(pages: seq<string>)
    ensures Filter(PageTables(pages), IsHeading) == SectionHeadings
  {
    var sections := PageSections(pages);
    var blocks := seq(|sections|, i requires 0 <= i < |sections| => SectionTable(sections[i]));
    var hs := SectionHeadings;
    assert "#### " + "Autenticação" == hs[0];
    assert "#### " + "Dashboard" == hs[1];
    assert "#### " + "Módulos" == hs[2];
    forall i | 0 <= i < 3
      ensures Filter(blocks[i], IsHeading) == [hs[i]]
    {
      SectionTableLayout(sections[i]);
    }
    BlocksHeadings(blocks, hs);
  }
}
