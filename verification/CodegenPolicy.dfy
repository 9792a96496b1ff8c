/**
 What the generator promises the people who edit the files it writes: fresh
 glue after every run, no dependence on discovery order, hand edits kept.
 */
module CodegenPolicy {
  import opened Options
  import Naming
  import Sorting
  import opened Codegen

  // ---- Fresh glue after a run ----

  function LastOf(services: seq<Service>, pkg: string): Option<Service> {
    if services == [] then None
    else
      var later := LastOf(services[1..], pkg);
      if later.Some? then later
      else if services[0].pkg == pkg then Some(services[0]) else None
  }

  lemma {:induction false} LastOfAppend(services: seq<Service>, svc: Service, pkg: string)
    ensures LastOf(services + [svc], pkg) == if svc.pkg == pkg then Some(svc) else LastOf(services, pkg)
  {
    if services != [] {
      assert (services + [svc])[1..] == services[1..] + [svc];
      LastOfAppend(services[1..], svc, pkg);
    }
  }

  lemma {:induction false} LastOfFound(services: seq<Service>, pkg: string)
    ensures LastOf(services, pkg).Some? ==>
            LastOf(services, pkg).value in services && LastOf(services, pkg).value.pkg == pkg
    ensures LastOf(services, pkg).None? ==> forall s :: s in services ==> s.pkg != pkg
  {
    if services != [] {
      LastOfFound(services[1..], pkg);
    }
  }

  lemma {:induction false} ForcedByLast(fs: Files, services: seq<Service>, pkg: string)
    requires LastOf(services, pkg).Some?
    ensures var svc := LastOf(services, pkg).value;
            && Forced(fs, services, ServicePath(pkg)) == Some(ServiceGo(pkg, svc.api))
            && Forced(fs, services, WirePath(pkg)) == Some(WireGo(pkg, WireProviders(Flag(fs, svc).hasFacade)))
  {
    var init, last := services[..|services| - 1], services[|services| - 1];
    assert services == init + [last];
    LastOfAppend(init, last, pkg);
    Tags(pkg);
    Tags(last.pkg);
    if last.pkg != pkg {
      if ServicePath(pkg) == ServicePath(last.pkg) {
        DirInjective(pkg, last.pkg, "/service.go");
      }
      if WirePath(pkg) == WirePath(last.pkg) {
        DirInjective(pkg, last.pkg, "/wire.go");
      }
      ForcedByLast(fs, init, pkg);
    }
  }

  // What a run leaves in the files of a package, by its last service.
  ghost predicate Fresh(fs: Files, fs': Files, svc: Service) {
    && Get(fs', ServicePath(svc.pkg)) == Some(ServiceGo(svc.pkg, svc.api))
    && Get(fs', WirePath(svc.pkg)) == Some(WireGo(svc.pkg, WireProviders(FacadePath(svc.pkg) in fs)))
    && (FacadePath(svc.pkg) in fs' <==> FacadePath(svc.pkg) in fs)
    && UseCasePath(svc.pkg) in fs' && RepoPath(svc.pkg) in fs'
  }

  lemma AllRefreshes(fs: Files, m: string, services: seq<Service>, svc: Service)
    requires LastOf(services, svc.pkg) == Some(svc) && !svc.hasFacade
    ensures Fresh(fs, GenerateAll(fs, m, services), svc)
  {
    var pkg := svc.pkg;
    Tags(pkg);
    LastOfFound(services, pkg);
    ForcedByLast(fs, services, pkg);
    OfferedTo(services, svc);
    AllOutcome(fs, m, services, ServicePath(pkg));
    AllOutcome(fs, m, services, WirePath(pkg));
    AllOutcome(fs, m, services, UseCasePath(pkg));
    AllOutcome(fs, m, services, RepoPath(pkg));
    NoFacadeWritten(fs, services, pkg);
  }

  // Right after a run the service and wire files of every package found, and
  // the registry, render what gen/ says now; WireBind is among the providers
  // exactly when the package has a facade, before and after the run alike.
  lemma RunRefreshes(r: Reader, fs: Files, svc: Service)
    requires ModuleName(r, fs).Some?
    requires LastOf(SortByPkg(r.discover(GenPart(fs), ModuleName(r, fs).value)), svc.pkg) == Some(svc)
    requires !svc.hasFacade
    ensures Fresh(fs, Generate(r, fs), svc)
    ensures Glued(fs, Generate(r, fs), svc)
    ensures var m := ModuleName(r, fs).value;
            Registered(Get(Generate(r, fs), "cmd/server/features_gen.go"), m, SortByPkg(r.discover(GenPart(fs), m)))
  {
    var m := ModuleName(r, fs).value;
    var services := SortByPkg(r.discover(GenPart(fs), m));
    AllRefreshes(fs, m, services, svc);
    GluedByLast(fs, m, services, svc);
    RegistryLaw(fs, m, services);
  }

  // Without a go.mod that names a module nothing is written.
  lemma StopsWithoutModule(r: Reader, fs: Files)
    ensures "go.mod" !in fs || r.moduleName(fs["go.mod"]).None? ==> Generate(r, fs) == fs
    ensures "go.mod" in fs ==> ModuleName(r, fs) == r.moduleName(fs["go.mod"])
  {
  }

  // The provider list of a wire.go: the three constructors, once each, and the
  // binding once or not at all.
  ghost predicate Lists(content: Option<Content>, pkg: string, bound: bool) {
    && content.Some? && content.value.WireGo? && content.value.pkg == pkg
    && multiset(content.value.providers)
       == multiset{"NewRepo", "NewUseCase", "NewService"} + if bound then multiset{"WireBind"} else multiset{}
  }

  lemma ProvidersLaw(pkg: string, bound: bool)
    ensures Lists(Some(WireGo(pkg, WireProviders(bound))), pkg, bound)
  {
  }

  // What is in the files of a found package right after a run, by their paths:
  // glue for its API, providers by whether it has a facade, and, if it was not
  // there, a first use case and repository of that API.
  ghost predicate Glued(fs: Files, fs': Files, svc: Service) {
    var dir := "internal/feature/" + svc.pkg;
    && Get(fs', dir + "/service.go") == Some(ServiceGo(svc.pkg, svc.api))
    && Lists(Get(fs', dir + "/wire.go"), svc.pkg, dir + "/facade.go" in fs)
    && Get(fs', dir + "/facade.go") == Get(fs, dir + "/facade.go")
    && Get(fs', dir + "/wire_bind.go") == Get(fs, dir + "/wire_bind.go")
  }

  ghost predicate StubsOnce(fs: Files, fs': Files, svc: Service) {
    var dir := "internal/feature/" + svc.pkg;
    && Get(fs', dir + "/usecase.go")
       == (if dir + "/usecase.go" in fs then Get(fs, dir + "/usecase.go") else Some(UseCaseGo(svc.pkg, svc.api)))
    && Get(fs', dir + "/repo.go")
       == (if dir + "/repo.go" in fs then Get(fs, dir + "/repo.go") else Some(RepoGo(svc.pkg, svc.api.moduleName)))
  }

  lemma {:induction false} StubOfOnlyOwner(services: seq<Service>, svc: Service)
    requires svc in services && Consistent(services)
    ensures Offered(services, UseCasePath(svc.pkg)) == Some(UseCaseGo(svc.pkg, svc.api))
    ensures Offered(services, RepoPath(svc.pkg)) == Some(RepoGo(svc.pkg, svc.api.moduleName))
  {
    var init, last := services[..|services| - 1], services[|services| - 1];
    assert last in services && forall s :: s in init ==> s in services;
    OwnersFound(map[], init, UseCasePath(svc.pkg));
    OwnersFound(map[], init, RepoPath(svc.pkg));
    Tags(svc.pkg);
    Tags(last.pkg);
    if svc in init {
      StubOfOnlyOwner(init, svc);
    } else {
      assert svc == last;
      forall s | s in init ensures UseCasePath(s.pkg) != UseCasePath(svc.pkg) && RepoPath(s.pkg) != RepoPath(svc.pkg)
        ensures RepoPath(s.pkg) != UseCasePath(svc.pkg) && UseCasePath(s.pkg) != RepoPath(svc.pkg)
      {
        OtherStubs(s, svc);
      }
    }
  }

  lemma OtherStubs(a: Service, b: Service)
    requires a.pkg != b.pkg
    ensures UseCasePath(a.pkg) != UseCasePath(b.pkg) && RepoPath(a.pkg) != RepoPath(b.pkg)
    ensures RepoPath(a.pkg) != UseCasePath(b.pkg) && UseCasePath(a.pkg) != RepoPath(b.pkg)
  {
    Tags(a.pkg);
    Tags(b.pkg);
    if UseCasePath(a.pkg) == UseCasePath(b.pkg) {
      DirInjective(a.pkg, b.pkg, "/usecase.go");
    }
    if RepoPath(a.pkg) == RepoPath(b.pkg) {
      DirInjective(a.pkg, b.pkg, "/repo.go");
    }
  }

  // The last owner of a package is its only one when packages are distinct.
  lemma OnlyOwnerIsLast(services: seq<Service>, svc: Service)
    requires svc in services && Consistent(services)
    ensures LastOf(services, svc.pkg) == Some(svc)
  {
    LastOfFound(services, svc.pkg);
  }

  // Every service found gets fresh files exactly when no two different ones
  // share a package, whichever way the sort orders them.
  lemma AllFreshIff(fs: Files, moduleName: string, found: seq<Service>, sorted: seq<Service>)
    requires forall s :: s in found ==> !s.hasFacade
    requires SortedByPkg(sorted) && multiset(sorted) == multiset(found)
    ensures Consistent(found) <==> forall s :: s in found ==> Fresh(fs, GenerateAll(fs, moduleName, sorted), s)
  {
    forall s ensures s in sorted <==> s in found {
      assert s in multiset(sorted) <==> s in multiset(found);
    }
    if Consistent(found) {
      forall s | s in found ensures Fresh(fs, GenerateAll(fs, moduleName, sorted), s) {
        OnlyOwnerIsLast(sorted, s);
        AllRefreshes(fs, moduleName, sorted, s);
      }
    } else {
      var x, y :| x in found && y in found && x.pkg == y.pkg && x != y;
      assert x.api != y.api;
    }
  }

  // The registry names every service in order, each under its own alias, package,
  // variable and service name.
  ghost predicate Registered(content: Option<Content>, moduleName: string, services: seq<Service>) {
    && content.Some? && content.value.FeaturesGo? && content.value.moduleName == moduleName
    && |content.value.rows| == |services|
    && forall k :: 0 <= k < |services| ==>
         && content.value.rows[k].alias == services[k].api.alias && content.value.rows[k].pkg == services[k].pkg
         && content.value.rows[k].serviceName == services[k].api.serviceName
         && content.value.rows[k].variable == Naming.LowerCamelCase(services[k].pkg)
  }

  lemma GluedByLast(fs: Files, moduleName: string, services: seq<Service>, svc: Service)
    requires LastOf(services, svc.pkg) == Some(svc) && !svc.hasFacade
    ensures Glued(fs, GenerateAll(fs, moduleName, services), svc)
  {
    var pkg := svc.pkg;
    Tags(pkg);
    ForcedByLast(fs, services, pkg);
    AllOutcome(fs, moduleName, services, ServicePath(pkg));
    AllOutcome(fs, moduleName, services, WirePath(pkg));
    OwnedByDeveloper(fs, moduleName, services, pkg);
    ProvidersLaw(pkg, FacadePath(pkg) in fs);
  }

  lemma OwnedByDeveloper(fs: Files, moduleName: string, services: seq<Service>, pkg: string)
    ensures Get(GenerateAll(fs, moduleName, services), FacadePath(pkg)) == Get(fs, FacadePath(pkg))
    ensures Get(GenerateAll(fs, moduleName, services), WireBindPath(pkg)) == Get(fs, WireBindPath(pkg))
  {
    Tags(pkg);
    AllOutcome(fs, moduleName, services, FacadePath(pkg));
    AllOutcome(fs, moduleName, services, WireBindPath(pkg));
    ForcedTag(fs, services, FacadePath(pkg));
    OfferedTag(services, FacadePath(pkg));
    ForcedTag(fs, services, WireBindPath(pkg));
    OfferedTag(services, WireBindPath(pkg));
  }

  lemma StubsOfOnlyOwner(fs: Files, moduleName: string, services: seq<Service>, svc: Service)
    requires svc in services && Consistent(services)
    ensures StubsOnce(fs, GenerateAll(fs, moduleName, services), svc)
  {
    var pkg := svc.pkg;
    Tags(pkg);
    StubOfOnlyOwner(services, svc);
    AllOutcome(fs, moduleName, services, UseCasePath(pkg));
    AllOutcome(fs, moduleName, services, RepoPath(pkg));
    ForcedTag(fs, services, UseCasePath(pkg));
    ForcedTag(fs, services, RepoPath(pkg));
  }

  lemma SameElements(found: seq<Service>, sorted: seq<Service>)
    requires multiset(sorted) == multiset(found)
    ensures forall s :: s in sorted <==> s in found
    ensures sorted == [] <==> found == []
  {
    forall s ensures s in sorted <==> s in found {
      assert s in multiset(sorted) <==> s in multiset(found);
    }
    assert |multiset(sorted)| == |sorted| && |multiset(found)| == |found|;
  }

  lemma RegistryLaw(fs: Files, moduleName: string, services: seq<Service>)
    requires services != []
    ensures Registered(Get(GenerateAll(fs, moduleName, services), "cmd/server/features_gen.go"), moduleName, services)
  {
    AllOutcome(fs, moduleName, services, FEATURES_PATH);
  }

  lemma GluedAmong(fs: Files, moduleName: string, services: seq<Service>, svc: Service)
    requires Consistent(services) && svc in services && !svc.hasFacade
    ensures Glued(fs, GenerateAll(fs, moduleName, services), svc)
    ensures StubsOnce(fs, GenerateAll(fs, moduleName, services), svc)
  {
    OnlyOwnerIsLast(services, svc);
    GluedByLast(fs, moduleName, services, svc);
    StubsOfOnlyOwner(fs, moduleName, services, svc);
  }

  // After a run over services of distinct packages, however they were sorted,
  // every one found has its glue and its first use case and repository, and the
  // registry names them all, each file by its path.
  lemma RunGlues(fs: Files, moduleName: string, found: seq<Service>, sorted: seq<Service>)
    requires Consistent(found) && forall s :: s in found ==> !s.hasFacade
    requires SortedByPkg(sorted) && multiset(sorted) == multiset(found)
    ensures forall s :: s in found ==> Glued(fs, GenerateAll(fs, moduleName, sorted), s)
    ensures forall s :: s in found ==> StubsOnce(fs, GenerateAll(fs, moduleName, sorted), s)
    ensures found != [] ==>
              Registered(Get(GenerateAll(fs, moduleName, sorted), "cmd/server/features_gen.go"), moduleName, sorted)
  {
    SameElements(found, sorted);
    var after := GenerateAll(fs, moduleName, sorted);
    forall s | s in found ensures Glued(fs, after, s) && StubsOnce(fs, after, s) {
      GluedAmong(fs, moduleName, sorted, s);
    }
    if found != [] {
      RegistryLaw(fs, moduleName, sorted);
    }
  }

  // What a run finds depends on the files under gen/ and on go.mod alone.
  lemma InputsDecide(r: Reader, a: Files, b: Files)
    requires Get(a, "go.mod") == Get(b, "go.mod")
    requires forall p :: |p| >= 4 && p[0] == 'g' && p[1] == 'e' && p[2] == 'n' && p[3] == '/' ==> Get(a, p) == Get(b, p)
    ensures ModuleName(r, a) == ModuleName(r, b) && GenPart(a) == GenPart(b)
    ensures forall p :: p in GenPart(a) <==> p in a && |p| >= 4 && p[..4] == "gen/"
    ensures forall p :: p in GenPart(a) ==> GenPart(a)[p] == a[p]
  {
    forall p ensures Get(GenPart(a), p) == Get(GenPart(b), p) {
      if InGen(p) {
        assert p[..4][0] == 'g' && p[..4][1] == 'e' && p[..4][2] == 'n' && p[..4][3] == '/';
        assert Get(a, p) == Get(b, p);
      }
    }
    SameFiles(GenPart(a), GenPart(b));
  }

  lemma {:induction false} OfferedTo(services: seq<Service>, svc: Service)
    requires svc in services
    ensures Offered(services, UseCasePath(svc.pkg)).Some? && Offered(services, RepoPath(svc.pkg)).Some?
  {
    var init, last := services[..|services| - 1], services[|services| - 1];
    if svc in init {
      OfferedTo(init, svc);
    } else {
      assert svc == last;
    }
  }

  // ---- Discovery order ----

  // The sort is only known to sort: on services of which no two different ones
  // share a package, every sorting of every discovery order gives one output.
  lemma OrderIndependent(fs: Files, moduleName: string, found: seq<Service>, a: seq<Service>, b: seq<Service>)
    requires Consistent(found)
    requires SortedByPkg(a) && multiset(a) == multiset(found) && SortedByPkg(b) && multiset(b) == multiset(found)
    ensures GenerateAll(fs, moduleName, a) == GenerateAll(fs, moduleName, b)
  {
    forall x | x in a ensures x in found {
      assert x in multiset(a);
    }
    Sorting.SortedUnique(a, b, BY_PKG);
  }

  lemma {:induction false} InsertHidesOthers(svc: Service, sorted: seq<Service>, pkg: string)
    requires svc.pkg != pkg && LastOf(sorted, pkg).None?
    ensures LastOf(Sorting.Insert(svc, sorted, BY_PKG), pkg).None?
  {
    if sorted != [] && !Sorting.AtMost(svc.pkg, sorted[0].pkg) {
      InsertHidesOthers(svc, sorted[1..], pkg);
      assert Sorting.Insert(svc, sorted, BY_PKG)[1..] == Sorting.Insert(svc, sorted[1..], BY_PKG);
    } else {
      assert Sorting.Insert(svc, sorted, BY_PKG)[1..] == sorted;
    }
  }

  lemma {:induction false} InsertKeepsLast(svc: Service, sorted: seq<Service>, pkg: string)
    requires LastOf(sorted, pkg).Some?
    ensures LastOf(Sorting.Insert(svc, sorted, BY_PKG), pkg) == LastOf(sorted, pkg)
  {
    if Sorting.AtMost(svc.pkg, sorted[0].pkg) {
      assert Sorting.Insert(svc, sorted, BY_PKG)[1..] == sorted;
    } else {
      assert Sorting.Insert(svc, sorted, BY_PKG)[1..] == Sorting.Insert(svc, sorted[1..], BY_PKG);
      if LastOf(sorted[1..], pkg).Some? {
        InsertKeepsLast(svc, sorted[1..], pkg);
      } else {
        Sorting.AtMostTotal(svc.pkg, svc.pkg);
        InsertHidesOthers(svc, sorted[1..], pkg);
      }
    }
  }

  lemma {:induction false} SortKeepsLast(services: seq<Service>, svc: Service)
    ensures LastOf(SortByPkg(services + [svc]), svc.pkg) == Some(svc)
  {
    if services == [] {
      assert services + [svc] == [svc] && [svc][1..] == [];
      assert SortByPkg([svc]) == Sorting.Insert(svc, SortByPkg([]), BY_PKG) == [svc];
    } else {
      assert (services + [svc])[1..] == services[1..] + [svc];
      SortKeepsLast(services[1..], svc);
      InsertKeepsLast(services[0], SortByPkg(services[1..] + [svc]), svc.pkg);
    }
  }

  // Two different services of one package make the output depend on which of
  // them a sorting happens to put last.
  lemma OrderMatters(fs: Files, moduleName: string, rest: seq<Service>, x: Service, y: Service)
    requires x.pkg == y.pkg && x.api != y.api
    ensures GenerateAll(fs, moduleName, SortByPkg(rest + [x, y]))
            != GenerateAll(fs, moduleName, SortByPkg(rest + [y, x]))
  {
    var a, b := SortByPkg(rest + [x, y]), SortByPkg(rest + [y, x]);
    assert rest + [x, y] == (rest + [x]) + [y] && rest + [y, x] == (rest + [y]) + [x];
    SortKeepsLast(rest + [x], y);
    SortKeepsLast(rest + [y], x);
    Tags(x.pkg);
    ForcedByLast(fs, a, x.pkg);
    ForcedByLast(fs, b, x.pkg);
    AllOutcome(fs, moduleName, a, ServicePath(x.pkg));
    AllOutcome(fs, moduleName, b, ServicePath(x.pkg));
  }

  function Without(services: seq<Service>, svc: Service): seq<Service> {
    if services == [] then []
    else if services[0] == svc then services[1..]
    else [services[0]] + Without(services[1..], svc)
  }

  lemma {:induction false} WithoutCounts(services: seq<Service>, svc: Service)
    requires svc in services
    ensures multiset(services) == multiset(Without(services, svc)) + multiset{svc}
  {
    assert services == [services[0]] + services[1..];
    if services[0] != svc {
      WithoutCounts(services[1..], svc);
    }
  }

  lemma TakeOutTwo(found: seq<Service>, x: Service, y: Service) returns (rest: seq<Service>)
    requires x in found && y in found && x != y
    ensures multiset(found) == multiset(rest) + multiset{x} + multiset{y}
  {
    var one := Without(found, x);
    WithoutCounts(found, x);
    assert y in multiset(found) && y in multiset(one);
    rest := Without(one, y);
    WithoutCounts(one, y);
  }

  lemma AppendTwo(rest: seq<Service>, x: Service, y: Service)
    ensures multiset(rest + [x, y]) == multiset(rest) + multiset{x} + multiset{y}
  {
    assert rest + [x, y] == (rest + [x]) + [y];
  }

  lemma DifferentOutputs(fs: Files, moduleName: string, found: seq<Service>, x: Service, y: Service)
    returns (a: seq<Service>, b: seq<Service>)
    requires x in found && y in found && x.pkg == y.pkg && x.api != y.api
    ensures SortedByPkg(a) && SortedByPkg(b) && multiset(a) == multiset(found) && multiset(b) == multiset(found)
    ensures GenerateAll(fs, moduleName, a) != GenerateAll(fs, moduleName, b)
  {
    var rest := TakeOutTwo(found, x, y);
    AppendTwo(rest, x, y);
    AppendTwo(rest, y, x);
    a, b := SortByPkg(rest + [x, y]), SortByPkg(rest + [y, x]);
    Sorting.SortSorts(rest + [x, y], BY_PKG);
    Sorting.SortSorts(rest + [y, x], BY_PKG);
    OrderMatters(fs, moduleName, rest, x, y);
  }

  const USER_V1 := Service("user", Api("m", "UserService", "m/gen/user/v1", "userv1", []), false)
  const USER_V2 := Service("user", Api("m", "UserService", "m/gen/user/v2", "userv2", []), false)

  // For example two versions of one service: both orders are sorted, and each
  // leaves service.go to the version it puts last.
  lemma TwoVersionsDiffer(fs: Files)
    ensures SortedByPkg([USER_V1, USER_V2]) && SortedByPkg([USER_V2, USER_V1])
    ensures var a, b := GenerateAll(fs, "m", [USER_V1, USER_V2]), GenerateAll(fs, "m", [USER_V2, USER_V1]);
            && Get(a, ServicePath("user")) == Some(ServiceGo("user", USER_V2.api))
            && Get(b, ServicePath("user")) == Some(ServiceGo("user", USER_V1.api))
            && a != b
  {
    Sorting.AtMostTotal("user", "user");
    LastWins(fs, USER_V1, USER_V2);
    LastWins(fs, USER_V2, USER_V1);
  }

  lemma LastWins(fs: Files, x: Service, y: Service)
    ensures Get(GenerateAll(fs, "m", [x, y]), ServicePath(y.pkg)) == Some(ServiceGo(y.pkg, y.api))
  {
    Tags(y.pkg);
    AllOutcome(fs, "m", [x, y], ServicePath(y.pkg));
  }

  // So the output is independent of the order exactly when no two different
  // services share a feature package.
  lemma OrderIndependentIff(fs: Files, moduleName: string, found: seq<Service>)
    requires forall s :: s in found ==> !s.hasFacade
    ensures Consistent(found) <==>
            forall a, b | SortedByPkg(a) && SortedByPkg(b) && multiset(a) == multiset(found)
              && multiset(b) == multiset(found) ::
              GenerateAll(fs, moduleName, a) == GenerateAll(fs, moduleName, b)
  {
    if Consistent(found) {
      forall a, b | SortedByPkg(a) && SortedByPkg(b) && multiset(a) == multiset(found)
        && multiset(b) == multiset(found)
        ensures GenerateAll(fs, moduleName, a) == GenerateAll(fs, moduleName, b)
      {
        OrderIndependent(fs, moduleName, found, a, b);
      }
    } else {
      var x, y :| x in found && y in found && x.pkg == y.pkg && x != y;
      var a, b := DifferentOutputs(fs, moduleName, found, x, y);
    }
  }

  // ---- Hand edits ----

  // A developer writes or deletes a file, or the generator runs.
  datatype Action = Edit(path: Path, content: Option<Content>) | Run

  function Act(r: Reader, fs: Files, action: Action): Files {
    match action
    case Run => Generate(r, fs)
    case Edit(p, Some(c)) => fs[p := c]
    case Edit(p, None) => fs - {p}
  }

  function Replay(r: Reader, fs: Files, actions: seq<Action>): Files {
    if actions == [] then fs
    else Act(r, Replay(r, fs, actions[..|actions| - 1]), actions[|actions| - 1])
  }

  // What the developer last did to p, if anything.
  function LastEdit(actions: seq<Action>, p: Path): Option<Option<Content>> {
    if actions == [] then None
    else
      var last := actions[|actions| - 1];
      if last.Edit? && last.path == p then Some(last.content)
      else LastEdit(actions[..|actions| - 1], p)
  }

  // What one run does to p: rewrites it, whatever it holds, or creates it if it
  // is missing.
  predicate Rewrites(r: Reader, fs: Files, p: Path) {
    ModuleName(r, fs).Some?
    && var services := SortByPkg(r.discover(GenPart(fs), ModuleName(r, fs).value));
       (services != [] && p == FEATURES_PATH) || Forced(fs, services, p).Some?
  }

  predicate Creates(r: Reader, fs: Files, p: Path) {
    ModuleName(r, fs).Some?
    && Offered(SortByPkg(r.discover(GenPart(fs), ModuleName(r, fs).value)), p).Some?
  }

  // No run along the way rewrites p, or none creates it.
  predicate NeverRewritten(r: Reader, fs: Files, actions: seq<Action>, p: Path) {
    actions == []
    || (var before := Replay(r, fs, actions[..|actions| - 1]);
        && NeverRewritten(r, fs, actions[..|actions| - 1], p)
        && (actions[|actions| - 1].Run? ==> !Rewrites(r, before, p)))
  }

  predicate NeverCreated(r: Reader, fs: Files, actions: seq<Action>, p: Path) {
    actions == []
    || (var before := Replay(r, fs, actions[..|actions| - 1]);
        && NeverCreated(r, fs, actions[..|actions| - 1], p)
        && (actions[|actions| - 1].Run? ==> !Creates(r, before, p)))
  }

  lemma RunKeeps(r: Reader, fs: Files, p: Path)
    requires !Rewrites(r, fs, p)
    ensures p in fs ==> Get(Generate(r, fs), p) == Get(fs, p)
    ensures !Creates(r, fs, p) ==> Get(Generate(r, fs), p) == Get(fs, p)
  {
    var m := ModuleName(r, fs);
    if m.Some? {
      AllOutcome(fs, m.value, SortByPkg(r.discover(GenPart(fs), m.value)), p);
    }
  }

  // However runs and edits interleave, a file that none of these runs rewrites
  // holds the developer's last content; where none creates it either, it is
  // exactly the developer's file, deletions included.
  lemma {:induction false} HandEditsSurvive(r: Reader, fs: Files, actions: seq<Action>, p: Path)
    requires NeverRewritten(r, fs, actions, p)
    ensures LastEdit(actions, p).Some? && LastEdit(actions, p).value.Some? ==>
              Get(Replay(r, fs, actions), p) == LastEdit(actions, p).value
    ensures LastEdit(actions, p).None? && p in fs ==> Get(Replay(r, fs, actions), p) == Some(fs[p])
    ensures NeverCreated(r, fs, actions, p) ==>
              Get(Replay(r, fs, actions), p)
              == if LastEdit(actions, p).Some? then LastEdit(actions, p).value else Get(fs, p)
  {
    if actions != [] {
      var init, last := actions[..|actions| - 1], actions[|actions| - 1];
      HandEditsSurvive(r, fs, init, p);
      if last.Run? {
        RunKeeps(r, Replay(r, fs, init), p);
      }
    }
  }

  // Runs rewrite only the registry and the service and wire files of packages
  // they found, and create only use case and repository files of those.
  lemma {:induction false} OwnersFound(fs: Files, services: seq<Service>, p: Path)
    ensures Forced(fs, services, p).Some? ==>
            exists s :: s in services && (p == ServicePath(s.pkg) || p == WirePath(s.pkg))
    ensures Offered(services, p).Some? ==>
            exists s :: s in services && (p == UseCasePath(s.pkg) || p == RepoPath(s.pkg))
  {
    if services != [] {
      var init, last := services[..|services| - 1], services[|services| - 1];
      OwnersFound(fs, init, p);
      assert last in services && forall s :: s in init ==> s in services;
    }
  }

  // The four files developers own fall under that law whatever is found:
  // usecase.go and repo.go are never rewritten, facade.go and wire_bind.go
  // never even created.
  lemma {:induction false} OwnedFiles(r: Reader, fs: Files, actions: seq<Action>, pkg: string)
    ensures NeverRewritten(r, fs, actions, UseCasePath(pkg)) && NeverRewritten(r, fs, actions, RepoPath(pkg))
    ensures NeverRewritten(r, fs, actions, FacadePath(pkg)) && NeverCreated(r, fs, actions, FacadePath(pkg))
    ensures NeverRewritten(r, fs, actions, WireBindPath(pkg)) && NeverCreated(r, fs, actions, WireBindPath(pkg))
  {
    if actions != [] {
      var init := actions[..|actions| - 1];
      OwnedFiles(r, fs, init, pkg);
      OwnedFilesInOneRun(r, Replay(r, fs, init), pkg);
    }
  }

  lemma OwnedFilesInOneRun(r: Reader, fs: Files, pkg: string)
    ensures !Rewrites(r, fs, UseCasePath(pkg)) && !Rewrites(r, fs, RepoPath(pkg))
    ensures !Rewrites(r, fs, FacadePath(pkg)) && !Creates(r, fs, FacadePath(pkg))
    ensures !Rewrites(r, fs, WireBindPath(pkg)) && !Creates(r, fs, WireBindPath(pkg))
  {
    Tags(pkg);
    forall services: seq<Service>, p: Path | Tag(p) == 's' || Tag(p) == 'p' || Tag(p) == 'd' || Tag(p) == 'n'
      ensures Forced(fs, services, p).None?
    {
      ForcedTag(fs, services, p);
    }
    forall services: seq<Service>, p: Path | Tag(p) == 'd' || Tag(p) == 'n' ensures Offered(services, p).None? {
      OfferedTag(services, p);
    }
  }

  // ---- The registry ----

  // The registry's fields are distinct exactly when no two packages differ only
  // in underscores not followed by a letter; for canonical packages that is
  // just that the packages are distinct.
  lemma RegistryFieldsDistinct(services: seq<Service>)
    requires forall s :: s in services ==> Naming.ValidName(s.pkg)
    ensures (forall i, j :: 0 <= i < j < |services| ==> Rows(services)[i].variable != Rows(services)[j].variable)
            <==> (forall i, j :: 0 <= i < j < |services| ==>
              Naming.Squash(services[i].pkg) != Naming.Squash(services[j].pkg))
    ensures (forall s :: s in services ==> Naming.Canonical(s.pkg)) ==>
              forall i, j :: 0 <= i < j < |services| && services[i].pkg != services[j].pkg ==>
                Rows(services)[i].variable != Rows(services)[j].variable
  {
    forall i, j | 0 <= i < j < |services|
      ensures Rows(services)[i].variable == Rows(services)[j].variable
              <==> Naming.Squash(services[i].pkg) == Naming.Squash(services[j].pkg)
      ensures Naming.Canonical(services[i].pkg) ==> Naming.Squash(services[i].pkg) == services[i].pkg
      ensures Naming.Canonical(services[j].pkg) ==> Naming.Squash(services[j].pkg) == services[j].pkg
    {
      Naming.PascalCollision(services[i].pkg, services[j].pkg);
      Naming.SquashFixes(services[i].pkg);
      Naming.SquashFixes(services[j].pkg);
    }
  }
}
