/**
 The code generator as a transformation of a file system: which files it
 overwrites, which it creates once, which it never touches.
 */
module Codegen {
  import opened Options
  import Naming
  import Sorting

  type Path = string

  // What a generated _http.pb.go file says about its service.
  datatype Api = Api(moduleName: string, serviceName: string, importPath: string, alias: string, methods: seq<string>)

  datatype Service = Service(pkg: string, api: Api, hasFacade: bool)

  datatype FeatureRow = FeatureRow(alias: string, pkg: string, variable: string, serviceName: string)

  // A file is hand-written, or the rendering of a template with its inputs.
  datatype Content =
    | Hand(text: string)
    | ServiceGo(pkg: string, api: Api)
    | UseCaseGo(pkg: string, api: Api)
    | RepoGo(pkg: string, moduleName: string)
    | WireGo(pkg: string, providers: seq<string>)
    | FeaturesGo(moduleName: string, rows: seq<FeatureRow>)

  type Files = map<Path, Content>

  function Get(fs: Files, p: Path): Option<Content> {
    if p in fs then Some(fs[p]) else None
  }

  // ---- Paths ----

  function Dir(pkg: string): Path { "internal/feature/" + pkg }
  function ServicePath(pkg: string): Path { Dir(pkg) + "/service.go" }
  function UseCasePath(pkg: string): Path { Dir(pkg) + "/usecase.go" }
  function RepoPath(pkg: string): Path { Dir(pkg) + "/repo.go" }
  function WirePath(pkg: string): Path { Dir(pkg) + "/wire.go" }
  function FacadePath(pkg: string): Path { Dir(pkg) + "/facade.go" }
  function WireBindPath(pkg: string): Path { Dir(pkg) + "/wire_bind.go" }

  const FEATURES_PATH: Path := "cmd/server/features_gen.go"
  const GO_MOD: Path := "go.mod"

  predicate InGen(p: Path) {
    |p| >= 4 && p[..4] == "gen/"
  }

  // The fifth byte from the end tells the files of a feature apart.
  function Tag(p: Path): char {
    if |p| < 5 then '?' else p[|p| - 5]
  }

  lemma TagOf(dir: Path, file: string)
    requires |file| >= 5
    ensures Tag(dir + file) == file[|file| - 5]
  {
  }

  lemma Tags(pkg: string)
    ensures Tag(ServicePath(pkg)) == 'c' && Tag(UseCasePath(pkg)) == 's' && Tag(RepoPath(pkg)) == 'p'
    ensures Tag(WirePath(pkg)) == 'r' && Tag(FacadePath(pkg)) == 'd' && Tag(WireBindPath(pkg)) == 'n'
    ensures Tag(FEATURES_PATH) == 'e'
  {
    TagOf(Dir(pkg), "/service.go");
    TagOf(Dir(pkg), "/usecase.go");
    TagOf(Dir(pkg), "/repo.go");
    TagOf(Dir(pkg), "/wire.go");
    TagOf(Dir(pkg), "/facade.go");
    TagOf(Dir(pkg), "/wire_bind.go");
    assert FEATURES_PATH == "cmd/server/features" + "_gen.go";
    TagOf("cmd/server/features", "_gen.go");
  }

  // A feature's path is decided by its package.
  lemma DirInjective(a: string, b: string, file: string)
    requires Dir(a) + file == Dir(b) + file
    ensures a == b
  {
    Naming.DropLast(Dir(a), Dir(b), file);
    assert Dir(a)[|"internal/feature/"|..] == a && Dir(b)[|"internal/feature/"|..] == b;
  }

  // ---- Rendering ----

  // The three constructors every feature has, and the binding of one with a facade.
  function WireProviders(hasFacade: bool): (names: seq<string>)
    ensures "WireBind" in names <==> hasFacade
  {
    if hasFacade then ["NewRepo", "NewUseCase", "NewService", "WireBind"] else ["NewRepo", "NewUseCase", "NewService"]
  }

  function Row(svc: Service): FeatureRow {
    FeatureRow(svc.api.alias, svc.pkg, Naming.LowerCamelCase(svc.pkg), svc.api.serviceName)
  }

  function Rows(services: seq<Service>): seq<FeatureRow> {
    seq(|services|, i requires 0 <= i < |services| => Row(services[i]))
  }

  // ---- Writing ----

  function Write(fs: Files, p: Path, content: Content, overwrite: bool): Files {
    if !overwrite && p in fs then fs else fs[p := content]
  }

  function Flag(fs: Files, svc: Service): Service {
    svc.(hasFacade := svc.hasFacade || FacadePath(svc.pkg) in fs)
  }

  function GenerateOne(fs: Files, svc: Service): Files {
    var s := Flag(fs, svc);
    var fs1 := Write(fs, ServicePath(s.pkg), ServiceGo(s.pkg, s.api), true);
    var fs2 := Write(fs1, UseCasePath(s.pkg), UseCaseGo(s.pkg, s.api), false);
    var fs3 := Write(fs2, RepoPath(s.pkg), RepoGo(s.pkg, s.api.moduleName), false);
    Write(fs3, WirePath(s.pkg), WireGo(s.pkg, WireProviders(s.hasFacade)), true)
  }

  function GenerateEach(fs: Files, services: seq<Service>): Files {
    if services == [] then fs
    else GenerateOne(GenerateEach(fs, services[..|services| - 1]), services[|services| - 1])
  }

  function GenerateAll(fs: Files, moduleName: string, services: seq<Service>): Files {
    var each := GenerateEach(fs, services);
    if services == [] then each
    else Write(each, FEATURES_PATH, FeaturesGo(moduleName, Rows(services)), true)
  }

  // ---- Where the content of every path comes from ----

  // The content forced on p by the last service that owns it.
  function Forced(fs: Files, services: seq<Service>, p: Path): Option<Content> {
    if services == [] then None
    else
      var svc := Flag(fs, services[|services| - 1]);
      if p == ServicePath(svc.pkg) then Some(ServiceGo(svc.pkg, svc.api))
      else if p == WirePath(svc.pkg) then Some(WireGo(svc.pkg, WireProviders(svc.hasFacade)))
      else Forced(fs, services[..|services| - 1], p)
  }

  // The stub offered for p by the first service that owns it.
  function Offered(services: seq<Service>, p: Path): Option<Content> {
    if services == [] then None
    else
      var before := Offered(services[..|services| - 1], p);
      var svc := services[|services| - 1];
      if before.Some? then before
      else if p == UseCasePath(svc.pkg) then Some(UseCaseGo(svc.pkg, svc.api))
      else if p == RepoPath(svc.pkg) then Some(RepoGo(svc.pkg, svc.api.moduleName))
      else None
  }

  function Outcome(fs: Files, services: seq<Service>, p: Path): Option<Content> {
    var forced := Forced(fs, services, p);
    if forced.Some? then forced
    else if p in fs then Some(fs[p])
    else Offered(services, p)
  }

  lemma OneOutcome(fs: Files, svc: Service, p: Path)
    ensures Get(GenerateOne(fs, svc), p) ==
            (if p == ServicePath(svc.pkg) then Some(ServiceGo(svc.pkg, svc.api))
             else if p == WirePath(svc.pkg) then Some(WireGo(svc.pkg, WireProviders(Flag(fs, svc).hasFacade)))
             else if p in fs then Some(fs[p])
             else if p == UseCasePath(svc.pkg) then Some(UseCaseGo(svc.pkg, svc.api))
             else if p == RepoPath(svc.pkg) then Some(RepoGo(svc.pkg, svc.api.moduleName))
             else None)
  {
    Tags(svc.pkg);
  }

  lemma {:induction false} NoFacadeWritten(fs: Files, services: seq<Service>, pkg: string)
    ensures FacadePath(pkg) in GenerateEach(fs, services) <==> FacadePath(pkg) in fs
  {
    if services != [] {
      var init, last := services[..|services| - 1], services[|services| - 1];
      NoFacadeWritten(fs, init, pkg);
      OneOutcome(GenerateEach(fs, init), last, FacadePath(pkg));
      Tags(pkg);
      Tags(last.pkg);
    }
  }

  // After generating for any list of services: service.go and wire.go hold
  // what the last owner renders, usecase.go and repo.go what they held or the
  // first owner's stub, every other path what it held.
  lemma {:induction false} EachOutcome(fs: Files, services: seq<Service>, p: Path)
    ensures Get(GenerateEach(fs, services), p) == Outcome(fs, services, p)
  {
    if services != [] {
      var init, last := services[..|services| - 1], services[|services| - 1];
      EachOutcome(fs, init, p);
      OneOutcome(GenerateEach(fs, init), last, p);
      NoFacadeWritten(fs, init, last.pkg);
      NotBothForcedAndOffered(fs, services, p);
    }
  }

  lemma {:induction false} ForcedTag(fs: Files, services: seq<Service>, p: Path)
    ensures Forced(fs, services, p).Some? ==> Tag(p) == 'c' || Tag(p) == 'r'
  {
    if services != [] {
      ForcedTag(fs, services[..|services| - 1], p);
      Tags(services[|services| - 1].pkg);
    }
  }

  lemma {:induction false} OfferedTag(services: seq<Service>, p: Path)
    ensures Offered(services, p).Some? ==> Tag(p) == 's' || Tag(p) == 'p'
  {
    if services != [] {
      OfferedTag(services[..|services| - 1], p);
      Tags(services[|services| - 1].pkg);
    }
  }

  lemma NotBothForcedAndOffered(fs: Files, services: seq<Service>, p: Path)
    ensures Forced(fs, services, p).None? || Offered(services, p).None?
  {
    ForcedTag(fs, services, p);
    OfferedTag(services, p);
  }

  lemma {:induction false} ForcedDependsOnFacades(fs: Files, fs': Files, services: seq<Service>, p: Path)
    requires forall pkg :: FacadePath(pkg) in fs <==> FacadePath(pkg) in fs'
    ensures Forced(fs, services, p) == Forced(fs', services, p)
  {
    if services != [] {
      ForcedDependsOnFacades(fs, fs', services[..|services| - 1], p);
    }
  }

  lemma SameFiles(a: Files, b: Files)
    requires forall p :: Get(a, p) == Get(b, p)
    ensures a == b
  {
    forall p ensures p in a <==> p in b {
      assert Get(a, p) == Get(b, p);
    }
    forall p | p in a ensures a[p] == b[p] {
      assert Get(a, p) == Get(b, p);
    }
  }

  lemma AllOutcome(fs: Files, moduleName: string, services: seq<Service>, p: Path)
    ensures Get(GenerateAll(fs, moduleName, services), p) ==
            if services != [] && p == FEATURES_PATH then Some(FeaturesGo(moduleName, Rows(services)))
            else Outcome(fs, services, p)
  {
    EachOutcome(fs, services, p);
  }

  // Generating twice for the same services is generating once, even when two
  // services share a feature package.
  lemma GenerateAllIdempotent(fs: Files, moduleName: string, services: seq<Service>)
    ensures var once := GenerateAll(fs, moduleName, services);
            GenerateAll(once, moduleName, services) == once
  {
    var once := GenerateAll(fs, moduleName, services);
    forall pkg ensures FacadePath(pkg) in fs <==> FacadePath(pkg) in once {
      NoFacadeWritten(fs, services, pkg);
      Tags(pkg);
    }
    forall p ensures Get(GenerateAll(once, moduleName, services), p) == Get(once, p) {
      AllOutcome(fs, moduleName, services, p);
      AllOutcome(once, moduleName, services, p);
      ForcedDependsOnFacades(fs, once, services, p);
    }
    SameFiles(GenerateAll(once, moduleName, services), once);
  }

  // ---- Sorting by feature package ----

  const BY_PKG: Service -> string := (svc: Service) => svc.pkg

  ghost predicate SortedByPkg(services: seq<Service>) {
    Sorting.Sorted(services, BY_PKG)
  }

  function SortByPkg(services: seq<Service>): seq<Service> {
    Sorting.SortBy(services, BY_PKG)
  }

  // Services of the same package are the same service.
  ghost predicate Consistent(services: seq<Service>) {
    forall a, b :: a in services && b in services && a.pkg == b.pkg ==> a == b
  }

  // ---- The whole program ----

  // What the generator reads: the module name from go.mod, and the services
  // found in gen/, in the order the walk meets them.
  datatype Reader = Reader(moduleName: Content -> Option<string>, discover: (Files, string) -> seq<Service>)

  function GenPart(fs: Files): Files {
    map p | p in fs && InGen(p) :: fs[p]
  }

  function ModuleName(r: Reader, fs: Files): Option<string> {
    if GO_MOD in fs then r.moduleName(fs[GO_MOD]) else None
  }

  // Without a module name the program stops before it writes anything.
  function Generate(r: Reader, fs: Files): Files {
    var m := ModuleName(r, fs);
    if m.None? then fs
    else GenerateAll(fs, m.value, SortByPkg(r.discover(GenPart(fs), m.value)))
  }

  // No path the generator writes is one it reads.
  lemma InputsNotWritten(fs: Files, moduleName: string, services: seq<Service>, p: Path)
    requires InGen(p) || p == GO_MOD
    ensures Get(GenerateAll(fs, moduleName, services), p) == Get(fs, p)
  {
    AllOutcome(fs, moduleName, services, p);
    assert p[0] == 'g' by {
      if InGen(p) {
        assert p[..4][0] == 'g';
      }
    }
    NothingForcedOrOffered(fs, services, p);
  }

  lemma {:induction false} NothingForcedOrOffered(fs: Files, services: seq<Service>, p: Path)
    requires p == "" || p[0] != 'i'
    ensures Forced(fs, services, p).None? && Offered(services, p).None?
  {
    if services != [] {
      NothingForcedOrOffered(fs, services[..|services| - 1], p);
      var pkg := services[|services| - 1].pkg;
      assert ServicePath(pkg)[0] == WirePath(pkg)[0] == UseCasePath(pkg)[0] == RepoPath(pkg)[0] == 'i';
    }
  }

  lemma InputsUnchanged(r: Reader, fs: Files)
    ensures GenPart(Generate(r, fs)) == GenPart(fs)
    ensures ModuleName(r, Generate(r, fs)) == ModuleName(r, fs)
  {
    var m := ModuleName(r, fs);
    if m.Some? {
      var services := SortByPkg(r.discover(GenPart(fs), m.value));
      forall p | InGen(p) || p == GO_MOD ensures Get(Generate(r, fs), p) == Get(fs, p) {
        InputsNotWritten(fs, m.value, services, p);
      }
      forall p ensures Get(GenPart(Generate(r, fs)), p) == Get(GenPart(fs), p) {
        if InGen(p) {
          assert Get(Generate(r, fs), p) == Get(fs, p);
        }
      }
      SameFiles(GenPart(Generate(r, fs)), GenPart(fs));
      assert Get(Generate(r, fs), GO_MOD) == Get(fs, GO_MOD);
    }
  }

  // Running the generator twice does not drift.
  lemma GenerateIdempotent(r: Reader, fs: Files)
    ensures Generate(r, Generate(r, fs)) == Generate(r, fs)
  {
    InputsUnchanged(r, fs);
    var m := ModuleName(r, fs);
    if m.Some? {
      GenerateAllIdempotent(fs, m.value, SortByPkg(r.discover(GenPart(fs), m.value)));
    }
  }
}
