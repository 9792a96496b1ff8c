/**
 `scaffold add-feature`: check that none of seven files exists, then write them,
 then point buf.gen.yaml at the api directory.
 */
module Scaffold {
  import opened Options
  import Naming
  import Sorting

  // ---- Templates and their data ----

  datatype FeatureData = FeatureData(name: string, pascal: string, upper: string, table: string, moduleName: string)

  function UpperSnake(name: string): string {
    if name == "" then "" else Naming.UpperByte(name[0]) + UpperSnake(name[1..])
  }

  // Different features get different error reasons, whose names carry it.
  lemma {:induction false} UpperSnakeInjective(a: string, b: string)
    requires Naming.NameBytes(a) && Naming.NameBytes(b) && UpperSnake(a) == UpperSnake(b)
    ensures a == b
  {
    if a != "" && b != "" {
      var x, y := Naming.UpperByte(a[0]), Naming.UpperByte(b[0]);
      assert |x| == 1 && |y| == 1 && UpperSnake(a)[0] == x[0] && UpperSnake(b)[0] == y[0];
      assert UpperSnake(a)[1..] == UpperSnake(a[1..]) && UpperSnake(b)[1..] == UpperSnake(b[1..]);
      UpperSnakeInjective(a[1..], b[1..]);
      assert a == [a[0]] + a[1..] && b == [b[0]] + b[1..];
    }
  }

  // Letters become capitals, everything else of a name stays.
  lemma {:induction false} UpperSnakeLaw(name: string, k: nat)
    requires Naming.NameBytes(name) && k < |name|
    ensures |UpperSnake(name)| == |name|
    ensures 'a' <= name[k] <= 'z' ==> UpperSnake(name)[k] as int - 'A' as int == name[k] as int - 'a' as int
    ensures !('a' <= name[k] <= 'z') ==> UpperSnake(name)[k] == name[k]
  {
    Naming.CaseLaw(name[0]);
    assert Naming.NameByte(name[0]);
    if |name| > 1 {
      UpperSnakeLaw(name[1..], if k > 0 then k - 1 else 0);
    }
  }

  function DataFor(name: string, moduleName: string): FeatureData {
    FeatureData(name, Naming.PascalCase(name), UpperSnake(name), Naming.Pluralize(name), moduleName)
  }

  datatype Template = Proto | ErrorReason | Ports | FacadeGo | WireBindGo | Schema | Migration

  datatype Input = Input(directory: string, paths: seq<string>)

  // What a path holds.
  datatype Body =
    | Other(text: string)
    | GoMod(moduleName: string)
    | BufGen(inputs: seq<Input>)
    | Rendered(tpl: Template, data: FeatureData)

  type Files = map<string, Body>

  // ---- The seven files ----

  datatype File = File(path: string, body: Body)

  // filepath.Join of an absolute root and a clean relative path.
  function Join(root: string, rel: string): string {
    (if root == "/" then root else root + "/") + rel
  }

  function ProtoRel(name: string): string { "api/" + name + "/v1/" + name + ".proto" }
  function ReasonRel(name: string): string { "api/" + name + "/v1/" + "error_reason.proto" }
  function PortsRel(name: string): string { "internal/domain/ports/" + name + ".go" }
  function FacadeRel(name: string): string { "internal/feature/" + name + "/facade.go" }
  function WireBindRel(name: string): string { "internal/feature/" + name + "/wire_bind.go" }
  function SchemaRel(table: string): string { "db/schema/" + table + ".sql" }
  function MigrationRel(stamp: string, table: string): string {
    "db/migrations/" + stamp + "_create_" + table + ".sql"
  }

  const BUF_GEN_REL := "buf.gen.yaml"
  const GO_MOD_REL := "go.mod"

  // In the order they are checked and written; `stamp` is the time of day.
  function Plan(root: string, data: FeatureData, stamp: string): (plan: seq<File>)
    ensures |plan| == 7
  {
    [ File(Join(root, ProtoRel(data.name)), Rendered(Proto, data)),
      File(Join(root, ReasonRel(data.name)), Rendered(ErrorReason, data)),
      File(Join(root, PortsRel(data.name)), Rendered(Ports, data)),
      File(Join(root, FacadeRel(data.name)), Rendered(FacadeGo, data)),
      File(Join(root, WireBindRel(data.name)), Rendered(WireBindGo, data)),
      File(Join(root, SchemaRel(data.table)), Rendered(Schema, data)),
      File(Join(root, MigrationRel(stamp, data.table)), Rendered(Migration, data)) ]
  }

  ghost predicate Distinct(plan: seq<File>) {
    forall i, j :: 0 <= i < j < |plan| ==> plan[i].path != plan[j].path
  }

  lemma JoinInjective(root: string, a: string, b: string)
    requires Join(root, a) == Join(root, b)
    ensures a == b
  {
    var dir := if root == "/" then root else root + "/";
    assert Join(root, a)[|dir|..] == a && Join(root, b)[|dir|..] == b;
  }

  // The relative path of the i-th file.
  function Rel(i: nat, name: string, table: string, stamp: string): string
    requires i < 7
  {
    if i == 0 then ProtoRel(name)
    else if i == 1 then ReasonRel(name)
    else if i == 2 then PortsRel(name)
    else if i == 3 then FacadeRel(name)
    else if i == 4 then WireBindRel(name)
    else if i == 5 then SchemaRel(table)
    else MigrationRel(stamp, table)
  }

  // The first, fourth and tenth byte, and the fifth from the end, tell the
  // files apart, all but the two proto files.
  lemma RelBytes(i: nat, name: string, table: string, stamp: string)
    requires i < 7
    ensures var rel := Rel(i, name, table, stamp);
            && |rel| > 9 && rel[0] == (if i <= 1 then 'a' else if i <= 4 then 'i' else 'd')
            && (2 <= i <= 4 ==> rel[9] == if i == 2 then 'd' else 'f')
            && (3 <= i <= 4 ==> rel[|rel| - 5] == if i == 3 then 'd' else 'n')
            && (5 <= i ==> rel[3] == if i == 5 then 's' else 'm')
  {
  }

  lemma ProtoPathsCoincide(name: string)
    ensures ProtoRel(name) == ReasonRel(name) <==> name == "error_reason"
  {
    var dir := "api/" + name + "/v1/";
    assert ProtoRel(name) == dir + (name + ".proto") && ReasonRel(name) == dir + ("error_reason" + ".proto");
    if ProtoRel(name) == ReasonRel(name) {
      assert ProtoRel(name)[|dir|..] == name + ".proto" && ReasonRel(name)[|dir|..] == "error_reason" + ".proto";
      Naming.DropLast(name, "error_reason", ".proto");
    }
  }

  lemma RelsDiffer(i: nat, j: nat, name: string, table: string, stamp: string)
    requires i < j < 7
    ensures Rel(i, name, table, stamp) == Rel(j, name, table, stamp) <==> i == 0 && j == 1 && name == "error_reason"
  {
    RelBytes(i, name, table, stamp);
    RelBytes(j, name, table, stamp);
    ProtoPathsCoincide(name);
  }

  // The seven paths are distinct exactly for names other than error_reason.
  lemma PlanDistinctIff(root: string, data: FeatureData, stamp: string)
    ensures Distinct(Plan(root, data, stamp)) <==> data.name != "error_reason"
  {
    var plan := Plan(root, data, stamp);
    forall i, j | 0 <= i < j < 7
      ensures plan[i].path == plan[j].path <==> i == 0 && j == 1 && data.name == "error_reason"
    {
      RelsDiffer(i, j, data.name, data.table, stamp);
      if plan[i].path == plan[j].path {
        JoinInjective(root, Rel(i, data.name, data.table, stamp), Rel(j, data.name, data.table, stamp));
      }
    }
    assert data.name == "error_reason" ==> plan[0].path == plan[1].path;
  }

  // ---- What can go wrong outside ----

  // A write that fails leaves the path as it was, or cut short.
  datatype WriteFault = Sound | NotOpened | CutShort(left: Body)

  datatype Env = Env(mkdirFails: bool, unreadable: set<string>, write: nat -> WriteFault)

  datatype Failure =
    | InvalidName
    | NoModule
    | MkdirFailed
    | MigrationExists(path: string)
    | AlreadyExists(path: string)
    | StatFailed(path: string)
    | WriteFailed(k: nat)
    | BufGenUnusable

  datatype Done = Done(files: Files, failure: Option<Failure>)

  // ---- createFeatureFiles ----

  function Obstacle(fs: Files, env: Env, path: string): Option<Failure> {
    if path in env.unreadable then Some(StatFailed(path))
    else if path in fs then Some(AlreadyExists(path))
    else None
  }

  function FirstObstacle(fs: Files, env: Env, plan: seq<File>): Option<Failure> {
    if plan == [] then None
    else
      var here := Obstacle(fs, env, plan[0].path);
      if here.Some? then here else FirstObstacle(fs, env, plan[1..])
  }

  function WriteFrom(fs: Files, env: Env, plan: seq<File>, k: nat): Done
    requires k <= |plan|
    decreases |plan| - k
  {
    if k == |plan| then Done(fs, None)
    else
      match env.write(k)
      case Sound => WriteFrom(fs[plan[k].path := plan[k].body], env, plan, k + 1)
      case NotOpened => Done(fs, Some(WriteFailed(k)))
      case CutShort(left) => Done(fs[plan[k].path := left], Some(WriteFailed(k)))
  }

  function Create(fs: Files, env: Env, root: string, data: FeatureData, stamp: string): Done {
    var plan := Plan(root, data, stamp);
    var migration := plan[6].path;
    if env.mkdirFails then Done(fs, Some(MkdirFailed))
    else if migration in env.unreadable then Done(fs, Some(StatFailed(migration)))
    else if migration in fs then Done(fs, Some(MigrationExists(migration)))
    else
      var obstacle := FirstObstacle(fs, env, plan);
      if obstacle.Some? then Done(fs, obstacle) else WriteFrom(fs, env, plan, 0)
  }

  lemma {:induction false} NoObstacleIff(fs: Files, env: Env, plan: seq<File>)
    ensures FirstObstacle(fs, env, plan).None?
            <==> forall k :: 0 <= k < |plan| ==> plan[k].path !in fs && plan[k].path !in env.unreadable
  {
    if plan != [] {
      NoObstacleIff(fs, env, plan[1..]);
      assert plan == [plan[0]] + plan[1..];
      assert forall k :: 0 <= k < |plan| - 1 ==> plan[1..][k] == plan[k + 1];
      if FirstObstacle(fs, env, plan).None? {
        forall k | 0 <= k < |plan| ensures plan[k].path !in fs && plan[k].path !in env.unreadable {
          if k > 0 {
            assert plan[k] == plan[1..][k - 1];
          }
        }
      }
    }
  }

  ghost predicate InPlan(plan: seq<File>, start: nat, path: string) {
    exists k :: start <= k < |plan| && plan[k].path == path
  }

  // Writing from the k-th file on touches only files of the plan not yet
  // written, and succeeds exactly when no write fails.
  lemma {:induction false} WriteTouches(fs: Files, env: Env, plan: seq<File>, k: nat)
    requires k <= |plan|
    ensures var done := WriteFrom(fs, env, plan, k);
            && (forall p :: p in fs ==> p in done.files)
            && (forall p :: p in done.files && !InPlan(plan, k, p) ==> p in fs && done.files[p] == fs[p])
            && (done.failure.None? <==> forall i :: k <= i < |plan| ==> env.write(i).Sound?)
    decreases |plan| - k
  {
    if k < |plan| {
      if env.write(k).Sound? {
        WriteTouches(fs[plan[k].path := plan[k].body], env, plan, k + 1);
      }
    }
  }

  // A body written stays if no later file has its path.
  lemma {:induction false} WriteKeeps(fs: Files, env: Env, plan: seq<File>, k: nat, i: nat)
    requires k <= |plan| && i < |plan| && forall j :: i < j < |plan| ==> plan[j].path != plan[i].path
    requires i < k ==> plan[i].path in fs && fs[plan[i].path] == plan[i].body
    requires WriteFrom(fs, env, plan, k).failure.None?
    ensures var files := WriteFrom(fs, env, plan, k).files;
            plan[i].path in files && files[plan[i].path] == plan[i].body
    decreases |plan| - k
  {
    if k < |plan| {
      WriteKeeps(fs[plan[k].path := plan[k].body], env, plan, k + 1, i);
    }
  }

  // Whatever fails and wherever, createFeatureFiles changes no file that was
  // there before and creates none outside its seven; if any of the seven was
  // there it creates nothing at all.
  lemma CreateNeverOverwrites(fs: Files, env: Env, root: string, data: FeatureData, stamp: string)
    ensures var done, plan := Create(fs, env, root, data, stamp), Plan(root, data, stamp);
            && (forall p :: p in fs ==> p in done.files && done.files[p] == fs[p])
            && (forall p :: p in done.files && p !in fs ==> InPlan(plan, 0, p))
            && ((exists k :: 0 <= k < 7 && plan[k].path in fs) ==> done.failure.Some? && done.files == fs)
  {
    var plan := Plan(root, data, stamp);
    NoObstacleIff(fs, env, plan);
    WriteTouches(fs, env, plan, 0);
    if FirstObstacle(fs, env, plan).None? {
      forall p | p in fs ensures !InPlan(plan, 0, p) {
      }
    }
  }

  // It succeeds exactly when nothing is in the way and nothing fails, and then
  // every path holds its own rendering exactly when the name is not
  // error_reason: for that name the feature's proto file is overwritten.
  lemma CreateSucceedsIff(fs: Files, env: Env, root: string, data: FeatureData, stamp: string)
    ensures var done, plan := Create(fs, env, root, data, stamp), Plan(root, data, stamp);
            && (done.failure.None? <==>
                  && !env.mkdirFails
                  && (forall k :: 0 <= k < 7 ==> plan[k].path !in fs && plan[k].path !in env.unreadable)
                  && (forall k :: 0 <= k < 7 ==> env.write(k).Sound?))
            && (done.failure.None? ==>
                  ((forall k :: 0 <= k < 7 ==> Holds(done.files, plan[k])) <==> data.name != "error_reason"))
  {
    var done, plan := Create(fs, env, root, data, stamp), Plan(root, data, stamp);
    NoObstacleIff(fs, env, plan);
    WriteTouches(fs, env, plan, 0);
    PlanDistinctIff(root, data, stamp);
    if done.failure.None? {
      if data.name != "error_reason" {
        forall k | 0 <= k < 7 ensures Holds(done.files, plan[k]) {
          WriteKeeps(fs, env, plan, 0, k);
        }
      } else {
        ProtoPathsCoincide(data.name);
        assert plan[0].path == plan[1].path && plan[0].body != plan[1].body;
        assert !Holds(done.files, plan[0]) || !Holds(done.files, plan[1]);
      }
    }
  }

  ghost predicate Holds(fs: Files, file: File) {
    file.path in fs && fs[file.path] == file.body
  }

  // ---- buf.gen.yaml ----

  const BY_DIRECTORY: Input -> string := (i: Input) => i.directory
  const API_INPUT: Input := Input("api", [])

  // The inputs before they are sorted: the first becomes the api directory.
  function WithApi(inputs: seq<Input>): seq<Input> {
    if inputs == [] then [API_INPUT] else inputs[0 := API_INPUT]
  }

  function IncludeApi(inputs: seq<Input>): seq<Input> {
    Sorting.SortBy(WithApi(inputs), BY_DIRECTORY)
  }

  // `edited` is what the edit may leave: the sort is only known to sort.
  ghost predicate MayBecome(inputs: seq<Input>, edited: seq<Input>) {
    Sorting.Sorted(edited, BY_DIRECTORY) && multiset(edited) == multiset(WithApi(inputs))
  }

  lemma IncludeApiIsOne(inputs: seq<Input>)
    ensures MayBecome(inputs, IncludeApi(inputs))
  {
    Sorting.SortSorts(WithApi(inputs), BY_DIRECTORY);
  }

  function OthersOf(inputs: seq<Input>): seq<Input> {
    if inputs == [] then [] else inputs[1..]
  }

  // The first input becomes the api directory, whatever it was; every other
  // input is kept.
  lemma IncludeApiKeeps(inputs: seq<Input>, edited: seq<Input>)
    requires MayBecome(inputs, edited)
    ensures multiset(edited) == multiset{API_INPUT} + multiset(OthersOf(inputs))
    ensures API_INPUT in edited
  {
    assert WithApi(inputs) == [API_INPUT] + OthersOf(inputs);
    assert API_INPUT in multiset(edited);
  }

  lemma KeptInputs(inputs: seq<Input>, edited: seq<Input>)
    requires MayBecome(inputs, edited)
    ensures forall x :: x in edited <==> x == API_INPUT || x in OthersOf(inputs)
  {
    IncludeApiKeeps(inputs, edited);
    forall x ensures x in edited <==> x == API_INPUT || x in OthersOf(inputs) {
      assert x in edited <==> x in multiset(edited);
      assert x in OthersOf(inputs) <==> x in multiset(OthersOf(inputs));
    }
  }

  // Nothing else can come to the front, where the next edit replaces it.
  ghost predicate ApiStaysFirst(inputs: seq<Input>) {
    forall k :: 1 <= k < |inputs| ==>
      inputs[k] == API_INPUT || (Sorting.AtMost("api", inputs[k].directory) && inputs[k].directory != "api")
  }

  ghost predicate NoTies(inputs: seq<Input>) {
    forall x, y :: x in OthersOf(inputs) && y in OthersOf(inputs) && x.directory == y.directory ==> x == y
  }

  // Editing twice keeps the inputs that editing once left, however the sorts
  // order equal directories, exactly when every input after the first is the
  // api directory as the command writes it or sorts after "api".
  lemma IncludeApiIdempotentIff(inputs: seq<Input>)
    ensures ApiStaysFirst(inputs) <==>
            forall once, twice | MayBecome(inputs, once)
              && MayBecome(once, twice) :: multiset(twice) == multiset(once)
  {
    if ApiStaysFirst(inputs) {
      forall once, twice | MayBecome(inputs, once) && MayBecome(once, twice)
        ensures multiset(twice) == multiset(once) {
        ApiComesFirst(inputs, once);
        assert once[0 := API_INPUT] == once;
      }
    } else {
      var k :| 1 <= k < |inputs| && !(inputs[k] == API_INPUT
                 || (Sorting.AtMost("api", inputs[k].directory) && inputs[k].directory != "api"));
      var once := OtherComesFirst(inputs, k);
      FirstInputIsLost(once);
      IncludeApiIsOne(once);
    }
  }

  // And it leaves the very same list exactly when, besides, no two different
  // inputs after the first share a directory.
  lemma IncludeApiSameListIff(inputs: seq<Input>)
    ensures ApiStaysFirst(inputs) && NoTies(inputs) <==>
            forall once, twice | MayBecome(inputs, once) && MayBecome(once, twice) :: twice == once
  {
    IncludeApiIdempotentIff(inputs);
    if ApiStaysFirst(inputs) && NoTies(inputs) {
      forall once, twice | MayBecome(inputs, once) && MayBecome(once, twice) ensures twice == once {
        assert multiset(twice) == multiset(once);
        NoTiesAfter(inputs, once);
        Sorting.SortedUnique(once, twice, BY_DIRECTORY);
      }
    } else if ApiStaysFirst(inputs) {
      var x, y :| x in OthersOf(inputs) && y in OthersOf(inputs) && x.directory == y.directory && x != y;
      var once, twice := TiesSwap(inputs, x, y);
    } else {
      var once, twice :| MayBecome(inputs, once) && MayBecome(once, twice) && multiset(twice) != multiset(once);
      assert twice != once;
    }
  }

  lemma ApiComesFirst(inputs: seq<Input>, once: seq<Input>)
    requires ApiStaysFirst(inputs) && MayBecome(inputs, once)
    ensures once != [] && once[0] == API_INPUT
  {
    KeptInputs(inputs, once);
    assert API_INPUT in once;
    Sorting.HeadIsLeast(once, BY_DIRECTORY, API_INPUT);
    if once[0] != API_INPUT {
      assert once[0] in OthersOf(inputs);
      var k :| 0 <= k < |OthersOf(inputs)| && OthersOf(inputs)[k] == once[0];
      assert inputs[k + 1] == once[0];
      Sorting.AtMostTotal("api", once[0].directory);
    }
  }

  lemma MovedToFront(inputs: seq<Input>, k: nat) returns (rest: seq<Input>)
    requires 1 <= k < |inputs|
    ensures multiset([inputs[k]] + rest) == multiset(WithApi(inputs)) && API_INPUT in rest
  {
    var edited := WithApi(inputs);
    rest := edited[..k] + edited[k + 1..];
    assert edited == edited[..k] + [edited[k]] + edited[k + 1..];
    assert rest[0] == API_INPUT;
  }

  // Some sorting puts another input first, if one does not sort after "api".
  lemma OtherComesFirst(inputs: seq<Input>, k: nat) returns (once: seq<Input>)
    requires 1 <= k < |inputs| && inputs[k] != API_INPUT
    requires !Sorting.AtMost("api", inputs[k].directory) || inputs[k].directory == "api"
    ensures MayBecome(inputs, once) && once != [] && once[0] != API_INPUT
  {
    var x := inputs[k];
    var rest := MovedToFront(inputs, k);
    var sorted := Sorting.SortBy(rest, BY_DIRECTORY);
    Sorting.SortSorts(rest, BY_DIRECTORY);
    Sorting.InsertSorts(x, sorted, BY_DIRECTORY);
    Sorting.AtMostTotal("api", x.directory);
    once := Sorting.Insert(x, sorted, BY_DIRECTORY);
    assert multiset([x] + rest) == multiset(rest) + multiset{x};
  }

  lemma FirstInputIsLost(once: seq<Input>)
    requires once != [] && once[0] != API_INPUT
    ensures multiset(IncludeApi(once)) != multiset(once)
  {
    IncludeApiIsOne(once);
    IncludeApiKeeps(once, IncludeApi(once));
    assert once == [once[0]] + once[1..];
    assert multiset(once)[once[0]] == multiset(once[1..])[once[0]] + 1;
  }

  lemma NoTiesAfter(inputs: seq<Input>, once: seq<Input>)
    requires ApiStaysFirst(inputs) && NoTies(inputs) && MayBecome(inputs, once)
    ensures forall x, y :: x in once && y in once && BY_DIRECTORY(x) == BY_DIRECTORY(y) ==> x == y
  {
    KeptInputs(inputs, once);
    forall x | x in OthersOf(inputs) ensures x == API_INPUT || x.directory != "api" {
      var k :| 0 <= k < |OthersOf(inputs)| && OthersOf(inputs)[k] == x;
      assert inputs[k + 1] == x;
    }
  }

  // Two different inputs of one directory may change places from run to run.
  lemma TiesSwap(inputs: seq<Input>, x: Input, y: Input) returns (once: seq<Input>, twice: seq<Input>)
    requires ApiStaysFirst(inputs) && x in OthersOf(inputs) && y in OthersOf(inputs)
    requires x.directory == y.directory && x != y
    ensures MayBecome(inputs, once) && MayBecome(once, twice) && twice != once
  {
    once := IncludeApi(inputs);
    IncludeApiIsOne(inputs);
    KeptInputs(inputs, once);
    ApiComesFirst(inputs, once);
    assert WithApi(once) == once;
    twice := Swapped(once, x, y);
  }

  lemma Swapped(once: seq<Input>, x: Input, y: Input) returns (twice: seq<Input>)
    requires Sorting.Sorted(once, BY_DIRECTORY) && x in once && y in once && x.directory == y.directory && x != y
    ensures Sorting.Sorted(twice, BY_DIRECTORY) && multiset(twice) == multiset(once) && twice != once
  {
    var p :| 0 <= p < |once| && once[p] == x;
    var q :| 0 <= q < |once| && once[q] == y;
    twice := once[p := y][q := x];
    Sorting.SwapKeepsSorted(once, BY_DIRECTORY, p, q);
    assert twice[p] != once[p];
  }

  // ---- addFeature; the name is given without surrounding white space ----

  function Add(fs: Files, env: Env, root: string, name: string, stamp: string): Done {
    var mod := Join(root, GO_MOD_REL);
    if !Naming.ValidName(name) then Done(fs, Some(InvalidName))
    else if mod !in fs || !fs[mod].GoMod? then Done(fs, Some(NoModule))
    else
      var created := Create(fs, env, root, DataFor(name, fs[mod].moduleName), stamp);
      if created.failure.Some? then created
      else UpdateBufGen(created.files, env.write(7), Join(root, BUF_GEN_REL))
  }

  // ensureBufGenIncludesAPI: the eighth write.
  function UpdateBufGen(fs: Files, fault: WriteFault, buf: string): Done {
    if buf !in fs || !fs[buf].BufGen? then Done(fs, Some(BufGenUnusable))
    else
      match fault
      case Sound => Done(fs[buf := BufGen(IncludeApi(fs[buf].inputs))], None)
      case NotOpened => Done(fs, Some(WriteFailed(7)))
      case CutShort(left) => Done(fs[buf := left], Some(WriteFailed(7)))
  }

  lemma UpdateBufGenKeeps(fs: Files, fault: WriteFault, buf: string, p: string)
    requires p in fs && p != buf
    ensures p in UpdateBufGen(fs, fault, buf).files && UpdateBufGen(fs, fault, buf).files[p] == fs[p]
  {
  }

  lemma CreateKeeps(fs: Files, env: Env, root: string, data: FeatureData, stamp: string, p: string)
    requires p in fs
    ensures p in Create(fs, env, root, data, stamp).files && Create(fs, env, root, data, stamp).files[p] == fs[p]
  {
    CreateNeverOverwrites(fs, env, root, data, stamp);
  }

  // add-feature never changes a file that was there, buf.gen.yaml apart.
  lemma AddKeepsExistingFiles(fs: Files, env: Env, root: string, name: string, stamp: string, p: string)
    requires p in fs && p != Join(root, BUF_GEN_REL)
    ensures p in Add(fs, env, root, name, stamp).files && Add(fs, env, root, name, stamp).files[p] == fs[p]
  {
    var mod := Join(root, GO_MOD_REL);
    if mod in fs && fs[mod].GoMod? {
      var data := DataFor(name, fs[mod].moduleName);
      CreateKeeps(fs, env, root, data, stamp, p);
      var created := Create(fs, env, root, data, stamp);
      UpdateBufGenKeeps(created.files, env.write(7), Join(root, BUF_GEN_REL), p);
    }
  }

  // ---- The seven files, by their paths ----

  // What the templates are given about a feature.
  ghost predicate About(data: FeatureData, name: string, moduleName: string) {
    && data.name == name && data.moduleName == moduleName
    && data.pascal == Naming.Camel(name, true) && data.table == Naming.Pluralize(name)
    && |data.upper| == |name|
    && forall k :: 0 <= k < |name| ==>
         if 'a' <= name[k] <= 'z' then data.upper[k] as int - 'A' as int == name[k] as int - 'a' as int
         else data.upper[k] == name[k]
  }

  lemma DataIsAbout(name: string, moduleName: string)
    requires Naming.ValidName(name)
    ensures About(DataFor(name, moduleName), name, moduleName)
  {
    Naming.JoinIsCamel(name);
    forall k | 0 <= k < |name|
      ensures |UpperSnake(name)| == |name|
      ensures if 'a' <= name[k] <= 'z' then UpperSnake(name)[k] as int - 'A' as int == name[k] as int - 'a' as int
              else UpperSnake(name)[k] == name[k]
    {
      UpperSnakeLaw(name, k);
    }
    UpperSnakeLaw(name, 0);
  }

  ghost predicate At(fs: Files, root: string, rel: string, body: Body) {
    var path := (if root == "/" then "/" else root + "/") + rel;
    path in fs && fs[path] == body
  }

  // One of the seven after a command that succeeded.
  lemma FileStays(fs: Files, env: Env, root: string, name: string, stamp: string, data: FeatureData, i: nat)
    requires Add(fs, env, root, name, stamp).failure.None? && name != "error_reason" && i < 7
    requires data == DataFor(name, fs[Join(root, GO_MOD_REL)].moduleName)
    ensures var file := Plan(root, data, stamp)[i];
            file.path in Add(fs, env, root, name, stamp).files
            && Add(fs, env, root, name, stamp).files[file.path] == file.body
  {
    CreateHolds(fs, env, root, data, stamp, i);
    CreatedStays(fs, env, root, name, stamp, data, Plan(root, data, stamp)[i].path);
  }

  lemma CreateHolds(fs: Files, env: Env, root: string, data: FeatureData, stamp: string, i: nat)
    requires Create(fs, env, root, data, stamp).failure.None? && data.name != "error_reason" && i < 7
    ensures Holds(Create(fs, env, root, data, stamp).files, Plan(root, data, stamp)[i])
    ensures Plan(root, data, stamp)[i].path != Join(root, BUF_GEN_REL)
  {
    CreateSucceedsIff(fs, env, root, data, stamp);
    NotAnInput(root, data, stamp);
  }

  // ---- Why it stopped, and where ----

  // The first of the seven that is in the way.
  ghost predicate FirstInTheWay(fs: Files, env: Env, plan: seq<File>, path: string) {
    exists k :: 0 <= k < |plan| && plan[k].path == path
                && forall j :: 0 <= j < k ==> plan[j].path !in fs && plan[j].path !in env.unreadable
  }

  lemma {:induction false} ObstacleLaw(fs: Files, env: Env, plan: seq<File>)
    ensures var o := FirstObstacle(fs, env, plan);
            o.Some? ==>
              && (o.value.AlreadyExists? || o.value.StatFailed?) && FirstInTheWay(fs, env, plan, o.value.path)
              && (if o.value.AlreadyExists? then o.value.path in fs else o.value.path in env.unreadable)
  {
    if plan != [] && Obstacle(fs, env, plan[0].path).None? {
      ObstacleLaw(fs, env, plan[1..]);
      var o := FirstObstacle(fs, env, plan[1..]);
      if o.Some? {
        var k :| 0 <= k < |plan[1..]| && plan[1..][k].path == o.value.path
                 && forall j :: 0 <= j < k ==> plan[1..][j].path !in fs && plan[1..][j].path !in env.unreadable;
        assert plan[k + 1] == plan[1..][k];
        forall j | 0 <= j < k + 1 ensures plan[j].path !in fs && plan[j].path !in env.unreadable {
          assert j > 0 ==> plan[j] == plan[1..][j - 1];
        }
      }
    } else if plan != [] {
      assert plan[0].path == Obstacle(fs, env, plan[0].path).value.path;
    }
  }

  // A write that fails is the first that does. The files before it are whole,
  // its own is cut short or untouched, and those after it are untouched.
  lemma {:induction false} WriteStops(fs: Files, env: Env, plan: seq<File>, k: nat)
    requires k <= |plan| && Distinct(plan)
    ensures var done := WriteFrom(fs, env, plan, k);
            done.failure.Some? ==>
              && done.failure.value.WriteFailed? && k <= done.failure.value.k < |plan|
              && StoppedAt(fs, done.files, env, plan, k, done.failure.value.k)
    decreases |plan| - k
  {
    if k < |plan| && env.write(k).Sound? {
      var next := fs[plan[k].path := plan[k].body];
      WriteStops(next, env, plan, k + 1);
      WriteTouches(next, env, plan, k + 1);
      assert !InPlan(plan, k + 1, plan[k].path);
    }
  }

  ghost predicate StoppedAt(fs: Files, after: Files, env: Env, plan: seq<File>, k: nat, m: nat)
    requires k <= m < |plan|
  {
    && !env.write(m).Sound? && (forall i :: k <= i < m ==> env.write(i).Sound? && Holds(after, plan[i]))
    && (if env.write(m).CutShort? then plan[m].path in after && after[plan[m].path] == env.write(m).left
        else Same(fs, after, plan[m].path))
    && forall i :: m < i < |plan| ==> Same(fs, after, plan[i].path)
  }

  predicate Same(fs: Files, after: Files, path: string) {
    (path in after <==> path in fs) && (path in fs ==> after[path] == fs[path])
  }

  // Every error of the file-creation phase is true.
  lemma CreateFailureLaw(fs: Files, env: Env, root: string, data: FeatureData, stamp: string)
    ensures var done, plan := Create(fs, env, root, data, stamp), Plan(root, data, stamp);
            done.failure.Some? ==>
              match done.failure.value
              case MkdirFailed => env.mkdirFails && done.files == fs
              case MigrationExists(p) => p == plan[6].path && p in fs && done.files == fs
              case AlreadyExists(p) => p in fs && FirstInTheWay(fs, env, plan, p) && done.files == fs
              case StatFailed(p) =>
                p in env.unreadable && (p == plan[6].path || FirstInTheWay(fs, env, plan, p)) && done.files == fs
              case WriteFailed(k) =>
                k < 7 && !env.write(k).Sound?
                && (data.name != "error_reason" ==> StoppedAt(fs, done.files, env, plan, 0, k))
              case _ => false
    ensures var failure, migration := Create(fs, env, root, data, stamp).failure, Plan(root, data, stamp)[6].path;
            && (failure == Some(MkdirFailed) <==> env.mkdirFails)
            && (failure == Some(MigrationExists(migration)) <==>
                  !env.mkdirFails && migration !in env.unreadable && migration in fs)
  {
    var plan := Plan(root, data, stamp);
    ObstacleLaw(fs, env, plan);
    PlanDistinctIff(root, data, stamp);
    FailedWriteIsInPlan(fs, env, plan, 0);
    if data.name != "error_reason" {
      WriteStops(fs, env, plan, 0);
    }
  }

  // And every error of the command.
  lemma AddFailureLaw(fs: Files, env: Env, root: string, name: string, stamp: string)
    ensures var done, mod, buf := Add(fs, env, root, name, stamp), Join(root, "go.mod"), Join(root, "buf.gen.yaml");
            && (done.failure == Some(InvalidName) <==> !Naming.ValidName(name))
            && (done.failure == Some(NoModule) <==> Naming.ValidName(name) && (mod !in fs || !fs[mod].GoMod?))
            && (done.failure == Some(BufGenUnusable) ==> buf !in fs || !fs[buf].BufGen?)
            && (done.failure == Some(WriteFailed(7)) ==>
                  && !env.write(7).Sound? && buf in fs && buf in done.files
                  && done.files[buf] == if env.write(7).CutShort? then env.write(7).left else fs[buf])
            && (done.failure in {Some(InvalidName), Some(NoModule)} ==> done.files == fs)
  {
    var mod := Join(root, GO_MOD_REL);
    if Naming.ValidName(name) && mod in fs && fs[mod].GoMod? {
      var data := DataFor(name, fs[mod].moduleName);
      BufGenStays(fs, env, root, data, stamp);
      CreateFails(fs, env, root, data, stamp);
    }
  }

  lemma CreateFails(fs: Files, env: Env, root: string, data: FeatureData, stamp: string)
    ensures var failure := Create(fs, env, root, data, stamp).failure;
            failure.Some? ==> !failure.value.InvalidName? && !failure.value.NoModule? && !failure.value.BufGenUnusable?
                              && failure != Some(WriteFailed(7))
  {
    var plan := Plan(root, data, stamp);
    ObstacleLaw(fs, env, plan);
    FailedWriteIsInPlan(fs, env, plan, 0);
  }

  lemma {:induction false} FailedWriteIsInPlan(fs: Files, env: Env, plan: seq<File>, k: nat)
    requires k <= |plan|
    ensures var failure := WriteFrom(fs, env, plan, k).failure;
            failure.Some? ==>
              failure.value.WriteFailed? && failure.value.k < |plan| && !env.write(failure.value.k).Sound?
    decreases |plan| - k
  {
    if k < |plan| && env.write(k).Sound? {
      FailedWriteIsInPlan(fs[plan[k].path := plan[k].body], env, plan, k + 1);
    }
  }

  // A successful command leaves, for any name but error_reason, each of its
  // seven files at its path, rendered from its own template for this feature.
  lemma SevenFiles(fs: Files, env: Env, root: string, name: string, stamp: string) returns (data: FeatureData)
    requires Add(fs, env, root, name, stamp).failure.None? && name != "error_reason"
    ensures Join(root, "go.mod") in fs && fs[Join(root, "go.mod")].GoMod?
    ensures About(data, name, fs[Join(root, "go.mod")].moduleName)
    ensures var files := Add(fs, env, root, name, stamp).files;
            && At(files, root, "api/" + name + "/v1/" + name + ".proto", Rendered(Proto, data))
            && At(files, root, "api/" + name + "/v1/" + "error_reason.proto", Rendered(ErrorReason, data))
            && At(files, root, "internal/domain/ports/" + name + ".go", Rendered(Ports, data))
            && At(files, root, "internal/feature/" + name + "/facade.go", Rendered(FacadeGo, data))
            && At(files, root, "internal/feature/" + name + "/wire_bind.go", Rendered(WireBindGo, data))
            && At(files, root, "db/schema/" + data.table + ".sql", Rendered(Schema, data))
            && At(files, root, "db/migrations/" + stamp + "_create_" + data.table + ".sql", Rendered(Migration, data))
  {
    data := DataFor(name, fs[Join(root, GO_MOD_REL)].moduleName);
    DataIsAbout(name, data.moduleName);
    FileStays(fs, env, root, name, stamp, data, 0);
    FileStays(fs, env, root, name, stamp, data, 1);
    FileStays(fs, env, root, name, stamp, data, 2);
    FileStays(fs, env, root, name, stamp, data, 3);
    FileStays(fs, env, root, name, stamp, data, 4);
    FileStays(fs, env, root, name, stamp, data, 5);
    FileStays(fs, env, root, name, stamp, data, 6);
  }

  // ---- One feature after another ----

  // Neither file that the command reads is one of the seven.
  lemma NotAnInput(root: string, data: FeatureData, stamp: string)
    ensures forall k :: 0 <= k < 7 ==>
      Plan(root, data, stamp)[k].path != Join(root, GO_MOD_REL)
        && Plan(root, data, stamp)[k].path != Join(root, BUF_GEN_REL)
  {
    forall k | 0 <= k < 7
      ensures Plan(root, data, stamp)[k].path != Join(root, GO_MOD_REL)
      ensures Plan(root, data, stamp)[k].path != Join(root, BUF_GEN_REL)
    {
      var rel := Rel(k, data.name, data.table, stamp);
      RelBytes(k, data.name, data.table, stamp);
      assert Plan(root, data, stamp)[k].path == Join(root, rel) && rel[0] in "aid";
      if Join(root, rel) == Join(root, GO_MOD_REL) {
        JoinInjective(root, rel, GO_MOD_REL);
      }
      if Join(root, rel) == Join(root, BUF_GEN_REL) {
        JoinInjective(root, rel, BUF_GEN_REL);
      }
    }
  }

  predicate HasInputs(fs: Files, root: string) {
    && Join(root, GO_MOD_REL) in fs && fs[Join(root, GO_MOD_REL)].GoMod?
    && Join(root, BUF_GEN_REL) in fs && fs[Join(root, BUF_GEN_REL)].BufGen?
  }

  // None of the seven files of `name` is there.
  ghost predicate ClearOf(fs: Files, root: string, name: string, stamp: string) {
    forall k :: 0 <= k < 7 ==> Join(root, Rel(k, name, Naming.Pluralize(name), stamp)) !in fs
  }

  // With nothing failing outside.
  const CALM := Env(false, {}, (k: nat) => Sound)

  // The whole command succeeds exactly on a valid name in a project with the
  // two files it reads and none of the seven it writes.
  lemma AddSucceedsIff(fs: Files, root: string, name: string, stamp: string)
    ensures Add(fs, CALM, root, name, stamp).failure.None?
            <==> Naming.ValidName(name) && HasInputs(fs, root) && ClearOf(fs, root, name, stamp)
  {
    var mod := Join(root, GO_MOD_REL);
    if mod in fs && fs[mod].GoMod? {
      var data := DataFor(name, fs[mod].moduleName);
      assert forall k :: 0 <= k < 7 ==>
        Plan(root, data, stamp)[k].path == Join(root, Rel(k, name, data.table, stamp));
      CreateSucceedsIff(fs, CALM, root, data, stamp);
      BufGenStays(fs, CALM, root, data, stamp);
    }
  }

  lemma BufGenStays(fs: Files, env: Env, root: string, data: FeatureData, stamp: string)
    ensures var buf, files := Join(root, BUF_GEN_REL), Create(fs, env, root, data, stamp).files;
            (buf in files <==> buf in fs) && (buf in fs ==> files[buf] == fs[buf])
  {
    CreateNeverOverwrites(fs, env, root, data, stamp);
    NotAnInput(root, data, stamp);
  }

  // `files` is `fs` and the seven files of `name`.
  ghost predicate AddedTo(fs: Files, files: Files, root: string, name: string, stamp: string) {
    forall p :: p in files <==>
      p in fs || exists k :: 0 <= k < 7 && p == Join(root, Rel(k, name, Naming.Pluralize(name), stamp))
  }

  lemma AddedFiles(fs: Files, env: Env, root: string, name: string, stamp: string)
    requires Add(fs, env, root, name, stamp).failure.None?
    ensures HasInputs(Add(fs, env, root, name, stamp).files, root)
    ensures AddedTo(fs, Add(fs, env, root, name, stamp).files, root, name, stamp)
  {
    var mod := Join(root, GO_MOD_REL);
    var data := DataFor(name, fs[mod].moduleName);
    var created := Create(fs, env, root, data, stamp).files;
    CreatedFiles(fs, env, root, data, stamp);
    CreateKeeps(fs, env, root, data, stamp, mod);
    JoinApart(root);
    EditAddsNoPath(created, env.write(7), root);
    assert AddedTo(fs, created, root, name, stamp);
  }

  lemma EditAddsNoPath(fs: Files, fault: WriteFault, root: string)
    requires UpdateBufGen(fs, fault, Join(root, BUF_GEN_REL)).failure.None?
    ensures var files := UpdateBufGen(fs, fault, Join(root, BUF_GEN_REL)).files;
            && (forall p :: p in files <==> p in fs)
            && Join(root, BUF_GEN_REL) in files && files[Join(root, BUF_GEN_REL)].BufGen?
            && forall p :: p in fs && p != Join(root, BUF_GEN_REL) ==> files[p] == fs[p]
  {
  }

  lemma CreatedFiles(fs: Files, env: Env, root: string, data: FeatureData, stamp: string)
    requires Create(fs, env, root, data, stamp).failure.None? && data.table == Naming.Pluralize(data.name)
    ensures AddedTo(fs, Create(fs, env, root, data, stamp).files, root, data.name, stamp)
  {
    var plan := Plan(root, data, stamp);
    assert forall k :: 0 <= k < 7 ==> plan[k].path == Join(root, Rel(k, data.name, data.table, stamp));
    CreateNeverOverwrites(fs, env, root, data, stamp);
    PlanIsWritten(fs, env, root, data, stamp);
  }

  lemma JoinApart(root: string)
    ensures Join(root, GO_MOD_REL) != Join(root, BUF_GEN_REL)
  {
    if Join(root, GO_MOD_REL) == Join(root, BUF_GEN_REL) {
      JoinInjective(root, GO_MOD_REL, BUF_GEN_REL);
    }
  }

  lemma PlanIsWritten(fs: Files, env: Env, root: string, data: FeatureData, stamp: string)
    requires Create(fs, env, root, data, stamp).failure.None?
    ensures forall k :: 0 <= k < 7 ==> Plan(root, data, stamp)[k].path in Create(fs, env, root, data, stamp).files
  {
    forall k | 0 <= k < 7 ensures Plan(root, data, stamp)[k].path in Create(fs, env, root, data, stamp).files {
      WrittenStays(fs, env, Plan(root, data, stamp), 0, k);
    }
  }

  lemma {:induction false} WrittenStays(fs: Files, env: Env, plan: seq<File>, k: nat, i: nat)
    requires k <= |plan| && i < |plan| && WriteFrom(fs, env, plan, k).failure.None?
    requires i < k ==> plan[i].path in fs
    ensures plan[i].path in WriteFrom(fs, env, plan, k).files
    decreases |plan| - k
  {
    if k < |plan| {
      WrittenStays(fs[plan[k].path := plan[k].body], env, plan, k + 1, i);
    }
  }

  // A path under "api/" tells its feature: the name ends at the next slash.
  lemma Segment(path: string, name: string)
    requires Naming.NameBytes(name) && |path| >= 5 + |name| && path[..5 + |name|] == "api/" + name + "/"
    ensures path[4..4 + |name|] == name && path[4 + |name|] == '/'
    ensures forall k :: 4 <= k < 4 + |name| ==> path[k] != '/'
  {
    var head := path[..5 + |name|];
    assert head[4 + |name|] == '/' && head[4..4 + |name|] == name;
    forall k | 4 <= k < 4 + |name| ensures path[k] != '/' {
      assert path[k] == head[k] == name[k - 4];
    }
  }

  lemma SameSegment(path: string, a: string, b: string)
    requires Naming.NameBytes(a) && Naming.NameBytes(b)
    requires |path| >= 5 + |a| && path[..5 + |a|] == "api/" + a + "/"
    requires |path| >= 5 + |b| && path[..5 + |b|] == "api/" + b + "/"
    ensures a == b
  {
    Segment(path, a);
    Segment(path, b);
    assert |a| == |b|;
  }

  lemma ApiPrefix(name: string)
    ensures var path := ProtoRel(name); |path| >= 5 + |name| && path[..5 + |name|] == "api/" + name + "/"
    ensures var path := ReasonRel(name); |path| >= 5 + |name| && path[..5 + |name|] == "api/" + name + "/"
  {
    var dir := "api/" + name + "/v1/";
    assert dir[..5 + |name|] == "api/" + name + "/";
    assert ProtoRel(name)[..|dir|] == dir && ReasonRel(name)[..|dir|] == dir;
    assert ProtoRel(name)[..5 + |name|] == dir[..5 + |name|] && ReasonRel(name)[..5 + |name|] == dir[..5 + |name|];
  }

  // Of two features only the schema files, or two migrations of one moment,
  // can have one path, and only when the tables have one name.
  lemma RelsOfTwoNames(i: nat, j: nat, a: string, b: string, ta: string, tb: string, sa: string, sb: string)
    requires i < 7 && j < 7 && a != b && Naming.NameBytes(a) && Naming.NameBytes(b) && |sa| == |sb|
    ensures Rel(i, a, ta, sa) == Rel(j, b, tb, sb) ==> ta == tb
  {
    if Rel(i, a, ta, sa) == Rel(j, b, tb, sb) {
      RelBytes(i, a, ta, sa);
      RelBytes(j, b, tb, sb);
      if i <= 1 {
        ApiRelsDiffer(i, j, a, b, ta, tb, sa, sb);
      } else if i <= 4 {
        GoRelsDiffer(i, j, a, b, ta, tb, sa, sb);
      } else {
        SqlRelsDiffer(i, j, a, b, ta, tb, sa, sb);
      }
    }
  }

  lemma ApiRelsDiffer(i: nat, j: nat, a: string, b: string, ta: string, tb: string, sa: string, sb: string)
    requires i <= 1 && j <= 1 && a != b && Naming.NameBytes(a) && Naming.NameBytes(b)
    ensures Rel(i, a, ta, sa) != Rel(j, b, tb, sb)
  {
    ApiPrefix(a);
    ApiPrefix(b);
    if Rel(i, a, ta, sa) == Rel(j, b, tb, sb) {
      SameSegment(Rel(i, a, ta, sa), a, b);
    }
  }

  lemma Between(head: string, a: string, b: string, tail: string)
    requires head + a + tail == head + b + tail
    ensures a == b
  {
    Naming.DropLast(head + a, head + b, tail);
    assert (head + a)[|head|..] == a && (head + b)[|head|..] == b;
  }

  lemma GoRelsDiffer(i: nat, j: nat, a: string, b: string, ta: string, tb: string, sa: string, sb: string)
    requires 2 <= i <= 4 && i == j && a != b
    ensures Rel(i, a, ta, sa) != Rel(j, b, tb, sb)
  {
    if Rel(i, a, ta, sa) == Rel(j, b, tb, sb) {
      if i == 2 {
        Between("internal/domain/ports/", a, b, ".go");
      } else if i == 3 {
        Between("internal/feature/", a, b, "/facade.go");
      } else {
        Between("internal/feature/", a, b, "/wire_bind.go");
      }
    }
  }

  lemma SqlRelsDiffer(i: nat, j: nat, a: string, b: string, ta: string, tb: string, sa: string, sb: string)
    requires 5 <= i < 7 && i == j && |sa| == |sb| && Rel(i, a, ta, sa) == Rel(j, b, tb, sb)
    ensures ta == tb
  {
    if i == 5 {
      Between("db/schema/", ta, tb, ".sql");
    } else {
      var n := |"db/migrations/"| + |sa| + |"_create_"|;
      assert MigrationRel(sa, ta)[n..] == ta + ".sql" && MigrationRel(sb, tb)[n..] == tb + ".sql";
      Naming.DropLast(ta, tb, ".sql");
    }
  }

  // Adding one feature leaves another's seven paths alone if the tables differ.
  lemma StaysClear(fs: Files, files: Files, root: string, first: string, second: string, stamp: string, later: string)
    requires AddedTo(fs, files, root, first, stamp) && ClearOf(fs, root, second, later) && |stamp| == |later|
    requires Naming.ValidName(first) && Naming.ValidName(second)
             && Naming.Pluralize(first) != Naming.Pluralize(second)
    ensures ClearOf(files, root, second, later)
  {
    var ta, tb := Naming.Pluralize(first), Naming.Pluralize(second);
    forall k | 0 <= k < 7 ensures Join(root, Rel(k, second, tb, later)) !in files {
      forall i | 0 <= i < 7 ensures Join(root, Rel(i, first, ta, stamp)) != Join(root, Rel(k, second, tb, later)) {
        RelsOfTwoNames(i, k, first, second, ta, tb, stamp, later);
        if Join(root, Rel(i, first, ta, stamp)) == Join(root, Rel(k, second, tb, later)) {
          JoinInjective(root, Rel(i, first, ta, stamp), Rel(k, second, tb, later));
        }
      }
    }
  }

  // After one feature was added, another valid one is refused because of it,
  // before any file is written, exactly when the two names share a table: one
  // is b and the other b + "e" after a sibilant, or c + "y" and c + "ie". The
  // two timestamps have one length.
  lemma SecondIsRefusedIff(fs: Files, env: Env, root: string, first: string, second: string, stamp: string,
      later: string)
    requires Add(fs, env, root, first, stamp).failure.None? && |stamp| == |later|
    requires Naming.ValidName(second) && first != second && ClearOf(fs, root, second, later)
    ensures var files := Add(fs, env, root, first, stamp).files;
            var done := Add(files, CALM, root, second, later);
            && (done.failure.Some? <==> Naming.PluralPair(first, second) || Naming.PluralPair(second, first))
            && (done.failure.Some? ==> done.files == files)
  {
    var files := Add(fs, env, root, first, stamp).files;
    Naming.PluralCollision(first, second);
    if Naming.Pluralize(first) == Naming.Pluralize(second) {
      SecondOfPairStops(fs, env, CALM, root, first, second, stamp, later);
    } else {
      AddedFiles(fs, env, root, first, stamp);
      StaysClear(fs, files, root, first, second, stamp, later);
      AddSucceedsIff(files, root, second, later);
    }
  }

  // Whatever else may fail, once the first of two names with one table has been
  // added the second stops before any file is written.
  lemma SecondOfPairStops(fs: Files, env: Env, env': Env, root: string, first: string, second: string,
      stamp: string, later: string)
    requires Add(fs, env, root, first, stamp).failure.None?
    requires Naming.PluralPair(first, second) || Naming.PluralPair(second, first)
    ensures var files := Add(fs, env, root, first, stamp).files;
            Add(files, env', root, second, later).failure.Some?
              && Add(files, env', root, second, later).files == files
  {
    var files := Add(fs, env, root, first, stamp).files;
    Naming.PluralCollisionOfPair(first, second);
    AddedFiles(fs, env, root, first, stamp);
    SchemaIsAdded(fs, files, root, first, stamp);
    TakenTableStops(files, env', root, second, later);
  }

  lemma SchemaIsAdded(fs: Files, files: Files, root: string, name: string, stamp: string)
    requires AddedTo(fs, files, root, name, stamp)
    ensures Join(root, SchemaRel(Naming.Pluralize(name))) in files
  {
    assert Join(root, SchemaRel(Naming.Pluralize(name))) == Join(root, Rel(5, name, Naming.Pluralize(name), stamp));
  }

  lemma TakenTableStops(fs: Files, env: Env, root: string, name: string, stamp: string)
    requires Join(root, SchemaRel(Naming.Pluralize(name))) in fs
    ensures Add(fs, env, root, name, stamp).failure.Some? && Add(fs, env, root, name, stamp).files == fs
  {
    var mod := Join(root, GO_MOD_REL);
    if mod in fs && fs[mod].GoMod? {
      TakenSchemaStops(fs, env, root, DataFor(name, fs[mod].moduleName), stamp);
    }
  }

  lemma TakenSchemaStops(fs: Files, env: Env, root: string, data: FeatureData, stamp: string)
    requires Join(root, SchemaRel(data.table)) in fs
    ensures Create(fs, env, root, data, stamp).failure.Some? && Create(fs, env, root, data, stamp).files == fs
  {
    CreateNeverOverwrites(fs, env, root, data, stamp);
    assert Plan(root, data, stamp)[5].path in fs;
  }

  lemma CreateLosesProto(fs: Files, env: Env, root: string, data: FeatureData, stamp: string)
    requires data.name == "error_reason" && Create(fs, env, root, data, stamp).failure.None?
    ensures var files, path := Create(fs, env, root, data, stamp).files, Join(root, ProtoRel(data.name));
            path in files && files[path] == Rendered(ErrorReason, data)
  {
    var plan := Plan(root, data, stamp);
    ProtoPathsCoincide(data.name);
    forall j | 1 < j < 7 ensures plan[j].path != plan[1].path {
      RelsDiffer(1, j, data.name, data.table, stamp);
      if plan[j].path == plan[1].path {
        JoinInjective(root, Rel(j, data.name, data.table, stamp), Rel(1, data.name, data.table, stamp));
      }
    }
    WriteKeeps(fs, env, plan, 0, 1);
  }

  lemma CreatedStays(fs: Files, env: Env, root: string, name: string, stamp: string, data: FeatureData, p: string)
    requires Add(fs, env, root, name, stamp).failure.None?
             && data == DataFor(name, fs[Join(root, GO_MOD_REL)].moduleName)
    requires p in Create(fs, env, root, data, stamp).files && p != Join(root, BUF_GEN_REL)
    ensures p in Add(fs, env, root, name, stamp).files
    ensures Add(fs, env, root, name, stamp).files[p] == Create(fs, env, root, data, stamp).files[p]
  {
    UpdateBufGenKeeps(Create(fs, env, root, data, stamp).files, env.write(7), Join(root, BUF_GEN_REL), p);
  }

  lemma AddLosesProto(fs: Files, env: Env, root: string, name: string, stamp: string, data: FeatureData)
    requires name == "error_reason" && Add(fs, env, root, name, stamp).failure.None?
    requires data == DataFor(name, fs[Join(root, GO_MOD_REL)].moduleName)
    ensures var files, path := Add(fs, env, root, name, stamp).files, Join(root, ProtoRel(name));
            path in files && files[path] == Rendered(ErrorReason, data)
  {
    CreateLosesProto(fs, env, root, data, stamp);
    NotAnInput(root, data, stamp);
    assert Join(root, ProtoRel(name)) == Plan(root, data, stamp)[0].path;
    CreatedStays(fs, env, root, name, stamp, data, Join(root, ProtoRel(name)));
  }

  lemma ErrorReasonIsValid()
    ensures Naming.ValidName("error_reason")
  {
  }

  // The one name whose two proto files share a path is a valid one: in any
  // project with room for it the command succeeds, and the feature's own proto
  // file is lost.
  lemma ErrorReasonLosesItsProto(fs: Files, root: string, name: string, stamp: string)
    requires name == "error_reason" && HasInputs(fs, root) && ClearOf(fs, root, name, stamp)
    ensures Naming.ValidName(name)
    ensures var done, path := Add(fs, CALM, root, name, stamp), Join(root, ProtoRel(name));
            && done.failure.None? && path in done.files
            && done.files[path] == Rendered(ErrorReason, DataFor(name, fs[Join(root, GO_MOD_REL)].moduleName))
  {
    ErrorReasonIsValid();
    AddSucceedsIff(fs, root, name, stamp);
    AddLosesProto(fs, CALM, root, name, stamp, DataFor(name, fs[Join(root, GO_MOD_REL)].moduleName));
  }

  // ---- A run that failed ----

  // A run that left anything wrote the first of the seven files.
  lemma LeftoverHasProto(fs: Files, env: Env, root: string, name: string, stamp: string)
    requires Add(fs, env, root, name, stamp).files != fs
    ensures Join(root, ProtoRel(name)) in Add(fs, env, root, name, stamp).files
  {
    var data := DataFor(name, fs[Join(root, GO_MOD_REL)].moduleName);
    CreateLeavesProto(fs, env, root, data, stamp);
    EditKeepsPaths(Create(fs, env, root, data, stamp).files, env.write(7), root);
  }

  lemma CreateLeavesProto(fs: Files, env: Env, root: string, data: FeatureData, stamp: string)
    ensures var done := Create(fs, env, root, data, stamp);
            done.failure.None? || done.files != fs ==> Join(root, ProtoRel(data.name)) in done.files
  {
    var plan := Plan(root, data, stamp);
    assert plan[0].path == Join(root, ProtoRel(data.name));
    if Create(fs, env, root, data, stamp).failure.None? {
      PlanIsWritten(fs, env, root, data, stamp);
    } else if Create(fs, env, root, data, stamp).files != fs {
      FirstIsWritten(fs, env, plan);
    }
  }

  lemma EditKeepsPaths(fs: Files, fault: WriteFault, root: string)
    ensures forall p :: p in fs ==> p in UpdateBufGen(fs, fault, Join(root, BUF_GEN_REL)).files
  {
  }

  lemma FirstIsWritten(fs: Files, env: Env, plan: seq<File>)
    requires plan != [] && WriteFrom(fs, env, plan, 0).files != fs
    ensures plan[0].path in WriteFrom(fs, env, plan, 0).files
  {
    if env.write(0).Sound? {
      WriteTouches(fs[plan[0].path := plan[0].body], env, plan, 1);
    }
  }

  // Once a run has left anything, no run of that name gets through until the
  // leftovers are removed: whatever else is added, whatever else may fail.
  lemma LeftoverRefuses(fs: Files, env: Env, root: string, name: string, stamp: string, now: Files, env': Env,
      later: string)
    requires Add(fs, env, root, name, stamp).files != fs
    requires forall p :: p in Add(fs, env, root, name, stamp).files ==> p in now
    ensures Add(now, env', root, name, later).failure.Some? && Add(now, env', root, name, later).files == now
  {
    LeftoverHasProto(fs, env, root, name, stamp);
    var mod := Join(root, GO_MOD_REL);
    if mod in now && now[mod].GoMod? {
      var data := DataFor(name, now[mod].moduleName);
      CreateNeverOverwrites(now, env', root, data, later);
      assert Plan(root, data, later)[0].path == Join(root, ProtoRel(name));
    }
  }

  // So a failed run can be retried exactly when it left nothing behind.
  lemma RetryIsRefusedIff(fs: Files, env: Env, root: string, name: string, stamp: string, later: string)
    requires Naming.ValidName(name) && HasInputs(fs, root) && ClearOf(fs, root, name, later)
    requires Add(fs, env, root, name, stamp).failure.Some?
    ensures var left := Add(fs, env, root, name, stamp).files;
            var retry := Add(left, CALM, root, name, later);
            (retry.failure.Some? <==> left != fs) && (retry.failure.Some? ==> retry.files == left)
  {
    var left := Add(fs, env, root, name, stamp).files;
    if left == fs {
      AddSucceedsIff(fs, root, name, later);
    } else {
      LeftoverRefuses(fs, env, root, name, stamp, left, CALM, later);
    }
  }

  // ---- Two features side by side ----

  // The type that a feature's file declares in the package all features share.
  function PortsType(name: string): string {
    DataFor(name, "").pascal + "Query"
  }

  // Two features can both be accepted and declare one type there: exactly when
  // their names differ only in underscores not followed by a letter.
  lemma PortsClashIff(first: string, second: string)
    requires Naming.ValidName(first) && Naming.ValidName(second)
    ensures PortsType(first) == PortsType(second) <==> Naming.Squash(first) == Naming.Squash(second)
  {
    Naming.PascalCollision(first, second);
    if PortsType(first) == PortsType(second) {
      Naming.DropLast(Naming.PascalCase(first), Naming.PascalCase(second), "Query");
    }
  }

  const A1 := "a1"
  const A_1 := "a_1"

  // For example a1 and a_1, in any project with room for both.
  lemma AcceptedNamesCanClash(fs: Files, root: string, stamp: string, later: string)
    requires HasInputs(fs, root) && ClearOf(fs, root, A1, stamp) && ClearOf(fs, root, A_1, later)
             && |stamp| == |later|
    ensures var one := Add(fs, CALM, root, A1, stamp);
            one.failure.None? && Add(one.files, CALM, root, A_1, later).failure.None?
    ensures PortsType(A1) == PortsType(A_1)
  {
    ClashingNames();
    AddSucceedsIff(fs, root, A1, stamp);
    SecondIsRefusedIff(fs, CALM, root, A1, A_1, stamp, later);
    PortsClashIff(A1, A_1);
  }

  lemma ClashingNames()
    ensures Naming.ValidName(A1) && Naming.ValidName(A_1) && A1 != A_1 && Naming.Squash(A1) == Naming.Squash(A_1)
    ensures !Naming.PluralPair(A1, A_1) && !Naming.PluralPair(A_1, A1)
  {
    Naming.NoPairWithoutE(A1, A_1);
    BothValid();
    SquashesAlike();
  }

  lemma BothValid()
    ensures Naming.ValidName(A1) && Naming.ValidName(A_1)
  {
  }

  lemma SquashesAlike()
    ensures Naming.Squash(A1) == Naming.Squash(A_1)
  {
    assert A1[1..] == "1" && "1"[1..] == "";
    assert A_1[1..] == "_1" && "_1"[1..] == "1";
  }

  // ---- An input that the second feature replaces ----

  // If an input sorts before "api", adding one feature moves it to the front,
  // and adding another one overwrites it.
  lemma SecondAddLosesInput(fs: Files, root: string, first: string, second: string, stamp: string, later: string,
      old0: Input, x: Input)
    requires Naming.ValidName(first) && Naming.ValidName(second)
             && Naming.Pluralize(first) != Naming.Pluralize(second)
    requires HasInputs(fs, root) && ClearOf(fs, root, first, stamp) && ClearOf(fs, root, second, later)
             && |stamp| == |later|
    requires fs[Join(root, BUF_GEN_REL)] == BufGen([old0, x]) && !Sorting.AtMost("api", x.directory)
    ensures var buf, one := Join(root, BUF_GEN_REL), Add(fs, CALM, root, first, stamp);
            var two := Add(one.files, CALM, root, second, later);
            && one.failure.None? && buf in one.files && one.files[buf] == BufGen([x, API_INPUT])
            && two.failure.None? && buf in two.files && two.files[buf] == BufGen([API_INPUT, API_INPUT])
  {
    var one := Add(fs, CALM, root, first, stamp);
    AddSucceedsIff(fs, root, first, stamp);
    AddedFiles(fs, CALM, root, first, stamp);
    StaysClear(fs, one.files, root, first, second, stamp, later);
    AddSucceedsIff(one.files, root, second, later);
    EditsBufGen(fs, CALM, root, first, stamp);
    EditsBufGen(one.files, CALM, root, second, later);
    EditsOfTwo(old0, x);
  }

  lemma EditsBufGen(fs: Files, env: Env, root: string, name: string, stamp: string)
    requires Add(fs, env, root, name, stamp).failure.None?
    ensures var buf, files := Join(root, BUF_GEN_REL), Add(fs, env, root, name, stamp).files;
            buf in fs && fs[buf].BufGen? && buf in files && files[buf] == BufGen(IncludeApi(fs[buf].inputs))
  {
    var data := DataFor(name, fs[Join(root, GO_MOD_REL)].moduleName);
    BufGenStays(fs, env, root, data, stamp);
  }

  lemma EditsOfTwo(old0: Input, x: Input)
    requires !Sorting.AtMost("api", x.directory)
    ensures IncludeApi([old0, x]) == [x, API_INPUT]
    ensures IncludeApi([x, API_INPUT]) == [API_INPUT, API_INPUT]
  {
    SortOfTwo(API_INPUT, x);
    SortOfTwo(API_INPUT, API_INPUT);
    Sorting.AtMostTotal("api", "api");
    assert [old0, x][0 := API_INPUT] == [API_INPUT, x] && [x, API_INPUT][0 := API_INPUT] == [API_INPUT, API_INPUT];
  }

  lemma SortOfTwo(a: Input, b: Input)
    ensures Sorting.SortBy([a, b], BY_DIRECTORY)
            == if Sorting.AtMost(a.directory, b.directory) then [a, b] else [b, a]
  {
    assert [a, b][1..] == [b] && [b][1..] == [];
    assert Sorting.SortBy([b], BY_DIRECTORY) == Sorting.Insert(b, [], BY_DIRECTORY) == [b];
    assert Sorting.Insert(a, [], BY_DIRECTORY) == [a];
  }

  // A project with just the two files the command reads.
  function Bare(root: string, inputs: seq<Input>): Files {
    map[Join(root, GO_MOD_REL) := GoMod("m"), Join(root, BUF_GEN_REL) := BufGen(inputs)]
  }

  lemma BareHasRoom(root: string, inputs: seq<Input>, name: string, stamp: string)
    ensures HasInputs(Bare(root, inputs), root) && ClearOf(Bare(root, inputs), root, name, stamp)
  {
    JoinApart(root);
    InputsLeaveRoom(Bare(root, inputs), root, name, stamp);
  }

  lemma InputsLeaveRoom(fs: Files, root: string, name: string, stamp: string)
    requires forall p :: p in fs ==> p == Join(root, GO_MOD_REL) || p == Join(root, BUF_GEN_REL)
    ensures ClearOf(fs, root, name, stamp)
  {
    var data := DataFor(name, "");
    NotAnInput(root, data, stamp);
    forall k | 0 <= k < 7 ensures Join(root, Rel(k, name, data.table, stamp)) !in fs {
      assert Plan(root, data, stamp)[k].path == Join(root, Rel(k, name, data.table, stamp));
    }
  }

  const BESIDE := Input("aaa", ["p"])

  // So in a project with an input "aaa" that input is gone after two features.
  lemma InputIsLost(root: string, first: string, second: string, stamp: string, later: string)
    requires Naming.ValidName(first) && Naming.ValidName(second)
             && Naming.Pluralize(first) != Naming.Pluralize(second)
    requires |stamp| == |later|
    ensures var one := Add(Bare(root, [API_INPUT, BESIDE]), CALM, root, first, stamp);
            var two := Add(one.files, CALM, root, second, later);
            && one.failure.None? && two.failure.None? && Join(root, BUF_GEN_REL) in two.files
            && two.files[Join(root, BUF_GEN_REL)] == BufGen([API_INPUT, API_INPUT])
  {
    var fs := Bare(root, [API_INPUT, BESIDE]);
    BareHasRoom(root, [API_INPUT, BESIDE], first, stamp);
    BareHasRoom(root, [API_INPUT, BESIDE], second, later);
    BesideComesFirst();
    SecondAddLosesInput(fs, root, first, second, stamp, later, API_INPUT, BESIDE);
  }

  lemma BesideComesFirst()
    ensures !Sorting.AtMost("api", BESIDE.directory)
  {
    assert "api"[1..] == "pi" && "aaa"[1..] == "aa";
  }
}
