/**
 A run of the generator that stops in the middle: as a list of writes, of which
 some were done and one may have been cut short.
 */
module CodegenInterrupted {
  import opened Options
  import opened Codegen

  datatype Job = Job(path: Path, content: Content, overwrite: bool)

  function JobsOf(svc: Service): seq<Job> {
    [ Job(ServicePath(svc.pkg), ServiceGo(svc.pkg, svc.api), true),
      Job(UseCasePath(svc.pkg), UseCaseGo(svc.pkg, svc.api), false),
      Job(RepoPath(svc.pkg), RepoGo(svc.pkg, svc.api.moduleName), false),
      Job(WirePath(svc.pkg), WireGo(svc.pkg, WireProviders(svc.hasFacade)), true) ]
  }

  function EachJobs(fs: Files, services: seq<Service>): seq<Job> {
    if services == [] then []
    else EachJobs(fs, services[..|services| - 1]) + JobsOf(Flag(fs, services[|services| - 1]))
  }

  // Everything a run writes, in the order it writes it.
  function Jobs(fs: Files, moduleName: string, services: seq<Service>): seq<Job> {
    EachJobs(fs, services)
    + if services == [] then [] else [Job(FEATURES_PATH, FeaturesGo(moduleName, Rows(services)), true)]
  }

  function WriteAll(fs: Files, jobs: seq<Job>): Files {
    if jobs == [] then fs
    else
      var last := jobs[|jobs| - 1];
      Write(WriteAll(fs, jobs[..|jobs| - 1]), last.path, last.content, last.overwrite)
  }

  lemma {:induction false} WriteAllAppend(fs: Files, a: seq<Job>, b: seq<Job>)
    ensures WriteAll(fs, a + b) == WriteAll(WriteAll(fs, a), b)
  {
    if b == [] {
      assert a + b == a;
    } else {
      WriteAllAppend(fs, a, b[..|b| - 1]);
      assert (a + b)[..|a + b| - 1] == a + b[..|b| - 1];
    }
  }

  lemma NextJob(fs: Files, jobs: seq<Job>, k: nat)
    requires k < |jobs|
    ensures WriteAll(fs, jobs[..k + 1])
            == Write(WriteAll(fs, jobs[..k]), jobs[k].path, jobs[k].content, jobs[k].overwrite)
  {
    assert jobs[..k + 1][..k] == jobs[..k];
  }

  lemma WriteFour(fs: Files, svc: Service)
    requires svc == Flag(fs, svc)
    ensures WriteAll(fs, JobsOf(svc)) == GenerateOne(fs, svc)
  {
    var jobs := JobsOf(svc);
    assert WriteAll(fs, []) == fs;
    NextJob(fs, jobs, 0);
    NextJob(fs, jobs, 1);
    NextJob(fs, jobs, 2);
    NextJob(fs, jobs, 3);
    assert jobs[..0] == [] && jobs[..4] == jobs;
  }

  lemma {:induction false} EachIsJobs(fs: Files, services: seq<Service>)
    ensures GenerateEach(fs, services) == WriteAll(fs, EachJobs(fs, services))
  {
    if services != [] {
      var init, last := services[..|services| - 1], services[|services| - 1];
      var before := GenerateEach(fs, init);
      EachIsJobs(fs, init);
      NoFacadeWritten(fs, init, last.pkg);
      WriteFour(before, Flag(before, last));
      WriteAllAppend(fs, EachJobs(fs, init), JobsOf(Flag(fs, last)));
    }
  }

  // A run is its jobs done in order.
  lemma RunIsJobs(fs: Files, moduleName: string, services: seq<Service>)
    ensures GenerateAll(fs, moduleName, services) == WriteAll(fs, Jobs(fs, moduleName, services))
  {
    EachIsJobs(fs, services);
    if services != [] {
      var all := Jobs(fs, moduleName, services);
      assert all[..|all| - 1] == EachJobs(fs, services);
    } else {
      assert Jobs(fs, moduleName, services) == [];
    }
  }

  // The run stopped at job k: not begun, or cut short with something else left
  // in its file. A job that is skipped writes nothing and cannot be cut short.
  function Stopped(fs: Files, jobs: seq<Job>, k: nat, cut: Option<Content>): Files
    requires k < |jobs|
  {
    var before := WriteAll(fs, jobs[..k]);
    if cut.None? then before else Write(before, jobs[k].path, cut.value, jobs[k].overwrite)
  }

  // A file created once whose very creation was cut short.
  predicate SpoiledStub(fs: Files, jobs: seq<Job>, k: nat, cut: Option<Content>)
    requires k < |jobs|
  {
    cut.Some? && cut.value != jobs[k].content
    && !jobs[k].overwrite && jobs[k].path !in WriteAll(fs, jobs[..k])
  }

  // ---- Where the content of every path comes from ----

  ghost predicate Unmixed(jobs: seq<Job>) {
    forall a, b :: a in jobs && b in jobs && a.path == b.path ==> a.overwrite == b.overwrite
  }

  function LastForced(jobs: seq<Job>, p: Path): Option<Content> {
    if jobs == [] then None
    else if jobs[|jobs| - 1].path == p && jobs[|jobs| - 1].overwrite then Some(jobs[|jobs| - 1].content)
    else LastForced(jobs[..|jobs| - 1], p)
  }

  function FirstOffered(jobs: seq<Job>, p: Path): Option<Content> {
    if jobs == [] then None
    else
      var before := FirstOffered(jobs[..|jobs| - 1], p);
      if before.Some? then before
      else if jobs[|jobs| - 1].path == p && !jobs[|jobs| - 1].overwrite then Some(jobs[|jobs| - 1].content)
      else None
  }

  lemma {:induction false} ForcedOrOffered(jobs: seq<Job>, p: Path)
    ensures LastForced(jobs, p).Some? <==> exists j :: j in jobs && j.path == p && j.overwrite
    ensures FirstOffered(jobs, p).Some? <==> exists j :: j in jobs && j.path == p && !j.overwrite
  {
    if jobs != [] {
      var init, last := jobs[..|jobs| - 1], jobs[|jobs| - 1];
      ForcedOrOffered(init, p);
      assert forall j :: j in jobs <==> j in init || j == last;
    }
  }

  lemma {:induction false} WriteAllOutcome(fs: Files, jobs: seq<Job>, p: Path)
    requires Unmixed(jobs)
    ensures Get(WriteAll(fs, jobs), p) ==
            if LastForced(jobs, p).Some? then LastForced(jobs, p)
            else if p in fs then Some(fs[p])
            else FirstOffered(jobs, p)
  {
    if jobs != [] {
      var init, last := jobs[..|jobs| - 1], jobs[|jobs| - 1];
      assert last in jobs && forall j :: j in init ==> j in jobs;
      WriteAllOutcome(fs, init, p);
      ForcedOrOffered(init, p);
    }
  }

  lemma {:induction false} FirstOfferStays(jobs: seq<Job>, k: nat, p: Path)
    requires k <= |jobs| && FirstOffered(jobs[..k], p).Some?
    ensures FirstOffered(jobs, p) == FirstOffered(jobs[..k], p)
    decreases |jobs|
  {
    if k < |jobs| {
      assert jobs[..|jobs| - 1][..k] == jobs[..k];
      FirstOfferStays(jobs[..|jobs| - 1], k, p);
    } else {
      assert jobs[..k] == jobs;
    }
  }

  // What a path holds where the run stopped, if no job overwrites it.
  lemma StoppedOutcome(fs: Files, jobs: seq<Job>, k: nat, cut: Option<Content>, p: Path)
    requires Unmixed(jobs) && k < |jobs| && LastForced(jobs, p).None?
    ensures SpoiledStub(fs, jobs, k, cut) && p == jobs[k].path ==>
              Get(Stopped(fs, jobs, k, cut), p) == cut && p !in fs && FirstOffered(jobs, p) == Some(jobs[k].content)
    ensures !(SpoiledStub(fs, jobs, k, cut) && p == jobs[k].path) ==>
              var left := Get(Stopped(fs, jobs, k, cut), p);
              left == Get(fs, p) || (p !in fs && left == FirstOffered(jobs, p))
  {
    var init := jobs[..k];
    assert forall j :: j in init ==> j in jobs;
    ForcedOrOffered(jobs, p);
    ForcedOrOffered(init, p);
    WriteAllOutcome(fs, init, p);
    if FirstOffered(init, p).Some? {
      FirstOfferStays(jobs, k, p);
    } else if p == jobs[k].path {
      assert jobs[..k + 1][..k] == init && jobs[k] in jobs;
      FirstOfferStays(jobs, k + 1, p);
    }
  }

  // Doing the jobs again after a stopped run gives what one clean run gives,
  // unless a file created once was spoiled: that one is never repaired.
  lemma JobsAgain(fs: Files, jobs: seq<Job>, k: nat, cut: Option<Content>)
    requires Unmixed(jobs) && k < |jobs|
    ensures WriteAll(Stopped(fs, jobs, k, cut), jobs) == WriteAll(fs, jobs) <==> !SpoiledStub(fs, jobs, k, cut)
  {
    var left := Stopped(fs, jobs, k, cut);
    if SpoiledStub(fs, jobs, k, cut) {
      var p := jobs[k].path;
      ForcedOrOffered(jobs, p);
      assert jobs[k] in jobs;
      StoppedOutcome(fs, jobs, k, cut, p);
      WriteAllOutcome(left, jobs, p);
      WriteAllOutcome(fs, jobs, p);
    } else {
      forall p ensures Get(WriteAll(left, jobs), p) == Get(WriteAll(fs, jobs), p) {
        WriteAllOutcome(left, jobs, p);
        WriteAllOutcome(fs, jobs, p);
        if LastForced(jobs, p).None? {
          StoppedOutcome(fs, jobs, k, cut, p);
        }
      }
      SameFiles(WriteAll(left, jobs), WriteAll(fs, jobs));
    }
  }

  // ---- The jobs of a run ----

  // Overwritten files and files created once are told apart by their names; a
  // facade is neither, and nothing is in gen/ or go.mod.
  ghost predicate RunJob(j: Job) {
    && (if j.overwrite then Tag(j.path) in "cre" else Tag(j.path) in "sp")
    && j.path != "" && j.path[0] in "ic"
  }

  lemma FourAreRunJobs(svc: Service)
    ensures forall j :: j in JobsOf(svc) ==> RunJob(j)
  {
    Tags(svc.pkg);
  }

  lemma {:induction false} AllAreRunJobs(fs: Files, services: seq<Service>)
    ensures forall j :: j in EachJobs(fs, services) ==> RunJob(j)
  {
    if services != [] {
      AllAreRunJobs(fs, services[..|services| - 1]);
      FourAreRunJobs(Flag(fs, services[|services| - 1]));
    }
  }

  lemma JobsAreRunJobs(fs: Files, moduleName: string, services: seq<Service>)
    ensures forall j :: j in Jobs(fs, moduleName, services) ==> RunJob(j)
    ensures Unmixed(Jobs(fs, moduleName, services))
  {
    AllAreRunJobs(fs, services);
    Tags("");
  }

  // A stopped run has added or changed no path but those of its jobs.
  lemma {:induction false} OtherPathsStay(fs: Files, jobs: seq<Job>, p: Path)
    requires forall j :: j in jobs ==> j.path != p
    ensures Get(WriteAll(fs, jobs), p) == Get(fs, p)
  {
    if jobs != [] {
      OtherPathsStay(fs, jobs[..|jobs| - 1], p);
      assert jobs[|jobs| - 1] in jobs;
    }
  }

  lemma StoppedStays(fs: Files, jobs: seq<Job>, k: nat, cut: Option<Content>, p: Path)
    requires k < |jobs| && forall j :: j in jobs ==> j.path != p
    ensures Get(Stopped(fs, jobs, k, cut), p) == Get(fs, p)
  {
    OtherPathsStay(fs, jobs[..k], p);
    assert jobs[k] in jobs;
  }

  lemma {:induction false} SameFacadesSameJobs(fs: Files, fs': Files, services: seq<Service>)
    requires forall pkg :: FacadePath(pkg) in fs <==> FacadePath(pkg) in fs'
    ensures EachJobs(fs, services) == EachJobs(fs', services)
  {
    if services != [] {
      SameFacadesSameJobs(fs, fs', services[..|services| - 1]);
    }
  }

  lemma StoppedKeepsInputs(r: Reader, fs: Files, jobs: seq<Job>, k: nat, cut: Option<Content>)
    requires k < |jobs| && forall j :: j in jobs ==> RunJob(j)
    ensures var left := Stopped(fs, jobs, k, cut);
            && GenPart(left) == GenPart(fs) && ModuleName(r, left) == ModuleName(r, fs)
            && forall pkg :: FacadePath(pkg) in fs <==> FacadePath(pkg) in left
  {
    var left := Stopped(fs, jobs, k, cut);
    forall pkg ensures FacadePath(pkg) in fs <==> FacadePath(pkg) in left {
      Tags(pkg);
      StoppedStays(fs, jobs, k, cut, FacadePath(pkg));
    }
    forall p | InGen(p) || p == GO_MOD ensures Get(left, p) == Get(fs, p) {
      assert p[0] == 'g' by {
        if InGen(p) {
          assert p[..4][0] == 'g';
        }
      }
      StoppedStays(fs, jobs, k, cut, p);
    }
    forall p ensures Get(GenPart(left), p) == Get(GenPart(fs), p) {
      if InGen(p) {
        assert Get(left, p) == Get(fs, p);
      }
    }
    SameFiles(GenPart(left), GenPart(fs));
    assert Get(left, GO_MOD) == Get(fs, GO_MOD);
  }

  // Wherever a run stops, running again gives what one clean run gives, exactly
  // when it did not stop while creating a file it creates only once, leaving
  // something else there.
  lemma RerunRepairsIff(r: Reader, fs: Files, k: nat, cut: Option<Content>)
    requires ModuleName(r, fs).Some?
    requires var m := ModuleName(r, fs).value;
             k < |Jobs(fs, m, SortByPkg(r.discover(GenPart(fs), m)))|
    ensures var m := ModuleName(r, fs).value;
            var jobs := Jobs(fs, m, SortByPkg(r.discover(GenPart(fs), m)));
            && WriteAll(fs, jobs) == Generate(r, fs)
            && (Generate(r, Stopped(fs, jobs, k, cut)) == Generate(r, fs) <==> !SpoiledStub(fs, jobs, k, cut))
  {
    var m := ModuleName(r, fs).value;
    var services := SortByPkg(r.discover(GenPart(fs), m));
    var jobs := Jobs(fs, m, services);
    var left := Stopped(fs, jobs, k, cut);
    JobsAreRunJobs(fs, m, services);
    StoppedKeepsInputs(r, fs, jobs, k, cut);
    SameFacadesSameJobs(fs, left, services);
    RunIsJobs(fs, m, services);
    RunIsJobs(left, m, services);
    JobsAgain(fs, jobs, k, cut);
  }

  lemma FirstTwoJobs(fs: Files, moduleName: string, svc: Service)
    ensures var jobs := Jobs(fs, moduleName, [svc]);
            && 1 < |jobs| && jobs[0].path == ServicePath(svc.pkg)
            && jobs[1] == Job(UseCasePath(svc.pkg), UseCaseGo(svc.pkg, svc.api), false)
  {
    var four := JobsOf(Flag(fs, svc));
    assert [svc][..0] == [] && EachJobs(fs, [svc]) == [] + four;
    assert Jobs(fs, moduleName, [svc])[..2] == four[..2];
  }

  // Stopping while a usecase.go is created spoils it, whatever the service.
  lemma SpoiledStubIsReachable(fs: Files, moduleName: string, svc: Service, left: Content)
    requires UseCasePath(svc.pkg) !in fs && left != UseCaseGo(svc.pkg, svc.api)
    ensures var jobs := Jobs(fs, moduleName, [svc]); 1 < |jobs| && SpoiledStub(fs, jobs, 1, Some(left))
  {
    var jobs := Jobs(fs, moduleName, [svc]);
    FirstTwoJobs(fs, moduleName, svc);
    Tags(svc.pkg);
    OtherPathsStay(fs, jobs[..1], jobs[1].path);
  }
}
