/**
 The generator as a program: it sorts the services in place, flags those with a
 facade, and writes files one at a time.
 */
module CodegenProgram {
  import opened Options
  import Sorting
  import opened Disks
  import opened Codegen

  method WriteTemplateFile(disk: Disk<Content>, path: Path, content: Content, overwrite: bool)
    modifies disk
    ensures disk.files == Write(old(disk.files), path, content, overwrite)
  {
    if !overwrite {
      if path in disk.files {
        return;
      }
    }
    disk.files := disk.files[path := content];
  }

  method SortSlice(services: array<Service>)
    modifies services
    ensures services[..] == SortByPkg(old(services[..]))
  {
    var sorted := SortByPkg(services[..]);
    Sorting.SortSorts(services[..], BY_PKG);
    forall i | 0 <= i < services.Length {
      services[i] := sorted[i];
    }
    assert services[..] == sorted;
  }

  method GenerateServerFeatures(disk: Disk<Content>, moduleName: string, services: seq<Service>)
    modifies disk
    ensures disk.files == if services == [] then old(disk.files)
                          else Write(old(disk.files), FEATURES_PATH, FeaturesGo(moduleName, Rows(services)), true)
  {
    if |services| == 0 {
      return;
    }
    WriteTemplateFile(disk, FEATURES_PATH, FeaturesGo(moduleName, Rows(services)), true);
  }

  // One pass of the loop of main over one service, already flagged.
  method GenerateFiles(disk: Disk<Content>, svc: Service)
    requires svc.hasFacade || FacadePath(svc.pkg) !in disk.files
    modifies disk
    ensures disk.files == GenerateOne(old(disk.files), svc)
  {
    WriteTemplateFile(disk, ServicePath(svc.pkg), ServiceGo(svc.pkg, svc.api), true);
    WriteTemplateFile(disk, UseCasePath(svc.pkg), UseCaseGo(svc.pkg, svc.api), false);
    WriteTemplateFile(disk, RepoPath(svc.pkg), RepoGo(svc.pkg, svc.api.moduleName), false);
    WriteTemplateFile(disk, WirePath(svc.pkg), WireGo(svc.pkg, WireProviders(svc.hasFacade)), true);
  }

  // The flag is what GenerateOne would look up itself.
  lemma FlagAgain(fs: Files, svc: Service, flagged: Service)
    requires flagged == Flag(fs, svc)
    ensures GenerateOne(fs, flagged) == GenerateOne(fs, svc) && Row(flagged) == Row(svc)
  {
  }

  lemma EachNext(fs: Files, services: seq<Service>, i: nat)
    requires i < |services|
    ensures GenerateEach(fs, services[..i + 1]) == GenerateOne(GenerateEach(fs, services[..i]), services[i])
  {
    assert services[..i + 1][..i] == services[..i];
  }

  // The loop of main: flag a service in place, write its files, go on.
  method GenerateLoop(disk: Disk<Content>, services: array<Service>)
    modifies disk, services
    ensures disk.files == GenerateEach(old(disk.files), old(services[..]))
    ensures Rows(services[..]) == Rows(old(services[..]))
  {
    ghost var sorted, before := services[..], disk.files;
    for i := 0 to services.Length
      invariant disk.files == GenerateEach(before, sorted[..i])
      invariant forall j :: i <= j < services.Length ==> services[j] == sorted[j]
      invariant forall j :: 0 <= j < i ==> Row(services[j]) == Row(sorted[j])
    {
      if FacadePath(services[i].pkg) in disk.files {
        services[i] := services[i].(hasFacade := true);
      }
      FlagAgain(disk.files, sorted[i], services[i]);
      GenerateFiles(disk, services[i]);
      EachNext(before, sorted, i);
    }
    assert sorted[..|sorted|] == sorted;
  }

  // False when go.mod names no module; nothing is written then.
  method RunCodegen(r: Reader, disk: Disk<Content>) returns (ok: bool)
    modifies disk
    ensures disk.files == Generate(r, old(disk.files))
    ensures ok <==> ModuleName(r, old(disk.files)).Some?
  {
    var m := ModuleName(r, disk.files);
    if m.None? {
      return false;
    }
    var found := r.discover(GenPart(disk.files), m.value);
    var services := new Service[|found|](i requires 0 <= i < |found| => found[i]);
    assert services[..] == found;
    SortSlice(services);
    GenerateLoop(disk, services);
    GenerateServerFeatures(disk, m.value, services[..]);
    return true;
  }
}
