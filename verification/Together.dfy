/**
 The two tools on one project: what add-feature writes is what the code
 generator looks for.
 */
module Together {
  import opened Options
  import Naming
  import Scaffold
  import Codegen
  import CodegenPolicy

  // The generator's files are the project at `root`, by their relative paths.
  ghost predicate IsProject(files: Scaffold.Files, root: string, gen: Codegen.Files) {
    forall rel :: Scaffold.Join(root, rel) in files ==> rel in gen
  }

  // The facade that add-feature wrote makes the next run bind it, once the
  // feature's service is found; neither that file nor its binding is touched.
  lemma AddedFeatureIsBound(fs: Scaffold.Files, env: Scaffold.Env, root: string, name: string, stamp: string,
      r: Codegen.Reader, gen: Codegen.Files, svc: Codegen.Service)
    requires Scaffold.Add(fs, env, root, name, stamp).failure.None?
    requires IsProject(Scaffold.Add(fs, env, root, name, stamp).files, root, gen)
    requires Codegen.ModuleName(r, gen).Some? && svc.pkg == name && !svc.hasFacade
    requires var found := r.discover(Codegen.GenPart(gen), Codegen.ModuleName(r, gen).value);
             CodegenPolicy.LastOf(Codegen.SortByPkg(found), name) == Some(svc)
    ensures var dir, after := "internal/feature/" + name, Codegen.Generate(r, gen);
            && CodegenPolicy.Lists(Codegen.Get(after, dir + "/wire.go"), name, true)
            && dir + "/facade.go" in gen && dir + "/wire_bind.go" in gen
            && Codegen.Get(after, dir + "/facade.go") == Some(gen[dir + "/facade.go"])
            && Codegen.Get(after, dir + "/wire_bind.go") == Some(gen[dir + "/wire_bind.go"])
  {
    var files := Scaffold.Add(fs, env, root, name, stamp).files;
    Scaffold.AddedFiles(fs, env, root, name, stamp);
    FeatureFilesAreThere(fs, files, root, name, stamp);
    CodegenPolicy.RunRefreshes(r, gen, svc);
  }

  lemma FeatureFilesAreThere(fs: Scaffold.Files, files: Scaffold.Files, root: string, name: string, stamp: string)
    requires Scaffold.AddedTo(fs, files, root, name, stamp)
    ensures Scaffold.Join(root, Codegen.FacadePath(name)) in files
    ensures Scaffold.Join(root, Codegen.WireBindPath(name)) in files
  {
    var table := Naming.Pluralize(name);
    assert Scaffold.Rel(3, name, table, stamp) == Codegen.FacadePath(name);
    assert Scaffold.Rel(4, name, table, stamp) == Codegen.WireBindPath(name);
  }
}
