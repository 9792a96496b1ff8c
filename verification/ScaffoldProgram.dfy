// The scaffold command as a program over a disk.
module ScaffoldProgram {
  import opened Options
  import Naming
  import opened Disks
  import opened Scaffold

  method CreateFeatureFiles(disk: Disk<Body>, env: Env, root: string, data: FeatureData, stamp: string)
    returns (failure: Option<Failure>)
    modifies disk
    ensures Done(disk.files, failure) == Create(old(disk.files), env, root, data, stamp)
  {
    if env.mkdirFails {
      return Some(MkdirFailed);
    }
    var files := Plan(root, data, stamp);
    var migration := files[6].path;
    if migration in env.unreadable {
      return Some(StatFailed(migration));
    }
    if migration in disk.files {
      return Some(MigrationExists(migration));
    }
    for i := 0 to |files|
      invariant disk.files == old(disk.files)
      invariant FirstObstacle(disk.files, env, files) == FirstObstacle(disk.files, env, files[i..])
    {
      assert files[i..][0] == files[i] && files[i..][1..] == files[i + 1..];
      var obstacle := Obstacle(disk.files, env, files[i].path);
      if obstacle.Some? {
        return obstacle;
      }
    }
    for i := 0 to |files|
      invariant WriteFrom(old(disk.files), env, files, 0) == WriteFrom(disk.files, env, files, i)
    {
      match env.write(i)
      case Sound =>
        disk.files := disk.files[files[i].path := files[i].body];
      case NotOpened =>
        return Some(WriteFailed(i));
      case CutShort(left) =>
        disk.files := disk.files[files[i].path := left];
        return Some(WriteFailed(i));
    }
    return None;
  }

  method EnsureBufGenIncludesAPI(disk: Disk<Body>, env: Env, root: string) returns (failure: Option<Failure>)
    modifies disk
    ensures Done(disk.files, failure) == UpdateBufGen(old(disk.files), env.write(7), Join(root, BUF_GEN_REL))
  {
    var buf := Join(root, BUF_GEN_REL);
    if buf !in disk.files || !disk.files[buf].BufGen? {
      return Some(BufGenUnusable);
    }
    var inputs := disk.files[buf].inputs;
    match env.write(7)
    case Sound =>
      disk.files := disk.files[buf := BufGen(IncludeApi(inputs))];
      return None;
    case NotOpened =>
      return Some(WriteFailed(7));
    case CutShort(left) =>
      disk.files := disk.files[buf := left];
      return Some(WriteFailed(7));
  }

  method AddFeature(disk: Disk<Body>, env: Env, root: string, name: string, stamp: string)
    returns (failure: Option<Failure>)
    modifies disk
    ensures Done(disk.files, failure) == Add(old(disk.files), env, root, name, stamp)
  {
    if !Naming.ValidName(name) {
      return Some(InvalidName);
    }
    var mod := Join(root, GO_MOD_REL);
    if mod !in disk.files || !disk.files[mod].GoMod? {
      return Some(NoModule);
    }
    var pascal := Naming.ToPascalCase(name);
    var data := FeatureData(name, pascal, UpperSnake(name), Naming.Pluralize(name), disk.files[mod].moduleName);
    failure := CreateFeatureFiles(disk, env, root, data, stamp);
    if failure.Some? {
      return;
    }
    failure := EnsureBufGenIncludesAPI(disk, env, root);
  }
}
