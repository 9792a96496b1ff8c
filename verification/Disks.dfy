// A file system as a map from paths to contents.
module Disks {
  class Disk<T> {
    var files: map<string, T>

    constructor (files: map<string, T>)
      ensures this.files == files
    {
      this.files := files;
    }
  }
}
