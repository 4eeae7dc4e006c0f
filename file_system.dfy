/** The process's view of the filesystem: one object whose state the
    std::filesystem and stream calls of the generator read and change. */
module Files {
  import opened Wrappers
  import opened Disks

  class FileSystem {
    var files: map<Path, string>
    var dirs: set<Path>
    /** Permissions: which files cannot be opened for reading or writing. */
    const unreadable: set<Path>
    const unwritable: set<Path>

    function State(): Disk
      reads this
    {
      Disk(files, dirs)
    }

    function Permissions(): Access {
      Access(unreadable, unwritable)
    }

    constructor (disk: Disk, access: Access)
      ensures State() == disk && Permissions() == access
    {
      files, dirs := disk.files, disk.dirs;
      unreadable, unwritable := access.unreadable, access.unwritable;
    }

    /** `std::ifstream in(p)` and reading its whole buffer: None when the
        stream does not open. */
    method Read(p: Path) returns (text: Option<string>)
      ensures text.Some? <==> Readable(Permissions(), State(), p)
      ensures text.Some? ==> text.value == files[p]
    {
      if p in files && p !in unreadable {
        text := Some(files[p]);
      } else {
        text := None;
      }
    }

    /** `std::ofstream out(p, binary)` and writing `text`: the existing
        file is truncated and rewritten, unless it cannot be opened. */
    method Write(p: Path, text: string) returns (ok: bool)
      modifies this
      ensures ok <==> p in old(files) && p !in unwritable
      ensures files == if ok then old(files)[p := text] else old(files)
      ensures dirs == old(dirs)
    {
      ok := p in files && p !in unwritable;
      if ok {
        files := files[p := text];
      }
    }

    /** `std::filesystem::exists(p)`. */
    method Exists(p: Path) returns (b: bool)
      ensures b == Present(State(), p)
    {
      b := p in files || p in dirs;
    }

    /** `std::filesystem::create_directories(p, error)`: false when nothing
        was created or `error` was set. */
    method CreateDirectories(p: Path) returns (created: bool)
      modifies this
      ensures var r := Disks.CreateDirectories(old(State()), p);
        && created == (r.Some? && r.value.0)
        && State() == (if r.Some? then r.value.1 else old(State()))
    {
      var r := Disks.CreateDirectories(State(), p);
      created := r.Some? && r.value.0;
      if r.Some? {
        dirs := r.value.1.dirs;
      }
    }

    /** `std::filesystem::rename(from, to, error)`: false when `error` was
        set, and then nothing changed. */
    method Rename(from: Path, to: Path) returns (ok: bool)
      modifies this
      ensures ok == Disks.Rename(old(State()), from, to).Some?
      ensures State() == if ok then Disks.Rename(old(State()), from, to).value else old(State())
    {
      var r := Disks.Rename(State(), from, to);
      ok := r.Some?;
      if ok {
        files, dirs := r.value.files, r.value.dirs;
      }
    }

    /** A clone of a repository whose tree is `tree` into `root`. */
    method Clone(root: Path, tree: Disk)
      modifies this
      ensures State() == Graft(old(State()), root, tree)
    {
      var r := Graft(State(), root, tree);
      files, dirs := r.files, r.dirs;
    }
  }
}
