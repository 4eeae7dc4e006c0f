/** The filesystem as a value: regular files with their text, directories,
    and the operations of std::filesystem the generator uses, with the
    error conditions under which they fail. A path is the sequence of its
    components. */
module Disks {
  import opened Wrappers

  type Path = seq<string>

  datatype Disk = Disk(files: map<Path, string>, dirs: set<Path>)

  /** Files the process may not open for reading or for writing. */
  datatype Access = Access(unreadable: set<Path>, unwritable: set<Path>)

  /** `std::filesystem::exists(p)`. */
  predicate Present(d: Disk, p: Path) {
    p in d.files || p in d.dirs
  }

  /** `p` is the same regular file, with the same text, in both disks. */
  predicate SameFileAt(d: Disk, e: Disk, p: Path) {
    && (p in d.files <==> p in e.files)
    && (p in d.files ==> d.files[p] == e.files[p])
  }

  /** `p` can be opened for reading. */
  predicate Readable(a: Access, d: Disk, p: Path) {
    p in d.files && p !in a.unreadable
  }

  /** The place below `to` that `p`, below `from`, moves to. */
  function Moved(p: Path, from: Path, to: Path): Path
    requires from <= p
  {
    to + p[|from|..]
  }

  /** Moving keeps distinct paths distinct. */
  lemma MovedInjective(from: Path, to: Path)
    ensures forall p1, p2 :: from <= p1 && from <= p2 && Moved(p1, from, to) == Moved(p2, from, to) ==> p1 == p2
  {
    forall p1, p2 | from <= p1 && from <= p2 && Moved(p1, from, to) == Moved(p2, from, to)
      ensures p1 == p2
    {
      assert p1[|from|..] == Moved(p1, from, to)[|to|..];
      assert p1 == from + p1[|from|..];
      assert p2 == from + p2[|from|..];
    }
  }

  /** The entries at or below `from`, moved to the same place below `to`. */
  function Rebase(m: map<Path, string>, from: Path, to: Path): (r: map<Path, string>)
    ensures forall p :: p in m && from <= p ==> Moved(p, from, to) in r && r[Moved(p, from, to)] == m[p]
    ensures forall q :: q in r ==> to <= q
  {
    MovedInjective(from, to);
    map p | p in m && from <= p :: Moved(p, from, to) := m[p]
  }

  function RebaseSet(s: set<Path>, from: Path, to: Path): (r: set<Path>)
    ensures forall p :: p in s && from <= p ==> Moved(p, from, to) in r
    ensures forall q :: q in r ==> to <= q
  {
    set p | p in s && from <= p :: Moved(p, from, to)
  }

  /** The entries not at or below `from`. */
  function Outside(m: map<Path, string>, from: Path): map<Path, string> {
    map p | p in m && !(from <= p) :: m[p]
  }

  function OutsideSet(s: set<Path>, from: Path): set<Path> {
    set p | p in s && !(from <= p)
  }

  /** The directory that would hold `p` exists (a one-component path sits
      in the root, which always exists). */
  predicate ParentPresent(d: Disk, p: Path) {
    |p| > 0 && (|p| == 1 || p[..|p| - 1] in d.dirs)
  }

  /** `std::filesystem::rename(from, to, error)`: None when it sets
      `error`. Renaming an entry to itself does nothing; the source must
      exist; a directory cannot move below itself; a regular file may
      replace a regular file; the new parent must exist. */
  function Rename(d: Disk, from: Path, to: Path): Option<Disk> {
    if from == to then (if Present(d, from) then Some(d) else None)
    else if !Present(d, from) || from <= to || to in d.dirs then None
    else if to in d.files && from in d.dirs then None
    else if !ParentPresent(d, to) then None
    else Some(Disk(Outside(d.files, from) + Rebase(d.files, from, to),
                   OutsideSet(d.dirs, from) + RebaseSet(d.dirs, from, to)))
  }

  /** A successful rename carries every file at or below `from`, with its
      text, to the same place below `to`. */
  lemma RenameCarries(d: Disk, from: Path, to: Path, p: Path)
    requires Rename(d, from, to).Some? && p in d.files && from <= p
    ensures Moved(p, from, to) in Rename(d, from, to).value.files
    ensures Rename(d, from, to).value.files[Moved(p, from, to)] == d.files[p]
  {
    if from == to {
      assert Moved(p, from, to) == p;
    }
  }

  /** A rename leaves every file outside both `from` and `to` alone. */
  lemma RenameKeepsOthers(d: Disk, from: Path, to: Path, p: Path)
    requires Rename(d, from, to).Some? && !(from <= p) && !(to <= p)
    ensures SameFileAt(d, Rename(d, from, to).value, p)
  {
  }

  /** The non-empty prefixes of `p`: the directories
      `std::filesystem::create_directories(p)` makes sure exist. */
  function Ancestry(p: Path): set<Path> {
    set i | 1 <= i <= |p| :: p[..i]
  }

  /** `std::filesystem::create_directories(p, error)`: None when a regular
      file is in the way; otherwise whether `p` itself was created, and the
      disk with every missing directory on the way added. */
  function CreateDirectories(d: Disk, p: Path): Option<(bool, Disk)> {
    if exists i :: 1 <= i <= |p| && p[..i] in d.files then None
    else Some((p !in d.dirs, d.(dirs := d.dirs + Ancestry(p))))
  }

  /** A tree of files and directories, given relative to `root`, added
      below `root`: what cloning a repository into `root` produces. */
  function Graft(d: Disk, root: Path, tree: Disk): (r: Disk)
    ensures forall p :: p in tree.files ==> root + p in r.files && r.files[root + p] == tree.files[p]
    ensures forall p :: !(root <= p) ==> SameFileAt(d, r, p)
  {
    Disk(d.files + Rebase(tree.files, [], root), d.dirs + RebaseSet(tree.dirs, [], root))
  }

  /** The position of the last '.' in a file name. */
  function LastDot(s: string): (r: Option<nat>)
    ensures r.Some? ==> r.value < |s| && s[r.value] == '.' && forall j :: r.value < j < |s| ==> s[j] != '.'
    ensures r.None? ==> forall j :: 0 <= j < |s| ==> s[j] != '.'
  {
    if |s| == 0 then None
    else if s[|s| - 1] == '.' then Some(|s| - 1)
    else LastDot(s[..|s| - 1])
  }

  /** A file name without its extension (`path::stem`): the extension
      starts at the last '.', except that "." and ".." have none and a
      leading '.' does not start one. */
  function Stem(file: string): (r: string)
    ensures r <= file
    ensures file != "" ==> r != ""
  {
    if file == "." || file == ".." then file
    else
      var dot := LastDot(file);
      if dot.Some? && dot.value > 0 then file[..dot.value] else file
  }

  /** `path::replace_extension(ext)` on a file name, for an extension
      without a leading '.': the old extension goes and "." + ext is
      appended. */
  function ReplaceExtension(file: string, ext: string): (r: string)
    ensures |r| > |ext| && r[|r| - |ext| - 1..] == "." + ext
  {
    Stem(file) + "." + ext
  }

  /** A name without a '.' just gets the extension appended. */
  lemma ReplaceExtensionPlain(file: string, ext: string)
    requires forall j :: 0 <= j < |file| ==> file[j] != '.'
    ensures ReplaceExtension(file, ext) == file + "." + ext
  {
  }

  /** Replacing the extension a second time is replacing it once, for a
      non-empty name: the `.cpp` rename target is the `.h` one with the
      other extension. */
  lemma ReplaceExtensionTwice(file: string, e1: string, e2: string)
    requires file != "" && |e1| > 0 && forall j :: 0 <= j < |e1| ==> e1[j] != '.'
    ensures ReplaceExtension(ReplaceExtension(file, e1), e2) == ReplaceExtension(file, e2)
  {
    var stem := Stem(file);
    var once := stem + "." + e1;
    assert once[|stem|] == '.';
    forall j | |stem| < j < |once|
      ensures once[j] != '.'
    {
      assert once[j] == e1[j - |stem| - 1];
    }
    assert LastDot(once) == Some(|stem|) by {
      LastDotIs(once, |stem|);
    }
    assert once[|once| - 1] != '.';
    assert once[..|stem|] == stem;
  }

  /** LastDot finds the last '.'. */
  lemma {:induction false} LastDotIs(s: string, k: nat)
    requires k < |s| && s[k] == '.' && forall j :: k < j < |s| ==> s[j] != '.'
    ensures LastDot(s) == Some(k)
    decreases |s|
  {
    if s[|s| - 1] != '.' {
      LastDotIs(s[..|s| - 1], k);
    }
  }
}
