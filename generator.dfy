/** The generator's driver (src/main.cpp): the command line, the checks
    and commands before the template is cloned, EditFile, the OLC edit
    loop, and `Run` as a whole. */
module Generator {
  import opened Wrappers
  import opened Substitution
  import opened ReturnCodes
  import opened Disks
  import opened Files
  import opened Pipeline

  /** The settings the options after the project name choose. */
  datatype Options = Options(directory: Path, isPublic: bool, useOLC: bool)

  /** The root directory, private repository, ProjectTemplate. */
  const DefaultOptions := Options([], false, false)

  /** Some argument from index `i` on is `flag`. */
  ghost predicate Mentions(args: seq<string>, i: nat, flag: string) {
    exists j :: i <= j < |args| && args[j] == flag
  }

  /** The three recognised options. */
  predicate IsOption(arg: string) {
    arg == "--dir" || arg == "--public" || arg == "--olc"
  }

  /** The options `args[i..]` select, starting from `opts`: `--dir` takes
      the next argument as the directory, but only when yet another
      argument follows it; `--public` and `--olc` set their flags; any
      other argument asks for the usage text. */
  function ParseFrom(args: seq<string>, i: nat, opts: Options): (r: Result<Options, ReturnCode>)
    ensures r.Err? ==> r.error == ShowHelpMessage || r.error == DirectoryArgMissing
    ensures r.Err? && r.error == DirectoryArgMissing ==> Mentions(args, i, "--dir")
    ensures r.Ok? && r.value.useOLC ==> opts.useOLC || Mentions(args, i, "--olc")
    ensures r.Ok? && r.value.isPublic ==> opts.isPublic || Mentions(args, i, "--public")
    ensures r.Ok? && r.value.directory != opts.directory ==> Mentions(args, i, "--dir")
    ensures r.Ok? && opts.useOLC ==> r.value.useOLC
    ensures r.Ok? && opts.isPublic ==> r.value.isPublic
    ensures r == Err(ShowHelpMessage) ==> exists j :: i <= j < |args| && !IsOption(args[j])
    ensures (forall j :: i <= j < |args| ==> args[j] == "--public" || args[j] == "--olc") ==> r.Ok?
    decreases |args| - i
  {
    if i >= |args| then Ok(opts)
    else if args[i] == "--dir" then
      if i + 2 < |args| then ParseFrom(args, i + 2, opts.(directory := [args[i + 1]]))
      else Err(DirectoryArgMissing)
    else if args[i] == "--public" then ParseFrom(args, i + 1, opts.(isPublic := true))
    else if args[i] == "--olc" then ParseFrom(args, i + 1, opts.(useOLC := true))
    else Err(ShowHelpMessage)
  }

  /** The option loop of `Run`: the arguments after the project name. */
  method ParseOptions(args: seq<string>) returns (r: Result<Options, ReturnCode>)
    ensures r == ParseFrom(args, 2, DefaultOptions)
  {
    var opts := DefaultOptions;
    var argi := 2;
    while argi < |args|
      invariant ParseFrom(args, argi, opts) == ParseFrom(args, 2, DefaultOptions)
      decreases |args| - argi
    {
      var arg := args[argi];
      argi := argi + 1;
      if arg == "--dir" {
        if argi + 1 < |args| {
          opts := opts.(directory := [args[argi]]);
          argi := argi + 1;
        } else {
          return Err(DirectoryArgMissing);
        }
      } else if arg == "--public" {
        opts := opts.(isPublic := true);
      } else if arg == "--olc" {
        opts := opts.(useOLC := true);
      } else {
        return Err(ShowHelpMessage);
      }
    }
    return Ok(opts);
  }

  /** `--dir` as the last option is reported missing even though its value
      is there. */
  lemma DirAsLastOptionIsMissing()
    ensures ParseFrom(["gen", "App", "--dir", "work"], 2, DefaultOptions) == Err(DirectoryArgMissing)
    ensures ParseFrom(["gen", "App", "--dir", "work", "--olc"], 2, DefaultOptions) == Ok(Options(["work"], false, true))
  {
  }

  /** After flag options only, `--dir` without two more arguments is
      reported as DirectoryArgMissing. */
  lemma {:induction false} DirWithoutTwoMoreIsMissing(args: seq<string>, i: nat, k: nat, opts: Options)
    requires i <= k < |args| && args[k] == "--dir" && k + 2 >= |args|
    requires forall j :: i <= j < k ==> args[j] == "--public" || args[j] == "--olc"
    ensures ParseFrom(args, i, opts) == Err(DirectoryArgMissing)
    decreases k - i
  {
    if i < k {
      DirWithoutTwoMoreIsMissing(args, i + 1, k, if args[i] == "--public" then opts.(isPublic := true) else opts.(useOLC := true));
    }
  }

  /** After flag options only, an argument that is not an option asks for
      the usage text. */
  lemma {:induction false} UnknownOptionShowsHelp(args: seq<string>, i: nat, k: nat, opts: Options)
    requires i <= k < |args| && !IsOption(args[k])
    requires forall j :: i <= j < k ==> args[j] == "--public" || args[j] == "--olc"
    ensures ParseFrom(args, i, opts) == Err(ShowHelpMessage)
    decreases k - i
  {
    if i < k {
      UnknownOptionShowsHelp(args, i + 1, k, if args[i] == "--public" then opts.(isPublic := true) else opts.(useOLC := true));
    }
  }

  /** EditFile: read the whole file, apply the callback, write the result
      back. */
  method EditFile(fs: FileSystem, path: Path, edit: string -> Option<string>) returns (st: Status)
    modifies fs
    ensures (st, fs.State()) == Edited(fs.Permissions(), old(fs.State()), path, edit)
  {
    var text := fs.Read(path);
    if text.None? {
      return Returned(CouldntReadFile);
    }
    var edited := edit(text.value);
    if edited.None? {
      return OutOfRange;
    }
    var ok := fs.Write(path, edited.value);
    if !ok {
      return Returned(CouldntWriteFile);
    }
    return Succeeded;
  }

  /** An edit changes no file but its own. */
  lemma EditedKeepsOthers(a: Access, d: Disk, path: Path, edit: string -> Option<string>, q: Path)
    requires q != path
    ensures SameFileAt(d, Edited(a, d, path, edit).1, q)
    ensures Edited(a, d, path, edit).1.dirs == d.dirs
  {
  }

  /** Edit the files in order, replacing every "OLCTemplate" by the project
      name, and stop at the first edit that does not succeed. */
  method ReplaceOLCTemplateWithProjectNameInFiles(fs: FileSystem, paths: seq<Path>, name: string) returns (st: Status)
    modifies fs
    ensures var o := Exec(fs.Permissions(), old(fs.State()), OlcEdits(paths, name));
      st == o.status && fs.State() == o.disk
  {
    ghost var a, edits := fs.Permissions(), OlcEdits(paths, name);
    ghost var goal := Exec(a, fs.State(), edits);
    st := Succeeded;
    var i := 0;
    while i < |paths| && st == Succeeded
      invariant 0 <= i <= |paths|
      invariant st == Succeeded ==> goal == StepsAfter(Exec(a, fs.State(), edits[i..]), i)
      invariant st != Succeeded ==> goal.status == st && goal.disk == fs.State()
    {
      assert edits[i..][0] == edits[i] && edits[i..][1..] == edits[i + 1..];
      st := EditFile(fs, paths[i], Editor([All(OLCTemplate)], name));
      i := i + 1;
    }
    if st == Succeeded {
      assert edits[i..] == [];
    }
  }


  /** The renames of the project directory and of its build script. */
  method RenameProjectFiles(fs: FileSystem, pd: Path, name: string) returns (st: Status)
    modifies fs
    ensures var o := Exec(fs.Permissions(), old(fs.State()), ProjectRenames(pd, name));
      st == o.status && fs.State() == o.disk
  {
    ghost var a, goal := fs.Permissions(), Exec(fs.Permissions(), fs.State(), ProjectRenames(pd, name));
    var prj, inner := Text(ProjectName), pd + [name];
    ghost var rest := ProjectRenames(pd, name);
    var ok := fs.Rename(pd + [prj], inner);
    if !ok {
      return Returned(CouldntRenameFile);
    }
    assert goal == StepsAfter(Exec(a, fs.State(), rest[1..]), 1);
    rest := rest[1..];
    ok := fs.Rename(inner + [BuildScript(prj)], inner + [BuildScript(name)]);
    st := if ok then Succeeded else Returned(CouldntRenameFile);
    assert rest[1..] == [];
  }

  /** The edits of the three Lua build scripts. */
  method EditBuildScripts(fs: FileSystem, pd: Path, name: string) returns (st: Status)
    modifies fs
    ensures var o := Exec(fs.Permissions(), old(fs.State()), BuildScriptEdits(pd, name));
      st == o.status && fs.State() == o.disk
  {
    ghost var a, goal := fs.Permissions(), Exec(fs.Permissions(), fs.State(), BuildScriptEdits(pd, name));
    ghost var rest := BuildScriptEdits(pd, name);
    st := EditFile(fs, pd + [name, BuildScript(name)], Editor([First(ProjectName)], name));
    if st != Succeeded {
      return;
    }
    assert goal == StepsAfter(Exec(a, fs.State(), rest[1..]), 1);
    rest := rest[1..];
    st := EditFile(fs, pd + [BuildAllLua], Editor([First(WorkspaceName), All(ProjectName)], name));
    if st != Succeeded {
      return;
    }
    assert goal == StepsAfter(Exec(a, fs.State(), rest[1..]), 2);
    rest := rest[1..];
    st := EditFile(fs, pd + [BuildDependenciesLua], Editor([First(ProjectName)], name));
    assert rest[1..] == [];
  }

  /** The stages common to both templates. */
  method InstantiateCommon(fs: FileSystem, pd: Path, name: string) returns (st: Status)
    modifies fs
    ensures var o := Exec(fs.Permissions(), old(fs.State()), CommonStages(pd, name));
      st == o.status && fs.State() == o.disk
  {
    ExecAppend(fs.Permissions(), fs.State(), ProjectRenames(pd, name), BuildScriptEdits(pd, name));
    st := RenameProjectFiles(fs, pd, name);
    if st != Succeeded {
      return;
    }
    st := EditBuildScripts(fs, pd, name);
  }

  /** The stages of the chosen template. */
  method InstantiateTemplate(fs: FileSystem, pd: Path, name: string, olc: bool) returns (st: Status)
    modifies fs
    ensures var o := Exec(fs.Permissions(), old(fs.State()), TemplateStages(pd, name, olc));
      st == o.status && fs.State() == o.disk
  {
    ghost var a, d0 := fs.Permissions(), fs.State();
    if olc {
      var src := pd + [name, "src"];
      ghost var edits, renames := OlcEdits(OlcFiles(pd, name), name), OlcRenames(pd, name);
      ExecAppend(a, d0, edits, renames);
      st := ReplaceOLCTemplateWithProjectNameInFiles(fs, OlcFiles(pd, name), name);
      if st != Succeeded {
        return;
      }
      ghost var goal := Exec(a, fs.State(), renames);
      var ok := fs.Rename(src + ["OLCTemplate.h"], src + [HeaderName(name)]);
      if !ok {
        return Returned(CouldntRenameFile);
      }
      assert goal == StepsAfter(Exec(a, fs.State(), renames[1..]), 1);
      assert renames[1..][0] == renames[1] && renames[1..][1..] == [];
      ok := fs.Rename(src + ["OLCTemplate.cpp"], src + [SourceName(name)]);
      st := if ok then Succeeded else Returned(CouldntRenameFile);
    } else {
      ghost var stages := TemplateStages(pd, name, olc);
      assert stages[1..] == [];
      st := EditFile(fs, pd + [ReadmeMd], Editor([First(ProjectTemplate)], name));
    }
  }


  /** The renames and edits of `Run` after the clone: the stages of `Plan`
      in order, stopping at the first that fails. */
  method Instantiate(fs: FileSystem, pd: Path, name: string, olc: bool) returns (st: Status)
    modifies fs
    ensures var o := Exec(fs.Permissions(), old(fs.State()), Plan(pd, name, olc));
      st == o.status && fs.State() == o.disk
  {
    ExecAppend(fs.Permissions(), fs.State(), CommonStages(pd, name), TemplateStages(pd, name, olc));
    st := InstantiateCommon(fs, pd, name);
    if st != Succeeded {
      return;
    }
    st := InstantiateTemplate(fs, pd, name, olc);
  }

  /** What the world outside the filesystem does: whether each command
      `Run` starts fails (git and GitHub CLI missing, `gh repo create`,
      `gh repo clone`, the commit, project generation, opening the
      solution), whether `std::filesystem::exists` reports an error, and
      the trees of the two template repositories. */
  datatype Env = Env(
    gitMissing: bool,
    ghMissing: bool,
    statFails: bool,
    repoCreateFails: bool,
    cloneFails: bool,
    commitFails: bool,
    generateFails: bool,
    openFails: bool,
    projectTemplate: Disk,
    olcTemplate: Disk)

  /** The tree a clone of the chosen template repository produces. */
  function Template(env: Env, olc: bool): Disk {
    if olc then env.olcTemplate else env.projectTemplate
  }

  /** The status `Run` ends with and the disk it leaves, for the command
      line `args` (`args[0]` is the program) on disk `d`. */
  function RunOutcome(args: seq<string>, env: Env, a: Access, d: Disk): (Status, Disk) {
    if |args| <= 1 || args[1] == "--help" then (Returned(ShowHelpMessage), d)
    else if env.gitMissing then (Returned(GitMissing), d)
    else if env.ghMissing then (Returned(GitHubCLIMissing), d)
    else
      var parsed := ParseFrom(args, 2, DefaultOptions);
      if parsed.Err? then (Returned(parsed.error), d)
      else
        var pd := parsed.value.directory + [args[1]];
        if Present(d, pd) || env.statFails then (Returned(ProjectDirectoryAlreadyExists), d)
        else
          var created := Disks.CreateDirectories(d, pd);
          if created.None? then (Returned(CouldntCreateDirectory), d)
          else if !created.value.0 then (Returned(CouldntCreateDirectory), created.value.1)
          else if env.repoCreateFails then (Returned(CouldntCreateRepository), created.value.1)
          else if env.cloneFails then (Returned(CouldntCloneRepository), created.value.1)
          else
            var cloned := Graft(created.value.1, pd, Template(env, parsed.value.useOLC));
            var o := Exec(a, cloned, Plan(pd, args[1], parsed.value.useOLC));
            if o.status != Succeeded then (o.status, o.disk)
            else if env.commitFails then (Returned(CouldntCommitToRepository), o.disk)
            else if env.generateFails then (Returned(CouldntGenerateProjects), o.disk)
            else if env.openFails then (Returned(CouldntOpenVSSolution), o.disk)
            else (Succeeded, o.disk)
  }

  /** The whole generator run. */
  method Run(fs: FileSystem, args: seq<string>, env: Env) returns (st: Status)
    modifies fs
    ensures (st, fs.State()) == RunOutcome(args, env, fs.Permissions(), old(fs.State()))
  {
    if |args| <= 1 || args[1] == "--help" {
      return Returned(ShowHelpMessage);
    }
    if env.gitMissing {
      return Returned(GitMissing);
    }
    if env.ghMissing {
      return Returned(GitHubCLIMissing);
    }
    var parsed := ParseOptions(args);
    if parsed.Err? {
      return Returned(parsed.error);
    }
    var opts, name := parsed.value, args[1];
    var pd := opts.directory + [name];
    var taken := fs.Exists(pd);
    if taken || env.statFails {
      return Returned(ProjectDirectoryAlreadyExists);
    }
    var created := fs.CreateDirectories(pd);
    if !created {
      return Returned(CouldntCreateDirectory);
    }
    if env.repoCreateFails {
      return Returned(CouldntCreateRepository);
    }
    if env.cloneFails {
      return Returned(CouldntCloneRepository);
    }
    fs.Clone(pd, Template(env, opts.useOLC));
    st := Instantiate(fs, pd, name, opts.useOLC);
    if st != Succeeded {
      return;
    }
    if env.commitFails {
      return Returned(CouldntCommitToRepository);
    }
    if env.generateFails {
      return Returned(CouldntGenerateProjects);
    }
    if env.openFails {
      return Returned(CouldntOpenVSSolution);
    }
    return Succeeded;
  }

  /** The project directory a command line names, if its options parse. */
  function ProjectDirectory(args: seq<string>): (r: Option<Path>)
    requires |args| > 1
    ensures r.Some? <==> ParseFrom(args, 2, DefaultOptions).Ok?
    ensures r.Some? ==> |r.value| > 0 && r.value[|r.value| - 1] == args[1]
    ensures r.Some? ==> r.value[..|r.value| - 1] == ParseFrom(args, 2, DefaultOptions).value.directory
  {
    var parsed := ParseFrom(args, 2, DefaultOptions);
    if parsed.Ok? then Some(parsed.value.directory + [args[1]]) else None
  }

  /** A run never changes a file outside the project directory, however
      far it gets. */
  lemma RunKeepsOutside(args: seq<string>, env: Env, a: Access, d: Disk, p: Path)
    requires |args| > 1
    requires ProjectDirectory(args).Some? ==> !(ProjectDirectory(args).value <= p)
    ensures SameFileAt(d, RunOutcome(args, env, a, d).1, p)
  {
    var parsed := ParseFrom(args, 2, DefaultOptions);
    if args[1] != "--help" && !env.gitMissing && !env.ghMissing && parsed.Ok? {
      var pd, olc := parsed.value.directory + [args[1]], parsed.value.useOLC;
      var created := Disks.CreateDirectories(d, pd);
      if created.Some? {
        assert created.value.1.files == d.files;
      }
      if !Present(d, pd) && !env.statFails && created.Some? && created.value.0 && !env.repoCreateFails && !env.cloneFails {
        var cloned := Graft(created.value.1, pd, Template(env, olc));
        assert SameFileAt(d, cloned, p);
        var o := Exec(a, cloned, Plan(pd, args[1], olc));
        assert RunOutcome(args, env, a, d).1 == o.disk;
        PlanKeepsOutside(a, cloned, pd, args[1], olc, p);
      }
    }
  }

  /** The statuses of the steps before the clone. */
  predicate BeforeClone(st: Status) {
    st in {Returned(ShowHelpMessage), Returned(GitMissing), Returned(GitHubCLIMissing),
           Returned(DirectoryArgMissing), Returned(ProjectDirectoryAlreadyExists),
           Returned(CouldntCreateDirectory), Returned(CouldntCreateRepository),
           Returned(CouldntCloneRepository)}
  }

  /** A run that stops before the clone changes no file. */
  lemma EarlyStopKeepsFiles(args: seq<string>, env: Env, a: Access, d: Disk)
    requires BeforeClone(RunOutcome(args, env, a, d).0)
    ensures RunOutcome(args, env, a, d).1.files == d.files
  {
  }

  /** No program argument, or `--help` first, asks for the usage text and
      changes nothing. */
  lemma HelpRequested(args: seq<string>, env: Env, a: Access, d: Disk)
    requires |args| <= 1 || args[1] == "--help"
    ensures RunOutcome(args, env, a, d) == (Returned(ShowHelpMessage), d)
  {
  }

  /** A project directory whose creation fails is reported and nothing is
      changed. */
  lemma UncreatableProjectDirectory(args: seq<string>, env: Env, a: Access, d: Disk)
    requires |args| > 1 && args[1] != "--help" && !env.gitMissing && !env.ghMissing && !env.statFails
    requires ProjectDirectory(args).Some? && !Present(d, ProjectDirectory(args).value)
    requires Disks.CreateDirectories(d, ProjectDirectory(args).value).None?
    ensures RunOutcome(args, env, a, d) == (Returned(CouldntCreateDirectory), d)
  {
  }

  /** A project directory that already exists is reported and left alone. */
  lemma ExistingProjectUntouched(args: seq<string>, env: Env, a: Access, d: Disk)
    requires |args| > 1 && args[1] != "--help" && !env.gitMissing && !env.ghMissing
    requires ProjectDirectory(args).Some? && Present(d, ProjectDirectory(args).value)
    ensures RunOutcome(args, env, a, d) == (Returned(ProjectDirectoryAlreadyExists), d)
  {
  }

  /** A successful run got past every check and command, cloned the
      chosen template into the new project directory and carried out every
      stage of the plan; the disk it leaves is the plan's result. */
  lemma SuccessfulRun(args: seq<string>, env: Env, a: Access, d: Disk)
    requires RunOutcome(args, env, a, d).0 == Succeeded
    ensures |args| > 1 && ProjectDirectory(args).Some?
    ensures var pd := ProjectDirectory(args).value;
      var opts := ParseFrom(args, 2, DefaultOptions).value;
      && !Present(d, pd)
      && Disks.CreateDirectories(d, pd).Some?
      && var cloned := Graft(Disks.CreateDirectories(d, pd).value.1, pd, Template(env, opts.useOLC));
         var o := Exec(a, cloned, Plan(pd, args[1], opts.useOLC));
         o.status == Succeeded && RunOutcome(args, env, a, d).1 == o.disk
  {
  }

  /** After a successful run with ProjectTemplate, the project's README.md
      is the template's README.md with its first "ProjectTemplate"
      replaced by the project name (for a project not itself named
      README.md). */
  lemma StandardRunInstantiatesReadme(args: seq<string>, env: Env, a: Access, d: Disk)
    requires RunOutcome(args, env, a, d).0 == Succeeded
    requires |args| > 1 && args[1] != ReadmeMd
    requires [ReadmeMd] in env.projectTemplate.files
    requires ProjectDirectory(args).Some? && !ParseFrom(args, 2, DefaultOptions).value.useOLC
    ensures var readme := ProjectDirectory(args).value + [ReadmeMd];
      var result := RunOutcome(args, env, a, d).1;
      && readme in result.files
      && ReplaceFirst(env.projectTemplate.files[[ReadmeMd]], Text(ProjectTemplate), args[1]) == Some(result.files[readme])
  {
    SuccessfulRun(args, env, a, d);
    var pd := ProjectDirectory(args).value;
    var cloned := Graft(Disks.CreateDirectories(d, pd).value.1, pd, env.projectTemplate);
    assert cloned.files[pd + [ReadmeMd]] == env.projectTemplate.files[[ReadmeMd]];
    StandardPlanInstantiatesReadme(a, cloned, pd, args[1]);
  }

  /** After a successful run with OLCTemplate, the project's header
      `<name>/src/HeaderName(name)` is the template's
      `__PROJECT_NAME__/src/OLCTemplate.h` with every "OLCTemplate"
      replaced by the project name. */
  lemma OlcRunInstantiatesHeader(args: seq<string>, env: Env, a: Access, d: Disk)
    requires RunOutcome(args, env, a, d).0 == Succeeded
    requires |args| > 1
    requires [Text(ProjectName), "src", "OLCTemplate.h"] in env.olcTemplate.files
    requires ProjectDirectory(args).Some? && ParseFrom(args, 2, DefaultOptions).value.useOLC
    ensures var header := ProjectDirectory(args).value + [args[1], "src", HeaderName(args[1])];
      var result := RunOutcome(args, env, a, d).1;
      && header in result.files
      && result.files[header] == ReplacedAll(env.olcTemplate.files[[Text(ProjectName), "src", "OLCTemplate.h"]], Text(OLCTemplate), args[1])
  {
    SuccessfulRun(args, env, a, d);
    var pd := ProjectDirectory(args).value;
    var cloned := Graft(Disks.CreateDirectories(d, pd).value.1, pd, env.olcTemplate);
    var inTemplate := [Text(ProjectName), "src", "OLCTemplate.h"];
    assert pd + inTemplate == pd + [Text(ProjectName), "src", "OLCTemplate.h"];
    assert cloned.files[pd + inTemplate] == env.olcTemplate.files[inTemplate];
    OlcPlanInstantiatesHeader(a, cloned, pd, args[1]);
    assert pd + [args[1], "src", HeaderName(args[1])] == ProjectDirectory(args).value + [args[1], "src", HeaderName(args[1])];
  }
}
