# ProjectGenerator: template instantiation, modelled in Dafny

ProjectGenerator is a command-line tool that starts a new C++ project from
one of two GitHub template repositories: ProjectTemplate, or OLCTemplate
with `--olc`. It is invoked as `ProjectGenerator <ProjectName> [--dir d]
[--public] [--olc]`. Step by step, it:

1. checks that git and the GitHub CLI are installed;
2. parses its options;
3. creates `<dir>/<ProjectName>`;
4. creates the repository from the template and clones it there;
5. turns the template's placeholders into the project's name: it renames
   `__PROJECT_NAME__` and `Build__PROJECT_NAME__.lua`, edits the Lua build
   scripts and README.md, and for OLCTemplate renames `OLCTemplate.h/.cpp`;
6. commits, generates the projects and opens the solution.

Every step ends in a `ReturnCode`. The first failure ends the run, and
`main` prints the failure's message.

This project models steps 2 to 5 and `main`'s handling of the code. It
proves what the code guarantees about them. The modules follow the source:

- `Substitution` (substitution.dfy) covers text search and replacement:
  - `std::string::find`, the inline first-occurrence replaces, and
    `ReplaceAll`;
  - `ReplaceAll` is an imperative method with a loop, proved equal to the
    specification function `ReplacedAll`;
  - `ReplacedAll` is characterised as leftmost, non-overlapping
    replacement: cut the text at the occurrences (`Split`) and join the
    pieces with the replacement.
- `ReturnCodes` (return_codes.dfy) holds the `ReturnCode` enumeration with
  its `int8_t` values, the message table, and `main`'s exit behaviour.
- `Disks` (disk.dfy) is the filesystem as a value: files with their text,
  and directories. It holds the parts of `std::filesystem` the run uses,
  each with its error conditions: `exists`, `create_directories`,
  `rename` and `replace_extension`. A clone is modelled as grafting the
  template's tree.
- `Files` (file_system.dfy) is the process's view of the filesystem. It
  is a class whose fields the stream and filesystem calls update in place.
- `Pipeline` (pipeline.dfy) describes the renames and edits of `Run` as
  data (`Plan`), gives their meaning (`Step`) and runs them fail-fast
  (`Exec`).
- `Generator` (generator.dfy) holds the rest of the driver:
  - the option loop;
  - `EditFile`;
  - the OLC edit loop;
  - the straight-line instantiation;
  - `Run`, proved against its specification `RunOutcome`.

Several behaviours of the code are modelled as written:

- A token missing from a file makes `find` return `npos`, and then
  `std::string::replace` throws `std::out_of_range`. Nothing catches it, so
  the process ends. This is the status `OutOfRange`; it is not a
  precondition.
- `--dir` is accepted only when at least one more argument follows its
  value (src/main.cpp:130). `--dir path` as the last two arguments
  reports `DirectoryArgMissing` (`DirAsLastOptionIsMissing`).
- The header and source are renamed with `replace_extension`. A project
  name that already has an extension (`my.app`) gives `my.h` and `my.cpp`.
- `ReplaceAll` resumes its search after the inserted text. The result is
  the leftmost, non-overlapping replacement of the ORIGINAL occurrences, so
  the token can still occur afterwards where a replacement joins its
  neighbours: `ReplacedAll("aabb", "ab", "") == "ab"`
  (`ReplacedAllMayLeaveToken`). The guarantee that no occurrence remains
  does not hold in general.

## Model

| member | source | states |
|---|---|---|
| `Substitution.IndexOfLeftmost` | ProjectGenerator/src/main.cpp:298 | `find` returns the leftmost occurrence of the token (nothing before it matches), and `npos` exactly when the token does not occur |
| `Substitution.FindLeftmost` | ProjectGenerator/src/main.cpp:303 | `find(t, pos)` returns the first occurrence at or after `pos`, and `npos` when there is none from `pos` on |
| `Substitution.ReplaceFirstLeftmost` | ProjectGenerator/src/main.cpp:191 | the inline `replace(find(tok), size, name)`, also at lines 199, 209 and 239: it fails (throws) exactly when the token is absent; otherwise it replaces the leftmost occurrence by the name, and the text before and after it is kept |
| `Substitution.SplitJoin` | ProjectGenerator/src/main.cpp:296-305 | cutting a text at its leftmost non-overlapping occurrences of the token gives pieces that rejoin to the text, with no occurrence inside a piece or in the last piece |
| `Substitution.ReplacedAllIsJoin` | ProjectGenerator/src/main.cpp:296-305 | for ANY decomposition of the text into pieces separated at leftmost non-overlapping occurrences, ReplaceAll's result is the pieces joined by the replacement |
| `Substitution.ReplacedAllSplit` | ProjectGenerator/src/main.cpp:296-305 | ReplaceAll's result is the text's occurrence-free pieces joined by the replacement |
| `Substitution.ReplacedAllAbsent` | ProjectGenerator/src/main.cpp:298-299 | a text without the token is left unchanged |
| `Substitution.ReplacedAllIdentity` | ProjectGenerator/src/main.cpp:296-305 | replacing the token by itself changes nothing |
| `Substitution.ReplacedAllOfToken` | ProjectGenerator/src/main.cpp:301-303 | the search resumes after the inserted text, so replacing a text that is just the token yields the replacement even when the replacement contains the token (no rescan, no endless loop) |
| `Substitution.ReplacedAllMayLeaveToken` | ProjectGenerator/src/main.cpp:296-305 | an occurrence formed across a replacement's boundary survives: "aabb" with "ab" removed is "ab" |
| `Substitution.ReplaceAllStep` | ProjectGenerator/src/main.cpp:301-303 | one iteration (replace at the found offset, move past the replacement, search again) keeps the loop's result equal to the specification's |
| `Substitution.ReplaceAll` | ProjectGenerator/src/main.cpp:296-305 | the in-place loop, for a non-empty replacee, terminates (the unsearched rest shrinks) and produces exactly `ReplacedAll` |
| `ReturnCodes.ValueRange` | ProjectGenerator/src/main.cpp:33-58 | every code fits `int8_t`; the failures are exactly the codes from GitMissing (-128) to CouldntOpenVSSolution (-116), i.e. all but Success and ShowHelpMessage |
| `ReturnCodes.ValueInjective` | ProjectGenerator/src/main.cpp:45-57 | the implicit enumerator numbering gives distinct codes distinct values |
| `ReturnCodes.MessageIndex` | ProjectGenerator/src/main.cpp:95 | `rc - GitMissing` is an index inside the 13-entry message table for every failure |
| `ReturnCodes.MessagesAttributable` | ProjectGenerator/src/main.cpp:79-95 | two different failures read different entries, and the entries differ |
| `ReturnCodes.MainExit` | ProjectGenerator/src/main.cpp:62-99 | ShowHelpMessage prints the usage and exits 0; a failure prints its own message and exits with its negative value; Success exits 0 silently |
| `ReturnCodes.ExitByteAttributable` | ProjectGenerator/src/main.cpp:98 | the exit status a POSIX parent sees is 128..140 for the failures, one per code, never 0 |
| `ReturnCodes.ExitByte` | ProjectGenerator/src/main.cpp:98 | `return rc` of a failure, seen by a POSIX parent as an exit byte, is the code's value plus 256 |
| `Disks.RenameCarries` | ProjectGenerator/src/main.cpp:177 | a successful rename moves every file at or below the source, with its text, to the same place below the target |
| `Disks.RenameKeepsOthers` | ProjectGenerator/src/main.cpp:184 | a rename leaves every file outside its source and target as it was |
| `Disks.Graft` | ProjectGenerator/src/main.cpp:166-172 | a clone puts every template file, with its text, below the project directory and changes nothing outside it |
| `Disks.LastDot` | ProjectGenerator/src/main.cpp:229 | finds the last '.' of a file name, or reports that there is none |
| `Disks.Stem` | ProjectGenerator/src/main.cpp:229 | the stem is a non-empty prefix of a non-empty file name |
| `Disks.ReplaceExtension` | ProjectGenerator/src/main.cpp:229 | `replace_extension(ext)` yields a name ending in "." + ext |
| `Disks.ReplaceExtensionPlain` | ProjectGenerator/src/main.cpp:228-229 | a project name without a '.' just gets ".h" appended |
| `Disks.ReplaceExtensionTwice` | ProjectGenerator/src/main.cpp:229-231 | replacing the extension of the already changed name again gives the name's stem with the new extension |
| `Files.FileSystem.Read` | ProjectGenerator/src/main.cpp:274-282 | opening for reading succeeds exactly for a readable regular file, and yields its whole text |
| `Files.FileSystem.Write` | ProjectGenerator/src/main.cpp:286-291 | opening for writing succeeds exactly for a writable file; then that file's text is replaced and nothing else changes (a write after the open is assumed not to fail); on failure nothing changes |
| `Files.FileSystem.Exists` | ProjectGenerator/src/main.cpp:146 | `exists` is true for a file or a directory at the path |
| `Files.FileSystem.CreateDirectories` | ProjectGenerator/src/main.cpp:149 | fails when a regular file is in the way; otherwise adds every missing directory on the path and reports whether the path itself was created |
| `Files.FileSystem.Rename` | ProjectGenerator/src/main.cpp:177-178 | `rename` sets `error` exactly when `Disks.Rename` refuses, and then changes nothing |
| `Files.FileSystem.Clone` | ProjectGenerator/src/main.cpp:166-172 | the clone grafts the template's tree below the project directory |
| `Pipeline.Text` | ProjectGenerator/src/main.cpp:101-104 | every placeholder token is non-empty, so every ReplaceAll in the run terminates |
| `Pipeline.StepFailureKeepsDisk` | ProjectGenerator/src/main.cpp:177-211 | a rename or edit that fails has changed nothing |
| `Pipeline.Exec` | ProjectGenerator/src/main.cpp:174-242 | the run attempts at most all stages; it reports success only after all of them; its status is always one a stage can produce |
| `Pipeline.ExecAppend` | ProjectGenerator/src/main.cpp:174-242 | running two stage lists one after the other is running the second only if the first succeeded |
| `Pipeline.ExecFailFast` | ProjectGenerator/src/main.cpp:174-242 | on failure, all stages before the failing one succeeded, the failing stage's status is the result, and it left the disk as it found it |
| `Pipeline.ExecLeavesUntouched` | ProjectGenerator/src/main.cpp:174-242 | a file that no attempted stage touches is unchanged, so no stage after a failure has any effect |
| `Pipeline.ExecTwoRenames` | ProjectGenerator/src/main.cpp:177-184 | two renames in a row succeed only if each `rename` succeeds on the disk the previous one left, and the result is the second rename's disk |
| `Pipeline.RenamesCarryBuildScript` | ProjectGenerator/src/main.cpp:177-192 | the renames come before the edits: once both succeed, the build script that is edited holds the template's `__PROJECT_NAME__/Build__PROJECT_NAME__.lua` |
| `Pipeline.PlanWithin` | ProjectGenerator/src/main.cpp:174-242 | every path the stages rename or edit lies below the project directory |
| `Pipeline.PlanKeepsOutside` | ProjectGenerator/src/main.cpp:174-242 | however far the stages get, no file outside the project directory changes |
| `Pipeline.StandardPlanInstantiatesReadme` | ProjectGenerator/src/main.cpp:236-241 | after all ProjectTemplate stages succeed, README.md is its former text with the first "ProjectTemplate" replaced by the project name |
| `Pipeline.ApplyOlc` | ProjectGenerator/src/main.cpp:313-316 | the OLC edit's callback replaces every "OLCTemplate" |
| `Pipeline.OlcEditsReplaceAll` | ProjectGenerator/src/main.cpp:307-319 | when every edit succeeds on distinct files, each listed file has all its "OLCTemplate" replaced, and no other file changed |
| `Pipeline.OlcEditsStopEarly` | ProjectGenerator/src/main.cpp:310 | when an edit fails, the files after it in the list are as they were |
| `Pipeline.OlcFilesDistinct` | ProjectGenerator/src/main.cpp:219-224 | the four files of the OLC edit list are distinct |
| `Pipeline.CommonStagesCarrySource` | ProjectGenerator/src/main.cpp:177-211 | after the common stages, the template's `__PROJECT_NAME__/src` files sit, unchanged, below `<name>/src` |
| `Pipeline.OlcRenamesCarryHeader` | ProjectGenerator/src/main.cpp:228-232 | the two OLC renames move `OLCTemplate.h` to the header's new name with its text |
| `Pipeline.OlcBranchInstantiatesHeader` | ProjectGenerator/src/main.cpp:213-232 | when the OLC branch succeeds, the renamed header holds the text `src/OLCTemplate.h` had before the branch with every "OLCTemplate" replaced |
| `Pipeline.HeaderOutsideSourceRename` | ProjectGenerator/src/main.cpp:229-231 | renaming the `.cpp` file never touches the renamed header |
| `Pipeline.OlcPlanInstantiatesHeader` | ProjectGenerator/src/main.cpp:213-232 | after all OLCTemplate stages succeed, the renamed header holds the template header with every "OLCTemplate" replaced: moved, edited, then renamed |
| `Generator.ParseFrom` | ProjectGenerator/src/main.cpp:124-141 | options fail only with ShowHelpMessage (some argument is not an option) or DirectoryArgMissing (a `--dir` is present); flags are only set by their option and never cleared; arguments that are all `--public`/`--olc` always parse |
| `Generator.ParseOptions` | ProjectGenerator/src/main.cpp:124-141 | the `argi` loop computes `ParseFrom` from the third argument with the defaults |
| `Generator.DirAsLastOptionIsMissing` | ProjectGenerator/src/main.cpp:130-133 | `--dir work` as the last two arguments reports DirectoryArgMissing; with an argument after it, the directory is taken |
| `Generator.DirWithoutTwoMoreIsMissing` | ProjectGenerator/src/main.cpp:128-133 | after flag options only, a `--dir` not followed by two more arguments always gives DirectoryArgMissing |
| `Generator.UnknownOptionShowsHelp` | ProjectGenerator/src/main.cpp:139-140 | after flag options only, an argument that is none of `--dir`, `--public`, `--olc` always gives ShowHelpMessage |
| `Generator.EditFile` | ProjectGenerator/src/main.cpp:272-294 | unreadable gives CouldntReadFile; a throwing callback ends the run; unwritable gives CouldntWriteFile; none of these writes; otherwise the file holds the callback's result, assuming the write after the open does not fail |
| `Generator.EditedKeepsOthers` | ProjectGenerator/src/main.cpp:272-294 | an edit changes no other file and no directory |
| `Generator.ReplaceOLCTemplateWithProjectNameInFiles` | ProjectGenerator/src/main.cpp:307-319 | the loop edits the files in list order, stops at the first failure and returns it: exactly `Exec` of the OLC edits |
| `Generator.RenameProjectFiles` | ProjectGenerator/src/main.cpp:174-185 | the two renames with their early returns are `Exec` of `ProjectRenames` |
| `Generator.EditBuildScripts` | ProjectGenerator/src/main.cpp:187-211 | the three build-script edits with their early returns are `Exec` of `BuildScriptEdits` |
| `Generator.InstantiateCommon` | ProjectGenerator/src/main.cpp:174-211 | the two renames and three edits, with early returns, are `Exec` of the common stages |
| `Generator.InstantiateTemplate` | ProjectGenerator/src/main.cpp:213-242 | the OLC branch (edit loop and two renames) or the README edit is `Exec` of the template stages |
| `Generator.Instantiate` | ProjectGenerator/src/main.cpp:174-242 | the whole straight-line instantiation is `Exec` of `Plan` |
| `Generator.Run` | ProjectGenerator/src/main.cpp:110-270 | the run's status and final filesystem are those of `RunOutcome` |
| `Generator.ProjectDirectory` | ProjectGenerator/src/main.cpp:143 | there is a project directory exactly when the options parse; it is the parsed `--dir` value (the root by default) with the project name appended |
| `Generator.RunKeepsOutside` | ProjectGenerator/src/main.cpp:143-242 | a run never changes a file outside the project directory, however far it gets |
| `Generator.EarlyStopKeepsFiles` | ProjectGenerator/src/main.cpp:112-172 | a run that stops before the clone changes no file |
| `Generator.HelpRequested` | ProjectGenerator/src/main.cpp:112-113 | no project name, or `--help`, gives ShowHelpMessage and changes nothing |
| `Generator.UncreatableProjectDirectory` | ProjectGenerator/src/main.cpp:149-150 | a failing `create_directories` gives CouldntCreateDirectory and changes nothing |
| `Generator.ExistingProjectUntouched` | ProjectGenerator/src/main.cpp:146-147 | an existing project directory gives ProjectDirectoryAlreadyExists and the disk is left as it was |
| `Generator.SuccessfulRun` | ProjectGenerator/src/main.cpp:110-270 | success means the project directory was new and was created, the template was cloned into it, every stage succeeded, and the disk is the stages' result |
| `Generator.StandardRunInstantiatesReadme` | ProjectGenerator/src/main.cpp:236-241 | after a successful ProjectTemplate run, README.md is the template's with its first "ProjectTemplate" replaced by the project name |
| `Generator.OlcRunInstantiatesHeader` | ProjectGenerator/src/main.cpp:213-232 | after a successful OLCTemplate run, the renamed header is the template header with every "OLCTemplate" replaced by the project name |

## Left out

- The external commands are not executed. They are the git and GitHub
  CLI probes, `gh repo create`, `gh repo clone`, the commit and push,
  `GenerateProjects.bat` and opening the solution. Each is an oracle
  boolean in `Generator.Env`. A successful clone is the template tree given
  in `Env`, grafted below the project directory. The model assumes that
  the commit and the later commands change no modelled file. In the
  program they do: `GenerateProjects.bat` (src/main.cpp:253-254) writes
  project files below the project directory. Those files and the `.git`
  metadata are not modelled.
- The command strings, the two-second sleep, the `current_path` changes,
  and the console output are not modelled. The console output is the usage
  text and the message printing; the message choice is modelled.
- The `PRINT_ONLY` and `CONFIG_*` macros and the Windows settings are not
  modelled. The default directory is the root, as on non-Windows systems.
- Generator.Run: when there are no arguments at all (`argc == 0`), `main`
  prints the usage with a null `argv[0]`. This is not modelled.
- Stream modes are not modelled. A file's content is its whole text, read
  and written as is. The difference between text-mode reading and binary
  writing (line endings) is not modelled.
- Paths are sequences of components:
  - the `--dir` value and the project name are each one component;
  - `/` inside them, `.`/`..` and absolute project names are not
    normalised;
  - relative paths are not resolved against the working directory.
- Disks.Rename: replacing an existing empty directory is reported as an
  error, where POSIX `rename` succeeds. The rename targets lie inside the
  cloned template, and a git clone holds no empty directories, so this
  does not arise with a real clone. The template trees in `Generator.Env`
  are not constrained this way, so on a template with an empty directory
  at a rename target `RunOutcome` reports CouldntRenameFile where the
  program would go on.
- Disks.CreateDirectories: only a regular file in the way is an error.
  Permission errors, and directories created before such an error, are not
  modelled.
- Files.FileSystem.Read: a directory path is simply not readable. The
  permission failures of reading and writing are the fixed sets
  `unreadable` and `unwritable`.
- A clone that fails part-way, leaving files behind, is not modelled.
- Generator.EditFile: the write is all-or-nothing in the model, but the
  program checks only that the output stream opened (src/main.cpp:286-288).
  Opening it has already truncated the file, and `outFile << file` and
  `close()` are not checked (lines 290-291). A write that fails after the
  open (disk full, I/O error) still returns Success and leaves a truncated
  file. The model does not capture this, so its promise that a successful
  edit leaves the callback's result in the file holds only when no such
  late write failure occurs.
- Files.FileSystem.Write: the same late write failure is not modelled; a
  write to an opened file always stores the whole text.
- Generator.EditFile: the callbacks passed to it use the specification
  function `ReplacedAll`; they do not call the `ReplaceAll` method. That
  method is proved to compute exactly `ReplacedAll`.
- Substitution.ReplaceAll: requires a non-empty replacee. With an empty one
  the source's loop never ends; every caller passes a non-empty constant
  (`Pipeline.Text`).
- `replacer.data()` passes the replacement as a NUL-terminated string. The
  model assumes it has no embedded NUL, which holds for the `argv` strings
  the run passes.
- Strings are sequences of characters, with no encoding.
- The `isPublic` option only selects a command-line flag of
  `gh repo create`.
- The process termination caused by `std::out_of_range` is the status
  `OutOfRange`. What the C++ runtime then prints and returns is not
  modelled.
