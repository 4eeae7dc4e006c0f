/** The template instantiation stages of `Run` (src/main.cpp:174-242) as
    data: the renames and file edits in the order the program performs
    them, their meaning on a disk, and fail-fast execution. */
module Pipeline {
  import opened Wrappers
  import opened Substitution
  import opened ReturnCodes
  import opened Disks

  /** The placeholder tokens (src/main.cpp:101-104). */
  datatype Token = ProjectName | WorkspaceName | ProjectTemplate | OLCTemplate

  function Text(tok: Token): (s: string)
    ensures |s| > 0
  {
    match tok
    case ProjectName => "__PROJECT_NAME__"
    case WorkspaceName => "__WORKSPACE_NAME__"
    case ProjectTemplate => "ProjectTemplate"
    case OLCTemplate => "OLCTemplate"
  }

  /** One substitution inside an edit: the inline first-occurrence replace,
      or ReplaceAll. */
  datatype Subst = First(token: Token) | All(token: Token)

  /** The edits of one EditFile callback, applied in order to the file's
      text with the project name as replacement; None when a
      first-occurrence replace throws. */
  function Apply(edits: seq<Subst>, name: string, s: string): Option<string>
    decreases |edits|
  {
    if edits == [] then Some(s)
    else
      var next := match edits[0]
        case First(tok) => ReplaceFirst(s, Text(tok), name)
        case All(tok) => Some(ReplacedAll(s, Text(tok), name));
      if next.None? then None else Apply(edits[1..], name, next.value)
  }

  /** The callback EditFile receives: the edits as a function of the text. */
  function Editor(edits: seq<Subst>, name: string): string -> Option<string> {
    text => Apply(edits, name, text)
  }

  /** A stage of the instantiation: a `std::filesystem::rename` (Move), or
      an EditFile whose callback performs `edits` with the project name. */
  datatype Stage =
    | Move(from: Path, to: Path)
    | Edit(path: Path, edits: seq<Subst>, name: string)

  /** EditFile (src/main.cpp:272-294) on a disk, given the callback: a file
      that cannot be opened for reading gives CouldntReadFile, a callback
      that throws ends the process, a file that cannot be opened for
      writing gives CouldntWriteFile; in all three cases nothing is
      written. Otherwise the file's text is replaced by the callback's
      result. */
  function Edited(a: Access, d: Disk, path: Path, edit: string -> Option<string>): (Status, Disk) {
    if !Readable(a, d, path) then (Returned(CouldntReadFile), d)
    else
      var edited := edit(d.files[path]);
      if edited.None? then (OutOfRange, d)
      else if path in a.unwritable then (Returned(CouldntWriteFile), d)
      else (Succeeded, d.(files := d.files[path := edited.value]))
  }

  /** The status and the new disk of one stage; a failed rename is
      CouldntRenameFile. */
  function Step(a: Access, d: Disk, s: Stage): (Status, Disk) {
    match s
    case Move(from, to) =>
      var r := Disks.Rename(d, from, to);
      if r.None? then (Returned(CouldntRenameFile), d) else (Succeeded, r.value)
    case Edit(path, edits, name) =>
      Edited(a, d, path, Editor(edits, name))
  }

  /** The statuses a stage can end with. */
  predicate StageStatus(st: Status) {
    st in {Succeeded, OutOfRange, Returned(CouldntRenameFile), Returned(CouldntReadFile), Returned(CouldntWriteFile)}
  }

  /** A stage that fails changes nothing. */
  lemma StepFailureKeepsDisk(a: Access, d: Disk, s: Stage)
    requires Step(a, d, s).0 != Succeeded
    ensures Step(a, d, s).1 == d
  {
  }

  /** What running stages in order produced: the status, the disk, and how
      many stages were attempted. */
  datatype Outcome = Outcome(status: Status, disk: Disk, attempted: nat)

  /** Run the stages in order; the first stage that does not succeed ends
      the run with its status. */
  function Exec(a: Access, d: Disk, stages: seq<Stage>): (o: Outcome)
    ensures o.attempted <= |stages|
    ensures o.status == Succeeded ==> o.attempted == |stages|
    ensures o.status != Succeeded ==> o.attempted >= 1
    ensures StageStatus(o.status)
    decreases |stages|
  {
    if stages == [] then Outcome(Succeeded, d, 0)
    else
      var (status, next) := Step(a, d, stages[0]);
      if status != Succeeded then Outcome(status, next, 1)
      else
        var rest := Exec(a, next, stages[1..]);
        Outcome(rest.status, rest.disk, rest.attempted + 1)
  }

  /** Running `s1 + s2` is running `s1` and, only if that succeeded,
      running `s2` from where `s1` left the disk. */
  lemma {:induction false} ExecAppend(a: Access, d: Disk, s1: seq<Stage>, s2: seq<Stage>)
    ensures var o1 := Exec(a, d, s1);
      Exec(a, d, s1 + s2) ==
        if o1.status != Succeeded then o1
        else var o2 := Exec(a, o1.disk, s2); Outcome(o2.status, o2.disk, |s1| + o2.attempted)
    decreases |s1|
  {
    if s1 == [] {
      assert s1 + s2 == s2;
    } else {
      assert (s1 + s2)[0] == s1[0];
      assert (s1 + s2)[1..] == s1[1..] + s2;
      var step := Step(a, d, s1[0]);
      if step.0 == Succeeded {
        ExecAppend(a, step.1, s1[1..], s2);
      }
    }
  }

  /** The outcome of a run that first got through `n` stages. */
  function StepsAfter(o: Outcome, n: nat): (r: Outcome)
    ensures r.status == o.status && r.disk == o.disk
  {
    o.(attempted := o.attempted + n)
  }

  /** Fail-fast: when a run fails, every stage before the failing one
      succeeded, the failing stage's own status is the result, it left the
      disk as it found it, and no later stage ran. */
  lemma {:induction false} ExecFailFast(a: Access, d: Disk, stages: seq<Stage>)
    requires Exec(a, d, stages).status != Succeeded
    ensures var o := Exec(a, d, stages);
      var before := Exec(a, d, stages[..o.attempted - 1]);
      && before.status == Succeeded
      && before.disk == o.disk
      && Step(a, o.disk, stages[o.attempted - 1]) == (o.status, o.disk)
    decreases |stages|
  {
    var o, step := Exec(a, d, stages), Step(a, d, stages[0]);
    if step.0 == Succeeded {
      var tail := stages[1..];
      var rest := Exec(a, step.1, tail);
      assert o == StepsAfter(rest, 1);
      ExecFailFast(a, step.1, tail);
      var k := rest.attempted;
      var prefix := stages[..k];
      assert prefix[0] == stages[0] && prefix[1..] == tail[..k - 1];
      var inner := Exec(a, step.1, tail[..k - 1]);
      assert inner.status == Succeeded && inner.disk == rest.disk;
      assert Exec(a, d, prefix) == StepsAfter(inner, 1);
      assert stages[k] == tail[k - 1];
    } else {
      StepFailureKeepsDisk(a, d, stages[0]);
      assert o == Outcome(step.0, d, 1);
      assert stages[..0] == [];
    }
  }


  /** Whether a stage may change the file at `p`. */
  predicate Touches(s: Stage, p: Path) {
    match s
    case Move(from, to) => from <= p || to <= p
    case Edit(path, _, _) => path == p
  }

  /** A file that none of the attempted stages touches is as it was: in
      particular a failure at stage k leaves every file that only later
      stages would touch unmodified. */
  lemma {:induction false} ExecLeavesUntouched(a: Access, d: Disk, stages: seq<Stage>, p: Path)
    requires forall j :: 0 <= j < Exec(a, d, stages).attempted ==> !Touches(stages[j], p)
    ensures SameFileAt(d, Exec(a, d, stages).disk, p)
    decreases |stages|
  {
    if stages != [] {
      var s := stages[0];
      assert !Touches(s, p);
      var (status, next) := Step(a, d, s);
      if s.Move? && status == Succeeded {
        RenameKeepsOthers(d, s.from, s.to, p);
      }
      if status == Succeeded {
        forall j | 0 <= j < Exec(a, next, stages[1..]).attempted
          ensures !Touches(stages[1..][j], p)
        {
          assert stages[1..][j] == stages[j + 1];
        }
        ExecLeavesUntouched(a, next, stages[1..], p);
      }
    }
  }

  /** The file names the stages use. */
  const BuildAllLua := "BuildAll.lua"
  const BuildDependenciesLua := "BuildDependencies.lua"
  const ReadmeMd := "README.md"

  function BuildScript(name: string): string {
    "Build" + name + ".lua"
  }

  /** The renames of the project directory and its build script
      (src/main.cpp:174-185), for the project directory `pd` and the
      project name `name`. */
  function ProjectRenames(pd: Path, name: string): seq<Stage> {
    var inner := pd + [name];
    [ Move(pd + [Text(ProjectName)], inner),
      Move(inner + [BuildScript(Text(ProjectName))], inner + [BuildScript(name)]) ]
  }

  /** The edits of the renamed build script, BuildAll.lua and
      BuildDependencies.lua (src/main.cpp:187-211). */
  function BuildScriptEdits(pd: Path, name: string): seq<Stage> {
    [ Edit(pd + [name, BuildScript(name)], [First(ProjectName)], name),
      Edit(pd + [BuildAllLua], [First(WorkspaceName), All(ProjectName)], name),
      Edit(pd + [BuildDependenciesLua], [First(ProjectName)], name) ]
  }

  /** The stages common to both templates (src/main.cpp:174-211): rename
      the inner project directory and its build script, then edit the
      build script, BuildAll.lua and BuildDependencies.lua. */
  function CommonStages(pd: Path, name: string): seq<Stage> {
    ProjectRenames(pd, name) + BuildScriptEdits(pd, name)
  }

  /** The files ReplaceOLCTemplateWithProjectNameInFiles edits
      (src/main.cpp:218-225), in list order. */
  function OlcFiles(pd: Path, name: string): seq<Path> {
    var src := pd + [name, "src"];
    [pd + [ReadmeMd], src + ["OLCTemplate.h"], src + ["OLCTemplate.cpp"], src + ["main.cpp"]]
  }

  /** One ReplaceAll("OLCTemplate", name) edit per listed file. */
  function OlcEdits(paths: seq<Path>, name: string): seq<Stage> {
    seq(|paths|, i requires 0 <= i < |paths| => Edit(paths[i], [All(OLCTemplate)], name))
  }

  /** The new names of the template's header and source: `src/<name>`
      with its extension replaced by "h", then that name with its
      extension replaced by "cpp" (`replace_extension` changes the path it
      is called on). */
  function HeaderName(name: string): string {
    ReplaceExtension(name, "h")
  }

  function SourceName(name: string): string {
    ReplaceExtension(HeaderName(name), "cpp")
  }

  /** The header and source renames of the OLC branch (src/main.cpp:228-232). */
  function OlcRenames(pd: Path, name: string): seq<Stage> {
    var src := pd + [name, "src"];
    [ Move(src + ["OLCTemplate.h"], src + [HeaderName(name)]),
      Move(src + ["OLCTemplate.cpp"], src + [SourceName(name)]) ]
  }

  /** The branch after the common stages (src/main.cpp:213-242). */
  function TemplateStages(pd: Path, name: string, olc: bool): seq<Stage> {
    if olc then OlcEdits(OlcFiles(pd, name), name) + OlcRenames(pd, name)
    else [Edit(pd + [ReadmeMd], [First(ProjectTemplate)], name)]
  }

  /** Every stage of the instantiation, in the order `Run` performs them. */
  function Plan(pd: Path, name: string, olc: bool): seq<Stage> {
    CommonStages(pd, name) + TemplateStages(pd, name, olc)
  }

  /** Renames before edits: once the two renames have succeeded, the build
      script the first edit opens holds the text of the template's
      `__PROJECT_NAME__/Build__PROJECT_NAME__.lua`. */
  lemma RenamesCarryBuildScript(a: Access, d: Disk, pd: Path, name: string)
    requires pd + [Text(ProjectName), BuildScript(Text(ProjectName))] in d.files
    requires Exec(a, d, ProjectRenames(pd, name)).status == Succeeded
    ensures var after := Exec(a, d, ProjectRenames(pd, name)).disk;
      && pd + [name, BuildScript(name)] in after.files
      && after.files[pd + [name, BuildScript(name)]] == d.files[pd + [Text(ProjectName), BuildScript(Text(ProjectName))]]
  {
    var renames := ProjectRenames(pd, name);
    var prj, inner := Text(ProjectName), pd + [name];
    var template, moved, script := pd + [prj, BuildScript(prj)], inner + [BuildScript(prj)], inner + [BuildScript(name)];
    assert script == pd + [name, BuildScript(name)];
    ExecTwoRenames(a, d, pd + [prj], inner, moved, script);
    var r1 := Disks.Rename(d, pd + [prj], inner).value;
    RenameCarries(d, pd + [prj], inner, template);
    assert Moved(template, pd + [prj], inner) == moved;
    RenameCarries(r1, moved, script, moved);
    assert Moved(moved, moved, script) == script;
  }


  /** Every path a stage names lies below `root`. */
  predicate Within(s: Stage, root: Path) {
    match s
    case Move(from, to) => root <= from && root <= to
    case Edit(path, _, _) => root <= path
  }

  /** A stage within `root` touches nothing outside it. */
  lemma WithinTouchesInside(s: Stage, root: Path, p: Path)
    requires Within(s, root) && !(root <= p)
    ensures !Touches(s, p)
  {
  }

  /** Every stage of the plan works inside the project directory. */
  lemma PlanWithin(pd: Path, name: string, olc: bool)
    ensures forall j :: 0 <= j < |Plan(pd, name, olc)| ==> Within(Plan(pd, name, olc)[j], pd)
  {
    ProjectRenamesWithin(pd, name);
    BuildScriptEditsWithin(pd, name);
    AllWithinAppend(ProjectRenames(pd, name), BuildScriptEdits(pd, name), pd);
    TemplateStagesWithin(pd, name, olc);
    AllWithinAppend(CommonStages(pd, name), TemplateStages(pd, name, olc), pd);
  }

  /** `root` is a prefix of any path built by appending to it. */
  lemma Below(root: Path, a: seq<string>, b: seq<string>)
    ensures root <= root + a && root <= root + a + b
  {
    assert (root + a)[..|root|] == root;
    assert (root + a + b)[..|root|] == root;
  }

  lemma ProjectRenamesWithin(pd: Path, name: string)
    ensures AllWithin(ProjectRenames(pd, name), pd)
  {
    Below(pd, [Text(ProjectName)], []);
    Below(pd, [name], [BuildScript(Text(ProjectName))]);
    Below(pd, [name], [BuildScript(name)]);
  }

  lemma BuildScriptEditsWithin(pd: Path, name: string)
    ensures AllWithin(BuildScriptEdits(pd, name), pd)
  {
    Below(pd, [name, BuildScript(name)], []);
    Below(pd, [BuildAllLua], []);
    Below(pd, [BuildDependenciesLua], []);
  }

  lemma TemplateStagesWithin(pd: Path, name: string, olc: bool)
    ensures AllWithin(TemplateStages(pd, name, olc), pd)
  {
    if olc {
      OlcEditsWithin(pd, name);
      OlcRenamesWithin(pd, name);
      AllWithinAppend(OlcEdits(OlcFiles(pd, name), name), OlcRenames(pd, name), pd);
    } else {
      Below(pd, [ReadmeMd], []);
    }
  }

  lemma OlcEditsWithin(pd: Path, name: string)
    ensures AllWithin(OlcEdits(OlcFiles(pd, name), name), pd)
  {
    var src, files := [name, "src"], OlcFiles(pd, name);
    Below(pd, [ReadmeMd], []);
    Below(pd, src, ["OLCTemplate.h"]);
    Below(pd, src, ["OLCTemplate.cpp"]);
    Below(pd, src, ["main.cpp"]);
    assert forall i :: 0 <= i < |files| ==> pd <= files[i];
  }

  lemma OlcRenamesWithin(pd: Path, name: string)
    ensures AllWithin(OlcRenames(pd, name), pd)
  {
    var src := [name, "src"];
    Below(pd, src, ["OLCTemplate.h"]);
    Below(pd, src, ["OLCTemplate.cpp"]);
    Below(pd, src, [HeaderName(name)]);
    Below(pd, src, [SourceName(name)]);
  }

  /** Every stage of a list lies within `root`. */
  predicate AllWithin(stages: seq<Stage>, root: Path) {
    forall j :: 0 <= j < |stages| ==> Within(stages[j], root)
  }

  lemma AllWithinAppend(s1: seq<Stage>, s2: seq<Stage>, root: Path)
    requires AllWithin(s1, root) && AllWithin(s2, root)
    ensures AllWithin(s1 + s2, root)
  {
    forall j | 0 <= j < |s1 + s2|
      ensures Within((s1 + s2)[j], root)
    {
      if j >= |s1| {
        assert (s1 + s2)[j] == s2[j - |s1|];
      }
    }
  }


  /** No stage of the plan, whether the run succeeds or stops early,
      changes a file outside the project directory. */
  lemma {:induction false} PlanKeepsOutside(a: Access, d: Disk, pd: Path, name: string, olc: bool, p: Path)
    requires !(pd <= p)
    ensures SameFileAt(d, Exec(a, d, Plan(pd, name, olc)).disk, p)
  {
    var plan := Plan(pd, name, olc);
    PlanWithin(pd, name, olc);
    forall j | 0 <= j < Exec(a, d, plan).attempted
      ensures !Touches(plan[j], p)
    {
      WithinTouchesInside(plan[j], pd, p);
    }
    ExecLeavesUntouched(a, d, plan, p);
  }

  /** When every stage of the ProjectTemplate plan succeeds, README.md is
      its former text with the first "ProjectTemplate" replaced by the
      project name: no earlier stage touches it (unless the project is
      itself named README.md). */
  lemma StandardPlanInstantiatesReadme(a: Access, d: Disk, pd: Path, name: string)
    requires name != ReadmeMd && pd + [ReadmeMd] in d.files
    requires Exec(a, d, Plan(pd, name, false)).status == Succeeded
    ensures var result := Exec(a, d, Plan(pd, name, false)).disk;
      && pd + [ReadmeMd] in result.files
      && ReplaceFirst(d.files[pd + [ReadmeMd]], Text(ProjectTemplate), name) == Some(result.files[pd + [ReadmeMd]])
  {
    var readme := pd + [ReadmeMd];
    var common := CommonStages(pd, name);
    var edit := Edit(readme, [First(ProjectTemplate)], name);
    assert Plan(pd, name, false) == common + [edit];
    ExecAppend(a, d, common, [edit]);
    forall j | 0 <= j < |common|
      ensures !Touches(common[j], readme)
    {
      assert (pd + [Text(ProjectName)])[|pd|] != readme[|pd|];
      assert (pd + [name])[|pd|] != readme[|pd|];
      assert (pd + [BuildAllLua])[|pd|] != readme[|pd|];
      assert (pd + [BuildDependenciesLua])[|pd|] != readme[|pd|];
    }
    ExecLeavesUntouched(a, d, common, readme);
    var text := d.files[readme];
    var first := ReplaceFirst(text, Text(ProjectTemplate), name);
    assert Apply([First(ProjectTemplate)], name, text) == (if first.None? then None else Apply([], name, first.value));
  }

  /** One all-occurrences edit of "OLCTemplate" replaces them all. */
  lemma ApplyOlc(name: string, text: string)
    ensures Apply([All(OLCTemplate)], name, text) == Some(ReplacedAll(text, Text(OLCTemplate), name))
  {
    assert [All(OLCTemplate)][1..] == [];
  }

  /** When every OLC edit succeeds on distinct files, each listed file
      holds its former text with every "OLCTemplate" replaced by the
      project name, and every other file is as it was. */
  lemma {:induction false} OlcEditsReplaceAll(a: Access, d: Disk, paths: seq<Path>, name: string)
    requires forall i, j :: 0 <= i < j < |paths| ==> paths[i] != paths[j]
    requires Exec(a, d, OlcEdits(paths, name)).status == Succeeded
    ensures forall i :: 0 <= i < |paths| ==>
      && paths[i] in d.files
      && paths[i] in Exec(a, d, OlcEdits(paths, name)).disk.files
      && Exec(a, d, OlcEdits(paths, name)).disk.files[paths[i]] == ReplacedAll(d.files[paths[i]], Text(OLCTemplate), name)
    ensures forall p :: p !in paths ==> SameFileAt(d, Exec(a, d, OlcEdits(paths, name)).disk, p)
    decreases |paths|
  {
    if paths != [] {
      var edits := OlcEdits(paths, name);
      ApplyOlc(name, d.files[paths[0]]);
      var d1 := Step(a, d, edits[0]).1;
      assert OlcEdits(paths[1..], name) == edits[1..];
      OlcEditsReplaceAll(a, d1, paths[1..], name);
      var r := Exec(a, d, edits).disk;
      forall i | 0 <= i < |paths|
        ensures paths[i] in d.files && paths[i] in r.files
        ensures r.files[paths[i]] == ReplacedAll(d.files[paths[i]], Text(OLCTemplate), name)
      {
        if i == 0 {
          assert paths[0] !in paths[1..] by {
            forall k | 0 <= k < |paths[1..]|
              ensures paths[1..][k] != paths[0]
            {
              assert paths[1..][k] == paths[k + 1];
            }
          }
        } else {
          assert paths[i] == paths[1..][i - 1];
        }
      }
      forall p | p !in paths
        ensures SameFileAt(d, r, p)
      {
        assert p !in paths[1..] by {
          forall k | 0 <= k < |paths[1..]|
            ensures paths[1..][k] != p
          {
            assert paths[1..][k] == paths[k + 1];
          }
        }
      }
    }
  }

  /** When an OLC edit fails, the files after it in the list are as they
      were. */
  lemma OlcEditsStopEarly(a: Access, d: Disk, paths: seq<Path>, name: string, p: Path)
    requires p !in paths[..Exec(a, d, OlcEdits(paths, name)).attempted]
    ensures SameFileAt(d, Exec(a, d, OlcEdits(paths, name)).disk, p)
  {
    var edits := OlcEdits(paths, name);
    forall j | 0 <= j < Exec(a, d, edits).attempted
      ensures !Touches(edits[j], p)
    {
      assert paths[..Exec(a, d, edits).attempted][j] == paths[j];
    }
    ExecLeavesUntouched(a, d, edits, p);
  }

  /** The four files of the OLC edit list are distinct. */
  lemma OlcFilesDistinct(pd: Path, name: string)
    ensures var files := OlcFiles(pd, name);
      forall i, j :: 0 <= i < j < |files| ==> files[i] != files[j]
  {
    var files := OlcFiles(pd, name);
    var n := |pd| + 2;
    assert |files[0]| == |pd| + 1 && |files[1]| == |files[2]| == |files[3]| == n + 1;
    assert files[1][n] == "OLCTemplate.h" && files[2][n] == "OLCTemplate.cpp" && files[3][n] == "main.cpp";
  }

  /** When the common stages succeed, a file below the template's
      `__PROJECT_NAME__/src` is below `<name>/src` with its text. */
  lemma {:induction false} CommonStagesCarrySource(a: Access, d: Disk, pd: Path, name: string, file: string)
    requires pd + [Text(ProjectName), "src", file] in d.files
    requires Exec(a, d, CommonStages(pd, name)).status == Succeeded
    ensures var result := Exec(a, d, CommonStages(pd, name)).disk;
      && pd + [name, "src", file] in result.files
      && result.files[pd + [name, "src", file]] == d.files[pd + [Text(ProjectName), "src", file]]
  {
    var prj, inner := Text(ProjectName), pd + [name];
    var common := CommonStages(pd, name);
    var q := inner + ["src", file];
    assert q == pd + [name, "src", file];
    var r := Disks.Rename(d, pd + [prj], inner);
    assert common[0] == Move(pd + [prj], inner);
    assert r.Some? && Exec(a, d, common).disk == Exec(a, r.value, common[1..]).disk;
    RenameCarries(d, pd + [prj], inner, pd + [prj, "src", file]);
    assert Moved(pd + [prj, "src", file], pd + [prj], inner) == q;
    SourceUntouchedAfterFirst(pd, name, file);
    ExecLeavesUntouched(a, r.value, common[1..], q);
    assert SameFileAt(r.value, Exec(a, d, common).disk, q);
  }

  /** The common stages after the first do not touch `<name>/src`. */
  lemma SourceUntouchedAfterFirst(pd: Path, name: string, file: string)
    ensures forall j :: 1 <= j < |CommonStages(pd, name)| ==> !Touches(CommonStages(pd, name)[j], pd + [name, "src", file])
    ensures forall j :: 0 <= j < |CommonStages(pd, name)[1..]| ==> !Touches(CommonStages(pd, name)[1..][j], pd + [name, "src", file])
  {
    var prj, inner := Text(ProjectName), pd + [name];
    var q := inner + ["src", file];
    assert |BuildScript(prj)| != |"src"| && |BuildScript(name)| != |"src"|;
    assert (inner + [BuildScript(prj)])[|inner|] != q[|inner|];
    assert (inner + [BuildScript(name)])[|inner|] != q[|inner|];
  }

  /** After every stage of the OLCTemplate plan has succeeded, the header
      `<name>/src/HeaderName(name)` holds the template's
      `__PROJECT_NAME__/src/OLCTemplate.h` with every "OLCTemplate"
      replaced by the project name: the file is moved into place, edited,
      and only then renamed. */
  lemma OlcPlanInstantiatesHeader(a: Access, d: Disk, pd: Path, name: string)
    requires pd + [Text(ProjectName), "src", "OLCTemplate.h"] in d.files
    requires Exec(a, d, Plan(pd, name, true)).status == Succeeded
    ensures var result := Exec(a, d, Plan(pd, name, true)).disk;
      && pd + [name, "src", HeaderName(name)] in result.files
      && result.files[pd + [name, "src", HeaderName(name)]]
         == ReplacedAll(d.files[pd + [Text(ProjectName), "src", "OLCTemplate.h"]], Text(OLCTemplate), name)
  {
    var common, branch := CommonStages(pd, name), TemplateStages(pd, name, true);
    ExecAppend(a, d, common, branch);
    CommonStagesCarrySource(a, d, pd, name, "OLCTemplate.h");
    OlcBranchInstantiatesHeader(a, Exec(a, d, common).disk, pd, name);
  }

  /** The OLCTemplate branch alone: edit `src/OLCTemplate.h`, then rename it. */
  lemma OlcBranchInstantiatesHeader(a: Access, d: Disk, pd: Path, name: string)
    requires pd + [name, "src", "OLCTemplate.h"] in d.files
    requires Exec(a, d, TemplateStages(pd, name, true)).status == Succeeded
    ensures var result := Exec(a, d, TemplateStages(pd, name, true)).disk;
      && pd + [name, "src", HeaderName(name)] in result.files
      && result.files[pd + [name, "src", HeaderName(name)]]
         == ReplacedAll(d.files[pd + [name, "src", "OLCTemplate.h"]], Text(OLCTemplate), name)
  {
    var src, files := pd + [name, "src"], OlcFiles(pd, name);
    var edits, renames := OlcEdits(files, name), OlcRenames(pd, name);
    ExecAppend(a, d, edits, renames);
    assert files[1] == src + ["OLCTemplate.h"] == pd + [name, "src", "OLCTemplate.h"];
    OlcFilesDistinct(pd, name);
    OlcEditsReplaceAll(a, d, files, name);
    OlcRenamesCarryHeader(a, Exec(a, d, edits).disk, pd, name);
  }

  /** The two renames of the OLC branch take `src/OLCTemplate.h` to
      `src/HeaderName(name)` with its text. */
  lemma OlcRenamesCarryHeader(a: Access, d: Disk, pd: Path, name: string)
    requires pd + [name, "src", "OLCTemplate.h"] in d.files
    requires Exec(a, d, OlcRenames(pd, name)).status == Succeeded
    ensures var result := Exec(a, d, OlcRenames(pd, name)).disk;
      && pd + [name, "src", HeaderName(name)] in result.files
      && result.files[pd + [name, "src", HeaderName(name)]] == d.files[pd + [name, "src", "OLCTemplate.h"]]
  {
    var src := pd + [name, "src"];
    var renames := OlcRenames(pd, name);
    var h, hh := src + ["OLCTemplate.h"], src + [HeaderName(name)];
    var c, cc := src + ["OLCTemplate.cpp"], src + [SourceName(name)];
    assert h == pd + [name, "src", "OLCTemplate.h"];
    assert hh == pd + [name, "src", HeaderName(name)];
    assert renames == [Move(h, hh), Move(c, cc)];
    ExecTwoRenames(a, d, h, hh, c, cc);
    var r1 := Disks.Rename(d, h, hh).value;
    RenameCarries(d, h, hh, h);
    assert Moved(h, h, hh) == hh;
    HeaderOutsideSourceRename(src, name);
    RenameKeepsOthers(r1, c, cc, hh);
  }

  /** Two renames in a row that both succeed. */
  lemma ExecTwoRenames(a: Access, d: Disk, f1: Path, t1: Path, f2: Path, t2: Path)
    requires Exec(a, d, [Move(f1, t1), Move(f2, t2)]).status == Succeeded
    ensures Disks.Rename(d, f1, t1).Some?
    ensures var r1 := Disks.Rename(d, f1, t1).value;
      && Disks.Rename(r1, f2, t2).Some?
      && Exec(a, d, [Move(f1, t1), Move(f2, t2)]).disk == Disks.Rename(r1, f2, t2).value
  {
    var stages, rest := [Move(f1, t1), Move(f2, t2)], [Move(f2, t2)];
    assert stages[0] == Move(f1, t1) && stages[1..] == rest;
    var first := Step(a, d, stages[0]);
    assert first.0 == Succeeded;
    assert Exec(a, d, stages) == StepsAfter(Exec(a, first.1, rest), 1);
    assert rest[0] == Move(f2, t2) && rest[1..] == [];
    var second := Step(a, first.1, rest[0]);
    assert second.0 == Succeeded;
    assert Exec(a, first.1, rest) == StepsAfter(Exec(a, second.1, []), 1);
  }

  /** Renaming `OLCTemplate.cpp` does not touch the renamed header: the
      names end in different letters. */
  lemma HeaderOutsideSourceRename(src: Path, name: string)
    ensures !(src + ["OLCTemplate.cpp"] <= src + [HeaderName(name)])
    ensures !(src + [SourceName(name)] <= src + [HeaderName(name)])
  {
    var h, c := HeaderName(name), SourceName(name);
    LastOfExtension(Disks.Stem(name), "h");
    LastOfExtension(Disks.Stem(h), "cpp");
    assert "OLCTemplate.cpp"[14] == 'p';
    LastDiffers(src, "OLCTemplate.cpp", h);
    LastDiffers(src, c, h);
  }

  /** A name with a replaced extension ends with the extension's last
      character. */
  lemma LastOfExtension(stem: string, ext: string)
    requires |ext| > 0
    ensures var r := stem + "." + ext; r[|r| - 1] == ext[|ext| - 1]
  {
  }

  /** Paths of the same depth that differ in their last name are not
      prefixes of one another. */
  lemma LastDiffers(src: Path, u: string, v: string)
    requires |u| > 0 && |v| > 0 && u[|u| - 1] != v[|v| - 1]
    ensures !(src + [u] <= src + [v])
  {
    assert (src + [u])[|src|] == u && (src + [v])[|src|] == v;
  }

}
