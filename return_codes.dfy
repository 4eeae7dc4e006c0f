/** The program's status codes (the `ReturnCode` enum of src/main.cpp) and
    the way `main` turns the code returned by `Run` into an exit status and
    a message. */
module ReturnCodes {
  import opened Wrappers

  /** `enum ReturnCode : int8_t`: zero is success, positive is "nothing went
      wrong", negative is a failure. */
  datatype ReturnCode =
    | Success
    | ShowHelpMessage
    | GitMissing
    | GitHubCLIMissing
    | DirectoryArgMissing
    | ProjectDirectoryAlreadyExists
    | CouldntCreateDirectory
    | CouldntCreateRepository
    | CouldntCloneRepository
    | CouldntRenameFile
    | CouldntReadFile
    | CouldntWriteFile
    | CouldntCommitToRepository
    | CouldntGenerateProjects
    | CouldntOpenVSSolution

  /** How a step of the program ends: it returns a code, or an edit of a
      file whose expected token is missing throws std::out_of_range from
      std::string::replace, which nothing catches, so the process is
      terminated. */
  datatype Status = Returned(code: ReturnCode) | OutOfRange

  const Succeeded: Status := Returned(Success)

  /** The int8_t value of each enumerator: the failures count up from -0x80. */
  function Value(rc: ReturnCode): int {
    match rc
    case Success => 0
    case ShowHelpMessage => 1
    case GitMissing => -0x80
    case GitHubCLIMissing => -0x7f
    case DirectoryArgMissing => -0x7e
    case ProjectDirectoryAlreadyExists => -0x7d
    case CouldntCreateDirectory => -0x7c
    case CouldntCreateRepository => -0x7b
    case CouldntCloneRepository => -0x7a
    case CouldntRenameFile => -0x79
    case CouldntReadFile => -0x78
    case CouldntWriteFile => -0x77
    case CouldntCommitToRepository => -0x76
    case CouldntGenerateProjects => -0x75
    case CouldntOpenVSSolution => -0x74
  }

  /** The codes that `main` reports as errors. */
  predicate IsFailure(rc: ReturnCode) {
    Value(rc) < 0
  }

  /** Every code fits in an int8_t, and the failures are exactly the
      thirteen codes from GitMissing to CouldntOpenVSSolution. */
  lemma ValueRange(rc: ReturnCode)
    ensures -128 <= Value(rc) <= 127
    ensures IsFailure(rc) <==> Value(GitMissing) <= Value(rc) <= Value(CouldntOpenVSSolution)
    ensures IsFailure(rc) <==> rc != Success && rc != ShowHelpMessage
  {
  }

  /** Distinct codes have distinct values. */
  lemma ValueInjective(a: ReturnCode, b: ReturnCode)
    ensures Value(a) == Value(b) <==> a == b
  {
  }

  /** `errorMessages` in `main`, in enumerator order. */
  const ErrorMessages: seq<string> := [
    "Must have git installed. Get it here: https://git-scm.com/downloads/",
    "Must have GitHub CLI installed. Get it here: https://cli.github.com/",
    "Missing argument for --dir.",
    "A file already exists at the project directory.",
    "Couldn't create project directory.",
    "Couldn't create repository.",
    "Couldn't clone repository.",
    "Couldn't rename file.",
    "Couldn't read file.",
    "Couldn't write file.",
    "Couldn't commit generated changes to the repository.",
    "Couldn't generate projects.",
    "Couldn't open Visual Studio solution."
  ]

  /** `rc - GitMissing`, the index `main` reads the message table at: in
      bounds for every failure code. */
  function MessageIndex(rc: ReturnCode): (i: nat)
    requires IsFailure(rc)
    ensures i < |ErrorMessages|
  {
    Value(rc) - Value(GitMissing)
  }

  /** Each failure has a message of its own: the index is one-to-one and
      the thirteen messages differ pairwise, so the message names the
      failing stage. */
  lemma MessagesAttributable(a: ReturnCode, b: ReturnCode)
    requires IsFailure(a) && IsFailure(b) && a != b
    ensures MessageIndex(a) != MessageIndex(b)
    ensures ErrorMessages[MessageIndex(a)] != ErrorMessages[MessageIndex(b)]
  {
  }

  /** What `main` does with the code `Run` returned. */
  datatype Exit = Exit(status: int, printsUsage: bool, error: Option<string>)

  /** `main` (src/main.cpp:62-99): the help request prints the usage and
      exits with Success; a failure prints its message to the error stream
      and exits with its own (negative) value; Success exits quietly. */
  function MainExit(rc: ReturnCode): (e: Exit)
    ensures e.status == 0 <==> rc == Success || rc == ShowHelpMessage
    ensures e.printsUsage <==> rc == ShowHelpMessage
    ensures e.error.Some? <==> IsFailure(rc)
    ensures IsFailure(rc) ==> e.status < 0 && e.error == Some(ErrorMessages[MessageIndex(rc)])
  {
    if rc == Success then Exit(0, false, None)
    else if rc == ShowHelpMessage then Exit(Value(Success), true, None)
    else Exit(Value(rc), false, Some(ErrorMessages[Value(rc) - Value(GitMissing)]))
  }

  /** The low eight bits of a failure's exit status. */
  lemma ExitByte(rc: ReturnCode)
    requires IsFailure(rc)
    ensures MainExit(rc).status % 256 == Value(rc) + 256
  {
    ValueRange(rc);
  }

  /** On a POSIX system the parent sees the low eight bits of the value
      `main` returns: the failures become 128..140, still one per code and
      never zero. */
  lemma ExitByteAttributable(a: ReturnCode, b: ReturnCode)
    requires IsFailure(a) && IsFailure(b) && a != b
    ensures MainExit(a).status % 256 != MainExit(b).status % 256
    ensures 128 <= MainExit(a).status % 256 <= 140
  {
    ExitByte(a);
    ExitByte(b);
    ValueRange(a);
    ValueInjective(a, b);
  }
}
