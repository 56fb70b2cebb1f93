/**
 * The `__main__` block of handle_crash_reporting.py: the argument and signal
 * guards, then chdir, privilege drop, saving the dump, backtrace, upload,
 * notification and removal of the dump.
 *
 * Every call into the operating system, the debugger, the storage service or
 * the chat service is an abstract outcome in `Host`; the run is described by
 * how it ends, the effects it asked for in order, and the files it leaves.
 */
module CrashHandler {

  import opened Wrappers
  import opened S3Upload
  import opened SlackReport

  const Bucket := "media-server-coredumps"
  const AbortSignal := "6"
  const NoStack := "No stack"
  const DebuggerTarget := "/opt/local/mediaserver/mediaserver"

  /** What the environment answers to each step of the run. */
  datatype Host = Host(
    chdirOk: bool,                 // os.chdir to the script's directory returned normally
    dropOk: bool,                  // drop_privileges (and the os.stat calls feeding it) returned normally
    dumpSize: nat,                 // size of the dump read from standard input
    gzSize: nat,                   // size of its gzip copy
    debuggerOutput: Option<string>, // gdb's standard output; None when check_output raises
    storage: Storage,
    postOk: bool,                  // the chat post returned normally
    unlinkOk: bool)                // os.unlink returned normally

  /** What the script asks of the outside world, in order. */
  datatype Effect =
    | PrintUsage
    | Chdir
    | DropPrivileges
    | WriteDump(file: string)
    | RunDebugger(command: string)
    | UploadDump(bucket: string, file: string)
    | PostMessage(channel: string, username: string, iconUrl: string, text: string)
    | Unlink(file: string)

  /** How the process ends. */
  datatype Exit =
    | UsageExit        // wrong number of arguments
    | AbortIgnored     // signal "6": nothing done
    | ChdirRaised      // os.chdir raised outside any try: the process dies with a traceback
    | DropFailed       // privilege drop raised: logged, exit
    | InternalError    // an exception in the main try block: logged, dump kept
    | Reported         // notification posted and dump removed

  datatype Outcome = Outcome(exit: Exit, effects: seq<Effect>, leftOnDisk: set<string>)

  /** The local dump file for the core token the kernel passes. */
  function DumpFileName(token: string): string
  {
    "core." + token
  }

  function DebuggerCommand(file: string): string
  {
    "gdb -q -n -ex bt -batch " + DebuggerTarget + " " + file
  }

  /** The backtrace: gdb's output, or the sentinel when gdb fails. */
  function Backtrace(debuggerOutput: Option<string>): string
  {
    match debuggerOutput
    case Some(out) => out
    case None => NoStack
  }

  /** The compressed copies an upload wrote; nothing removes them. */
  function CompressedCopies(steps: seq<UploadStep>): set<string>
  {
    set i | 0 <= i < |steps| && steps[i].Compress? :: steps[i].target
  }

  /** The script run with arguments `argv` (argv[0] is the script) against `h`. */
  function Handle(argv: seq<string>, h: Host): Outcome
  {
    if |argv| != 3 then Outcome(UsageExit, [PrintUsage], {})
    else if argv[2] == AbortSignal then Outcome(AbortIgnored, [], {})
    else if !h.chdirOk then Outcome(ChdirRaised, [Chdir], {})
    else if !h.dropOk then Outcome(DropFailed, [Chdir, DropPrivileges], {})
    else MainPath(argv[1], h)
  }

  /** Everything after the privilege drop: the main `try` block and its handler. */
  function MainPath(token: string, h: Host): Outcome
  {
    var file := DumpFileName(token);
    var run := Upload(h.storage, Bucket, LocalDump(file, h.dumpSize, h.gzSize));
    var copies := CompressedCopies(run.steps);
    var started := [Chdir, DropPrivileges, WriteDump(file), RunDebugger(DebuggerCommand(file)), UploadDump(Bucket, file)];
    match run.result
    case Raised => Outcome(InternalError, started, {file} + copies)
    case Returned(url) =>
      var post := PostMessage(Channel, Username, IconUrl, Message(file, url, Backtrace(h.debuggerOutput)));
      if !h.postOk then Outcome(InternalError, started + [post], {file} + copies)
      else if !h.unlinkOk then Outcome(InternalError, started + [post, Unlink(file)], {file} + copies)
      else Outcome(Reported, started + [post, Unlink(file)], copies)
  }
}
