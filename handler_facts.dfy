/**
 * What the `__main__` block promises, proved about `Handle`: the guards stop
 * the run before anything is touched, the dump is named after the core token,
 * a notification goes out even when the backtrace or the upload failed, and
 * the dump is removed only after the notification returned, so any exception
 * leaves it on disk.
 */
module HandlerFacts {

  import opened Wrappers
  import opened S3Upload
  import opened UploadFacts
  import opened SlackReport
  import opened CrashHandler

  /** Both guards passed and neither chdir nor the privilege drop raised. */
  predicate PastGuards(argv: seq<string>, h: Host)
  {
    |argv| == 3 && argv[2] != AbortSignal && h.chdirOk && h.dropOk
  }

  /** The upload the main path performs. */
  function DumpUpload(argv: seq<string>, h: Host): UploadRun
    requires |argv| == 3
  {
    Upload(h.storage, Bucket, LocalDump(DumpFileName(argv[1]), h.dumpSize, h.gzSize))
  }

  /** The main path asks for chdir, the drop, the dump, gdb and the upload, then only posts and the unlink. */
  lemma MainPathEffects(token: string, h: Host)
    ensures var effects := MainPath(token, h).effects;
      var file := DumpFileName(token);
      |effects| >= 5 &&
      effects[..5] == [Chdir, DropPrivileges, WriteDump(file), RunDebugger(DebuggerCommand(file)), UploadDump(Bucket, file)] &&
      forall i :: 5 <= i < |effects| ==> effects[i].PostMessage? || effects[i] == Unlink(file)
  {
  }

  /** Wrong arity: print usage and nothing else. */
  lemma WrongArityPrintsUsage(argv: seq<string>, h: Host)
    requires |argv| != 3
    ensures Handle(argv, h) == Outcome(UsageExit, [PrintUsage], {})
  {
  }

  /**
   * A run is ignored exactly when it has two arguments and the signal is the
   * string "6"; an ignored run asks for nothing and leaves nothing.
   */
  lemma AbortSignalIgnored(argv: seq<string>, h: Host)
    ensures Handle(argv, h).exit == AbortIgnored <==> |argv| == 3 && argv[2] == AbortSignal
    ensures Handle(argv, h).exit == AbortIgnored ==> Handle(argv, h).effects == [] && Handle(argv, h).leftOnDisk == {}
  {
  }

  /**
   * The dump is written, the debugger run, the upload attempted, only past both
   * guards, the chdir and the privilege drop; the dump is `core.<token>`.
   */
  lemma DumpWrittenOnlyPastGuards(argv: seq<string>, h: Host, e: Effect)
    requires e in Handle(argv, h).effects
    requires e.WriteDump? || e.RunDebugger? || e.UploadDump? || e.PostMessage? || e.Unlink?
    ensures PastGuards(argv, h)
    ensures e.WriteDump? ==> e.file == "core." + argv[1]
    ensures e.RunDebugger? ==> e.command == DebuggerCommand(DumpFileName(argv[1]))
    ensures e.UploadDump? ==> e == UploadDump(Bucket, DumpFileName(argv[1]))
  {
    var effects := Handle(argv, h).effects;
    if PastGuards(argv, h) {
      MainPathEffects(argv[1], h);
      var i :| 0 <= i < |effects| && effects[i] == e;
      if i < 5 {
        assert effects[i] == effects[..5][i];
      }
    }
  }

  /** The dump is unlinked only right after a notification that returned normally. */
  lemma UnlinkOnlyAfterPost(argv: seq<string>, h: Host, i: nat)
    requires i < |Handle(argv, h).effects| && Handle(argv, h).effects[i].Unlink?
    ensures PastGuards(argv, h) && h.postOk
    ensures i > 0 && Handle(argv, h).effects[i - 1].PostMessage?
  {
  }

  /** The compressed copies of the main path: `core.<token>.gz` when it was written, nothing otherwise. */
  lemma CopiesOfDumpUpload(argv: seq<string>, h: Host)
    requires |argv| == 3
    ensures CompressedCopies(DumpUpload(argv, h).steps) ==
      if h.storage.connects && h.storage.bucketOk && h.dumpSize > CompressThreshold
      then {DumpFileName(argv[1]) + ".gz"} else {}
  {
    var file := DumpFileName(argv[1]);
    var dump := LocalDump(file, h.dumpSize, h.gzSize);
    CompressTargets(h.storage, Bucket, dump);
    CompressedIffLarge(h.storage, Bucket, dump);
    var steps := DumpUpload(argv, h).steps;
    if h.storage.connects && h.storage.bucketOk && h.dumpSize > CompressThreshold {
      var i :| 0 <= i < |steps| && steps[i] == Compress(file, file + ".gz");
      assert file + ".gz" in CompressedCopies(steps);
    }
  }

  /**
   * Past the guards, the dump stays on disk exactly when the run ends in an
   * internal error: the upload raised, the post raised, or the unlink raised.
   */
  lemma DumpKeptIffException(argv: seq<string>, h: Host)
    requires PastGuards(argv, h)
    ensures var o := Handle(argv, h);
      (DumpFileName(argv[1]) in o.leftOnDisk <==> o.exit == InternalError) &&
      (o.exit == Reported <==> !DumpUpload(argv, h).result.Raised? && h.postOk && h.unlinkOk) &&
      (o.exit == Reported || o.exit == InternalError)
  {
    CopiesOfDumpUpload(argv, h);
    var file := DumpFileName(argv[1]);
    assert file != file + ".gz" by {
      assert |file + ".gz"| == |file| + 3;
    }
  }

  /**
   * A dump over 1 MiB that reached the bucket leaves its `.gz` copy behind,
   * even after a fully successful run.
   */
  lemma CompressedCopyRemains(argv: seq<string>, h: Host)
    requires PastGuards(argv, h)
    requires h.storage.connects && h.storage.bucketOk && h.dumpSize > CompressThreshold
    ensures DumpFileName(argv[1]) + ".gz" in Handle(argv, h).leftOnDisk
  {
    CopiesOfDumpUpload(argv, h);
  }

  /**
   * Unless the upload raised, a notification is posted to the fixed channel,
   * and reading it back gives the upload's URL (or its failure) and gdb's
   * output, or "No stack" when gdb failed.
   */
  lemma NotificationCarriesOutcome(argv: seq<string>, h: Host, url: Option<string>)
    requires PastGuards(argv, h)
    requires DumpUpload(argv, h).result == Returned(url)
    requires url.Some? ==> '\n' !in url.value
    ensures var effects := Handle(argv, h).effects;
      exists i :: (0 <= i < |effects| && effects[i].PostMessage? && effects[i].channel == Channel &&
        ReadMessage(DumpFileName(argv[1]), effects[i].text)
          == Some(Report(url, if h.debuggerOutput.None? then NoStack else h.debuggerOutput.value)))
  {
    var file := DumpFileName(argv[1]);
    var stack := Backtrace(h.debuggerOutput);
    ReadMessageInverts(file, url, stack);
    var o := Handle(argv, h);
    assert o.effects[5] == PostMessage(Channel, Username, IconUrl, Message(file, url, stack));
  }

  /**
   * A notification is posted exactly when the upload did not raise: an
   * exception from the upload skips both the post and the unlink.
   */
  lemma PostIffUploadReturned(argv: seq<string>, h: Host)
    requires PastGuards(argv, h)
    ensures var effects := Handle(argv, h).effects;
      DumpUpload(argv, h).result.Raised? <==> forall i :: 0 <= i < |effects| ==> !effects[i].PostMessage?
    ensures var effects := Handle(argv, h).effects;
      DumpUpload(argv, h).result.Raised? ==> forall i :: 0 <= i < |effects| ==> !effects[i].Unlink?
  {
    var effects := Handle(argv, h).effects;
    MainPathEffects(argv[1], h);
    if DumpUpload(argv, h).result.Raised? {
      assert |effects| == 5;
      forall i | 0 <= i < |effects|
        ensures !effects[i].PostMessage? && !effects[i].Unlink?
      {
        assert effects[i] == effects[..5][i];
      }
    } else {
      assert effects[5].PostMessage?;
    }
  }

  /** With no storage connection the run still posts, with the failure phrase, and removes the dump. */
  lemma NoConnectionStillReports(argv: seq<string>, h: Host)
    requires PastGuards(argv, h) && !h.storage.connects && h.postOk && h.unlinkOk
    ensures var o := Handle(argv, h);
      var file := DumpFileName(argv[1]);
      o.exit == Reported && o.leftOnDisk == {} &&
      PostMessage(Channel, Username, IconUrl, Message(file, None, Backtrace(h.debuggerOutput))) in o.effects
  {
    NoConnectionNoUrl(h.storage, Bucket, LocalDump(DumpFileName(argv[1]), h.dumpSize, h.gzSize));
    var o := Handle(argv, h);
    assert CompressedCopies([]) == {};
    assert o.effects[5] == PostMessage(Channel, Username, IconUrl, Message(DumpFileName(argv[1]), None, Backtrace(h.debuggerOutput)));
  }
}
