/**
 * `slack_reporter.report`: the text posted to the chat channel for one dump,
 * and the fixed channel, bot name and icon it is posted under.
 */
module SlackReport {

  import opened Wrappers

  const Channel := "#my-app_crash_reports"
  const Username := "coredump reporter"
  const IconUrl := "https://upload.wikimedia.org/wikipedia/commons/thumb/1/1a/Skull_Icon_%28Noun_Project%29.svg/891px-Skull_Icon_%28Noun_Project%29.svg.png"

  const Header := "App Crash!\n"
  const UploadFailed := "\nUploading to S3 failed!"
  const DownloadFrom := "\nDownload from "
  const StackHeading := "\n\nStack: \n"

  /** The line that follows the dump name: the link, or the failure phrase when there is no URL. */
  function DownloadLine(url: Option<string>): string
  {
    match url
    case None => UploadFailed
    case Some(u) => DownloadFrom + u
  }

  /** The posted text: header, dump name, download or failure line, stack heading, stack. */
  function Message(name: string, url: Option<string>, stack: string): string
  {
    Header + name + DownloadLine(url) + StackHeading + stack
  }

  /** What a reader of the message learns: the link, if any, and the stack. */
  datatype Report = Report(url: Option<string>, stack: string)

  /** Index of the first newline in `s`, or `|s|` when there is none. */
  function LineEnd(s: string): (e: nat)
    ensures e <= |s|
    ensures '\n' !in s[..e]
    ensures e < |s| ==> s[e] == '\n'
  {
    if s == [] || s[0] == '\n' then 0
    else
      var e := 1 + LineEnd(s[1..]);
      assert s[..e] == [s[0]] + s[1..][..e - 1];
      e
  }

  /**
   * Reads a posted message back, given the dump name: whether the upload
   * failed, the link otherwise, and the stack. None when the text is not of
   * the form `Message` produces.
   */
  function ReadMessage(name: string, m: string): Option<Report>
  {
    var lead := Header + name;
    if lead <= m then ReadBody(m[|lead|..]) else None
  }

  /** Reads what follows the dump name. */
  function ReadBody(rest: string): Option<Report>
  {
    if UploadFailed + StackHeading <= rest then Some(Report(None, rest[|UploadFailed + StackHeading|..]))
    else if DownloadFrom <= rest then ReadLink(rest[|DownloadFrom|..])
    else None
  }

  /** Reads the link up to the end of its line, then the stack. */
  function ReadLink(tail: string): Option<Report>
  {
    var e := LineEnd(tail);
    if StackHeading <= tail[e..] then Some(Report(Some(tail[..e]), tail[e..][|StackHeading|..]))
    else None
  }

  lemma Split(a: string, b: string)
    ensures a <= a + b && (a + b)[|a|..] == b
  {
  }

  lemma Regroup(a: string, b: string, c: string, d: string)
    ensures a + b + c + d == a + (b + (c + d))
  {
  }

  /** A failure message reads back as "no link" with the stack. */
  lemma ReadFailureMessage(name: string, stack: string)
    ensures ReadMessage(name, Message(name, None, stack)) == Some(Report(None, stack))
  {
    var rest := UploadFailed + (StackHeading + stack);
    Regroup(Header + name, UploadFailed, StackHeading, stack);
    ReadAfterLead(name, rest);
    assert rest == UploadFailed + StackHeading + stack;
    Split(UploadFailed + StackHeading, stack);
  }

  /** A link line without a newline reads back as that link with the stack. */
  lemma ReadLinkOf(u: string, stack: string)
    requires '\n' !in u
    ensures ReadLink(u + (StackHeading + stack)) == Some(Report(Some(u), stack))
  {
    var tail := u + (StackHeading + stack);
    var e := LineEnd(tail);
    assert tail[|u|] == '\n';
    Split(u, StackHeading + stack);
    assert tail[..e] == u;
    Split(StackHeading, stack);
  }

  /** Reading starts after the header and the dump name. */
  lemma ReadAfterLead(name: string, rest: string)
    ensures ReadMessage(name, Header + name + rest) == ReadBody(rest)
  {
    Split(Header + name, rest);
  }

  /** A body that starts with the download phrase is read as a link line. */
  lemma ReadBodyOfLink(tail: string)
    ensures ReadBody(DownloadFrom + tail) == ReadLink(tail)
  {
    var rest := DownloadFrom + tail;
    assert !(UploadFailed + StackHeading <= rest) by {
      assert rest[1] == 'D';
    }
    Split(DownloadFrom, tail);
  }

  /** A message with a link reads back as that link with the stack. */
  lemma ReadDownloadMessage(name: string, u: string, stack: string)
    requires '\n' !in u
    ensures ReadMessage(name, Message(name, Some(u), stack)) == Some(Report(Some(u), stack))
  {
    var tail := u + (StackHeading + stack);
    Regroup(Header + name, DownloadFrom + u, StackHeading, stack);
    assert DownloadFrom + u + (StackHeading + stack) == DownloadFrom + tail;
    ReadAfterLead(name, DownloadFrom + tail);
    ReadBodyOfLink(tail);
    ReadLinkOf(u, stack);
  }

  /**
   * The message carries its information without loss: for a link without a
   * newline (a pre-signed URL has none), reading the message back yields the
   * link, or the upload failure, and the stack exactly.
   */
  lemma ReadMessageInverts(name: string, url: Option<string>, stack: string)
    requires url.Some? ==> '\n' !in url.value
    ensures ReadMessage(name, Message(name, url, stack)) == Some(Report(url, stack))
  {
    match url
    case None => ReadFailureMessage(name, stack);
    case Some(u) => ReadDownloadMessage(name, u, stack);
  }

  /** Messages about the same dump differ according to whether the upload failed, whatever the link and stacks. */
  lemma FailureIsVisible(name: string, u: string, stack1: string, stack2: string)
    ensures Message(name, None, stack1) != Message(name, Some(u), stack2)
  {
    var tail := u + (StackHeading + stack2);
    Regroup(Header + name, DownloadFrom + u, StackHeading, stack2);
    assert DownloadFrom + u + (StackHeading + stack2) == DownloadFrom + tail;
    ReadAfterLead(name, DownloadFrom + tail);
    ReadBodyOfLink(tail);
    ReadFailureMessage(name, stack1);
  }
}
