/**
 * `upload_to_s3`: connect, fetch the bucket, compress a dump over 1 MiB,
 * send it as a multipart upload following the chunk plan, and hand back a
 * pre-signed URL, or None when anything inside the upload fails.
 *
 * The storage service is not modelled; each call to it is an abstract
 * outcome recorded in `Storage`, and what the script asks of it is recorded
 * as a sequence of `UploadStep`s.
 */
module S3Upload {

  import opened Wrappers
  import opened Chunking

  /** Files larger than this (1 MiB) are compressed before upload; the comparison is strict. */
  const CompressThreshold: nat := 1024 * 1024

  /** Lifetime of the pre-signed URL in seconds: 24 hours. */
  const UrlExpiry: nat := 3600 * 24

  /** The local dump: its name, its size, and the size its gzip copy would have. */
  datatype LocalDump = LocalDump(name: string, size: nat, gzSize: nat)

  /** What the storage service answers to each call. */
  datatype Storage = Storage(
    connects: bool,            // boto.connect_s3() returned a connection
    bucketOk: bool,            // get_bucket returned normally
    initiateOk: bool,          // initiate_multipart_upload returned normally
    partOk: nat -> bool,       // opening and uploading the part with this number returned normally
    completeOk: bool,          // complete_upload returned normally
    presigned: Option<string>, // the URL generate_presigned_url returns; None when it raises
    cancelOk: bool)            // cancel_upload returned normally

  /** One thing the upload asks of the storage service or of the local disk, in order. */
  datatype UploadStep =
    | GetBucket(bucket: string)
    | Compress(source: string, target: string)
    | Initiate(key: string)
    | UploadPart(part: Part)
    | Complete
    | Presign(bucket: string, key: string, expiresIn: nat)
    | Cancel

  /** How `upload_to_s3` ends: it returns a URL or None, or an exception escapes it. */
  datatype UploadResult = Returned(url: Option<string>) | Raised

  datatype UploadRun = UploadRun(result: UploadResult, steps: seq<UploadStep>)

  /** The file actually sent and its size. */
  datatype Target = Target(name: string, size: nat)

  /** The compression decision: over 1 MiB the `.gz` copy and its size replace the dump. */
  function UploadTarget(dump: LocalDump): (t: Target)
    ensures t.name == dump.name <==> dump.size <= CompressThreshold
    ensures dump.size <= CompressThreshold ==> t.size == dump.size
    ensures dump.size > CompressThreshold ==>
      |t.name| == |dump.name| + 3 && t.name[..|dump.name|] == dump.name &&
      t.name[|dump.name|..] == ".gz" && t.size == dump.gzSize
  {
    if dump.size > CompressThreshold then Target(dump.name + ".gz", dump.gzSize)
    else Target(dump.name, dump.size)
  }

  /** `os.path.basename`: everything after the last '/'. */
  function Basename(path: string): (b: string)
    ensures |b| <= |path| && b == path[|path| - |b|..]
    ensures '/' !in b
    ensures |b| < |path| ==> path[|path| - |b| - 1] == '/'
  {
    if path == [] || path[|path| - 1] == '/' then []
    else Basename(path[..|path| - 1]) + [path[|path| - 1]]
  }

  /** The 0-based index of the first part, from `from` on, whose upload fails; `count` if none does. */
  function FirstFailure(partOk: nat -> bool, count: nat, from: nat): (k: nat)
    requires from <= count
    ensures from <= k <= count
    ensures forall n :: from < n <= k ==> partOk(n)
    ensures k < count ==> !partOk(k + 1)
    decreases count - from
  {
    if from == count || !partOk(from + 1) then from
    else FirstFailure(partOk, count, from + 1)
  }

  /** The upload calls for `parts`, in order. */
  function PartCalls(parts: seq<Part>): (calls: seq<UploadStep>)
    ensures |calls| == |parts|
    ensures forall i :: 0 <= i < |parts| ==> calls[i] == UploadPart(parts[i])
  {
    if parts == [] then []
    else PartCalls(parts[..|parts| - 1]) + [UploadPart(parts[|parts| - 1])]
  }

  /** The `except` branch: cancel, then return None unless cancelling raises too. */
  function Cancelled(s: Storage, steps: seq<UploadStep>): (u: UploadRun)
  {
    UploadRun(if s.cancelOk then Returned(None) else Raised, steps + [Cancel])
  }

  /** The calls up to and including the multipart initiation. */
  function Opening(bucket: string, dump: LocalDump): seq<UploadStep>
  {
    var t := UploadTarget(dump);
    [GetBucket(bucket)]
    + (if dump.size > CompressThreshold then [Compress(dump.name, t.name)] else [])
    + [Initiate(Basename(t.name))]
  }

  /**
   * The `try` block of `upload_to_s3`, once the multipart upload of `key` is
   * initiated: send `plan` part by part, complete, pre-sign; the first failure
   * cancels.
   */
  function Transfer(s: Storage, bucket: string, key: string, plan: seq<Part>, head: seq<UploadStep>): UploadRun
  {
    var k := FirstFailure(s.partOk, |plan|, 0);
    if k < |plan| then Cancelled(s, head + PartCalls(plan[..k + 1]))
    else if !s.completeOk then Cancelled(s, head + PartCalls(plan) + [Complete])
    else
      var signed := head + PartCalls(plan) + [Complete, Presign(bucket, key, UrlExpiry)];
      if s.presigned.None? then Cancelled(s, signed)
      else UploadRun(Returned(s.presigned), signed)
  }

  /**
   * What `upload_to_s3(bucket, dump.name)` does against storage `s`.
   * get_bucket, compression and initiation sit outside the `try`, so their
   * failures escape; part uploads, completion and pre-signing sit inside it,
   * so their failures cancel the upload.
   */
  function Upload(s: Storage, bucket: string, dump: LocalDump): UploadRun
  {
    if !s.connects then UploadRun(Returned(None), [])
    else if !s.bucketOk then UploadRun(Raised, [GetBucket(bucket)])
    else if !s.initiateOk then UploadRun(Raised, Opening(bucket, dump))
    else
      var t := UploadTarget(dump);
      Transfer(s, bucket, t.name, Plan(t.size), Opening(bucket, dump))
  }

  /** The `try` block when part `i + 1` is the first whose upload fails. */
  lemma TransferPartFails(s: Storage, bucket: string, key: string, plan: seq<Part>, head: seq<UploadStep>, i: nat)
    requires i < |plan| && !s.partOk(i + 1)
    requires forall n :: 0 < n <= i ==> s.partOk(n)
    ensures Transfer(s, bucket, key, plan, head) == Cancelled(s, head + PartCalls(plan[..i]) + [UploadPart(plan[i])])
  {
  }

  /** The `try` block when every part uploads. */
  lemma TransferAllSent(s: Storage, bucket: string, key: string, plan: seq<Part>, head: seq<UploadStep>)
    requires forall n :: 0 < n <= |plan| ==> s.partOk(n)
    ensures FirstFailure(s.partOk, |plan|, 0) == |plan|
  {
  }

  /** The upload as the script runs it, up to the multipart initiation. */
  method UploadToS3(s: Storage, bucketName: string, dump: LocalDump)
    returns (result: UploadResult, steps: seq<UploadStep>)
    ensures UploadRun(result, steps) == Upload(s, bucketName, dump)
  {
    if !s.connects {
      return Returned(None), [];
    }
    if !s.bucketOk {
      return Raised, [GetBucket(bucketName)];
    }
    var fileName, sourceSize := dump.name, dump.size;
    var compressing: seq<UploadStep> := [];
    if sourceSize > CompressThreshold {
      var outfileName := fileName + ".gz";
      compressing := [Compress(fileName, outfileName)];
      fileName := outfileName;
      sourceSize := dump.gzSize;
    }
    var head := [GetBucket(bucketName)] + compressing + [Initiate(Basename(fileName))];
    if !s.initiateOk {
      return Raised, head;
    }
    result, steps := SendParts(s, bucketName, fileName, sourceSize, head);
  }

  /** The `try` block: the chunk loop sends the parts one at a time, then completes and pre-signs. */
  method SendParts(s: Storage, bucketName: string, fileName: string, sourceSize: nat, head: seq<UploadStep>)
    returns (result: UploadResult, steps: seq<UploadStep>)
    ensures UploadRun(result, steps) == Transfer(s, bucketName, fileName, Plan(sourceSize), head)
  {
    ghost var plan := Plan(sourceSize);
    var chunkCount := ChunkCount(sourceSize);
    steps := head;
    var i := 0;
    assert head + PartCalls(plan[..0]) == head;
    while i < chunkCount
      invariant i <= chunkCount
      invariant steps == head + PartCalls(plan[..i])
      invariant forall n :: 0 < n <= i ==> s.partOk(n)
    {
      OffsetInside(sourceSize, i);
      var offset := ChunkSize * i;
      var bytes := Min(ChunkSize, sourceSize - offset);
      assert Part(i + 1, offset, bytes) == plan[i];
      assert plan[..i + 1][..i] == plan[..i];
      steps := steps + [UploadPart(Part(i + 1, offset, bytes))];
      if !s.partOk(i + 1) {
        TransferPartFails(s, bucketName, fileName, plan, head, i);
        return if s.cancelOk then Returned(None) else Raised, steps + [Cancel];
      }
      i := i + 1;
    }
    assert steps == head + PartCalls(plan) by {
      assert plan[..i] == plan;
    }
    TransferAllSent(s, bucketName, fileName, plan, head);
    steps := steps + [Complete];
    if !s.completeOk {
      return if s.cancelOk then Returned(None) else Raised, steps + [Cancel];
    }
    steps := steps + [Presign(bucketName, fileName, UrlExpiry)];
    if s.presigned.None? {
      return if s.cancelOk then Returned(None) else Raised, steps + [Cancel];
    }
    result := Returned(s.presigned);
  }

  /** The parts a sequence of steps sends, in order. */
  function PartsSent(steps: seq<UploadStep>): seq<Part>
  {
    if steps == [] then []
    else
      var last := steps[|steps| - 1];
      PartsSent(steps[..|steps| - 1]) + (if last.UploadPart? then [last.part] else [])
  }

  lemma {:induction false} PartsSentAppend(a: seq<UploadStep>, b: seq<UploadStep>)
    ensures PartsSent(a + b) == PartsSent(a) + PartsSent(b)
    decreases |b|
  {
    if b != [] {
      var b' := b[..|b| - 1];
      assert (a + b)[..|a + b| - 1] == a + b';
      PartsSentAppend(a, b');
    } else {
      assert a + b == a;
    }
  }

  lemma {:induction false} PartsSentOfPartCalls(parts: seq<Part>)
    ensures PartsSent(PartCalls(parts)) == parts
    decreases |parts|
  {
    if parts != [] {
      var init := parts[..|parts| - 1];
      assert PartCalls(parts) == PartCalls(init) + [UploadPart(parts[|parts| - 1])];
      PartsSentAppend(PartCalls(init), [UploadPart(parts[|parts| - 1])]);
      PartsSentOfPartCalls(init);
      assert PartsSent([UploadPart(parts[|parts| - 1])]) == [parts[|parts| - 1]];
    }
  }
}
