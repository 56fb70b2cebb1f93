/**
 * What `upload_to_s3` promises, proved about the `Upload` specification:
 * parts follow the chunk plan in order, completion comes only after every
 * part, a URL is handed back only after completion, and every failure inside
 * the `try` ends in a cancel.
 */
module UploadFacts {

  import opened Wrappers
  import opened Chunking
  import opened S3Upload

  /** Steps that send no part. */
  predicate NoParts(steps: seq<UploadStep>)
  {
    forall i :: 0 <= i < |steps| ==> !steps[i].UploadPart?
  }

  lemma {:induction false} PartsSentOfNoParts(steps: seq<UploadStep>)
    requires NoParts(steps)
    ensures PartsSent(steps) == []
    decreases |steps|
  {
    if steps != [] {
      PartsSentOfNoParts(steps[..|steps| - 1]);
    }
  }

  /** The steps sent before the first part carry neither a part nor a completion. */
  lemma OpeningShape(bucket: string, dump: LocalDump)
    ensures NoParts(Opening(bucket, dump)) && Complete !in Opening(bucket, dump)
    ensures PartsSent(Opening(bucket, dump)) == []
  {
    PartsSentOfNoParts(Opening(bucket, dump));
  }

  /** `head` followed by the calls for `parts` and then by steps that send no part sends exactly `parts`. */
  lemma PartsSentOfSandwich(head: seq<UploadStep>, parts: seq<Part>, tail: seq<UploadStep>)
    requires NoParts(head) && NoParts(tail)
    ensures PartsSent(head + PartCalls(parts) + tail) == parts
  {
    PartsSentAppend(head + PartCalls(parts), tail);
    PartsSentAppend(head, PartCalls(parts));
    PartsSentOfNoParts(head);
    PartsSentOfNoParts(tail);
    PartsSentOfPartCalls(parts);
  }

  /** Inside the `try` block the parts sent are a prefix of `plan`. */
  lemma TransferFollowsPlan(s: Storage, bucket: string, key: string, plan: seq<Part>, head: seq<UploadStep>)
    requires NoParts(head)
    ensures var sent := PartsSent(Transfer(s, bucket, key, plan, head).steps);
      |sent| <= |plan| && sent == plan[..|sent|]
  {
    var k := FirstFailure(s.partOk, |plan|, 0);
    if k < |plan| {
      PartsSentOfSandwich(head, plan[..k + 1], [Cancel]);
    } else {
      assert plan[..|plan|] == plan;
      var tail := [Complete, Presign(bucket, key, UrlExpiry)];
      if !s.completeOk {
        assert head + PartCalls(plan) + [Complete] + [Cancel] == head + PartCalls(plan) + [Complete, Cancel];
        PartsSentOfSandwich(head, plan, [Complete, Cancel]);
      } else if s.presigned.None? {
        assert head + PartCalls(plan) + tail + [Cancel] == head + PartCalls(plan) + (tail + [Cancel]);
        PartsSentOfSandwich(head, plan, tail + [Cancel]);
      } else {
        PartsSentOfSandwich(head, plan, tail);
      }
    }
  }

  /** The parts of a multipart upload are always a prefix of the chunk plan, in plan order. */
  lemma PartsFollowPlan(s: Storage, bucket: string, dump: LocalDump)
    ensures var sent := PartsSent(Upload(s, bucket, dump).steps);
      var plan := Plan(UploadTarget(dump).size);
      |sent| <= |plan| && sent == plan[..|sent|]
  {
    OpeningShape(bucket, dump);
    if s.connects && s.bucketOk && s.initiateOk {
      var t := UploadTarget(dump);
      TransferFollowsPlan(s, bucket, t.name, Plan(t.size), Opening(bucket, dump));
    }
  }

  /** Inside the `try` block the URL comes back exactly when every part, the completion and the pre-signing return normally. */
  lemma TransferSucceedsIff(s: Storage, bucket: string, key: string, plan: seq<Part>, head: seq<UploadStep>, url: string)
    ensures Transfer(s, bucket, key, plan, head).result == Returned(Some(url)) <==>
      (forall n :: 1 <= n <= |plan| ==> s.partOk(n)) && s.completeOk && s.presigned == Some(url)
  {
    if forall n :: 1 <= n <= |plan| ==> s.partOk(n) {
      TransferAllSent(s, bucket, key, plan, head);
    }
  }

  /**
   * `upload_to_s3` hands back `url` exactly when the connection, get_bucket,
   * the initiation, every planned part, the completion and the pre-signing all
   * succeed and the pre-signed URL is `url`; any failure yields None or an exception.
   */
  lemma UrlIffEverythingSucceeds(s: Storage, bucket: string, dump: LocalDump, url: string)
    ensures Upload(s, bucket, dump).result == Returned(Some(url)) <==>
      s.connects && s.bucketOk && s.initiateOk &&
      (forall n :: 1 <= n <= |Plan(UploadTarget(dump).size)| ==> s.partOk(n)) &&
      s.completeOk && s.presigned == Some(url)
  {
    if s.connects && s.bucketOk && s.initiateOk {
      var t := UploadTarget(dump);
      TransferSucceedsIff(s, bucket, t.name, Plan(t.size), Opening(bucket, dump), url);
    }
  }

  /** Inside the `try` block an exception escapes exactly when something fails and the cancel raises too. */
  lemma TransferRaisesIff(s: Storage, bucket: string, key: string, plan: seq<Part>, head: seq<UploadStep>)
    ensures Transfer(s, bucket, key, plan, head).result == Raised <==>
      !s.cancelOk && (!(forall n :: 1 <= n <= |plan| ==> s.partOk(n)) || !s.completeOk || s.presigned.None?)
  {
    if forall n :: 1 <= n <= |plan| ==> s.partOk(n) {
      TransferAllSent(s, bucket, key, plan, head);
    }
  }

  /**
   * `upload_to_s3` raises exactly when get_bucket or the initiation fails, which
   * sit outside the `try`, or when something inside the `try` fails and the
   * cancel raises as well.
   */
  lemma UploadRaisesIff(s: Storage, bucket: string, dump: LocalDump)
    ensures Upload(s, bucket, dump).result == Raised <==>
      s.connects &&
      (!s.bucketOk || !s.initiateOk ||
       (!s.cancelOk &&
        (!(forall n :: 1 <= n <= |Plan(UploadTarget(dump).size)| ==> s.partOk(n)) || !s.completeOk || s.presigned.None?)))
  {
    if s.connects && s.bucketOk && s.initiateOk {
      var t := UploadTarget(dump);
      TransferRaisesIff(s, bucket, t.name, Plan(t.size), Opening(bucket, dump));
    }
  }

  /**
   * A failing get_bucket or initiation escapes as an exception: nothing is
   * cancelled and no part is sent.
   */
  lemma OpeningFailureRaises(s: Storage, bucket: string, dump: LocalDump)
    requires s.connects && (!s.bucketOk || !s.initiateOk)
    ensures Upload(s, bucket, dump).result == Raised
    ensures Cancel !in Upload(s, bucket, dump).steps && Complete !in Upload(s, bucket, dump).steps
    ensures PartsSent(Upload(s, bucket, dump).steps) == []
  {
    OpeningShape(bucket, dump);
    var steps := Upload(s, bucket, dump).steps;
    if s.bucketOk {
      var t := UploadTarget(dump);
      var compressing: seq<UploadStep> := if dump.size > CompressThreshold then [Compress(dump.name, t.name)] else [];
      assert steps == [GetBucket(bucket)] + compressing + [Initiate(Basename(t.name))];
      assert Cancel !in compressing;
    } else {
      assert steps == [GetBucket(bucket)];
      PartsSentOfNoParts(steps);
    }
  }

  /** Inside the `try` block a URL comes back only after every part, the completion and the pre-signing. */
  lemma TransferUrl(s: Storage, bucket: string, key: string, plan: seq<Part>, head: seq<UploadStep>, url: string)
    requires NoParts(head) && Cancel !in head
    requires Transfer(s, bucket, key, plan, head).result == Returned(Some(url))
    ensures var steps := Transfer(s, bucket, key, plan, head).steps;
      s.presigned == Some(url) &&
      steps == head + PartCalls(plan) + [Complete, Presign(bucket, key, UrlExpiry)] &&
      PartsSent(steps) == plan &&
      Cancel !in steps
  {
    TransferSucceedsIff(s, bucket, key, plan, head, url);
    TransferAllSent(s, bucket, key, plan, head);
    var tail := [Complete, Presign(bucket, key, UrlExpiry)];
    var steps := head + PartCalls(plan) + tail;
    assert Transfer(s, bucket, key, plan, head).steps == steps;
    PartsSentOfSandwich(head, plan, tail);
    forall i | 0 <= i < |steps|
      ensures steps[i] != Cancel
    {
      if i < |head| {
        assert steps[i] == head[i];
      } else if i < |head| + |plan| {
        assert steps[i] == PartCalls(plan)[i - |head|];
      } else {
        assert steps[i] == tail[i - |head| - |plan|];
      }
    }
  }

  /**
   * A URL comes back only when every planned part was sent in order, the upload
   * and every part upload and the completion returned normally, the URL is the
   * pre-signed one for the uploaded name with a 24-hour lifetime, and nothing
   * was cancelled.
   */
  lemma UrlOnlyAfterEveryPart(s: Storage, bucket: string, dump: LocalDump, url: string)
    requires Upload(s, bucket, dump).result == Returned(Some(url))
    ensures var u := Upload(s, bucket, dump);
      var t := UploadTarget(dump);
      s.presigned == Some(url) &&
      PartsSent(u.steps) == Plan(t.size) &&
      u.steps == Opening(bucket, dump) + PartCalls(Plan(t.size)) + [Complete, Presign(bucket, t.name, UrlExpiry)] &&
      Cancel !in u.steps
    ensures (forall n :: 1 <= n <= |Plan(UploadTarget(dump).size)| ==> s.partOk(n)) && s.completeOk
  {
    var t := UploadTarget(dump);
    var plan := Plan(t.size);
    assert (forall n :: 1 <= n <= |plan| ==> s.partOk(n)) && s.completeOk by {
      UrlIffEverythingSucceeds(s, bucket, dump, url);
    }
    OpeningShape(bucket, dump);
    TransferUrl(s, bucket, t.name, plan, Opening(bucket, dump), url);
  }

  /** Inside the `try` block a completion is preceded by every part of `plan`, each of which returned normally. */
  lemma TransferCompletes(s: Storage, bucket: string, key: string, plan: seq<Part>, head: seq<UploadStep>, i: nat)
    requires NoParts(head) && Complete !in head
    requires i < |Transfer(s, bucket, key, plan, head).steps|
    requires Transfer(s, bucket, key, plan, head).steps[i] == Complete
    ensures PartsSent(Transfer(s, bucket, key, plan, head).steps[..i]) == plan
    ensures forall n :: 1 <= n <= |plan| ==> s.partOk(n)
  {
    var steps := Transfer(s, bucket, key, plan, head).steps;
    var k := FirstFailure(s.partOk, |plan|, 0);
    if k < |plan| {
      assert false;
    }
    var sent := head + PartCalls(plan);
    assert steps[..|sent|] == sent;
    assert i == |sent|;
    PartsSentOfSandwich(head, plan, []);
    assert sent + [] == sent;
  }

  /** Whenever completion is attempted, every planned part was sent before it and every part upload returned normally. */
  lemma CompleteOnlyAfterEveryPart(s: Storage, bucket: string, dump: LocalDump, i: nat)
    requires i < |Upload(s, bucket, dump).steps| && Upload(s, bucket, dump).steps[i] == Complete
    ensures PartsSent(Upload(s, bucket, dump).steps[..i]) == Plan(UploadTarget(dump).size)
    ensures forall n :: 1 <= n <= |Plan(UploadTarget(dump).size)| ==> s.partOk(n)
  {
    OpeningShape(bucket, dump);
    var t := UploadTarget(dump);
    TransferCompletes(s, bucket, t.name, Plan(t.size), Opening(bucket, dump), i);
  }

  /**
   * Once the multipart upload is initiated, the run either hands back the
   * pre-signed URL or ends with a cancel; a failed part upload, completion or
   * pre-signing always leads to the cancel. After a cancel the result is None,
   * or an exception when cancelling itself raises.
   */
  lemma FailureCancels(s: Storage, bucket: string, dump: LocalDump)
    requires s.connects && s.bucketOk && s.initiateOk
    ensures var u := Upload(s, bucket, dump);
      |u.steps| > 0 &&
      ((u.result.Returned? && u.result.url.Some?) ||
       (u.steps[|u.steps| - 1] == Cancel && u.result == (if s.cancelOk then Returned(None) else Raised)))
    ensures var u := Upload(s, bucket, dump);
      !(forall n :: 1 <= n <= |Plan(UploadTarget(dump).size)| ==> s.partOk(n)) || !s.completeOk || s.presigned.None? ==>
        u.steps[|u.steps| - 1] == Cancel && u.result == (if s.cancelOk then Returned(None) else Raised)
  {
    var u := Upload(s, bucket, dump);
    if u.result.Returned? && u.result.url.Some? {
      UrlIffEverythingSucceeds(s, bucket, dump, u.result.url.value);
    }
  }

  /** Without a connection nothing is sent and no URL comes back. */
  lemma NoConnectionNoUrl(s: Storage, bucket: string, dump: LocalDump)
    requires !s.connects
    ensures Upload(s, bucket, dump) == UploadRun(Returned(None), [])
  {
  }

  /** With nothing to send, the `try` block goes straight to completion, whether or not it succeeds. */
  lemma TransferNoParts(s: Storage, bucket: string, key: string, head: seq<UploadStep>)
    ensures var steps := Transfer(s, bucket, key, [], head).steps;
      |steps| > |head| && steps[..|head| + 1] == head + [Complete]
  {
    var start := head + PartCalls([]) + [Complete];
    assert start == head + [Complete];
    var presign := Presign(bucket, key, UrlExpiry);
    var tail: seq<UploadStep>;
    if !s.completeOk {
      tail := [Cancel];
    } else {
      assert head + PartCalls([]) + [Complete, presign] == start + [presign];
      if s.presigned.None? {
        tail := [presign, Cancel];
        assert start + [presign] + [Cancel] == start + tail;
      } else {
        tail := [presign];
      }
    }
    assert Transfer(s, bucket, key, [], head).steps == start + tail;
    assert (start + tail)[..|head| + 1] == start;
  }

  lemma OpeningPair(x: UploadStep, y: UploadStep)
    ensures [x] + [] + [y] == [x, y]
  {
  }

  /** An empty dump sends no part: the upload is initiated and completion is attempted directly. */
  lemma EmptyDumpSendsNoPart(s: Storage, bucket: string, dump: LocalDump)
    requires dump.size == 0 && s.connects && s.bucketOk && s.initiateOk
    ensures var u := Upload(s, bucket, dump);
      |u.steps| >= 3 &&
      u.steps[..3] == [GetBucket(bucket), Initiate(Basename(dump.name)), Complete] &&
      PartsSent(u.steps) == []
  {
    var plan := Plan(0);
    assert plan == [];
    var head := Opening(bucket, dump);
    assert UploadTarget(dump).name == dump.name;
    OpeningPair(GetBucket(bucket), Initiate(Basename(dump.name)));
    assert head == [GetBucket(bucket), Initiate(Basename(dump.name))];
    TransferNoParts(s, bucket, dump.name, head);
    PartsFollowPlan(s, bucket, dump);
  }

  /** A name without '/' is its own basename. */
  lemma BasenameOfPlainName(name: string)
    requires '/' !in name
    ensures Basename(name) == name
    decreases |name|
  {
  }

  /**
   * The multipart upload is initiated under `basename(name)` but the URL is
   * signed for `name`; for a dump name without '/' (the `core.<token>` names
   * the script uses) the two keys agree, so the link points at the uploaded object.
   */
  lemma SignedKeyIsUploadedKey(s: Storage, bucket: string, dump: LocalDump, url: string)
    requires '/' !in dump.name
    requires Upload(s, bucket, dump).result == Returned(Some(url))
    ensures Initiate(UploadTarget(dump).name) in Upload(s, bucket, dump).steps
    ensures Presign(bucket, UploadTarget(dump).name, UrlExpiry) in Upload(s, bucket, dump).steps
  {
  }

  /** The `try` block only appends part uploads, completion, pre-signing and cancelling to `head`. */
  lemma TransferExtendsHead(s: Storage, bucket: string, key: string, plan: seq<Part>, head: seq<UploadStep>)
    ensures var steps := Transfer(s, bucket, key, plan, head).steps;
      |head| <= |steps| && steps[..|head|] == head &&
      forall i :: |head| <= i < |steps| ==>
        steps[i].UploadPart? || steps[i] == Complete || steps[i].Presign? || steps[i] == Cancel
  {
  }

  /** The dump is compressed exactly when the bucket was reached and the dump is over 1 MiB. */
  lemma CompressedIffLarge(s: Storage, bucket: string, dump: LocalDump)
    ensures Compress(dump.name, dump.name + ".gz") in Upload(s, bucket, dump).steps
      <==> s.connects && s.bucketOk && dump.size > CompressThreshold
  {
    var steps := Upload(s, bucket, dump).steps;
    var head := Opening(bucket, dump);
    var t := UploadTarget(dump);
    if s.connects && s.bucketOk {
      if s.initiateOk {
        TransferExtendsHead(s, bucket, t.name, Plan(t.size), head);
      }
      assert |head| <= |steps| && steps[..|head|] == head;
      if dump.size > CompressThreshold {
        assert steps[1] == head[1];
      } else {
        forall i | 0 <= i < |steps|
          ensures !steps[i].Compress?
        {
          if i < |head| {
            assert steps[i] == head[i];
          }
        }
      }
    }
  }

  /** The only compressed copy an upload writes is `<name>.gz`. */
  lemma CompressTargets(s: Storage, bucket: string, dump: LocalDump)
    ensures var steps := Upload(s, bucket, dump).steps;
      forall i :: 0 <= i < |steps| && steps[i].Compress? ==> steps[i] == Compress(dump.name, dump.name + ".gz")
  {
    var steps := Upload(s, bucket, dump).steps;
    var head := Opening(bucket, dump);
    var t := UploadTarget(dump);
    if s.connects && s.bucketOk {
      if s.initiateOk {
        TransferExtendsHead(s, bucket, t.name, Plan(t.size), head);
      }
      forall i | 0 <= i < |steps| && steps[i].Compress?
        ensures steps[i] == Compress(dump.name, dump.name + ".gz")
      {
        assert i < |head|;
        assert steps[i] == head[i];
      }
    }
  }
}
