/**
 * The multipart chunk plan of `upload_to_s3`: a file of `size` bytes is sent
 * as consecutive 50 MiB parts, numbered from 1, the last one possibly shorter.
 */
module Chunking {

  /** The fixed part size, 50 MiB. */
  const ChunkSize: nat := 52428800

  /** One part of a multipart upload: its 1-based number and the byte range it carries. */
  datatype Part = Part(partNum: nat, offset: nat, length: nat)

  function Min(a: int, b: int): int
  {
    if a <= b then a else b
  }

  /**
   * The number of parts, `ceil(size / ChunkSize)`. The script computes it in
   * floating point; this is the integer ceiling it approximates.
   */
  function ChunkCount(size: nat): (n: nat)
    ensures n * ChunkSize >= size
    ensures n > 0 ==> (n - 1) * ChunkSize < size
    ensures n == 0 <==> size == 0
    ensures 0 < size <= ChunkSize ==> n == 1
  {
    (size + ChunkSize - 1) / ChunkSize
  }

  /** Offset of part `i` (0-based) lies inside the file whenever `i` is below the count. */
  lemma OffsetInside(size: nat, i: nat)
    requires i < ChunkCount(size)
    ensures ChunkSize * i < size
  {
  }

  /** The part the loop body issues on iteration `i`. */
  function PlannedPart(size: nat, i: nat): (p: Part)
    requires i < ChunkCount(size)
    ensures 1 <= p.length <= ChunkSize
    ensures p.offset + p.length <= size
  {
    OffsetInside(size, i);
    var offset := ChunkSize * i;
    Part(i + 1, offset, Min(ChunkSize, size - offset))
  }

  /**
   * The whole plan for a file of `size` bytes, in the order the parts are sent.
   * Part `i` starts at `ChunkSize * i`, carries `min(ChunkSize, size - offset)`
   * bytes and is numbered `i + 1`.
   */
  function Plan(size: nat): (plan: seq<Part>)
    ensures |plan| == ChunkCount(size)
    ensures forall i :: 0 <= i < |plan| ==> plan[i] == PlannedPart(size, i)
  {
    seq(ChunkCount(size), i requires 0 <= i < ChunkCount(size) => PlannedPart(size, i))
  }

  /** Part numbers run 1, 2, ..., n and every length is between 1 and ChunkSize; only the last may be short. */
  lemma PlanShape(size: nat)
    ensures var plan := Plan(size);
      forall i :: 0 <= i < |plan| ==>
        plan[i].partNum == i + 1 &&
        plan[i].offset == ChunkSize * i &&
        1 <= plan[i].length <= ChunkSize &&
        (i < |plan| - 1 ==> plan[i].length == ChunkSize)
  {
  }

  /** Each part starts where the previous ended, the first at 0, and the last ends at `size`. */
  lemma PlanContiguous(size: nat)
    ensures var plan := Plan(size);
      (|plan| > 0 ==> plan[0].offset == 0 && plan[|plan| - 1].offset + plan[|plan| - 1].length == size) &&
      forall i :: 0 <= i < |plan| - 1 ==> plan[i + 1].offset == plan[i].offset + plan[i].length
  {
  }

  /** Sum of the lengths of `parts`. */
  function TotalLength(parts: seq<Part>): nat
  {
    if parts == [] then 0 else TotalLength(parts[..|parts| - 1]) + parts[|parts| - 1].length
  }

  /** The first `k` parts carry exactly the first `min(size, ChunkSize * k)` bytes. */
  lemma {:induction false} PlanPrefixTotal(size: nat, k: nat)
    requires k <= ChunkCount(size)
    ensures TotalLength(Plan(size)[..k]) == Min(size, ChunkSize * k)
  {
    if k > 0 {
      var plan := Plan(size);
      assert plan[..k][..k - 1] == plan[..k - 1];
      PlanPrefixTotal(size, k - 1);
      OffsetInside(size, k - 1);
    }
  }

  /** The lengths of all parts add up to the file size. */
  lemma PlanTotal(size: nat)
    ensures TotalLength(Plan(size)) == size
  {
    var plan := Plan(size);
    PlanPrefixTotal(size, |plan|);
    assert plan[..|plan|] == plan;
  }

  /** Byte `b` lies in part `p`. */
  predicate Covers(p: Part, b: nat)
  {
    p.offset <= b < p.offset + p.length
  }

  /** Every byte of the file lies in exactly one part: the one numbered `b / ChunkSize + 1`. */
  lemma PlanCovers(size: nat, b: nat)
    requires b < size
    ensures b / ChunkSize < |Plan(size)| && Covers(Plan(size)[b / ChunkSize], b)
    ensures forall i :: 0 <= i < |Plan(size)| && Covers(Plan(size)[i], b) ==> i == b / ChunkSize
  {
  }
}
