// The parallel ranged upload of the transfer benchmark: K threads, each with its own handle on one
// remote file, each writing its own range of the data in chunks of at most BUF bytes.
module RangedUpload {
  import opened Utf8
  import opened Files

  const BUF: nat := 128 * 1024

  class RemoteFile {
    var content: seq<Byte>

    // `sftp.create`: the file exists and is empty.
    constructor ()
      ensures content == []
    {
      content := [];
    }

    method WriteAt(off: nat, chunk: seq<Byte>)
      requires chunk != []
      modifies this
      ensures content == Overlay(old(content), off, chunk)
    {
      content := Overlay(content, off, chunk);
    }
  }

  // ---------- the ranges ----------

  datatype Range = Range(off: nat, len: nat) {
    function End(): (end: nat) {
      off + len
    }
  }

  lemma OffsetWithin(size: nat, k: nat, i: nat)
    requires i < k
    ensures 0 <= i * (size / k) && (i + 1) * (size / k) == i * (size / k) + size / k <= size
  {
    var base := size / k;
    assert (i + 1) * base == i * base + base;
    assert k * base <= size;
    MulMonotonic(i + 1, k, base);
  }

  lemma MulMonotonic(a: nat, b: nat, c: nat)
    requires a <= b
    ensures a * c <= b * c
  {
    assert b * c == a * c + (b - a) * c;
  }

  lemma NextMultiple(n: nat, b: nat)
    requires b > 0
    ensures n < (n / b + 1) * b
  {
    assert (n / b + 1) * b == n / b * b + b;
  }

  function RangeOf(size: nat, k: nat, i: nat): (r: Range)
    requires i < k
  {
    OffsetWithin(size, k, i);
    var base := size / k;
    var off := i * base;
    Range(off, if i == k - 1 then size - off else base)
  }

  function Ranges(size: nat, k: nat): (ranges: seq<Range>)
    requires k > 0
    ensures |ranges| == k
  {
    seq(k, i requires 0 <= i < k => RangeOf(size, k, i))
  }

  // The ranges start at 0, each starts where the one before ends, and the last ends at `size`.
  predicate Tiles(ranges: seq<Range>, size: nat) {
    && |ranges| > 0 && ranges[0].off == 0 && ranges[|ranges| - 1].End() == size
    && (forall i | 0 <= i < |ranges| - 1 :: ranges[i].End() == ranges[i + 1].off)
  }

  lemma RangesTile(size: nat, k: nat)
    requires k > 0
    ensures Tiles(Ranges(size, k), size)
  {
    forall i | 0 <= i < k - 1
      ensures Ranges(size, k)[i].End() == Ranges(size, k)[i + 1].off
    {
      OffsetWithin(size, k, i);
    }
  }

  predicate Apart(ranges: seq<Range>, size: nat) {
    && (forall i, j | 0 <= i < j < |ranges| :: ranges[i].End() <= ranges[j].off)
    && (forall i | 0 <= i < |ranges| :: ranges[i].End() <= size)
  }

  lemma {:induction false} TilesInOrder(ranges: seq<Range>, size: nat, i: nat, j: nat)
    requires Tiles(ranges, size) && i < j < |ranges|
    ensures ranges[i].End() <= ranges[j].off
  {
    if i < j - 1 {
      TilesInOrder(ranges, size, i, j - 1);
    }
  }

  lemma TilesApart(ranges: seq<Range>, size: nat)
    requires Tiles(ranges, size)
    ensures Apart(ranges, size)
  {
    forall i, j | 0 <= i < j < |ranges|
      ensures ranges[i].End() <= ranges[j].off
    {
      TilesInOrder(ranges, size, i, j);
    }
  }

  // Every byte below the end of range `upTo` belongs to a range.
  lemma {:induction false} TilesCover(ranges: seq<Range>, size: nat, byte: nat, upTo: nat) returns (i: nat)
    requires Tiles(ranges, size) && upTo < |ranges| && byte < ranges[upTo].End()
    ensures i <= upTo && ranges[i].off <= byte < ranges[i].End()
  {
    if ranges[upTo].off <= byte {
      i := upTo;
    } else {
      i := TilesCover(ranges, size, byte, upTo - 1);
    }
  }

  function TotalLength(ranges: seq<Range>): (n: nat) {
    if ranges == [] then 0 else ranges[0].len + TotalLength(ranges[1..])
  }

  lemma {:induction false} ConsecutiveLengths(ranges: seq<Range>)
    requires ranges != [] && forall i | 0 <= i < |ranges| - 1 :: ranges[i].End() == ranges[i + 1].off
    ensures ranges[0].off + TotalLength(ranges) == ranges[|ranges| - 1].End()
  {
    if |ranges| > 1 {
      ConsecutiveLengths(ranges[1..]);
    }
  }

  predicate InSomeRange(ranges: seq<Range>, byte: nat) {
    exists i :: 0 <= i < |ranges| && ranges[i].off <= byte < ranges[i].End()
  }

  // For every size and every number of threads, also more threads than bytes: the ranges are consecutive
  // and disjoint, they cover every byte and sum to the size, and none starts or ends past it.
  lemma RangesPartition(size: nat, k: nat)
    requires k > 0
    ensures Tiles(Ranges(size, k), size) && Apart(Ranges(size, k), size)
    ensures TotalLength(Ranges(size, k)) == size
    ensures forall byte: nat | byte < size :: InSomeRange(Ranges(size, k), byte)
  {
    RangesTile(size, k);
    TilingPartitions(Ranges(size, k), size);
  }

  lemma TilingPartitions(ranges: seq<Range>, size: nat)
    requires Tiles(ranges, size)
    ensures Apart(ranges, size) && TotalLength(ranges) == size
    ensures forall byte: nat | byte < size :: InSomeRange(ranges, byte)
  {
    TilesApart(ranges, size);
    ConsecutiveLengths(ranges);
    forall byte: nat | byte < size
      ensures InSomeRange(ranges, byte)
    {
      var i := TilesCover(ranges, size, byte, |ranges| - 1);
    }
  }

  // The split is even: every range but the last has the same length, and the last takes what is left over,
  // which is less than one byte per thread more.
  lemma RangesAreEven(size: nat, k: nat, i: nat)
    requires i < k
    ensures
      var r := Ranges(size, k)[i];
      && (i < k - 1 ==> r.len * k <= size < (r.len + 1) * k)
      && (i < k - 1 ==> r.off == i * r.len)
      && (i == k - 1 ==> r.End() == size && 0 <= r.len - size / k < k)
  {
    OffsetWithin(size, k, i);
    var base := size / k;
    assert size == base * k + size % k && base * k == k * base;
    assert (base + 1) * k == base * k + k;
    if i == k - 1 {
      assert (k - 1) * base == k * base - base;
    }
  }

  // ---------- progress ----------

  // The bytes the first `n` threads still have to write.
  ghost function Remaining(ranges: seq<Range>, pos: seq<nat>, n: nat): (r: int)
    requires n <= |ranges| == |pos|
  {
    if n == 0 then 0 else Remaining(ranges, pos, n - 1) + ranges[n - 1].End() - pos[n - 1]
  }

  lemma {:induction false} RemainingDrops(ranges: seq<Range>, pos: seq<nat>, t: nat, p: nat, n: nat)
    requires n <= |ranges| == |pos| && t < |pos|
    ensures Remaining(ranges, pos[t := p], n) == Remaining(ranges, pos, n) - if t < n then p - pos[t] else 0
  {
    if n == 0 {
    } else {
      RemainingDrops(ranges, pos, t, p, n - 1);
    }
  }

  lemma {:induction false} RemainingIsNatural(ranges: seq<Range>, pos: seq<nat>, n: nat)
    requires n <= |ranges| == |pos| && forall i | 0 <= i < |pos| :: pos[i] <= ranges[i].End()
    ensures Remaining(ranges, pos, n) >= 0
  {
    if n == 0 {
    } else {
      RemainingIsNatural(ranges, pos, n - 1);
    }
  }

  // ---------- the upload ----------

  // Thread `i` has written exactly its bytes up to `pos[i]`, once each.
  ghost predicate Written(data: seq<Byte>, ranges: seq<Range>, pos: seq<nat>, content: seq<Byte>, times: seq<nat>) {
    && |pos| == |ranges| && |times| == |data| && |content| <= |data|
    && Apart(ranges, |data|)
    && (forall i | 0 <= i < |pos| :: ranges[i].off <= pos[i] <= ranges[i].End())
    && (forall i, j | 0 <= i < |pos| && ranges[i].off <= j < pos[i] :: j < |content| && content[j] == data[j] && times[j] == 1)
    && (forall i, j | 0 <= i < |pos| && pos[i] <= j < ranges[i].End() :: times[j] == 0)
  }

  ghost function Bump(times: seq<nat>, from: nat, to: nat): (r: seq<nat>)
    requires from <= to <= |times|
  {
    seq(|times|, j requires 0 <= j < |times| => if from <= j < to then times[j] + 1 else times[j])
  }

  function Starts(ranges: seq<Range>): (pos: seq<nat>)
    ensures |pos| == |ranges| && forall i | 0 <= i < |pos| :: pos[i] == ranges[i].off
  {
    seq(|ranges|, i requires 0 <= i < |ranges| => ranges[i].off)
  }

  lemma NothingWritten(data: seq<Byte>, ranges: seq<Range>)
    requires Tiles(ranges, |data|)
    ensures Written(data, ranges, Starts(ranges), [], seq(|data|, _ => 0))
    ensures 0 <= Remaining(ranges, Starts(ranges), |Starts(ranges)|)
  {
    TilesApart(ranges, |data|);
    RemainingIsNatural(ranges, Starts(ranges), |ranges|);
  }

  lemma AlreadyWritten(
      data: seq<Byte>, ranges: seq<Range>, pos: seq<nat>, content: seq<Byte>, times: seq<nat>, i: nat, j: nat)
    requires Written(data, ranges, pos, content, times) && i < |pos| && ranges[i].off <= j < pos[i]
    ensures j < |content| && j < |data| && content[j] == data[j] && times[j] == 1
  {
    assert times[j] >= 0;
  }

  lemma NotYetWritten(
      data: seq<Byte>, ranges: seq<Range>, pos: seq<nat>, content: seq<Byte>, times: seq<nat>, i: nat, j: nat)
    requires Written(data, ranges, pos, content, times) && i < |pos| && pos[i] <= j < ranges[i].End()
    ensures j < |data| && times[j] == 0
  {
    assert times[j] >= 0;
  }

  // Thread `t` may write its next `n` bytes.
  ghost predicate MayWrite(data: seq<Byte>, ranges: seq<Range>, pos: seq<nat>, content: seq<Byte>, times: seq<nat>, t: nat, n: nat) {
    Written(data, ranges, pos, content, times) && t < |pos| && 0 < n && pos[t] + n <= ranges[t].End()
  }

  lemma ByteAfterWrite(data: seq<Byte>, ranges: seq<Range>, pos: seq<nat>, content: seq<Byte>, times: seq<nat>, t: nat, n: nat, i: nat, j: nat)
    requires MayWrite(data, ranges, pos, content, times, t, n)
    requires i < |pos| && ranges[i].off <= j < if i == t then pos[t] + n else pos[i]
    ensures
      var content' := Overlay(content, pos[t], data[pos[t]..pos[t] + n]);
      j < |content'| && j < |data| && content'[j] == data[j] && Bump(times, pos[t], pos[t] + n)[j] == 1
  {
    var chunk := data[pos[t]..pos[t] + n];
    if i == t && pos[t] <= j {
      NotYetWritten(data, ranges, pos, content, times, t, j);
      assert Overlay(content, pos[t], chunk)[j] == chunk[j - pos[t]];
    } else {
      AlreadyWritten(data, ranges, pos, content, times, i, j);
      assert !(pos[t] <= j < pos[t] + n);
    }
  }

  lemma RestAfterWrite(data: seq<Byte>, ranges: seq<Range>, pos: seq<nat>, content: seq<Byte>, times: seq<nat>, t: nat, n: nat, i: nat, j: nat)
    requires MayWrite(data, ranges, pos, content, times, t, n)
    requires i < |pos| && (if i == t then pos[t] + n else pos[i]) <= j < ranges[i].End()
    ensures j < |data| && Bump(times, pos[t], pos[t] + n)[j] == 0
  {
    NotYetWritten(data, ranges, pos, content, times, i, j);
    assert !(pos[t] <= j < pos[t] + n);
  }

  lemma WriteKeepsWritten(data: seq<Byte>, ranges: seq<Range>, pos: seq<nat>, content: seq<Byte>, times: seq<nat>, t: nat, n: nat)
    requires MayWrite(data, ranges, pos, content, times, t, n)
    ensures Written(data, ranges, pos[t := pos[t] + n], Overlay(content, pos[t], data[pos[t]..pos[t] + n]), Bump(times, pos[t], pos[t] + n))
  {
    var content', times' := Overlay(content, pos[t], data[pos[t]..pos[t] + n]), Bump(times, pos[t], pos[t] + n);
    var pos' := pos[t := pos[t] + n];
    assert |data[pos[t]..pos[t] + n]| == n && |content'| <= |data|;
    forall i | 0 <= i < |pos'| ensures ranges[i].off <= pos'[i] <= ranges[i].End() {
      assert ranges[i].off <= pos[i] <= ranges[i].End();
    }
    forall i, j | 0 <= i < |pos'| && ranges[i].off <= j < pos'[i]
      ensures j < |content'| && content'[j] == data[j] && times'[j] == 1
    {
      ByteAfterWrite(data, ranges, pos, content, times, t, n, i, j);
    }
    forall i, j | 0 <= i < |pos'| && pos'[i] <= j < ranges[i].End()
      ensures times'[j] == 0
    {
      RestAfterWrite(data, ranges, pos, content, times, t, n, i, j);
    }
  }

  lemma AllWritten(data: seq<Byte>, ranges: seq<Range>, pos: seq<nat>, content: seq<Byte>, times: seq<nat>)
    requires Tiles(ranges, |data|) && Written(data, ranges, pos, content, times)
    requires forall i | 0 <= i < |pos| :: pos[i] == ranges[i].End()
    ensures content == data && forall j | 0 <= j < |data| :: times[j] == 1
  {
    forall j | 0 <= j < |data|
      ensures j < |content| && content[j] == data[j] && times[j] == 1
    {
      var i := TilesCover(ranges, |data|, j, |ranges| - 1);
      assert ranges[i].off <= j < pos[i] && times[j] >= 0;
    }
    if |data| > 0 {
      var i := TilesCover(ranges, |data|, |data| - 1, |ranges| - 1);
      assert ranges[i].off <= |data| - 1 < pos[i] && times[|data| - 1] >= 0;
    }
  }

  // Any scheduler, any number of bytes accepted per write: each turn picks a thread that is not done and
  // lets the remote end accept some of its current chunk. The finished file equals the data and every byte
  // was written exactly once. With no thread at all the range computation divides by zero: no upload.
  method ParallelUpload(data: seq<Byte>, k: nat) returns (ok: bool, remote: RemoteFile, ghost times: seq<nat>)
    ensures fresh(remote)
    ensures ok <==> k > 0
    ensures ok ==> remote.content == data
    ensures ok ==> |times| == |data| && forall j | 0 <= j < |data| :: times[j] == 1
  {
    var size := |data|;
    remote := new RemoteFile();
    times := seq(size, _ => 0);
    if k == 0 {
      return false, remote, times;
    }
    var ranges := Ranges(size, k);
    RangesTile(size, k);
    times := WriteRanges(data, ranges, remote);
    ok := true;
  }

  method WriteRanges(data: seq<Byte>, ranges: seq<Range>, remote: RemoteFile) returns (ghost times: seq<nat>)
    requires Tiles(ranges, |data|) && remote.content == []
    modifies remote
    ensures remote.content == data
    ensures |times| == |data| && forall j | 0 <= j < |data| :: times[j] == 1
  {
    // Every thread opens the file and seeks to the start of its range.
    var pos: seq<nat> := Starts(ranges);
    times := seq(|data|, _ => 0);
    NothingWritten(data, ranges);
    while exists i :: 0 <= i < |pos| && pos[i] < ranges[i].End()
      invariant Written(data, ranges, pos, remote.content, times)
      invariant 0 <= Remaining(ranges, pos, |pos|)
      decreases Remaining(ranges, pos, |pos|)
    {
      var t: nat :| t < |pos| && pos[t] < ranges[t].End();
      pos, times := Turn(data, ranges, remote, pos, times, t);
    }
    AllWritten(data, ranges, pos, remote.content, times);
  }

  // Where the chunk ends that a thread at `pos` is in the middle of.
  function ChunkEnd(range: Range, pos: nat): (end: nat)
    requires range.off <= pos < range.End()
    ensures pos < end <= range.End() && end - pos <= 131_072
    ensures end == range.End() || (end - range.off) % 131_072 == 0
  {
    var done := pos - range.off;
    NextMultiple(done, BUF);
    var end := range.off + (done / BUF + 1) * BUF;
    assert (end - range.off) % BUF == 0;
    if end < range.End() then end else range.End()
  }

  // Thread `t` hands the rest of its current chunk to the remote end, which takes at least a byte of it.
  method Turn(data: seq<Byte>, ranges: seq<Range>, remote: RemoteFile, pos: seq<nat>, ghost times: seq<nat>, t: nat)
      returns (pos': seq<nat>, ghost times': seq<nat>)
    requires Written(data, ranges, pos, remote.content, times)
    requires t < |pos| && pos[t] < ranges[t].End()
    modifies remote
    ensures Written(data, ranges, pos', remote.content, times')
    ensures 0 <= Remaining(ranges, pos', |pos'|) < Remaining(ranges, pos, |pos|)
  {
    var limit := ChunkEnd(ranges[t], pos[t]);
    assert pos[t] < pos[t] + 1 <= limit;
    var to: nat :| pos[t] < to <= limit;
    WriteKeepsWritten(data, ranges, pos, remote.content, times, t, to - pos[t]);
    remote.WriteAt(pos[t], data[pos[t]..to]);
    pos', times' := pos[t := to], Bump(times, pos[t], to);
    RemainingDrops(ranges, pos, t, to, |pos|);
    RemainingIsNatural(ranges, pos', |pos'|);
  }

  // The plain SFTP upload: one handle, the chunks in order.
  method SequentialUpload(data: seq<Byte>) returns (remote: RemoteFile)
    ensures fresh(remote) && remote.content == data
  {
    remote := new RemoteFile();
    var pos: nat := 0;
    while pos < |data|
      invariant pos <= |data| && remote.content == data[..pos]
    {
      var end := if pos + BUF < |data| then pos + BUF else |data|;
      remote.WriteAt(pos, data[pos..end]);
      assert data[..pos] + data[pos..end] == data[..end];
      pos := end;
    }
  }
}
