/**
  The writer task: a do-while loop that takes parts off the head of the
  queue, adds each part's length to a running byte count, and seeks and
  writes the part's bytes into the pre-sized target file.
 */
module Writer {
  import opened JavaLong
  import opened Parts
  import opened RandomAccess

  /** A do-while loop guarded by `counter < partCount` runs at least once. */
  function Iterations(partCount: Int): nat
  {
    if partCount >= 1 then partCount else 1
  }

  /** Position of the first part the writer cannot seek to (a negative offset), or `|ps|`. */
  function FirstUnseekable(ps: seq<PartCache>): (j: nat)
    ensures j <= |ps|
    ensures Seekable(ps[..j])
    ensures j < |ps| ==> ps[j].index < 0
  {
    if ps == [] then 0
    else if ps[0].index < 0 then 0
    else
      var j := 1 + FirstUnseekable(ps[1..]);
      assert ps[..j] == [ps[0]] + ps[1..][..j - 1];
      j
  }

  /**
    `Writer.call`. With `n = Iterations(partCount)` parts at the head of the
    queue, the writer takes them in FIFO order and writes each at its
    offset; it stops with an `IOException` (`ok == false`) at the first part
    whose offset is negative, which it has already taken but not written.
    On success, `byteCount` is the total length of the parts taken.
   */
  method Call(queue: PartQueue, file: RandomFile, partCount: Int) returns (ok: bool, byteCount: int)
    requires |queue.items| >= Iterations(partCount)
    modifies queue, file
    ensures var n := Iterations(partCount);
            var j := FirstUnseekable(old(queue.items)[..n]);
            && ok == (j == n)
            && queue.items == old(queue.items)[if ok then n else j + 1..]
            && file.content == ApplyAll(old(file.content), old(queue.items)[..j])
            && file.pointer == (if j == 0 then old(file.pointer) else old(queue.items)[j - 1].End())
            && (ok ==> byteCount == TotalLength(old(queue.items)[..n]))
  {
    ghost var items, f0, p0 := queue.items, file.content, file.pointer;
    ghost var n := Iterations(partCount);
    ghost var j := FirstUnseekable(items[..n]);
    var counter := 0;
    byteCount := 0;
    while true
      invariant 0 <= counter < n
      invariant counter <= j
      invariant queue.items == items[counter..]
      invariant Seekable(items[..counter])
      invariant file.content == ApplyAll(f0, items[..counter])
      invariant file.pointer == if counter == 0 then p0 else items[counter - 1].End()
      invariant byteCount == TotalLength(items[..counter])
      decreases n - counter
    {
      var part := queue.Take();
      assert part == items[counter] == items[..n][counter];
      byteCount := byteCount + |part.cachedBytes|;
      var sought := file.Seek(part.index);
      if !sought {
        return false, byteCount;
      }
      WriteStep(f0, items, counter);
      file.Write(part.cachedBytes);
      counter := counter + 1;
      if !(counter < partCount) {
        break;
      }
    }
    assert items[..n] == items[..counter];
    ok := true;
  }

  /** Taking and writing part `counter` extends the prefix written so far by that part. */
  lemma WriteStep(f0: seq<Byte>, items: seq<PartCache>, counter: nat)
    requires counter < |items| && Seekable(items[..counter]) && items[counter].index >= 0
    ensures Seekable(items[..counter + 1])
    ensures ApplyAll(f0, items[..counter + 1])
            == Overwrite(ApplyAll(f0, items[..counter]), items[counter].index as nat, items[counter].cachedBytes)
    ensures TotalLength(items[..counter + 1]) == TotalLength(items[..counter]) + |items[counter].cachedBytes|
  {
    var done := items[..counter + 1];
    assert done[..counter] == items[..counter] && done[counter] == items[counter];
  }
}
