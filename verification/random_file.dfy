/**
  The target file as `RandomAccessFile` sees it: a byte sequence with a
  file pointer. `seek` moves the pointer, `write` overwrites (and, past the
  end, extends) the file from the pointer on, and `setLength` truncates or
  extends it. Bytes of a file extended past its old end read as zero.
 */
module RandomAccess {
  import opened JavaLong
  import opened Parts

  function Zeros(n: nat): (z: seq<Byte>)
    ensures |z| == n && forall k :: 0 <= k < n ==> z[k] == 0
  {
    seq(n, _ => 0)
  }

  /** The byte of `f` at position `k`, or zero past its end. */
  function ByteOr0(f: seq<Byte>, k: nat): Byte
  {
    if k < |f| then f[k] else 0
  }

  function Max(a: int, b: int): int { if a < b then b else a }

  /**
    `write(b)` with the pointer at `at`: the window `[at, at + |b|)` holds
    `b`, every other byte is unchanged (or zero where the file grew), and the
    file is as long as the old file or the window's end, whichever is longer.
    Writing no bytes changes nothing.
   */
  function Overwrite(f: seq<Byte>, at: nat, b: seq<Byte>): (r: seq<Byte>)
    ensures |r| == if |b| == 0 then |f| else Max(|f|, at + |b|)
    ensures forall k :: 0 <= k < |b| ==> r[at + k] == b[k]
    ensures forall k :: 0 <= k < |r| && !(at <= k < at + |b|) ==> r[k] == ByteOr0(f, k)
  {
    if |b| == 0 then f
    else
      var padded := if at <= |f| then f else f + Zeros(at - |f|);
      padded[..at] + b + (if at + |b| < |padded| then padded[at + |b|..] else [])
  }

  /** `setLength(n)`: truncate to `n` bytes or extend with zeros. */
  function Resize(f: seq<Byte>, n: nat): (r: seq<Byte>)
    ensures |r| == n
    ensures forall k :: 0 <= k < n ==> r[k] == ByteOr0(f, k)
  {
    if n <= |f| then f[..n] else f + Zeros(n - |f|)
  }

  class RandomFile {
    var content: seq<Byte>
    var pointer: nat

    /** Opening a file in mode "rw" keeps its content and puts the pointer at 0. */
    constructor Open(existing: seq<Byte>)
      ensures content == existing && pointer == 0
    {
      content := existing;
      pointer := 0;
    }

    /** A negative length is refused (`IOException`); otherwise the file is resized. */
    method SetLength(n: Long) returns (ok: bool)
      modifies this
      ensures ok == (n >= 0)
      ensures ok ==> (content == Resize(old(content), n)
                      && pointer == (if old(pointer) > n then n else old(pointer)))
      ensures !ok ==> content == old(content) && pointer == old(pointer)
    {
      ok := n >= 0;
      if ok {
        content := Resize(content, n);
        if pointer > n {
          pointer := n;
        }
      }
    }

    /** A negative position is refused (`IOException`); otherwise the pointer moves there. */
    method Seek(pos: Long) returns (ok: bool)
      modifies this
      ensures ok == (pos >= 0)
      ensures content == old(content)
      ensures pointer == if ok then pos else old(pointer)
    {
      ok := pos >= 0;
      if ok {
        pointer := pos;
      }
    }

    method Write(b: seq<Byte>)
      modifies this
      ensures content == Overwrite(old(content), old(pointer), b)
      ensures pointer == old(pointer) + |b|
    {
      content := Overwrite(content, pointer, b);
      pointer := pointer + |b|;
    }
  }

  /** Every part has a non-negative offset, so the writer can seek to it. */
  predicate Seekable(ps: seq<PartCache>)
  {
    forall i :: 0 <= i < |ps| ==> ps[i].index >= 0
  }

  /** The file after writing each part at its offset, in sequence order. */
  function ApplyAll(f: seq<Byte>, ps: seq<PartCache>): seq<Byte>
    requires Seekable(ps)
  {
    if ps == [] then f
    else
      var last := ps[|ps| - 1];
      Overwrite(ApplyAll(f, ps[..|ps| - 1]), last.index as nat, last.cachedBytes)
  }

  /** No file position is covered by two different parts. */
  ghost predicate Disjoint(ps: seq<PartCache>)
  {
    forall p, q, k :: p in ps && q in ps && p != q && p.Covers(k) ==> !q.Covers(k)
  }

  ghost predicate CoveredBy(ps: seq<PartCache>, k: int)
  {
    exists p :: p in ps && p.Covers(k)
  }

  /** The file is as long as `f` or the furthest-reaching non-empty part, whichever is longer. */
  ghost predicate LengthShaped(f: seq<Byte>, ps: seq<PartCache>, r: seq<Byte>)
  {
    && |r| >= |f|
    && (forall p :: p in ps && |p.cachedBytes| > 0 ==> p.End() <= |r|)
    && (|r| == |f| || exists p :: p in ps && |p.cachedBytes| > 0 && p.End() == |r|)
  }

  /** Every position a part covers holds that part's byte. */
  ghost predicate CoveredShaped(ps: seq<PartCache>, r: seq<Byte>)
  {
    forall p, k :: p in ps && p.Covers(k) && 0 <= k < |r| ==> r[k] == p.cachedBytes[k - p.index]
  }

  /** Every position no part covers keeps `f`'s byte, or is zero past `f`'s end. */
  ghost predicate UncoveredShaped(f: seq<Byte>, ps: seq<PartCache>, r: seq<Byte>)
  {
    forall k :: 0 <= k < |r| && !CoveredBy(ps, k) ==> r[k] == ByteOr0(f, k)
  }

  /**
    What the file looks like after the parts `ps` are written over `f`, in
    terms that depend only on WHICH parts are written, not on their order.
   */
  ghost predicate Shaped(f: seq<Byte>, ps: seq<PartCache>, r: seq<Byte>)
  {
    LengthShaped(f, ps, r) && CoveredShaped(ps, r) && UncoveredShaped(f, ps, r)
  }

  lemma LengthStep(f: seq<Byte>, ps: seq<PartCache>, r0: seq<Byte>)
    requires ps != [] && ps[|ps| - 1].index >= 0
    requires LengthShaped(f, ps[..|ps| - 1], r0)
    ensures LengthShaped(f, ps, Overwrite(r0, ps[|ps| - 1].index as nat, ps[|ps| - 1].cachedBytes))
  {
    var init, last := ps[..|ps| - 1], ps[|ps| - 1];
    var r := Overwrite(r0, last.index as nat, last.cachedBytes);
    forall p | p in ps && |p.cachedBytes| > 0
      ensures p.End() <= |r|
    {
      if p != last {
        assert p in init;
      }
    }
    if |r0| != |f| {
      var p :| p in init && |p.cachedBytes| > 0 && p.End() == |r0|;
      assert p in ps;
    }
  }

  lemma CoveredStep(f: seq<Byte>, ps: seq<PartCache>, r0: seq<Byte>)
    requires ps != [] && ps[|ps| - 1].index >= 0 && Disjoint(ps)
    requires LengthShaped(f, ps[..|ps| - 1], r0) && CoveredShaped(ps[..|ps| - 1], r0)
    ensures CoveredShaped(ps, Overwrite(r0, ps[|ps| - 1].index as nat, ps[|ps| - 1].cachedBytes))
  {
    var init, last := ps[..|ps| - 1], ps[|ps| - 1];
    var r := Overwrite(r0, last.index as nat, last.cachedBytes);
    forall p, k | p in ps && p.Covers(k) && 0 <= k < |r|
      ensures r[k] == p.cachedBytes[k - p.index]
    {
      if !last.Covers(k) {
        assert p in init;
        assert r[k] == r0[k];
      } else {
        assert p == last;
        assert r[last.index + (k - last.index)] == last.cachedBytes[k - last.index];
      }
    }
  }

  lemma UncoveredStep(f: seq<Byte>, ps: seq<PartCache>, r0: seq<Byte>)
    requires ps != [] && ps[|ps| - 1].index >= 0
    requires |r0| >= |f| && UncoveredShaped(f, ps[..|ps| - 1], r0)
    ensures UncoveredShaped(f, ps, Overwrite(r0, ps[|ps| - 1].index as nat, ps[|ps| - 1].cachedBytes))
  {
    var init, last := ps[..|ps| - 1], ps[|ps| - 1];
    var r := Overwrite(r0, last.index as nat, last.cachedBytes);
    forall k | 0 <= k < |r| && !CoveredBy(ps, k)
      ensures r[k] == ByteOr0(f, k)
    {
      assert !last.Covers(k);
      forall p | p in init
        ensures !p.Covers(k)
      {
        assert p in ps;
      }
      assert !CoveredBy(init, k);
    }
  }

  lemma {:induction false} ApplyAllShaped(f: seq<Byte>, ps: seq<PartCache>)
    requires Seekable(ps) && Disjoint(ps)
    ensures Shaped(f, ps, ApplyAll(f, ps))
  {
    if ps != [] {
      var init := ps[..|ps| - 1];
      assert forall p :: p in init ==> p in ps;
      ApplyAllShaped(f, init);
      var r0 := ApplyAll(f, init);
      LengthStep(f, ps, r0);
      CoveredStep(f, ps, r0);
      UncoveredStep(f, ps, r0);
    }
  }

  /** The shape determines the file completely. */
  lemma ShapedUnique(f: seq<Byte>, ps: seq<PartCache>, r1: seq<Byte>, r2: seq<Byte>)
    requires Shaped(f, ps, r1) && Shaped(f, ps, r2)
    ensures r1 == r2
  {
    assert |r1| == |r2|;
    forall k | 0 <= k < |r1|
      ensures r1[k] == r2[k]
    {
      if CoveredBy(ps, k) {
        var p :| p in ps && p.Covers(k);
      }
    }
  }

  lemma ShapedSameParts(f: seq<Byte>, ps: seq<PartCache>, qs: seq<PartCache>, r: seq<Byte>)
    requires forall x :: x in ps <==> x in qs
    requires Shaped(f, qs, r)
    ensures Shaped(f, ps, r)
  {
    forall k | 0 <= k < |r| && !CoveredBy(ps, k)
      ensures r[k] == ByteOr0(f, k)
    {
      assert !CoveredBy(qs, k);
    }
  }

  /**
    Writing pairwise-disjoint parts gives the same file whatever order the
    writer takes them in.
   */
  lemma OrderIndependent(f: seq<Byte>, ps: seq<PartCache>, qs: seq<PartCache>)
    requires Seekable(ps) && Disjoint(ps)
    requires multiset(ps) == multiset(qs)
    ensures Seekable(qs)
    ensures ApplyAll(f, ps) == ApplyAll(f, qs)
  {
    forall x
      ensures x in ps <==> x in qs
    {
      assert x in ps <==> x in multiset(ps);
      assert x in qs <==> x in multiset(qs);
    }
    forall i | 0 <= i < |qs|
      ensures qs[i].index >= 0
    {
      assert qs[i] in ps;
    }
    ApplyAllShaped(f, ps);
    ApplyAllShaped(f, qs);
    ShapedSameParts(f, ps, qs, ApplyAll(f, qs));
    ShapedUnique(f, ps, ApplyAll(f, ps), ApplyAll(f, qs));
  }

  /** Two writes to disjoint windows commute. */
  lemma WritesCommute(f: seq<Byte>, p: PartCache, q: PartCache)
    requires p.index >= 0 && q.index >= 0
    requires forall k :: p.Covers(k) ==> !q.Covers(k)
    ensures Overwrite(Overwrite(f, p.index as nat, p.cachedBytes), q.index as nat, q.cachedBytes)
         == Overwrite(Overwrite(f, q.index as nat, q.cachedBytes), p.index as nat, p.cachedBytes)
  {
    var pq, qp := [p, q], [q, p];
    assert pq[..1] == [p] && qp[..1] == [q];
    assert ApplyAll(f, pq[..1]) == Overwrite(f, p.index as nat, p.cachedBytes);
    assert ApplyAll(f, qp[..1]) == Overwrite(f, q.index as nat, q.cachedBytes);
    assert Disjoint(pq) by {
      forall x, y, k | x in pq && y in pq && x != y && x.Covers(k)
        ensures !y.Covers(k)
      {
      }
    }
    assert multiset(pq) == multiset(qp);
    OrderIndependent(f, pq, qp);
  }

  /**
    Parts that are disjoint slices of `resource` covering all of it,
    written in any order into a file already sized to `|resource|`, leave
    exactly `resource` in the file.
   */
  lemma Reassembles(resource: seq<Byte>, f: seq<Byte>, ps: seq<PartCache>)
    requires Seekable(ps) && Disjoint(ps)
    requires |f| == |resource|
    requires forall i :: 0 <= i < |ps| ==>
               ps[i].End() <= |resource| && ps[i].cachedBytes == resource[ps[i].index..ps[i].End()]
    requires forall k :: 0 <= k < |resource| ==> CoveredBy(ps, k)
    ensures ApplyAll(f, ps) == resource
  {
    ApplyAllShaped(f, ps);
    var r := ApplyAll(f, ps);
    assert |r| == |resource| by {
      forall p | p in ps
        ensures p.End() <= |resource|
      {
        var i :| 0 <= i < |ps| && ps[i] == p;
      }
    }
    forall k | 0 <= k < |r|
      ensures r[k] == resource[k]
    {
      assert CoveredBy(ps, k);
      var p :| p in ps && p.Covers(k);
      var i :| 0 <= i < |ps| && ps[i] == p;
      assert r[k] == p.cachedBytes[k - p.index];
    }
  }
}
