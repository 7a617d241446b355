/** Byte-range edits and their application to a growing buffer (lang/compat/src/mutator.rs). */
module Mutator {
  import opened Wrappers

  /** Replace the bytes `start..end` of the original buffer by `value`. */
  datatype Diff = Diff(start: nat, end: nat, value: seq<byte>) {
    function OffsetDiff(): int {
      |value| - (end - start)
    }
  }

  // ----- The stable sort of the edit list -----

  function InsertByStart(d: Diff, ds: seq<Diff>): seq<Diff> {
    if ds == [] || d.start <= ds[0].start then [d] + ds
    else [ds[0]] + InsertByStart(d, ds[1..])
  }

  function SortByStart(ds: seq<Diff>): seq<Diff> {
    if ds == [] then [] else InsertByStart(ds[0], SortByStart(ds[1..]))
  }

  ghost predicate Ordered(ds: seq<Diff>) {
    forall i, j :: 0 <= i < j < |ds| ==> ds[i].start <= ds[j].start
  }

  // The edits that start at `at`, in list order.
  ghost function StartingAt(ds: seq<Diff>, at: nat): seq<Diff> {
    if ds == [] then []
    else (if ds[0].start == at then [ds[0]] else []) + StartingAt(ds[1..], at)
  }

  lemma {:induction false} InsertAdds(d: Diff, ds: seq<Diff>)
    ensures multiset(InsertByStart(d, ds)) == multiset{d} + multiset(ds)
  {
    if ds != [] && ds[0].start < d.start {
      InsertAdds(d, ds[1..]);
      assert ds == [ds[0]] + ds[1..];
    }
  }

  lemma {:induction false} InsertKeepsOrder(d: Diff, ds: seq<Diff>)
    requires Ordered(ds)
    ensures Ordered(InsertByStart(d, ds))
  {
    if ds != [] && ds[0].start < d.start {
      InsertKeepsOrder(d, ds[1..]);
      InsertAdds(d, ds[1..]);
      var tail := InsertByStart(d, ds[1..]);
      forall i | 0 <= i < |tail| ensures ds[0].start <= tail[i].start {
        assert tail[i] in multiset(tail);
        assert tail[i] == d || tail[i] in ds[1..];
      }
    }
  }

  lemma {:induction false} InsertGoesFirst(d: Diff, ds: seq<Diff>, at: nat)
    requires Ordered(ds)
    ensures StartingAt(InsertByStart(d, ds), at) == (if d.start == at then [d] else []) + StartingAt(ds, at)
  {
    if ds != [] && ds[0].start < d.start {
      InsertGoesFirst(d, ds[1..], at);
      if d.start == at {
        assert StartingAt(ds, at) == StartingAt(ds[1..], at);
      }
    } else {
      assert ([d] + ds)[1..] == ds;
    }
  }

  /** Sorting orders the edits by start, keeps each of them, and keeps the list order of
      edits with the same start. */
  lemma {:induction false} SortIsStable(ds: seq<Diff>)
    ensures Ordered(SortByStart(ds))
    ensures multiset(SortByStart(ds)) == multiset(ds)
    ensures forall at: nat :: StartingAt(SortByStart(ds), at) == StartingAt(ds, at)
  {
    if ds != [] {
      var tail := SortByStart(ds[1..]);
      SortIsStable(ds[1..]);
      InsertAdds(ds[0], tail);
      InsertKeepsOrder(ds[0], tail);
      forall at: nat ensures StartingAt(SortByStart(ds), at) == StartingAt(ds, at) {
        InsertGoesFirst(ds[0], tail, at);
      }
      assert ds == [ds[0]] + ds[1..];
    }
  }

  // ----- What applying sorted edits means -----

  /** No edit starts before the previous one ends, and an edit that starts inside the
      buffer of length `n` ends inside it. */
  ghost predicate Disjoint(ds: seq<Diff>, from: nat, n: nat)
    decreases |ds|
  {
    ds == [] ||
    (ds[0].start <= ds[0].end && from <= ds[0].start &&
     if ds[0].start >= n then Disjoint(ds[1..], n, n)
     else ds[0].end <= n && Disjoint(ds[1..], ds[0].end, n))
  }

  /** The untouched gaps of `src` from `from` on, interleaved with the new values; the
      values of edits past the end follow in order. */
  ghost function Spliced(src: seq<byte>, ds: seq<Diff>, from: nat): seq<byte>
    requires from <= |src| && Disjoint(ds, from, |src|)
    decreases |ds|
  {
    if ds == [] then src[from..]
    else if ds[0].start >= |src| then src[from..] + ds[0].value + Spliced(src, ds[1..], |src|)
    else src[from..ds[0].start] + ds[0].value + Spliced(src, ds[1..], ds[0].end)
  }

  /** The buffer holds `head`, which stands for the first `i` edits, followed by the
      original bytes from `cut` on. */
  ghost predicate Progress(src: seq<byte>, ds: seq<Diff>, i: nat, head: seq<byte>, cut: nat, bytes: seq<byte>) {
    i <= |ds| && cut <= |src|
    && Disjoint(ds, 0, |src|) && Disjoint(ds[i..], cut, |src|)
    && bytes == head + src[cut..]
    && Spliced(src, ds, 0) == head + Spliced(src, ds[i..], cut)
  }

  /** What the next edit makes of the buffer, while `shift` is the growth so far. */
  ghost predicate Applied(d: Diff, n: nat, shift: int, before: seq<byte>, after: seq<byte>) {
    if d.start >= n then after == before + d.value
    else
      d.start <= d.end && 0 <= d.start + shift && d.end + shift <= |before|
      && after == before[..d.start + shift] + d.value + before[d.end + shift..]
  }

  lemma AppendStep(src: seq<byte>, ds: seq<Diff>, i: nat, head: seq<byte>, cut: nat, bytes: seq<byte>)
    requires Progress(src, ds, i, head, cut, bytes) && i < |ds| && ds[i].start >= |src|
    ensures Progress(src, ds, i + 1, head + src[cut..] + ds[i].value, |src|, bytes + ds[i].value)
  {
  }

  lemma SpliceStep(src: seq<byte>, ds: seq<Diff>, i: nat, head: seq<byte>, cut: nat, bytes: seq<byte>)
    requires Progress(src, ds, i, head, cut, bytes) && i < |ds| && ds[i].start < |src|
    ensures var d := ds[i];
            var shift := |head| - cut;
            0 <= d.start + shift && d.start <= d.end && d.end + shift <= |bytes|
            && Progress(src, ds, i + 1, head + src[cut..d.start] + d.value, d.end,
                        bytes[..d.start + shift] + d.value + bytes[d.end + shift..])
  {
    var d, shift := ds[i], |head| - cut;
    assert ds[i..][1..] == ds[i + 1..];
    assert bytes[..d.start + shift] == head + src[cut..d.start];
    assert bytes[d.end + shift..] == src[d.end..];
    assert head + (src[cut..d.start] + d.value + Spliced(src, ds[i + 1..], d.end)) ==
           head + src[cut..d.start] + d.value + Spliced(src, ds[i + 1..], d.end);
  }

  /** The edits before `i` were applied with `shift` as the growth of those inside the buffer. */
  ghost predicate Reached(src: seq<byte>, ds: seq<Diff>, i: nat, shift: int, bytes: seq<byte>) {
    exists head: seq<byte>, cut: nat ::
      Progress(src, ds, i, head, cut, bytes)
      && (i < |ds| && ds[i].start < |src| ==> shift == |head| - cut)
  }

  lemma {:induction false} ReachedFirst(src: seq<byte>, ds: seq<Diff>)
    requires Disjoint(ds, 0, |src|)
    ensures Reached(src, ds, 0, 0, src)
  {
    assert ds[0..] == ds;
    assert Progress(src, ds, 0, [], 0, src);
  }

  lemma {:induction false} ReachedLast(src: seq<byte>, ds: seq<Diff>, shift: int, bytes: seq<byte>)
    requires Reached(src, ds, |ds|, shift, bytes)
    ensures Disjoint(ds, 0, |src|) && bytes == Spliced(src, ds, 0)
  {
  }

  // After an edit past the end there are only edits past the end.
  lemma PastTheEnd(src: seq<byte>, ds: seq<Diff>, i: nat, bytes: seq<byte>, head: seq<byte>)
    requires Progress(src, ds, i + 1, head, |src|, bytes)
    ensures i + 1 < |ds| ==> ds[i + 1].start >= |src|
  {
  }

  lemma ReachedNext(src: seq<byte>, ds: seq<Diff>, i: nat, shift: int, bytes: seq<byte>)
    requires Reached(src, ds, i, shift, bytes) && i < |ds|
    ensures ds[i].start < |src| ==>
              0 <= ds[i].start + shift && ds[i].start <= ds[i].end && ds[i].end + shift <= |bytes|
    ensures forall after :: Applied(ds[i], |src|, shift, bytes, after) ==>
              Reached(src, ds, i + 1, if ds[i].start >= |src| then shift else shift + ds[i].OffsetDiff(), after)
  {
    hide Disjoint, Spliced;
    var head: seq<byte>, cut: nat :| Progress(src, ds, i, head, cut, bytes)
      && (i < |ds| && ds[i].start < |src| ==> shift == |head| - cut);
    if ds[i].start >= |src| {
      AppendStep(src, ds, i, head, cut, bytes);
      PastTheEnd(src, ds, i, bytes + ds[i].value, head + src[cut..] + ds[i].value);
    } else {
      SpliceStep(src, ds, i, head, cut, bytes);
    }
  }

  // ----- The algorithm -----

  class ByteVec {
    var bytes: seq<byte>

    constructor (b: seq<byte>)
      ensures bytes == b
    {
      bytes := b;
    }

    method Insert(at: nat, b: byte)
      requires at <= |bytes|
      modifies this
      ensures bytes == old(bytes[..at] + [b] + bytes[at..])
    {
      bytes := bytes[..at] + [b] + bytes[at..];
    }

    method Remove(at: nat)
      requires at < |bytes|
      modifies this
      ensures bytes == old(bytes[..at] + bytes[at + 1..])
    {
      bytes := bytes[..at] + bytes[at + 1..];
    }

    method Extend(value: seq<byte>)
      modifies this
      ensures bytes == old(bytes) + value
    {
      bytes := bytes + value;
    }

    method CopyFromSlice(at: nat, value: seq<byte>)
      requires at + |value| <= |bytes|
      modifies this
      ensures bytes == old(bytes[..at] + value + bytes[at + |value|..])
    {
      bytes := bytes[..at] + value + bytes[at + |value|..];
    }
  }

  /** One round of the loop of `mutate`. A false result stands for the panic of a slice or
      index out of range. */
  method ApplyDiff(buffer: ByteVec, d: Diff, originLen: nat, offsetDiff: int) returns (ok: bool)
    modifies buffer
    ensures ok <==> d.start >= originLen
                    || (d.start <= d.end && 0 <= d.start + offsetDiff && d.end + offsetDiff <= |old(buffer.bytes)|)
    ensures ok ==> Applied(d, originLen, offsetDiff, old(buffer.bytes), buffer.bytes)
  {
    if d.start >= originLen {
      buffer.Extend(d.value);
      return true;
    }
    if d.end < d.start || d.start + offsetDiff < 0 || |buffer.bytes| < d.end + offsetDiff {
      return false;
    }
    var lenDiff := d.OffsetDiff();
    var start := d.start + offsetDiff;
    if lenDiff == 0 {
      buffer.CopyFromSlice(start, d.value);
    } else if lenDiff > 0 {
      InsertLonger(buffer, start, d.end + offsetDiff, d.value);
    } else {
      RemoveBytes(buffer, start, -lenDiff);
      buffer.CopyFromSlice(start, d.value);
    }
    return true;
  }

  // The new value is longer: its front is inserted, its rest overwrites the old bytes.
  method InsertLonger(buffer: ByteVec, start: nat, end: nat, value: seq<byte>)
    requires start <= end <= |buffer.bytes| && end - start < |value|
    modifies buffer
    ensures buffer.bytes == old(buffer.bytes[..start]) + value + old(buffer.bytes[end..])
  {
    ghost var before := buffer.bytes;
    var mutationDiffLen := |value| - (end - start);
    for i := 0 to mutationDiffLen
      invariant buffer.bytes == before[..start] + value[..i] + before[start..]
    {
      buffer.Insert(start + i, value[i]);
      assert value[..i + 1] == value[..i] + [value[i]];
    }
    assert value == value[..mutationDiffLen] + value[mutationDiffLen..];
    buffer.CopyFromSlice(start + mutationDiffLen, value[mutationDiffLen..]);
  }

  method RemoveBytes(buffer: ByteVec, start: nat, count: nat)
    requires start + count <= |buffer.bytes|
    modifies buffer
    ensures buffer.bytes == old(buffer.bytes[..start]) + old(buffer.bytes[start + count..])
  {
    ghost var before := buffer.bytes;
    for i := 0 to count
      invariant buffer.bytes == before[..start] + before[start + i..]
    {
      buffer.Remove(start);
    }
  }

  class Mutator {
    var diff: seq<Diff>

    constructor ()
      ensures diff == []
    {
      diff := [];
    }

    method MakeDiff(start: nat, end: nat, value: seq<byte>)
      modifies this
      ensures diff == old(diff) + [Diff(start, end, value)]
    {
      diff := diff + [Diff(start, end, value)];
    }

    /** Sorts the recorded edits and applies them in place. When they are disjoint the
        result is the splice of the original buffer and nothing is out of range. */
    method Mutate(buffer: ByteVec) returns (ok: bool)
      modifies this, buffer
      ensures diff == SortByStart(old(diff))
      ensures Disjoint(diff, 0, |old(buffer.bytes)|) ==>
                ok && buffer.bytes == Spliced(old(buffer.bytes), diff, 0)
    {
      diff := SortByStart(diff);
      ghost var src, disjoint := buffer.bytes, Disjoint(diff, 0, |buffer.bytes|);
      if disjoint {
        ReachedFirst(src, diff);
      }
      var originLen := |buffer.bytes|;
      var offsetDiff := 0;
      for i := 0 to |diff|
        invariant diff == SortByStart(old(diff))
        invariant disjoint ==> Reached(src, diff, i, offsetDiff, buffer.bytes)
      {
        if disjoint {
          ReachedNext(src, diff, i, offsetDiff, buffer.bytes);
        }
        ok := ApplyDiff(buffer, diff[i], originLen, offsetDiff);
        if !ok {
          return;
        }
        if diff[i].start < originLen {
          offsetDiff := offsetDiff + diff[i].OffsetDiff();
        }
      }
      if disjoint {
        ReachedLast(src, diff, offsetDiff, buffer.bytes);
      }
      return true;
    }
  }
}
