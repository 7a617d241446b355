/** What the adapter's edits make of a region of the binary, and of the two kinds of
    table that hold addresses. */
module TablePadding {
  import opened Wrappers
  import opened Uleb128
  import opened Mutator
  import opened Adapter

  // ----- Edits inside a region -----

  ghost predicate Within(ds: seq<Diff>, lo: nat, hi: nat)
    decreases |ds|
  {
    lo <= hi && (ds == [] || (lo <= ds[0].start <= ds[0].end <= hi && Within(ds[1..], ds[0].end, hi)))
  }

  // The bytes that stand in the place of `lo..hi` once the edits are applied.
  ghost function Patch(s: seq<byte>, ds: seq<Diff>, lo: nat, hi: nat): seq<byte>
    requires hi <= |s| && Within(ds, lo, hi)
    decreases |ds|
  {
    if ds == [] then s[lo..hi]
    else s[lo..ds[0].start] + ds[0].value + Patch(s, ds[1..], ds[0].end, hi)
  }

  lemma {:induction false} WithinEnds(ds: seq<Diff>, lo: nat, hi: nat)
    requires Within(ds, lo, hi)
    ensures ds != [] ==> ds[0].end <= hi
    ensures forall i :: 0 <= i < |ds| ==> lo <= ds[i].start <= ds[i].end <= hi
    decreases |ds|
  {
    if ds != [] {
      WithinEnds(ds[1..], ds[0].end, hi);
      forall i | 0 <= i < |ds| ensures lo <= ds[i].start <= ds[i].end <= hi {
        if i > 0 {
          assert ds[i] == ds[1..][i - 1];
        }
      }
    }
  }

  /** Edits of adjacent regions compose, and so do the patched regions. */
  lemma {:induction false} WithinOrder(ds: seq<Diff>, lo: nat, hi: nat)
    requires Within(ds, lo, hi)
    ensures lo <= hi && (ds != [] ==> ds[0].end <= hi)
  {
  }

  lemma {:induction false} GapBefore(s: seq<byte>, b: seq<Diff>, lo: nat, mid: nat, hi: nat)
    requires lo <= mid && hi <= |s| && Within(b, mid, hi)
    ensures Within(b, lo, hi) && Patch(s, b, lo, hi) == s[lo..mid] + Patch(s, b, mid, hi)
  {
    WithinOrder(b, mid, hi);
    if b == [] {
      assert s[lo..hi] == s[lo..mid] + s[mid..hi];
    } else {
      var more := Patch(s, b[1..], b[0].end, hi);
      assert s[lo..b[0].start] == s[lo..mid] + s[mid..b[0].start];
      assert s[lo..b[0].start] + b[0].value + more == s[lo..mid] + (s[mid..b[0].start] + b[0].value + more);
    }
  }

  lemma {:induction false} PatchConcat(s: seq<byte>, a: seq<Diff>, b: seq<Diff>, lo: nat, mid: nat, hi: nat)
    requires hi <= |s| && Within(a, lo, mid) && Within(b, mid, hi)
    ensures Within(a + b, lo, hi) && Patch(s, a + b, lo, hi) == Patch(s, a, lo, mid) + Patch(s, b, mid, hi)
    decreases |a|
  {
    if a == [] {
      assert a + b == b;
      GapBefore(s, b, lo, mid, hi);
    } else {
      var head, left, right := s[lo..a[0].start] + a[0].value, Patch(s, a[1..], a[0].end, mid), Patch(s, b, mid, hi);
      PatchConcat(s, a[1..], b, a[0].end, mid, hi);
      assert (a + b)[1..] == a[1..] + b;
      assert head + (left + right) == head + left + right;
    }
  }

  lemma {:induction false} PatchIsSplice(s: seq<byte>, ds: seq<Diff>, lo: nat)
    requires Within(ds, lo, |s|)
    ensures Disjoint(ds, lo, |s|) && Spliced(s, ds, lo) == Patch(s, ds, lo, |s|)
    decreases |ds|
  {
    assert s[lo..|s|] == s[lo..];
    if ds != [] {
      PatchIsSplice(s, ds[1..], ds[0].end);
    }
  }

  // ----- Address tables -----

  // Every 16-byte address of `b` with four zero bytes in front.
  ghost function PadAddresses(b: seq<byte>): seq<byte>
    decreases |b|
  {
    if |b| < LIBRA_ADDR_LEN then b else PADDING + b[..LIBRA_ADDR_LEN] + PadAddresses(b[LIBRA_ADDR_LEN..])
  }

  lemma {:induction false} AddressPatch(s: seq<byte>, at: nat, len: nat)
    requires at + len <= |s| && len % LIBRA_ADDR_LEN == 0
    ensures Within(AddressEdits(at, len), at, at + len)
    ensures Patch(s, AddressEdits(at, len), at, at + len) == PadAddresses(s[at..at + len])
    decreases len
  {
    if len >= LIBRA_ADDR_LEN {
      var d := Diff(at, at, PADDING);
      var next := at + LIBRA_ADDR_LEN;
      AddressPatch(s, next, len - LIBRA_ADDR_LEN);
      assert Within([d][1..], at, next);
      assert Patch(s, [d][1..], at, next) == s[at..next];
      PatchConcat(s, [d], AddressEdits(next, len - LIBRA_ADDR_LEN), at, next, at + len);
      var b := s[at..at + len];
      assert b[..LIBRA_ADDR_LEN] == s[at..next] && b[LIBRA_ADDR_LEN..] == s[next..at + len];
      assert Patch(s, [d], at, next) == PADDING + s[at..next];
    }
  }

  ghost function BigEndian(b: seq<byte>): nat {
    if b == [] then 0 else BigEndian(b[..|b| - 1]) * 256 + b[|b| - 1]
  }

  /** Zero bytes in front keep the number that an address stands for. */
  lemma {:induction false} PaddingKeepsValue(a: seq<byte>)
    ensures BigEndian(PADDING + a) == BigEndian(a)
  {
    if a == [] {
      assert PADDING + a == PADDING;
      assert PADDING[..3] == [0, 0, 0] && PADDING[..3][..2] == [0, 0] && PADDING[..3][..2][..1] == [0];
      assert BigEndian([0, 0]) == 0;
    } else {
      PaddingKeepsValue(a[..|a| - 1]);
      assert (PADDING + a)[..|PADDING + a| - 1] == PADDING + a[..|a| - 1];
    }
  }

  /** Address `i` of a padded table is address `i` before with four zero bytes in front, and
      has the same value. */
  lemma {:induction false} PaddedAddress(b: seq<byte>, i: nat)
    requires |b| % 16 == 0 && 16 * i + 16 <= |b|
    ensures 20 * i + 20 <= |PadAddresses(b)|
    ensures PadAddresses(b)[20 * i..20 * i + 20] == [0, 0, 0, 0] + b[16 * i..16 * i + 16]
    ensures BigEndian(PadAddresses(b)[20 * i..20 * i + 20]) == BigEndian(b[16 * i..16 * i + 16])
    decreases |b|
  {
    hide BigEndian;
    var head, rest := b[..16], b[16..];
    var padded, more := PADDING + head, PadAddresses(rest);
    assert PadAddresses(b) == padded + more;
    if i == 0 {
      assert (padded + more)[..20] == padded;
    } else {
      PaddedAddress(rest, i - 1);
      assert (padded + more)[20 * i..20 * i + 20] == more[20 * (i - 1)..20 * (i - 1) + 20];
      assert b[16 * i..16 * i + 16] == rest[16 * (i - 1)..16 * (i - 1) + 16];
    }
    PaddingKeepsValue(b[16 * i..16 * i + 16]);
  }

  lemma {:induction false} PaddedLength(b: seq<byte>)
    requires |b| % 16 == 0
    ensures |PadAddresses(b)| == |b| / 16 * 20
    decreases |b|
  {
    if |b| >= LIBRA_ADDR_LEN {
      PaddedLength(b[LIBRA_ADDR_LEN..]);
    }
  }
}
