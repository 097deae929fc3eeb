// The repair itself: the rebuild loop of fix_database and the rewrite of the
// checksum header.

module Rebuild {
  import opened Bytes
  import opened Scanner

  /** What a 17-byte NATIVE_SELECTED window is replaced by: 21 bytes. The
      tool's replacement is DISCLAIMER_ACCEPTED; the splice is stated for
      any replacement of that length. */
  type Replacement = s: seq<byte> | |s| == DisclaimerLen witness DisclaimerAccepted

  /** The blob from offset `r` on, with the NATIVE_SELECTED window at each of
      `ps` replaced by `rep` and every other byte kept. */
  function Spliced(blob: seq<byte>, ps: seq<nat>, r: nat, rep: Replacement): (out: seq<byte>)
    requires r <= |blob| && SpacedFrom(ps, r, |blob|)
    decreases |ps|
  {
    if ps == [] then blob[r..]
    else blob[r..ps[0]] + rep + Spliced(blob, ps[1..], ps[0] + NativeLen, rep)
  }

  /** One step of the definition of Spliced, with the spacing it carries. */
  lemma SplicedUnfold(blob: seq<byte>, ps: seq<nat>, r: nat, rep: Replacement)
    requires r <= |blob| && SpacedFrom(ps, r, |blob|) && ps != []
    ensures r <= ps[0] && ps[0] + NativeLen <= |blob| && SpacedFrom(ps[1..], ps[0] + NativeLen, |blob|)
    ensures Spliced(blob, ps, r, rep)
         == (blob[r..ps[0]] + rep) + Spliced(blob, ps[1..], ps[0] + NativeLen, rep)
  {
  }

  /** Each replaced window adds four bytes. */
  lemma {:induction false} SplicedLength(blob: seq<byte>, ps: seq<nat>, r: nat, rep: Replacement)
    requires r <= |blob| && SpacedFrom(ps, r, |blob|)
    ensures |Spliced(blob, ps, r, rep)| == |blob| - r + 4 * |ps|
    decreases |ps|
  {
    if ps != [] {
      SplicedLength(blob, ps[1..], ps[0] + NativeLen, rep);
    }
  }

  /** How many of the windows start before offset `i`. */
  function Earlier(ps: seq<nat>, i: nat): nat
  {
    if ps == [] then 0 else (if ps[0] < i then 1 else 0) + Earlier(ps[1..], i)
  }

  /** No window starts before the lower bound of spaced windows. */
  lemma {:induction false} EarlierNone(ps: seq<nat>, lo: nat, n: nat, i: nat)
    requires SpacedFrom(ps, lo, n) && i <= lo
    ensures Earlier(ps, i) == 0
    decreases |ps|
  {
    if ps != [] {
      EarlierNone(ps[1..], ps[0] + NativeLen, n, i);
    }
  }

  /** Offset `i` lies in none of the windows. */
  predicate Outside(ps: seq<nat>, i: nat)
  {
    forall k :: 0 <= k < |ps| ==> !(ps[k] <= i < ps[k] + NativeLen)
  }

  /** A slice of the second half of a concatenation. */
  lemma SliceAfter(a: seq<byte>, b: seq<byte>, i: nat, n: nat)
    requires i + n <= |b|
    ensures (a + b)[|a| + i..|a| + i + n] == b[i..i + n]
  {
  }

  /** `rep` stands in `out` at offset `at`. */
  predicate ReplacedAt(out: seq<byte>, at: int, rep: Replacement)
  {
    0 <= at && at + DisclaimerLen <= |out| && out[at..at + DisclaimerLen] == rep
  }

  /** The window at the k-th position becomes the 21 bytes of the
      replacement, shifted by four bytes per earlier window. */
  lemma {:induction false} SplicedWindow(blob: seq<byte>, ps: seq<nat>, r: nat, k: nat, rep: Replacement)
    requires r <= |blob| && SpacedFrom(ps, r, |blob|) && k < |ps|
    ensures r <= ps[k] && ReplacedAt(Spliced(blob, ps, r, rep), ps[k] - r + 4 * k, rep)
    decreases |ps|
  {
    SplicedUnfold(blob, ps, r, rep);
    var head := blob[r..ps[0]] + rep;
    var rest := Spliced(blob, ps[1..], ps[0] + NativeLen, rep);
    if k == 0 {
      WindowInHead(blob[r..ps[0]], rest, rep);
    } else {
      SplicedWindow(blob, ps[1..], ps[0] + NativeLen, k - 1, rep);
      assert ps[1..][k - 1] == ps[k];
      WindowInRest(head, rest, ps[k] - (ps[0] + NativeLen) + 4 * (k - 1), rep);
      assert |head| == ps[0] - r + DisclaimerLen;
    }
  }

  /** The window right after the copied prefix. */
  lemma WindowInHead(before: seq<byte>, rest: seq<byte>, rep: Replacement)
    ensures ReplacedAt((before + rep) + rest, |before|, rep)
  {
    SliceAfter(before, rep + rest, 0, DisclaimerLen);
    assert (rep + rest)[..DisclaimerLen] == rep;
    assert (before + rep) + rest == before + (rep + rest);
  }

  /** A window inside the second part of a concatenation moves by the
      length of the first. */
  lemma WindowInRest(head: seq<byte>, rest: seq<byte>, at: nat, rep: Replacement)
    requires ReplacedAt(rest, at, rep)
    ensures ReplacedAt(head + rest, |head| + at, rep)
  {
    SliceAfter(head, rest, at, DisclaimerLen);
  }

  /** A byte before the first window keeps its offset. */
  lemma CopyBeforeWindow(blob: seq<byte>, ps: seq<nat>, r: nat, i: nat, rep: Replacement)
    requires r <= i < |blob| && SpacedFrom(ps, r, |blob|) && ps != [] && i < ps[0]
    ensures Earlier(ps, i) == 0
    ensures i - r < |Spliced(blob, ps, r, rep)| && Spliced(blob, ps, r, rep)[i - r] == blob[i]
  {
    EarlierNone(ps[1..], ps[0] + NativeLen, |blob|, i);
    var head := blob[r..ps[0]] + rep;
    SplicedUnfold(blob, ps, r, rep);
    assert head[i - r] == blob[i];
  }

  /** A byte outside every window and past the first lies outside the
      other windows too. */
  lemma OutsideRest(ps: seq<nat>, i: nat)
    requires ps != [] && Outside(ps, i) && ps[0] <= i
    ensures ps[0] + NativeLen <= i && Outside(ps[1..], i)
  {
    assert !(ps[0] <= i < ps[0] + NativeLen);
    forall k | 0 <= k < |ps[1..]|
      ensures !(ps[1..][k] <= i < ps[1..][k] + NativeLen)
    {
      assert ps[1..][k] == ps[k + 1];
    }
  }

  /** Every byte outside the windows is copied, shifted by four bytes per
      window before it. */
  lemma {:induction false} SplicedCopy(blob: seq<byte>, ps: seq<nat>, r: nat, i: nat, rep: Replacement)
    requires r <= i < |blob| && SpacedFrom(ps, r, |blob|) && Outside(ps, i)
    ensures i - r + 4 * Earlier(ps, i) < |Spliced(blob, ps, r, rep)|
    ensures Spliced(blob, ps, r, rep)[i - r + 4 * Earlier(ps, i)] == blob[i]
    decreases |ps|
  {
    if ps != [] {
      if i < ps[0] {
        CopyBeforeWindow(blob, ps, r, i, rep);
      } else {
        OutsideRest(ps, i);
        SplicedUnfold(blob, ps, r, rep);
        var head := blob[r..ps[0]] + rep;
        var rest := Spliced(blob, ps[1..], ps[0] + NativeLen, rep);
        SplicedCopy(blob, ps[1..], ps[0] + NativeLen, i, rep);
        var at := i - (ps[0] + NativeLen) + 4 * Earlier(ps[1..], i);
        assert Earlier(ps, i) == 1 + Earlier(ps[1..], i);
        assert |head| + at == i - r + 4 * Earlier(ps, i);
        assert (head + rest)[|head| + at] == rest[at];
      }
    }
  }

  /** With no windows the payload is untouched. */
  lemma SplicedNothing(blob: seq<byte>, rep: Replacement)
    ensures Spliced(blob, [], 0, rep) == blob
  {
  }

  /** The blob fix_database writes back: the payload with each window
      replaced by `rep`, under an 8-byte header holding the CRC-32 of
      everything after it. */
  function Repaired(blob: seq<byte>, ps: seq<nat>, rep: Replacement): seq<byte>
    requires 8 <= |blob| && SpacedFrom(ps, 0, |blob|)
  {
    var body := Spliced(blob, ps, 0, rep);
    SplicedLength(blob, ps, 0, rep);
    Be64Bytes(Crc32(body[8..])) + body[8..]
  }

  /** The repaired blob grows by four bytes per issue, keeps the spliced
      payload after its header, and carries a valid checksum: bytes 0..3
      are zero and bytes 4..7 hold the big-endian CRC-32 of the rest. */
  lemma RepairedHeader(blob: seq<byte>, ps: seq<nat>, rep: Replacement)
    requires 8 <= |blob| && SpacedFrom(ps, 0, |blob|)
    ensures var out := Repaired(blob, ps, rep);
            && |out| == |blob| + 4 * |ps|
            && out[8..] == Spliced(blob, ps, 0, rep)[8..]
            && out[..4] == [0, 0, 0, 0]
            && ReadBe32(out, 4) == Crc32(out[8..])
            && ReadBe64(out, 0) == Crc32(out[8..])
  {
    var body := Spliced(blob, ps, 0, rep);
    SplicedLength(blob, ps, 0, rep);
    var c := Crc32(body[8..]);
    var out := Be64Bytes(c) + body[8..];
    assert out[8..] == body[8..];
    Be64BytesOf32(c);
    ReadAfterWrite64(c, body[8..]);
    assert out[..4] == Be64Bytes(c)[..4];
    assert ReadBe32(out, 4) == ReadBe32(Be64Bytes(c), 4);
  }

  /** Without issues a blob whose checksum is already valid is written back
      unchanged. */
  lemma RepairedUnchanged(blob: seq<byte>, rep: Replacement)
    requires 8 <= |blob| && ReadBe64(blob, 0) == Crc32(blob[8..])
    ensures Repaired(blob, [], rep) == blob
  {
    WriteAfterRead64(blob);
    assert blob[..8] + blob[8..] == blob;
  }

  /** The at_issue search: whether `readPos` is one of the issue positions. */
  method AtIssue(ps: seq<nat>, readPos: nat) returns (atIssue: bool)
    ensures atIssue <==> readPos in ps
  {
    atIssue := false;
    var i := 0;
    while i < |ps|
      invariant i <= |ps| && readPos !in ps[..i]
    {
      if readPos == ps[i] {
        atIssue := true;
        return;
      }
      assert ps[..i + 1] == ps[..i] + [ps[i]];
      i := i + 1;
    }
    assert ps[..i] == ps;
  }

  /** The memcpy of the replacement to offset `at`. */
  method PutReplacement(buf: array<byte>, at: nat, rep: Replacement)
    requires at + DisclaimerLen <= buf.Length
    modifies buf
    ensures buf[..] == old(buf[..at]) + rep + old(buf[at + DisclaimerLen..])
  {
    forall k | 0 <= k < DisclaimerLen {
      buf[at + k] := rep[k];
    }
  }

  /** The header rewrite: the CRC-32 of everything after the 8-byte header,
      stored big-endian in that header. */
  method WriteChecksum(buf: array<byte>)
    requires buf.Length >= 8
    modifies buf
    ensures buf[..] == Be64Bytes(Crc32(old(buf[8..]))) + old(buf[8..])
  {
    var newCrc := Crc32(buf[8..]);
    WriteBe64(buf, newCrc);
  }

  /** Counting the windows before `i` when exactly the first `j` start
      before it. */
  lemma {:induction false} EarlierCount(ps: seq<nat>, i: nat, j: nat)
    requires j <= |ps|
    requires forall k :: 0 <= k < j ==> ps[k] < i
    requires forall k :: j <= k < |ps| ==> i <= ps[k]
    ensures Earlier(ps, i) == j
    decreases |ps|
  {
    if ps != [] {
      var j' := if j > 0 then j - 1 else 0;
      forall k | 0 <= k < j'
        ensures ps[1..][k] < i
      {
        assert ps[1..][k] == ps[k + 1];
      }
      forall k | j' <= k < |ps[1..]|
        ensures i <= ps[1..][k]
      {
        assert ps[1..][k] == ps[k + 1];
      }
      EarlierCount(ps[1..], i, j');
    }
  }

  /** The state of the rebuild loop: `j` windows read, the read cursor at
      `r` past all of them and not past the next, the write cursor at `w`,
      four bytes ahead per window read; what is written so far is the
      start of the whole splice, whose length the buffer has. */
  ghost predicate Progress(blob: seq<byte>, ps: seq<nat>, rep: Replacement, buf: seq<byte>, w: nat, r: nat, j: nat)
    requires SpacedFrom(ps, 0, |blob|)
  {
    && j <= |ps| && r <= |blob| && w == r + 4 * j
    && |buf| == |blob| + 4 * |ps| == |Spliced(blob, ps, 0, rep)|
    && (forall k :: 0 <= k < j ==> ps[k] + NativeLen <= r)
    && (j < |ps| ==> r <= ps[j])
    && buf[..w] == Spliced(blob, ps, 0, rep)[..w]
  }

  /** At the read cursor, the cursor is an issue position exactly when it is
      the next window's; otherwise it lies outside every window, after
      exactly `j` of them. */
  lemma IssueHere(blob: seq<byte>, ps: seq<nat>, rep: Replacement, buf: seq<byte>, w: nat, r: nat, j: nat)
    requires SpacedFrom(ps, 0, |blob|) && Progress(blob, ps, rep, buf, w, r, j)
    ensures (r in ps) <==> (j < |ps| && ps[j] == r)
    ensures r !in ps ==> Outside(ps, r) && Earlier(ps, r) == j
  {
    SpacedBounds(ps, 0, |blob|);
    if r !in ps {
      forall k | j <= k < |ps|
        ensures r <= ps[k]
      {
        if k > j {
          assert ps[j] + NativeLen <= ps[k];
        }
      }
      EarlierCount(ps, r, j);
    }
  }

  /** The copy branch keeps the loop state. */
  lemma CopyProgress(blob: seq<byte>, ps: seq<nat>, rep: Replacement, buf: seq<byte>, buf': seq<byte>,
                     w: nat, r: nat, j: nat)
    requires SpacedFrom(ps, 0, |blob|) && r < |blob|
    requires Progress(blob, ps, rep, buf, w, r, j) && r !in ps
    requires |buf'| == |buf| && buf'[..w] == buf[..w] && buf'[w] == blob[r]
    ensures Progress(blob, ps, rep, buf', w + 1, r + 1, j)
  {
    IssueHere(blob, ps, rep, buf, w, r, j);
    SplicedCopy(blob, ps, 0, r, rep);
    var whole := Spliced(blob, ps, 0, rep);
    assert buf'[..w + 1] == buf'[..w] + [buf'[w]];
    assert whole[..w + 1] == whole[..w] + [whole[w]];
  }

  /** The window branch keeps the loop state. */
  lemma WindowProgress(blob: seq<byte>, ps: seq<nat>, rep: Replacement, buf: seq<byte>, buf': seq<byte>,
                       w: nat, r: nat, j: nat)
    requires SpacedFrom(ps, 0, |blob|)
    requires Progress(blob, ps, rep, buf, w, r, j) && r in ps
    requires |buf'| == |buf| && w + DisclaimerLen <= |buf|
    requires buf'[..w] == buf[..w] && buf'[w..w + DisclaimerLen] == rep
    ensures Progress(blob, ps, rep, buf', w + DisclaimerLen, r + NativeLen, j + 1)
  {
    IssueHere(blob, ps, rep, buf, w, r, j);
    SplicedWindow(blob, ps, 0, j, rep);
    SpacedBounds(ps, 0, |blob|);
    var whole := Spliced(blob, ps, 0, rep);
    assert buf'[..w + DisclaimerLen] == buf'[..w] + buf'[w..w + DisclaimerLen];
    assert whole[..w + DisclaimerLen] == whole[..w] + whole[w..w + DisclaimerLen];
  }

  /** One pass of the rebuild loop: the at_issue search, then either the
      21-byte replacement or a one-byte copy. */
  method SpliceStep(blob: seq<byte>, ps: seq<nat>, rep: Replacement, newBlob: array<byte>,
                    w: nat, r: nat, ghost j: nat)
    returns (w': nat, r': nat, ghost j': nat)
    requires SpacedFrom(ps, 0, |blob|) && r < |blob|
    requires Progress(blob, ps, rep, newBlob[..], w, r, j)
    modifies newBlob
    ensures r < r' && Progress(blob, ps, rep, newBlob[..], w', r', j')
  {
    var atIssue := AtIssue(ps, r);
    ghost var before := newBlob[..];
    if atIssue {
      IssueHere(blob, ps, rep, before, w, r, j);
      SplicedWindow(blob, ps, 0, j, rep);
      PutReplacement(newBlob, w, rep);
      assert newBlob[..][..w] == before[..w];
      assert newBlob[..][w..w + DisclaimerLen] == rep;
      WindowProgress(blob, ps, rep, before, newBlob[..], w, r, j);
      w', r', j' := w + DisclaimerLen, r + NativeLen, j + 1;
    } else {
      IssueHere(blob, ps, rep, before, w, r, j);
      SplicedCopy(blob, ps, 0, r, rep);
      PutByte(newBlob, w, blob[r]);
      assert newBlob[..][..w] == before[..w];
      CopyProgress(blob, ps, rep, before, newBlob[..], w, r, j);
      w', r', j' := w + 1, r + 1, j;
    }
  }

  /** The rebuild loop: a new buffer four bytes longer per issue, filled
      with the spliced blob. */
  method SpliceInto(blob: seq<byte>, ps: seq<nat>, rep: Replacement) returns (newBlob: array<byte>)
    requires SpacedFrom(ps, 0, |blob|)
    ensures fresh(newBlob) && newBlob[..] == Spliced(blob, ps, 0, rep)
  {
    var newLen := |blob| + |ps| * (DisclaimerLen - NativeLen);
    newBlob := new byte[newLen];
    var writePos: nat, readPos: nat := 0, 0;
    ghost var j: nat := 0;
    SplicedLength(blob, ps, 0, rep);
    while readPos < |blob|
      invariant Progress(blob, ps, rep, newBlob[..], writePos, readPos, j)
      decreases |blob| - readPos
    {
      writePos, readPos, j := SpliceStep(blob, ps, rep, newBlob, writePos, readPos, j);
    }
    AllRead(blob, ps, rep, newBlob[..], writePos, readPos, j);
  }

  /** When the read cursor reaches the end, every window has been read and
      the buffer holds the whole splice. */
  lemma AllRead(blob: seq<byte>, ps: seq<nat>, rep: Replacement, buf: seq<byte>, w: nat, r: nat, j: nat)
    requires SpacedFrom(ps, 0, |blob|) && Progress(blob, ps, rep, buf, w, r, j) && r >= |blob|
    ensures buf == Spliced(blob, ps, 0, rep)
  {
    SpacedBounds(ps, 0, |blob|);
    assert j == |ps|;
    assert buf == buf[..w];
  }

  /** One byte of the copy branch. */
  method PutByte(buf: array<byte>, at: nat, b: byte)
    requires at < buf.Length
    modifies buf
    ensures buf[..at + 1] == old(buf[..at]) + [b]
    ensures buf[..] == old(buf[..at]) + [b] + old(buf[at + 1..])
  {
    buf[at] := b;
  }

  /** The rebuild loop and the header rewrite with DISCLAIMER_ACCEPTED as
      the replacement: the new blob is the repaired blob. */
  method RebuildBlob(blob: seq<byte>, ps: seq<nat>) returns (newBlob: array<byte>)
    requires 8 <= |blob| && SpacedFrom(ps, 0, |blob|)
    ensures fresh(newBlob) && newBlob[..] == Repaired(blob, ps, DisclaimerAccepted)
  {
    newBlob := SpliceInto(blob, ps, DisclaimerAccepted);
    SplicedLength(blob, ps, 0, DisclaimerAccepted);
    WriteChecksum(newBlob);
  }
}
