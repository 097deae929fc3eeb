// The scan for the corrupted userAcceptState value: find_issues.

module Scanner {
  import opened Bytes
  import opened DeviceList

  /** The stored value "NATIVE_SELECTED": a big-endian 16-bit length (15)
      followed by its 15 characters. */
  const NativeSelected: seq<byte> :=
    [0x00, 0x0F, 0x4E, 0x41, 0x54, 0x49, 0x56, 0x45, 0x5F, 0x53, 0x45, 0x4C, 0x45, 0x43, 0x54, 0x45, 0x44]
  const NativeLen: nat := 17

  /** The replacement "DISCLAIMER_ACCEPTED": length 19, then its characters. */
  const DisclaimerAccepted: seq<byte> :=
    [0x00, 0x13, 0x44, 0x49, 0x53, 0x43, 0x4C, 0x41, 0x49, 0x4D, 0x45, 0x52, 0x5F, 0x41, 0x43, 0x43, 0x45, 0x50, 0x54, 0x45, 0x44]
  const DisclaimerLen: nat := 21

  /** How many devices find_issues asks the device-list walker for. */
  const MaxParsed: nat := 32

  /** Both patterns are length-prefixed strings of the lengths the tool uses. */
  lemma PatternsAreStrings()
    ensures |NativeSelected| == NativeLen && ReadBe16(NativeSelected, 0) == NativeLen - 2
    ensures |DisclaimerAccepted| == DisclaimerLen && ReadBe16(DisclaimerAccepted, 0) == DisclaimerLen - 2
    ensures DisclaimerLen - NativeLen == 4
  {
  }

  /** A reported problem: where NATIVE_SELECTED starts and the device it belongs to. */
  datatype Issue = Issue(position: nat, deviceName: seq<byte>)

  /** The 17 bytes at `p` are the NATIVE_SELECTED value (the memcmp test). */
  predicate MatchAt(blob: seq<byte>, p: nat)
  {
    p + NativeLen <= |blob| && blob[p..p + NativeLen] == NativeSelected
  }

  /** The occurrences at or after `from`, in the order the scan meets them. */
  function MatchesFrom(blob: seq<byte>, from: nat): (ms: seq<nat>)
    decreases |blob| - from
  {
    if from + NativeLen > |blob| then []
    else if MatchAt(blob, from) then [from] + MatchesFrom(blob, from + 1)
    else MatchesFrom(blob, from + 1)
  }

  /** Every occurrence of NATIVE_SELECTED in the blob, header included. */
  function Matches(blob: seq<byte>): (ms: seq<nat>)
  {
    MatchesFrom(blob, 0)
  }

  /** `ps` are the starts of non-overlapping 17-byte windows of an `n`-byte
      blob, in increasing order, none starting before `lo`. */
  predicate SpacedFrom(ps: seq<nat>, lo: nat, n: nat)
    decreases |ps|
  {
    ps == [] || (lo <= ps[0] && ps[0] + NativeLen <= n && SpacedFrom(ps[1..], ps[0] + NativeLen, n))
  }

  /** Windows that are spaced are inside the blob and at least 17 apart. */
  lemma {:induction false} SpacedBounds(ps: seq<nat>, lo: nat, n: nat)
    requires SpacedFrom(ps, lo, n)
    ensures forall k :: 0 <= k < |ps| ==> lo <= ps[k] && ps[k] + NativeLen <= n
    ensures forall i, j :: 0 <= i < j < |ps| ==> ps[i] + NativeLen <= ps[j]
    decreases |ps|
  {
    if ps != [] {
      SpacedBounds(ps[1..], ps[0] + NativeLen, n);
      assert forall k :: 0 < k < |ps| ==> ps[k] == ps[1..][k - 1];
    }
  }

  /** A lower starting bound keeps spaced windows spaced. */
  lemma SpacedLower(ps: seq<nat>, lo: nat, lo': nat, n: nat)
    requires SpacedFrom(ps, lo, n) && (ps != [] ==> lo' <= ps[0])
    ensures SpacedFrom(ps, lo', n)
  {
  }

  /** Dropping windows from the end keeps the rest spaced. */
  lemma {:induction false} SpacedPrefix(ps: seq<nat>, lo: nat, n: nat, m: nat)
    requires SpacedFrom(ps, lo, n) && m <= |ps|
    ensures SpacedFrom(ps[..m], lo, n)
    decreases |ps|
  {
    if m > 0 {
      SpacedPrefix(ps[1..], ps[0] + NativeLen, n, m - 1);
      assert ps[..m][1..] == ps[1..][..m - 1];
    }
  }

  /** The byte at `q` inside an occurrence at `p` is the pattern's byte at `q - p`. */
  lemma WindowByte(blob: seq<byte>, p: nat, q: nat)
    requires MatchAt(blob, p) && p <= q < p + NativeLen
    ensures blob[q] == NativeSelected[q - p]
  {
    assert blob[p..p + NativeLen][q - p] == blob[q];
  }

  /** NATIVE_SELECTED holds a zero byte only at index 0. */
  lemma PatternZeroOnlyFirst(d: nat)
    requires 0 < d < NativeLen
    ensures NativeSelected[d] != 0
  {
  }

  /** The pattern's only zero byte is its first, so two occurrences never
      overlap. */
  lemma NoSelfOverlap(blob: seq<byte>, p: nat, q: nat)
    requires MatchAt(blob, p) && MatchAt(blob, q) && p < q
    ensures p + NativeLen <= q
  {
    if q < p + NativeLen {
      PatternZeroOnlyFirst(q - p);
      WindowByte(blob, q, q);
      WindowByte(blob, p, q);
      assert false;
    }
  }

  /** Everything listed from `from` on is an occurrence at or after `from`. */
  lemma {:induction false} MatchesFromSound(blob: seq<byte>, from: nat)
    ensures forall k :: 0 <= k < |MatchesFrom(blob, from)| ==>
              from <= MatchesFrom(blob, from)[k] && MatchAt(blob, MatchesFrom(blob, from)[k])
    decreases |blob| - from
  {
    if from + NativeLen <= |blob| {
      MatchesFromSound(blob, from + 1);
    }
  }

  /** Every occurrence at or after `from` is listed. */
  lemma {:induction false} MatchesFromComplete(blob: seq<byte>, from: nat, p: nat)
    requires from <= p && MatchAt(blob, p)
    ensures p in MatchesFrom(blob, from)
    decreases |blob| - from
  {
    if from < p {
      MatchesFromComplete(blob, from + 1, p);
    }
  }

  /** The occurrences found from `from` on are non-overlapping and in order. */
  lemma {:induction false} MatchesFromSpaced(blob: seq<byte>, from: nat)
    ensures SpacedFrom(MatchesFrom(blob, from), from, |blob|)
    decreases |blob| - from
  {
    if from + NativeLen <= |blob| {
      var rest := MatchesFrom(blob, from + 1);
      MatchesFromSpaced(blob, from + 1);
      if MatchAt(blob, from) {
        if rest != [] {
          MatchesFromSound(blob, from + 1);
          NoSelfOverlap(blob, from, rest[0]);
        }
        SpacedLower(rest, from + 1, from + NativeLen, |blob|);
      } else {
        SpacedLower(rest, from + 1, from, |blob|);
      }
    }
  }

  /** The whole list: exactly the occurrences, spaced at least 17 apart. */
  lemma MatchesExact(blob: seq<byte>)
    ensures forall k :: 0 <= k < |Matches(blob)| ==> MatchAt(blob, Matches(blob)[k])
    ensures forall p: nat :: MatchAt(blob, p) ==> p in Matches(blob)
    ensures SpacedFrom(Matches(blob), 0, |blob|)
  {
    MatchesFromSound(blob, 0);
    MatchesFromSpaced(blob, 0);
    forall p: nat | MatchAt(blob, p)
      ensures p in Matches(blob)
    {
      MatchesFromComplete(blob, 0, p);
    }
  }

  /** The bytes of a name buffer up to its first NUL: what strcpy copies. */
  function CString(s: seq<byte>): seq<byte>
  {
    if s == [] || s[0] == 0 then [] else [s[0]] + CString(s[1..])
  }

  /** strcpy copies a NUL-free prefix and stops only at a NUL or the end. */
  lemma {:induction false} CStringPrefix(s: seq<byte>)
    ensures |CString(s)| <= |s| && CString(s) == s[..|CString(s)|]
    ensures forall k :: 0 <= k < |CString(s)| ==> CString(s)[k] != 0
    ensures |CString(s)| < |s| ==> s[|CString(s)|] == 0
  {
    if s != [] && s[0] != 0 {
      CStringPrefix(s[1..]);
    }
  }

  /** The name of the first device whose userAcceptState is at `pos`, or
      "unknown" when none is. */
  function NameFor(devices: seq<Device>, pos: nat): seq<byte>
  {
    if devices == [] then Unknown
    else if devices[0].position == pos then CString(devices[0].name)
    else NameFor(devices[1..], pos)
  }

  /** The name reported is that of the first device at `pos`. */
  lemma {:induction false} NameOfDevice(devices: seq<Device>, pos: nat, k: nat)
    requires k < |devices| && devices[k].position == pos
    requires forall j :: 0 <= j < k ==> devices[j].position != pos
    ensures NameFor(devices, pos) == CString(devices[k].name)
  {
    if k > 0 {
      NameOfDevice(devices[1..], pos, k - 1);
    }
  }

  /** With no device at `pos` the name is "unknown". */
  lemma {:induction false} NameUnknown(devices: seq<Device>, pos: nat)
    requires forall j :: 0 <= j < |devices| ==> devices[j].position != pos
    ensures NameFor(devices, pos) == Unknown
  {
    if devices != [] {
      NameUnknown(devices[1..], pos);
    }
  }

  /** "unknown" holds no NUL, so copying it keeps all of it. */
  lemma UnknownIsCString()
    ensures CString(Unknown) == Unknown
  {
    CStringPrefix(Unknown);
  }

  /** The positions the issues report, in order. */
  function Positions(issues: seq<Issue>): seq<nat>
  {
    seq(|issues|, k requires 0 <= k < |issues| => issues[k].position)
  }

  /** At most `maxIssues` issues, nothing for a non-positive maximum. */
  function Cap(maxIssues: int): nat
  {
    if maxIssues <= 0 then 0 else maxIssues as nat
  }

  /** The name lookup of find_issues: the loop over the parsed devices that
      stops at the first one recorded at `pos`. */
  method NameAt(parsed: seq<Device>, pos: nat) returns (name: seq<byte>)
    ensures name == NameFor(parsed, pos)
  {
    name := Unknown;
    var i := 0;
    while i < |parsed|
      invariant i <= |parsed|
      invariant NameFor(parsed, pos) == NameFor(parsed[i..], pos)
    {
      if parsed[i].position == pos {
        name := CString(parsed[i].name);
        return;
      }
      assert parsed[i..][1..] == parsed[i + 1..];
      i := i + 1;
    }
  }

  /** find_issues: the first `maxIssues` occurrences of NATIVE_SELECTED, in
      order, each named after the parsed device recorded there. */
  method FindIssues(blob: seq<byte>, maxIssues: int) returns (issues: seq<Issue>)
    ensures Positions(issues) == Matches(blob)[..Min(|Matches(blob)|, Cap(maxIssues))]
    ensures forall k :: 0 <= k < |issues| ==>
              issues[k].deviceName == NameFor(DeviceWalk(blob, MaxParsed).devices, issues[k].position)
  {
    var parsed := ParseDeviceNames(blob, MaxParsed);
    issues := [];
    var pos: nat := 0;
    ghost var found: seq<nat> := [];
    while pos + NativeLen <= |blob| && |issues| < maxIssues
      invariant found + MatchesFrom(blob, pos) == Matches(blob)
      invariant Positions(issues) == found && |issues| <= Cap(maxIssues)
      invariant forall k :: 0 <= k < |issues| ==> issues[k].deviceName == NameFor(parsed, issues[k].position)
      decreases |blob| - pos
    {
      if blob[pos..pos + NativeLen] == NativeSelected {
        var name := NameAt(parsed, pos);
        assert found + MatchesFrom(blob, pos) == (found + [pos]) + MatchesFrom(blob, pos + 1);
        issues := issues + [Issue(pos, name)];
        found := found + [pos];
      }
      pos := pos + 1;
    }
    assert found == Matches(blob)[..|found|];
  }

  /** What find_issues reports: strictly increasing positions at least 17
      apart, each an occurrence of NATIVE_SELECTED inside the blob, no more
      than the maximum, and every occurrence while the maximum is not
      reached. */
  lemma ReportedIssues(blob: seq<byte>, maxIssues: int)
    ensures var ps := Matches(blob)[..Min(|Matches(blob)|, Cap(maxIssues))];
            && |ps| <= Cap(maxIssues)
            && SpacedFrom(ps, 0, |blob|)
            && (forall k :: 0 <= k < |ps| ==> MatchAt(blob, ps[k]))
            && (forall i, j :: 0 <= i < j < |ps| ==> ps[i] + NativeLen <= ps[j])
            && (|Matches(blob)| <= Cap(maxIssues) ==> forall p: nat :: MatchAt(blob, p) ==> p in ps)
  {
    var ms := Matches(blob);
    var n := Min(|ms|, Cap(maxIssues));
    MatchesExact(blob);
    SpacedPrefix(ms, 0, |blob|, n);
    SpacedBounds(ms[..n], 0, |blob|);
    assert n == |ms| ==> ms[..n] == ms;
  }

  /** Each issue carries the name of the parsed device recorded at its
      position, if there is one, and "unknown" otherwise. */
  lemma IssueNames(blob: seq<byte>, pos: nat)
    ensures var parsed := DeviceWalk(blob, MaxParsed).devices;
            && (forall k :: 0 <= k < |parsed| && parsed[k].position == pos ==>
                  NameFor(parsed, pos) == CString(parsed[k].name))
            && ((forall k :: 0 <= k < |parsed| ==> parsed[k].position != pos) ==>
                  NameFor(parsed, pos) == Unknown)
  {
    var parsed := DeviceWalk(blob, MaxParsed).devices;
    DeviceWalkWithin(blob, MaxParsed);
    forall k | 0 <= k < |parsed| && parsed[k].position == pos
      ensures NameFor(parsed, pos) == CString(parsed[k].name)
    {
      NameOfDevice(parsed, pos, k);
    }
    if forall k :: 0 <= k < |parsed| ==> parsed[k].position != pos {
      NameUnknown(parsed, pos);
    }
  }
}
