/** FollowerOtaImage.h: what a packed firmware upload is checked for, and why the boot
    copier can then unpack it in place. */
module FollowerOtaImage {
  import opened Wrappers

  const SECTOR: nat := 0x1000
  const IMAGE_HEADER_LEN: nat := 4
  const WRAP: nat := 0x1_0000_0000
  const ERASED: u8 := 0xFF

  // ---- the tail of the stream -------------------------------------------------------

  function EndOf(s: seq<u8>): (t: seq<u8>)
    requires |s| >= 4
    ensures |t| == 4
  {
    s[|s| - 4..]
  }

  /** The last four of a stream, with zeros before its beginning. */
  function LastFour(stream: seq<u8>): (t: seq<u8>)
    ensures |t| == 4
  {
    EndOf([0, 0, 0, 0] + stream)
  }

  lemma EndOfFour(s: seq<u8>)
    requires |s| == 4
    ensures EndOf(s + []) == s
  {
  }

  lemma EndOfEnd(s: seq<u8>, more: seq<u8>)
    requires |s| >= 4
    ensures EndOf(EndOf(s) + more) == EndOf(s + more)
  {
    var k := |s| - 4;
    assert s + more == s[..k] + (s[k..] + more);
  }

  lemma EndOfOneMore(s: seq<u8>, b: u8)
    requires |s| >= 4
    ensures EndOf(s + [b]) == [EndOf(s)[1], EndOf(s)[2], EndOf(s)[3], b]
  {
  }

  lemma EndOfLong(s: seq<u8>, data: seq<u8>, skipped: nat)
    requires |s| >= 4 && |data| > 4 && skipped == |data| - 4
    ensures EndOf(EndOf(s) + data[skipped..]) == EndOf(s + data) == data[skipped..]
  {
  }

  /** ISIZE of section 2.3.1 of RFC 1952: the unpacked length, low byte first. */
  function UnpackedLen(last: seq<u8>): u32
    requires |last| == 4
  {
    var b0: int, b1: int, b2: int, b3: int := last[0], last[1], last[2], last[3];
    b0 + 0x100 * b1 + 0x1_0000 * b2 + 0x100_0000 * b3
  }

  /** The four bytes a gzip file ends with: its unpacked length `n`, low byte first. */
  predicate EndsWithLength(last: seq<u8>, n: u32) {
    |last| == 4 && last[0] == n % 0x100 && last[1] == n / 0x100 % 0x100
    && last[2] == n / 0x1_0000 % 0x100 && last[3] == n / 0x100_0000
  }

  /** Four bytes read as one number exactly if they are that number's. */
  lemma LengthReadsBack(last: seq<u8>, n: u32)
    requires |last| == 4
    ensures UnpackedLen(last) == n <==> EndsWithLength(last, n)
  {
    Digits(last[0], last[1], last[2], last[3]);
    assert n / 0x100 / 0x100 == n / 0x1_0000 && n / 0x1_0000 / 0x100 == n / 0x100_0000;
  }

  lemma Digits(b0: u8, b1: u8, b2: u8, b3: u8)
    ensures var n := b0 + 0x100 * b1 + 0x1_0000 * b2 + 0x100_0000 * b3;
      n % 0x100 == b0 && n / 0x100 % 0x100 == b1 && n / 0x1_0000 % 0x100 == b2 && n / 0x100_0000 == b3
  {
    var n2 := b1 + 0x100 * b2 + 0x1_0000 * b3;
    var n3 := b2 + 0x100 * b3;
    var n: nat := b0 + 0x100 * n2;
    assert n / 0x100 == n2 && n2 / 0x100 == n3 && n3 / 0x100 == b3;
    assert n / 0x1_0000 == n / 0x100 / 0x100 && n / 0x100_0000 == n / 0x100 / 0x100 / 0x100;
  }

  /** Of a stream of four bytes or more the tail is its last four. */
  lemma TailIsTheEnd(stream: seq<u8>)
    requires |stream| >= 4
    ensures LastFour(stream) == stream[|stream| - 4..]
  {
  }

  class OtaGzipTail {
    var last: seq<u8>
    var seen: nat
    /** Everything fed so far. */
    ghost var stream: seq<u8>

    ghost predicate Valid()
      reads this
    {
      last == LastFour(stream) && seen == |stream|
    }

    constructor ()
      ensures Valid() && stream == []
    {
      last, seen, stream := [0, 0, 0, 0], 0, [];
    }

    /** However the stream is cut, the tail is the stream's own. */
    method Feed(data: seq<u8>)
      requires Valid()
      modifies this
      ensures Valid() && stream == old(stream) + data
    {
      hide EndOf;
      var i := if |data| > 4 then |data| - 4 else 0;
      EndOfFour(last);
      ghost var skipped := i;
      assert data[i..i] == [];
      while i < |data|
        invariant skipped <= i <= |data| && stream == old(stream) && seen == old(seen)
        invariant |last| == 4
        invariant last == EndOf(old(last) + data[skipped..i])
      {
        assert old(last) + data[skipped..i + 1] == (old(last) + data[skipped..i]) + [data[i]];
        EndOfOneMore(old(last) + data[skipped..i], data[i]);
        last := [last[1], last[2], last[3], data[i]];
        i := i + 1;
      }
      assert data[skipped..i] == data[skipped..];
      ghost var padded := [0, 0, 0, 0] + stream;
      assert data[0..] == data && [0, 0, 0, 0] + (stream + data) == padded + data;
      if skipped > 0 { EndOfLong(padded, data, skipped); } else { EndOfEnd(padded, data); }
      seen := seen + |data|;
      stream := stream + data;
    }
  }

  // ---- the arithmetic, on 32 bits -------------------------------------------------------

  function SectorCeil(n: u32): u32 {
    (n + SECTOR - 1) % WRAP / SECTOR * SECTOR
  }

  /** Rounding up to a sector rounds up exactly as long as the sum does not wrap. */
  lemma SectorCeilRoundsUp(n: u32)
    ensures n <= SectorCeil(n) <==> n + SECTOR - 1 < WRAP
    ensures n + SECTOR - 1 < WRAP ==> SectorCeil(n) < n + SECTOR
    ensures SectorCeil(n) % SECTOR == 0
  {
  }

  function GzipReserve(contentLen: u32, maxSpace: u32): u32 {
    if contentLen == 0 then maxSpace
    else if SectorCeil(contentLen) < maxSpace then SectorCeil(contentLen) else maxSpace
  }

  /** The reserve takes the upload whenever the free space does, in whole sectors. */
  lemma ReserveTakesTheUpload(contentLen: u32, maxSpace: u32)
    requires maxSpace % SECTOR == 0 && contentLen <= maxSpace && maxSpace + SECTOR < WRAP
    ensures var r := GzipReserve(contentLen, maxSpace);
      && contentLen <= r <= maxSpace && r % 4096 == 0
      && (if contentLen == 0 then r == maxSpace else r < contentLen + 4096)
  {
    SectorCeilRoundsUp(contentLen);
  }

  predicate UnpackFits(last: seq<u8>, seen: nat, appArea: u32, reserved: u32)
    requires |last| == 4
  {
    var n := UnpackedLen(last);
    && !(seen < 4 || n < IMAGE_HEADER_LEN)
    && !(reserved > appArea || n > appArea)
    && SectorCeil(n) <= appArea - reserved
  }

  // ---- the boot copier -------------------------------------------------------------------

  /** What it can do next: read a byte of the stored copy, erase the next sector from
      0 upward, or write the next unpacked byte. */
  datatype Action = Read | EraseNext | WriteNext

  datatype Copier = Copier(flash: seq<u8>, got: seq<u8>, erased: nat, out: nat)

  /** One unpacking job: `len` bytes from the copy in [start, end), and what its bytes
      so far unpack to. */
  datatype Job = Job(start: nat, end: nat, len: nat, inflate: seq<u8> -> seq<u8>)

  function Act(j: Job, c: Copier, a: Action): Copier
    requires j.start <= j.end <= |c.flash|
  {
    match a
    case Read =>
      if j.start + |c.got| < j.end then c.(got := c.got + [c.flash[j.start + |c.got|]]) else c
    case EraseNext =>
      if c.erased < j.len && c.erased + SECTOR <= |c.flash| then
        c.(flash := seq(|c.flash|, i requires 0 <= i < |c.flash| =>
                        if c.erased <= i < c.erased + SECTOR then ERASED else c.flash[i]),
           erased := c.erased + SECTOR)
      else c
    case WriteNext =>
      if c.out < j.len && c.out < c.erased && c.out < |j.inflate(c.got)| && c.out < |c.flash| then
        c.(flash := c.flash[c.out := j.inflate(c.got)[c.out]], out := c.out + 1)
      else c
  }

  function ActAll(j: Job, c: Copier, actions: seq<Action>): (d: Copier)
    requires j.start <= j.end <= |c.flash|
    ensures |d.flash| == |c.flash|
    decreases |actions|
  {
    if actions == [] then c
    else
      var before := ActAll(j, c, actions[..|actions| - 1]);
      Act(j, before, actions[|actions| - 1])
  }

  function Begun(flash: seq<u8>): Copier { Copier(flash, [], 0, 0) }

  /** More input only ever unpacks to more output. */
  ghost predicate Unpacks(j: Job) {
    forall a: seq<u8>, b: seq<u8> :: j.inflate(a) <= j.inflate(a + b)
  }

  /** The copy is untouched, what was read of it is what it held, and what was
      written is the unpacked image from its beginning. */
  ghost predicate Undisturbed(j: Job, flash: seq<u8>, c: Copier) {
    && |c.flash| == |flash| && j.start + |c.got| <= j.end <= |flash|
    && c.erased % SECTOR == 0 && c.erased < j.len + SECTOR && c.out <= j.len && c.out <= c.erased
    && (forall i :: j.start <= i < |flash| ==> c.flash[i] == flash[i])
    && c.got == flash[j.start..j.start + |c.got|]
    && c.out <= |j.inflate(c.got)| && c.out <= |flash| && c.flash[..c.out] == j.inflate(c.got)[..c.out]
  }

  lemma ActKeepsUndisturbed(j: Job, flash: seq<u8>, c: Copier, a: Action, ceil: nat)
    requires Undisturbed(j, flash, c) && Unpacks(j)
    requires j.len <= ceil <= j.start && ceil % SECTOR == 0
    ensures Undisturbed(j, flash, Act(j, c, a))
  {
    match a
    case Read =>
      if j.start + |c.got| < j.end {
        var d := Act(j, c, a);
        assert flash[j.start..j.start + |d.got|] == flash[j.start..j.start + |c.got|] + [flash[j.start + |c.got|]];
        assert j.inflate(c.got) <= j.inflate(c.got + [c.flash[j.start + |c.got|]]);
      }
    case EraseNext =>
      assert c.erased < j.len ==> c.erased + SECTOR <= ceil;
    case WriteNext =>
  }

  lemma {:induction false} AllUndisturbed(j: Job, flash: seq<u8>, actions: seq<Action>, ceil: nat)
    requires j.start <= j.end <= |flash| && Unpacks(j)
    requires j.len <= ceil <= j.start && ceil % SECTOR == 0
    ensures Undisturbed(j, flash, ActAll(j, Begun(flash), actions))
    decreases |actions|
  {
    if actions != [] {
      AllUndisturbed(j, flash, actions[..|actions| - 1], ceil);
      ActKeepsUndisturbed(j, flash, ActAll(j, Begun(flash), actions[..|actions| - 1]), actions[|actions| - 1], ceil);
    }
  }

  /** An upload that ends with length `n` is taken if and only if it has an end, holds an
      image header, fits the app area, and its last sector ends below the copy; or, in an
      app area within a sector of 2^32, the rounding wraps. */
  lemma AcceptedExactly(last: seq<u8>, n: u32, seen: nat, appArea: u32, reserved: u32)
    requires EndsWithLength(last, n)
    ensures UnpackFits(last, seen, appArea, reserved) <==>
      && seen >= 4 && 4 <= n <= appArea && reserved <= appArea
      && (n <= (appArea - reserved) / 4096 * 4096 || n + 4096 > 0x1_0000_0000)
  {
    LengthReadsBack(last, n);
    SectorCeilRoundsUp(n);
    hide EndsWithLength, UnpackedLen;
    if reserved <= appArea && n + SECTOR <= WRAP { CeilBelow(n, appArea - reserved); }
    if n + SECTOR > WRAP { assert SectorCeil(n) == 0; }
  }

  lemma CeilBelow(n: u32, room: nat)
    requires n + SECTOR <= WRAP
    ensures SectorCeil(n) <= room <==> n <= room / SECTOR * SECTOR
  {
  }

  /** An accepted image of `n` bytes: whatever order the copier reads, erases and writes
      in, every byte it reads is the uploaded one, and what it writes is what unpacking
      the whole copy first would give. */
  lemma AcceptedUnpacksSafely(last: seq<u8>, n: u32, seen: nat, appArea: u32, reserved: u32, flash: seq<u8>,
                              inflate: seq<u8> -> seq<u8>, actions: seq<Action>)
    requires EndsWithLength(last, n) && UnpackFits(last, seen, appArea, reserved)
    requires appArea + SECTOR < WRAP && appArea <= |flash|
    requires Unpacks(Job(appArea - reserved, appArea, n, inflate))
    ensures var j := Job(appArea - reserved, appArea, n, inflate);
      var c := ActAll(j, Begun(flash), actions); var copy := flash[appArea - reserved..appArea];
      && c.got <= copy
      && c.out <= |inflate(copy)| && c.out <= |c.flash| && c.flash[..c.out] == inflate(copy)[..c.out]
      && c.flash[appArea - reserved..] == flash[appArea - reserved..]
  {
    LengthReadsBack(last, n);
    var j := Job(appArea - reserved, appArea, n, inflate);
    var c := ActAll(j, Begun(flash), actions);
    var copy := flash[appArea - reserved..appArea];
    SectorCeilRoundsUp(n);
    AllUndisturbed(j, flash, actions, SectorCeil(n));
    hide ActAll, UnpackFits, Unpacks, EndsWithLength, UnpackedLen;
    assert copy == c.got + copy[|c.got|..];
    assert Unpacks(j);
    assert j.inflate(c.got) <= j.inflate(c.got + copy[|c.got|..]);
  }

  function Erases(n: nat): (s: seq<Action>)
    ensures |s| == n
  {
    seq(n, _ => EraseNext)
  }

  /** The bound is exact: one sector more, and a copier that erases ahead destroys the
      first byte of the copy before it is read. */
  lemma OneSectorMoreCanDestroy(j: Job, flash: seq<u8>)
    requires j.start < j.end <= |flash| && j.start % SECTOR == 0 && j.start + SECTOR <= |flash|
    requires j.len > j.start && flash[j.start] != ERASED
    ensures ActAll(j, Begun(flash), Erases(j.start / SECTOR + 1) + [Read]).got != flash[j.start..j.start + 1]
  {
    var n := j.start / SECTOR + 1;
    ErasesReach(j, flash, n);
    var all := Erases(n) + [Read];
    assert all[..|all| - 1] == Erases(n);
    var c := ActAll(j, Begun(flash), Erases(n));
    hide ActAll, Erases;
    assert Act(j, c, Read).got == [c.flash[j.start]] == [ERASED];
    assert flash[j.start..j.start + 1][0] != ERASED;
  }

  lemma {:induction false} ErasesReach(j: Job, flash: seq<u8>, n: nat)
    requires j.start <= j.end <= |flash| && (n > 0 ==> (n - 1) * SECTOR < j.len) && n * SECTOR <= |flash|
    ensures var c := ActAll(j, Begun(flash), Erases(n));
      c.erased == n * SECTOR && c.got == [] && forall i :: 0 <= i < n * SECTOR ==> c.flash[i] == ERASED
  {
    if n > 0 {
      ErasesReach(j, flash, n - 1);
      assert Erases(n)[..n - 1] == Erases(n - 1);
    }
  }
}
