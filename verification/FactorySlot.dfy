/** FactoryChunkPlan.h: cutting a chunk into what is held back and what is programmed. */
module FactoryChunkPlan {

  datatype Plan = Plan(headerBytes: nat, flashOffset: nat, flashBytes: nat, eraseTo: nat)

  function PlanChunk(writeOffset: nat, len: nat, sector: nat): Plan
    requires sector > 0
  {
    var headerBytes :=
      if writeOffset < sector then (if len < sector - writeOffset then len else sector - writeOffset) else 0;
    var flashBytes := len - headerBytes;
    if flashBytes > 0 then
      var flashOffset := writeOffset + headerBytes;
      Plan(headerBytes, flashOffset, flashBytes, (flashOffset + flashBytes + sector - 1) / sector * sector)
    else Plan(headerBytes, 0, flashBytes, 0)
  }

  /** The chunk is cut in two at the end of the header sector, nothing of it is left
      over, and the erase mark is the first sector boundary at or past its end. */
  lemma PlanCoversTheChunk(writeOffset: nat, len: nat, sector: nat)
    requires sector > 0
    ensures var p := PlanChunk(writeOffset, len, sector);
      && p.headerBytes + p.flashBytes == len
      && (p.headerBytes > 0 ==> writeOffset + p.headerBytes <= sector)
      && (p.flashBytes > 0 ==>
            && p.flashOffset == writeOffset + p.headerBytes >= sector
            && p.eraseTo % sector == 0
            && p.flashOffset + p.flashBytes <= p.eraseTo < p.flashOffset + p.flashBytes + sector)
  {
    var p := PlanChunk(writeOffset, len, sector);
    if p.flashBytes > 0 {
      var end := p.flashOffset + p.flashBytes + sector - 1;
      DivTimes(end, sector);
    }
  }

  lemma DivTimes(n: nat, d: nat)
    requires d > 0
    ensures n / d * d <= n < n / d * d + d && n / d * d % d == 0
  {
    assert n == n / d * d + n % d;
    TimesMod(n / d, d);
  }

  lemma TimesMod(q: nat, d: nat)
    requires d > 0
    ensures q * d % d == 0
  {
    var q', r := q * d / d, q * d % d;
    assert q * d == q' * d + r;
    assert (q - q') * d == r && (q' - q) * d == -r;
    if q > q' {
      AtLeastOnce(q - q', d);
    } else if q < q' {
      AtLeastOnce(q' - q, d);
    }
  }

  lemma AtLeastOnce(k: nat, d: nat)
    requires k > 0
    ensures k * d >= d
  {
  }
}

/** FactorySlot.cpp: installing a rescue image chunk by chunk. Its first sector goes to
    flash last, once everything else has been checked. */
module FactorySlot {
  import opened Wrappers
  import opened FactoryChunkPlan

  const SECTOR: nat := 4096
  const IMAGE_MAGIC: bv8 := 0xE9
  const ERASED: bv8 := 0xFF
  const INSTALL_STALE_MS: nat := 30000
  const DIGEST_SLICE: nat := 32768

  // ---- flash ---------------------------------------------------------------------------

  /** How a flash operation ends: done, or broken off after `k` sectors or bytes. */
  datatype Outcome = Done | Broke(k: nat)

  function Reach(o: Outcome, n: nat, unit: nat): (r: nat)
    ensures r <= n
  {
    if o.Broke? && o.k * unit < n then o.k * unit else n
  }

  function Erase(f: seq<bv8>, from: nat, to: nat, o: Outcome): (g: seq<bv8>)
    requires from <= to <= |f|
    ensures |g| == |f|
  {
    var end := from + Reach(o, to - from, SECTOR);
    seq(|f|, i requires 0 <= i < |f| => if from <= i < end then ERASED else f[i])
  }

  /** Programming only clears bits: what was not erased before stays mangled. */
  function Program(f: seq<bv8>, offset: nat, data: seq<bv8>, o: Outcome): (g: seq<bv8>)
    requires offset + |data| <= |f|
    ensures |g| == |f|
  {
    var end := offset + Reach(o, |data|, 1);
    seq(|f|, i requires 0 <= i < |f| => if offset <= i < end then f[i] & data[i - offset] else f[i])
  }

  /** An operation reported as failed did not do all of it. */
  predicate Honest(o: Outcome, n: nat, unit: nat) {
    o.Broke? ==> o.k * unit < n
  }

  // ---- the install as a machine over calls -------------------------------------------------

  datatype Error = InFlight | NoPartition | OutOfOrder | TooLarge | BadMagic | EraseFailed | WriteFailed
                 | Empty | DigestMismatch | CommitFailed | NoDescriptor | GivenUp

  /** What the board gives: the partition, MD5, and the check of a descriptor. */
  datatype Board = Board(size: nat, digest: seq<bv8> -> string, describes: seq<bv8> -> bool)

  /** The statics. `digested` is the stream MD5 has been fed. */
  datatype State = State(flash: seq<bv8>, target: bool, writeOffset: nat, erasedUpTo: nat, header: seq<bv8>,
                         digested: seq<bv8>, expected: string, callerChecks: bool, error: Option<Error>,
                         inProgress: bool, lastChunkMs: u32)

  /** What a call returns, and the flash after each of its flash operations: every
      content a power cut between or inside them can leave. */
  datatype Answer = Answer(s: State, ok: bool, trail: seq<seq<bv8>>)

  datatype Call =
    | Begin(expected: string, checkedByCaller: bool, present: bool, nowMs: u32)
    | Chunk(data: seq<bv8>, streamOffset: nat, nowMs: u32, headerErase: Outcome, bodyErase: Outcome, write: Outcome,
            scrub: Outcome)
    | End(commit: Outcome, scrub: Outcome)
    | Abort(scrub: Outcome)

  predicate InProgress(s: State, nowMs: u32) {
    s.inProgress && Sub32(nowMs, s.lastChunkMs) < INSTALL_STALE_MS
  }

  function Fail(s: State, why: Error, scrub: Outcome, trail: seq<seq<bv8>>): Answer
    requires |s.flash| >= SECTOR
  {
    var touched := s.target && s.erasedUpTo > 0;
    var flash := if touched then Erase(s.flash, 0, SECTOR, scrub) else s.flash;
    Answer(s.(flash := flash, error := Some(why), target := false, inProgress := false), false,
           trail + if touched then [flash] else [])
  }

  function BeginStep(b: Board, s: State, c: Call): Answer
    requires c.Begin?
  {
    if InProgress(s, c.nowMs) then Answer(s.(error := Some(InFlight)), false, [])
    else if !c.present then
      Answer(s.(callerChecks := c.checkedByCaller, target := false, error := Some(NoPartition), inProgress := false), false, [])
    else
      Answer(s.(callerChecks := c.checkedByCaller, error := None, target := true, writeOffset := 0, erasedUpTo := 0,
                expected := c.expected, inProgress := true, lastChunkMs := c.nowMs, digested := []), true, [])
  }

  /** The held-back sector with the first `n` bytes of `data` copied in at `at`. */
  function Held(header: seq<bv8>, at: nat, data: seq<bv8>, n: nat): (h: seq<bv8>)
    requires n <= |data| && (n > 0 ==> at + n <= |header|)
    ensures |h| == |header|
  {
    if n == 0 then header else header[..at] + data[..n] + header[at + n..]
  }

  /** The bytes of a chunk that passed its checks, once the header sector is erased. */
  function StoreStep(b: Board, s: State, c: Call, trail: seq<seq<bv8>>): Answer
    requires c.Chunk? && Sized(b, s) && s.writeOffset + |c.data| <= b.size
  {
    var p := PlanChunk(s.writeOffset, |c.data|, SECTOR);
    PlanCoversTheChunk(s.writeOffset, |c.data|, SECTOR);
    WatermarkInside(b.size, s.writeOffset + |c.data|);
    var s1 := s.(header := Held(s.header, s.writeOffset, c.data, p.headerBytes));
    var needs := p.flashBytes > 0 && p.eraseTo > s1.erasedUpTo;
    var s2 := if needs then s1.(flash := Erase(s1.flash, s1.erasedUpTo, p.eraseTo, c.bodyErase)) else s1;
    var trail2 := if needs then trail + [s2.flash] else trail;
    if needs && c.bodyErase.Broke? then Fail(s2, EraseFailed, c.scrub, trail2)
    else
      var s3 := if needs then s2.(erasedUpTo := p.eraseTo) else s2;
      var s4 := if p.flashBytes > 0 then s3.(flash := Program(s3.flash, p.flashOffset, c.data[p.headerBytes..], c.write)) else s3;
      var trail4 := if p.flashBytes > 0 then trail2 + [s4.flash] else trail2;
      if p.flashBytes > 0 && c.write.Broke? then Fail(s4, WriteFailed, c.scrub, trail4)
      else
        Answer(s4.(digested := s4.digested + c.data, writeOffset := s4.writeOffset + |c.data|), true, trail4)
  }

  function ChunkStep(b: Board, s: State, c: Call): Answer
    requires c.Chunk? && Sized(b, s)
  {
    if !s.target || s.error.Some? then Answer(s, false, [])
    else if c.data == [] then Answer(s, true, [])
    else if c.streamOffset != s.writeOffset then Fail(s, OutOfOrder, c.scrub, [])
    else
      var s0 := s.(lastChunkMs := c.nowMs);
      if s.writeOffset + |c.data| > b.size then Fail(s0, TooLarge, c.scrub, [])
      else if s.writeOffset > 0 then StoreStep(b, s0, c, [])
      else if c.data[0] != IMAGE_MAGIC then Fail(s0, BadMagic, c.scrub, [])
      else
        var s1 := s0.(flash := Erase(s.flash, 0, SECTOR, c.headerErase));
        if c.headerErase.Broke? then Fail(s1, EraseFailed, c.scrub, [s1.flash])
        else StoreStep(b, s1.(erasedUpTo := SECTOR), c, [s1.flash])
  }

  predicate Verdict(b: Board, s: State) {
    s.callerChecks || b.digest(s.digested) == s.expected
  }

  function EndStep(b: Board, s: State, c: Call): Answer
    requires c.End? && Sized(b, s)
  {
    if !s.target || s.error.Some? then Answer(s, false, [])
    else if s.writeOffset == 0 then Fail(s, Empty, c.scrub, [])
    else if !Verdict(b, s) then Fail(s, DigestMismatch, c.scrub, [])
    else
      var headerLen := if s.writeOffset < SECTOR then s.writeOffset else SECTOR;
      var s1 := s.(flash := Program(s.flash, 0, s.header[..headerLen], c.commit));
      if c.commit.Broke? then Fail(s1, CommitFailed, c.scrub, [s1.flash])
      else if !b.describes(s1.flash) then Fail(s1, NoDescriptor, c.scrub, [s1.flash])
      else Answer(s1.(target := false, inProgress := false), true, [s1.flash])
  }

  function AbortStep(b: Board, s: State, c: Call): Answer
    requires c.Abort? && Sized(b, s)
  {
    if !s.target then Answer(s, false, []) else Fail(s, GivenUp, c.scrub, [])
  }

  function Step(b: Board, s: State, c: Call): Answer
    requires Sized(b, s)
  {
    match c
    case Begin(_, _, _, _) => BeginStep(b, s, c)
    case Chunk(_, _, _, _, _, _, _) => ChunkStep(b, s, c)
    case End(_, _) => EndStep(b, s, c)
    case Abort(_) => AbortStep(b, s, c)
  }

  /** The partition is whole sectors; the cursors lie inside it. */
  predicate Sized(b: Board, s: State) {
    && b.size >= SECTOR && b.size % SECTOR == 0
    && |s.flash| == b.size && |s.header| == SECTOR
    && s.writeOffset <= b.size && s.erasedUpTo <= b.size
  }

  lemma WatermarkInside(size: nat, end: nat)
    requires size % SECTOR == 0 && end <= size
    ensures (end + SECTOR - 1) / SECTOR * SECTOR <= size
  {
  }

  // ---- what every run keeps ---------------------------------------------------------------------

  predicate AllErased(f: seq<bv8>, from: nat, to: nat)
    requires to <= |f|
  {
    forall i :: from <= i < to ==> f[i] == ERASED
  }

  predicate HeaderErased(f: seq<bv8>) {
    |f| >= SECTOR && AllErased(f, 0, SECTOR)
  }

  function HeaderLen(image: seq<bv8>): nat {
    if |image| < SECTOR then |image| else SECTOR
  }

  /** The whole image, byte for byte. */
  ghost predicate HoldsImage(f: seq<bv8>, image: seq<bv8>) {
    0 < |image| <= |f| && f[..|image|] == image
  }

  /** The first `n` bytes of the header, the others still erased, behind it the rest. */
  ghost predicate Landing(f: seq<bv8>, image: seq<bv8>, n: nat) {
    && 0 < n <= HeaderLen(image) && SECTOR <= |f| && |image| <= |f|
    && (forall i :: 0 <= i < n ==> f[i] == image[i])
    && AllErased(f, n, HeaderLen(image))
    && (forall i :: SECTOR <= i < |image| ==> f[i] == image[i])
  }

  /** A header of which only the beginning landed: it starts, and is not the image. */
  ghost predicate TornHeader(f: seq<bv8>, image: seq<bv8>) {
    !HoldsImage(f, image) && exists n :: Landing(f, image, n)
  }

  /** An install: its state, the flash when it began, and the image whose check
      passed, once its header may land. */
  datatype Run = Run(s: State, base: seq<bv8>, image: Option<seq<bv8>>)

  /** All the slot can hold at any moment, inside a call too. */
  ghost predicate Known(r: Run, f: seq<bv8>) {
    && |f| == |r.base| >= SECTOR
    && (f == r.base || HeaderErased(f)
        || (r.image.Some? && (HoldsImage(f, r.image.value) || TornHeader(f, r.image.value))))
  }

  /** What it is promised to hold between calls: untouched since the install began,
      or no header, or the whole checked image with a descriptor. */
  ghost predicate Sound(b: Board, r: Run) {
    var f := r.s.flash;
    || (r.s.erasedUpTo == 0 && f == r.base)
    || HeaderErased(f)
    || (r.image.Some? && HoldsImage(f, r.image.value) && b.describes(f))
  }

  /** An install that has written part of its image. */
  ghost predicate Streaming(s: State)
    requires |s.header| == SECTOR && |s.flash| >= SECTOR
  {
    var from := if s.writeOffset < SECTOR then SECTOR else s.writeOffset;
    && SECTOR <= s.erasedUpTo <= |s.flash| && s.erasedUpTo % SECTOR == 0
    && s.writeOffset <= s.erasedUpTo
    && HeaderErased(s.flash)
    && |s.digested| == s.writeOffset && (s.digested != [] ==> s.digested[0] == IMAGE_MAGIC)
    && (forall i :: 0 <= i < s.writeOffset && i < SECTOR ==> s.header[i] == s.digested[i])
    && (forall i :: SECTOR <= i < s.writeOffset ==> s.flash[i] == s.digested[i])
    && AllErased(s.flash, from, s.erasedUpTo)
  }

  ghost predicate Inv(b: Board, r: Run) {
    var s := r.s;
    && Sized(b, s) && |r.base| == b.size && Known(r, s.flash)
    && (s.target ==>
          if s.writeOffset == 0 then s.erasedUpTo == 0 && s.flash == r.base && s.digested == [] else Streaming(s))
  }

  predicate HonestCall(s: State, c: Call) {
    match c
    case Begin(_, _, _, _) => true
    case Chunk(data, _, _, headerErase, bodyErase, write, scrub) =>
      && Honest(headerErase, SECTOR, SECTOR) && Honest(scrub, SECTOR, SECTOR)
    case End(commit, scrub) => Honest(scrub, SECTOR, SECTOR)
    case Abort(scrub) => Honest(scrub, SECTOR, SECTOR)
  }

  function Next(b: Board, r: Run, c: Call): Run
    requires Sized(b, r.s)
  {
    var a := Step(b, r.s, c);
    if c.Begin? && a.ok then Run(a.s, r.s.flash, None)
    else if c.End? && r.s.target && r.s.error.None? && r.s.writeOffset > 0 && Verdict(b, r.s) then
      Run(a.s, r.base, Some(r.s.digested))
    else r.(s := a.s)
  }

  /** One sector is erased whole or, when that fails, not at all. */
  lemma ScrubWhole(f: seq<bv8>, o: Outcome)
    requires |f| >= SECTOR && Honest(o, SECTOR, SECTOR)
    ensures o.Done? ==> HeaderErased(Erase(f, 0, SECTOR, o))
    ensures o.Broke? ==> Erase(f, 0, SECTOR, o) == f
    ensures HeaderErased(f) ==> HeaderErased(Erase(f, 0, SECTOR, o))
  {
  }

  lemma FailIsKnown(b: Board, r: Run, s: State, why: Error, scrub: Outcome, trail: seq<seq<bv8>>)
    requires Sized(b, s) && |r.base| == b.size && Honest(scrub, SECTOR, SECTOR)
    requires Known(r, s.flash) && forall f :: f in trail ==> Known(r, f)
    ensures var a := Fail(s, why, scrub, trail);
      && Inv(b, r.(s := a.s)) && (forall f :: f in a.trail ==> Known(r, f))
      && (HeaderErased(s.flash) ==> HeaderErased(a.s.flash))
      && (s.target && s.erasedUpTo > 0 && scrub.Done? ==> HeaderErased(a.s.flash))
  {
    ScrubWhole(s.flash, scrub);
  }

  /** The state of a chunk just before it is programmed. */
  ghost function Prepared(b: Board, s: State, c: Call): State
    requires c.Chunk? && Sized(b, s) && s.writeOffset + |c.data| <= b.size
  {
    var p := PlanChunk(s.writeOffset, |c.data|, SECTOR);
    PlanCoversTheChunk(s.writeOffset, |c.data|, SECTOR);
    WatermarkInside(b.size, s.writeOffset + |c.data|);
    var s1 := s.(header := Held(s.header, s.writeOffset, c.data, p.headerBytes));
    if p.flashBytes > 0 && p.eraseTo > s1.erasedUpTo
    then s1.(flash := Erase(s1.flash, s1.erasedUpTo, p.eraseTo, Done), erasedUpTo := p.eraseTo) else s1
  }

  /** Every byte a chunk programs has been erased and not yet written in this
      install; the watermark stays a sector multiple, never falls back and never
      passes the partition. */
  lemma WritesLandOnErased(b: Board, s: State, c: Call)
    requires c.Chunk? && Sized(b, s) && s.writeOffset + |c.data| <= b.size && Streaming(s)
    ensures var p, s' := PlanChunk(s.writeOffset, |c.data|, SECTOR), Prepared(b, s, c);
      && Sized(b, s')
      && (p.flashBytes > 0 ==>
            && SECTOR <= p.flashOffset && p.flashOffset + p.flashBytes <= s'.erasedUpTo
            && p.flashOffset == (if s.writeOffset < SECTOR then SECTOR else s.writeOffset)
            && AllErased(s'.flash, p.flashOffset, s'.erasedUpTo))
      && s.erasedUpTo <= s'.erasedUpTo <= b.size && s'.erasedUpTo % SECTOR == 0
      && (p.flashBytes == 0 ==> s'.erasedUpTo == s.erasedUpTo)
      && (forall i :: 0 <= i < s.erasedUpTo ==> s'.flash[i] == s.flash[i])
      && s' == s.(flash := s'.flash, header := s'.header, erasedUpTo := s'.erasedUpTo)
  {
    PlanCoversTheChunk(s.writeOffset, |c.data|, SECTOR);
    WatermarkInside(b.size, s.writeOffset + |c.data|);
    hide PlanChunk;
  }

  /** What the held-back sector takes of a chunk. */
  lemma HeaderTakes(b: Board, s: State, c: Call)
    requires c.Chunk? && Sized(b, s) && s.writeOffset + |c.data| <= b.size && Streaming(s)
    ensures var h := Prepared(b, s, c).header;
            && |h| == SECTOR
            && (forall i :: 0 <= i < SECTOR && i < s.writeOffset ==> h[i] == s.header[i])
            && (forall i :: s.writeOffset <= i < SECTOR && i < s.writeOffset + |c.data| ==> h[i] == c.data[i - s.writeOffset])
  {
    hide Erase, Streaming, AllErased;
  }

  lemma ProgramOnErased(f: seq<bv8>, offset: nat, data: seq<bv8>)
    requires offset + |data| <= |f| && AllErased(f, offset, offset + |data|)
    ensures var g := Program(f, offset, data, Done);
            forall i :: 0 <= i < |f| ==> g[i] == if offset <= i < offset + |data| then data[i - offset] else f[i]
  {
    forall i | offset <= i < offset + |data|
      ensures f[i] & data[i - offset] == data[i - offset]
    {
      AndAll(data[i - offset]);
    }
  }

  lemma AndAll(x: bv8)
    ensures ERASED & x == x
  {
  }

  /** How a chunk that is stored ends, in one piece. */
  lemma StoreForm(b: Board, s: State, c: Call, trail: seq<seq<bv8>>)
    requires c.Chunk? && Sized(b, s) && s.writeOffset + |c.data| <= b.size && Streaming(s)
    ensures var p, a, ready := PlanChunk(s.writeOffset, |c.data|, SECTOR), StoreStep(b, s, c, trail), Prepared(b, s, c);
      && p.headerBytes + p.flashBytes == |c.data|
      && (p.flashBytes > 0 ==> p.flashOffset + p.flashBytes <= |ready.flash|)
      && (a.ok ==> a.s == ready.(digested := s.digested + c.data, writeOffset := s.writeOffset + |c.data|,
            flash := if p.flashBytes > 0 then Program(ready.flash, p.flashOffset, c.data[p.headerBytes..], Done)
                     else ready.flash))
      && (a.ok ==> forall f :: f in a.trail ==> f in trail || f == ready.flash || f == a.s.flash)
  {
    PlanCoversTheChunk(s.writeOffset, |c.data|, SECTOR);
    WritesLandOnErased(b, s, c);
    hide PlanChunk, Erase, Program, Streaming, AllErased;
  }

  lemma StoredFlash(b: Board, s: State, c: Call, trail: seq<seq<bv8>>)
    requires c.Chunk? && Sized(b, s) && s.writeOffset + |c.data| <= b.size && c.data != [] && Streaming(s)
    requires StoreStep(b, s, c, trail).ok
    ensures var t := StoreStep(b, s, c, trail).s;
      && |t.flash| == b.size && t.writeOffset <= t.erasedUpTo <= b.size && t.erasedUpTo % SECTOR == 0
      && HeaderErased(Prepared(b, s, c).flash) && HeaderErased(t.flash) && SECTOR <= t.erasedUpTo
      && t.digested == s.digested + c.data && t.writeOffset == |t.digested|
      && (forall i :: SECTOR <= i < t.writeOffset ==> t.flash[i] == t.digested[i])
      && AllErased(t.flash, if t.writeOffset < SECTOR then SECTOR else t.writeOffset, t.erasedUpTo)
  {
    hide StoreStep, Prepared, Erase, Program, PlanChunk;
    var p, ready := PlanChunk(s.writeOffset, |c.data|, SECTOR), Prepared(b, s, c);
    StoreForm(b, s, c, trail);
    PlanCoversTheChunk(s.writeOffset, |c.data|, SECTOR);
    WritesLandOnErased(b, s, c);
    if p.flashBytes > 0 {
      ProgramOnErased(ready.flash, p.flashOffset, c.data[p.headerBytes..]);
    }
  }

  /** The image so far, one chunk longer. */
  lemma StoredStreams(b: Board, s: State, c: Call, trail: seq<seq<bv8>>)
    requires c.Chunk? && Sized(b, s) && s.writeOffset + |c.data| <= b.size && c.data != [] && Streaming(s)
    requires s.writeOffset == 0 ==> c.data[0] == IMAGE_MAGIC
    requires StoreStep(b, s, c, trail).ok
    ensures var a := StoreStep(b, s, c, trail);
      && Streaming(a.s) && Sized(b, a.s)
      && HeaderErased(Prepared(b, s, c).flash)
  {
    hide StoreStep, Prepared, Erase, Program, PlanChunk, AllErased;
    var t := StoreStep(b, s, c, trail).s;
    StoreForm(b, s, c, trail);
    StoredFlash(b, s, c, trail);
    HeaderTakes(b, s, c);
    assert forall i :: 0 <= i < t.writeOffset && i < SECTOR ==> t.header[i] == t.digested[i];
  }

  /** A stored chunk keeps the image so far, and only ever leaves known flash. */
  lemma StoreKeeps(b: Board, r: Run, s: State, c: Call, trail: seq<seq<bv8>>)
    requires c.Chunk? && Sized(b, s) && s.writeOffset + |c.data| <= b.size && c.data != []
    requires |r.base| == b.size && s.target && Streaming(s)
    requires s.writeOffset == 0 ==> c.data[0] == IMAGE_MAGIC
    requires HonestCall(s, c) && forall f :: f in trail ==> Known(r, f)
    ensures var a := StoreStep(b, s, c, trail);
      && Inv(b, r.(s := a.s))
      && (forall f :: f in a.trail ==> Known(r, f))
      && HeaderErased(a.s.flash)
  {
    var a := StoreStep(b, s, c, trail);
    if a.ok {
      StoreForm(b, s, c, trail);
      StoredStreams(b, s, c, trail);
    } else {
      BrokenStoreKeeps(b, r, s, c, trail);
    }
  }

  lemma BrokenStoreKeeps(b: Board, r: Run, s: State, c: Call, trail: seq<seq<bv8>>)
    requires c.Chunk? && Sized(b, s) && s.writeOffset + |c.data| <= b.size
    requires |r.base| == b.size && s.target && Streaming(s)
    requires HonestCall(s, c) && forall f :: f in trail ==> Known(r, f)
    requires !StoreStep(b, s, c, trail).ok
    ensures var a := StoreStep(b, s, c, trail);
      && Inv(b, r.(s := a.s)) && (forall f :: f in a.trail ==> Known(r, f)) && HeaderErased(a.s.flash)
  {
    hide Streaming;
    var p, ready := PlanChunk(s.writeOffset, |c.data|, SECTOR), Prepared(b, s, c);
    PlanCoversTheChunk(s.writeOffset, |c.data|, SECTOR);
    WritesLandOnErased(b, s, c);
    assert HeaderErased(s.flash) && SECTOR <= s.erasedUpTo by { StreamingErased(s); }
    var needs := p.flashBytes > 0 && p.eraseTo > s.erasedUpTo;
    if needs && c.bodyErase.Broke? {
      var s2 := ready.(flash := Erase(s.flash, s.erasedUpTo, p.eraseTo, c.bodyErase), erasedUpTo := s.erasedUpTo);
      FailIsKnown(b, r, s2, EraseFailed, c.scrub, trail + [s2.flash]);
    } else {
      var s4 := ready.(flash := Program(ready.flash, p.flashOffset, c.data[p.headerBytes..], c.write));
      var trail2 := if needs then trail + [ready.flash] else trail;
      FailIsKnown(b, r, s4, WriteFailed, c.scrub, trail2 + [s4.flash]);
    }
  }

  lemma StreamingErased(s: State)
    requires |s.header| == SECTOR && |s.flash| >= SECTOR && Streaming(s)
    ensures HeaderErased(s.flash) && SECTOR <= s.erasedUpTo
    ensures s.writeOffset > 0 ==> s.digested != [] && s.digested[0] == IMAGE_MAGIC
  {
  }

  /** Whatever is called in whatever order with whatever data, and wherever a flash
      operation breaks off: the invariant is kept, and every flash content on the
      way, also one a power cut inside the call leaves, is a known one. */
  lemma StepIsKnown(b: Board, r: Run, c: Call)
    requires Inv(b, r) && HonestCall(r.s, c)
    ensures Inv(b, Next(b, r, c))
    ensures forall f :: f in Step(b, r.s, c).trail ==> Known(Next(b, r, c), f)
  {
    hide StoreStep;
    match c
    case Begin(_, _, _, _) =>
    case Chunk(_, _, _, _, _, _, _) => ChunkIsKnown(b, r, c);
    case End(_, _) => EndIsKnown(b, r, c);
    case Abort(scrub) =>
      if r.s.target { FailIsKnown(b, r, r.s, GivenUp, scrub, []); }
  }

  lemma ChunkIsKnown(b: Board, r: Run, c: Call)
    requires Inv(b, r) && HonestCall(r.s, c) && c.Chunk?
    ensures var a := ChunkStep(b, r.s, c);
            Inv(b, r.(s := a.s)) && forall f :: f in a.trail ==> Known(r, f)
  {
    hide StoreStep;
    var s := r.s;
    var s0 := s.(lastChunkMs := c.nowMs);
    if !s.target || s.error.Some? || c.data == [] {
    } else if c.streamOffset != s.writeOffset {
      FailIsKnown(b, r, s, OutOfOrder, c.scrub, []);
    } else if s.writeOffset + |c.data| > b.size {
      FailIsKnown(b, r, s0, TooLarge, c.scrub, []);
    } else if s.writeOffset > 0 {
      StoreKeeps(b, r, s0, c, []);
    } else if c.data[0] != IMAGE_MAGIC {
      FailIsKnown(b, r, s0, BadMagic, c.scrub, []);
    } else {
      var s1 := s0.(flash := Erase(s.flash, 0, SECTOR, c.headerErase));
      ScrubWhole(s.flash, c.headerErase);
      if c.headerErase.Broke? {
        FailIsKnown(b, r, s1, EraseFailed, c.scrub, [s1.flash]);
      } else {
        StoreKeeps(b, r, s1.(erasedUpTo := SECTOR), c, [s1.flash]);
      }
    }
  }

  lemma HeaderOnErased(flash: seq<bv8>, header: seq<bv8>, o: Outcome)
    requires |header| <= SECTOR <= |flash| && HeaderErased(flash)
    ensures var f := Program(flash, 0, header, o);
      && (forall i :: 0 <= i < |header| ==> f[i] == if i < Reach(o, |header|, 1) then header[i] else ERASED)
      && (forall i :: |header| <= i < |f| ==> f[i] == flash[i])
  {
    forall i | 0 <= i < |header|
      ensures ERASED & header[i] == header[i]
    {
      AndAll(header[i]);
    }
  }

  /** The flash with the held-back sector in place. */
  function Committed(s: State): seq<bv8>
    requires |s.header| == SECTOR <= |s.flash|
  {
    Program(s.flash, 0, s.header[..HeldLen(s)], Done)
  }

  function HeldLen(s: State): (n: nat)
    ensures n <= SECTOR
  {
    if s.writeOffset < SECTOR then s.writeOffset else SECTOR
  }

  /** The flash while and after the header sector lands, `n` bytes of it. It is the
      image as soon as what is missing of the header is erased bytes anyway. */
  lemma HeaderLands(b: Board, s: State, o: Outcome)
    requires Sized(b, s) && Streaming(s) && s.writeOffset > 0
    ensures var len := HeldLen(s); var n, f := Reach(o, len, 1), Program(s.flash, 0, s.header[..len], o);
      && len == HeaderLen(s.digested) && s.digested != []
      && (if n > 0 then Landing(f, s.digested, n) && f[0] == IMAGE_MAGIC else HeaderErased(f))
      && (HoldsImage(f, s.digested) <==> AllErased(s.header, n, len))
      && (AllErased(s.header, n, len) ==> f == Committed(s))
  {
    var len := HeldLen(s);
    var n, f := Reach(o, len, 1), Program(s.flash, 0, s.header[..len], o);
    HeaderOnErased(s.flash, s.header[..len], o);
    HeaderOnErased(s.flash, s.header[..len], Done);
    hide Program;
    if HoldsImage(f, s.digested) {
      forall i | n <= i < len
        ensures s.header[i] == ERASED
      {
        assert f[i] == f[..s.writeOffset][i] == s.digested[i];
      }
    }
    if AllErased(s.header, n, len) {
      assert forall i :: 0 <= i < s.writeOffset ==> f[i] == s.digested[i];
    }
  }

  lemma EndIsKnown(b: Board, r: Run, c: Call)
    requires Inv(b, r) && HonestCall(r.s, c) && c.End?
    ensures Inv(b, Next(b, r, c))
    ensures forall f :: f in EndStep(b, r.s, c).trail ==> Known(Next(b, r, c), f)
  {
    var s := r.s;
    if !s.target || s.error.Some? {
    } else if s.writeOffset == 0 {
      FailIsKnown(b, r, s, Empty, c.scrub, []);
    } else if !Verdict(b, s) {
      FailIsKnown(b, r, s, DigestMismatch, c.scrub, []);
    } else {
      HeaderLands(b, s, c.commit);
      hide Streaming, Program;
      var r1 := r.(image := Some(s.digested));
      var headerLen := if s.writeOffset < SECTOR then s.writeOffset else SECTOR;
      var s1 := s.(flash := Program(s.flash, 0, s.header[..headerLen], c.commit));
      assert Known(r1, s1.flash);
      if c.commit.Broke? {
        FailIsKnown(b, r1, s1, CommitFailed, c.scrub, [s1.flash]);
      } else if !b.describes(s1.flash) {
        FailIsKnown(b, r1, s1, NoDescriptor, c.scrub, [s1.flash]);
      }
    }
  }

  ghost predicate HonestRun(b: Board, r: Run, cs: seq<Call>)
    requires Inv(b, r)
    decreases |cs|
  {
    cs != [] ==> HonestCall(r.s, cs[0]) && (StepIsKnown(b, r, cs[0]); HonestRun(b, Next(b, r, cs[0]), cs[1..]))
  }

  ghost function RunOf(b: Board, r: Run, cs: seq<Call>): (t: Run)
    requires Inv(b, r) && HonestRun(b, r, cs)
    ensures Inv(b, t)
    decreases |cs|
  {
    if cs == [] then r
    else
      StepIsKnown(b, r, cs[0]);
      RunOf(b, Next(b, r, cs[0]), cs[1..])
  }

  // ---- between calls ---------------------------------------------------------------------------------

  /** The check has passed and the header lands. */
  predicate Commits(b: Board, s: State, c: Call) {
    c.End? && s.target && s.error.None? && s.writeOffset > 0 && Verdict(b, s)
  }

  /** How much of the header lands. */
  function Landed(s: State, c: Call): (n: nat)
    requires c.End?
    ensures n <= HeldLen(s)
  {
    Reach(c.commit, HeldLen(s), 1)
  }

  /** The one call that leaves something that starts and is no checked image: part of
      the header has landed, or all of an image without a descriptor, and the erase
      that should take it back fails too. */
  predicate LeavesTorn(b: Board, s: State, c: Call)
    requires Sized(b, s)
  {
    && Commits(b, s, c) && c.scrub.Broke? && Landed(s, c) > 0
    && !(AllErased(s.header, Landed(s, c), HeldLen(s)) && b.describes(Committed(s)))
  }

  predicate Accepted(b: Board, s: State, c: Call) {
    c.Begin? && BeginStep(b, s, c).ok
  }

  lemma EndLeaves(b: Board, r: Run, c: Call)
    requires Inv(b, r) && HonestCall(r.s, c) && Commits(b, r.s, c)
    ensures Sound(b, Next(b, r, c)) <==> !LeavesTorn(b, r.s, c)
  {
    var s := r.s;
    HeaderLands(b, s, c.commit);
    hide Streaming, Program;
    var s1 := s.(flash := Program(s.flash, 0, s.header[..HeldLen(s)], c.commit));
    ScrubWhole(s1.flash, c.scrub);
    assert Next(b, r, c).s.erasedUpTo == s.erasedUpTo > 0 by { StreamingErased(s); }
    assert Next(b, r, c).image == Some(s.digested);
  }

  /** Call by call, wherever its flash operations break off: what the slot holds
      afterwards is sound, unless this very call tears the header, or an earlier one
      did and no install has begun since. */
  lemma BoundaryExact(b: Board, r: Run, c: Call)
    requires Inv(b, r) && HonestCall(r.s, c)
    ensures Sound(b, Next(b, r, c))
       <==> !LeavesTorn(b, r.s, c) && (Sound(b, r) || Accepted(b, r.s, c))
  {
    hide StoreStep, Program, Erase;
    var s := r.s;
    if Commits(b, s, c) {
      EndLeaves(b, r, c);
      assert HeaderErased(s.flash) by { StreamingErased(s); }
    } else if s.target && !c.Begin? {
      StepIsKnown(b, r, c);
      SettledLeaves(b, r, c);
      if s.writeOffset > 0 { StreamingErased(s); }
      hide Streaming, Step;
    }
  }

  /** Every other call on an install leaves the slot untouched or without a header. */
  lemma SettledLeaves(b: Board, r: Run, c: Call)
    requires Inv(b, r) && HonestCall(r.s, c) && r.s.target && !c.Begin? && !Commits(b, r.s, c)
    ensures var t := Step(b, r.s, c).s;
      HeaderErased(t.flash) || (t.erasedUpTo == 0 && t.flash == r.base)
  {
    hide StoreStep;
    var s := r.s;
    if s.writeOffset > 0 { StreamingErased(s); }
    match c
    case Begin(_, _, _, _) =>
    case Abort(scrub) => ScrubWhole(s.flash, scrub);
    case End(_, scrub) => ScrubWhole(s.flash, scrub);
    case Chunk(_, _, _, _, _, _, _) => ChunkLeaves(b, r, c);
  }

  lemma ChunkLeaves(b: Board, r: Run, c: Call)
    requires Inv(b, r) && HonestCall(r.s, c) && r.s.target && c.Chunk?
    ensures var t := ChunkStep(b, r.s, c).s;
      if HeaderGoes(b, r.s, c) then HeaderErased(t.flash) else t.erasedUpTo == 0 && t.flash == r.base
  {
    hide StoreStep;
    var s := r.s;
    if s.writeOffset > 0 { StreamingErased(s); }
    ScrubWhole(s.flash, c.scrub);
    ScrubWhole(s.flash, c.headerErase);
    if Passes(b, s, c) && HeaderGoes(b, s, c) {
      var s0 := s.(lastChunkMs := c.nowMs);
      if s.writeOffset > 0 {
        StoreKeeps(b, r, s0, c, []);
      } else {
        var s1 := s0.(flash := Erase(s.flash, 0, SECTOR, Done), erasedUpTo := SECTOR);
        StoreKeeps(b, r.(base := s1.flash), s1, c, [s1.flash]);
        StoreTrail(b, s1, c, [s1.flash]);
      }
    }
  }

  /** A chunk that gets past its checks. */
  predicate Passes(b: Board, s: State, c: Call) {
    && c.Chunk? && s.target && s.error.None? && c.data != []
    && c.streamOffset == s.writeOffset && s.writeOffset + |c.data| <= b.size
    && (s.writeOffset == 0 ==> c.data[0] == IMAGE_MAGIC)
  }

  /** The slot has been touched when this call is over: its old header is gone. */
  predicate HeaderGoes(b: Board, s: State, c: Call) {
    s.writeOffset > 0 || (Passes(b, s, c) && c.headerErase.Done?)
  }

  /** The same told from the calls alone: whether the last header that landed only in
      part, with its scrub failed, has had no install begun after it. */
  ghost predicate TornAfter(b: Board, r: Run, cs: seq<Call>, torn: bool)
    requires Inv(b, r) && HonestRun(b, r, cs)
    decreases |cs|
  {
    if cs == [] then torn
    else
      StepIsKnown(b, r, cs[0]);
      TornAfter(b, Next(b, r, cs[0]), cs[1..],
                LeavesTorn(b, r.s, cs[0]) || (torn && !Accepted(b, r.s, cs[0])))
  }

  lemma InvIsSized(b: Board, r: Run)
    requires Inv(b, r)
    ensures Sized(b, r.s)
  {
  }

  /** Crash safety over every run, exactly: between calls the slot is untouched since
      its install began, or has no header, or holds the whole checked image, if and
      only if no header was torn since; in every other case a scrub had failed. */
  lemma {:induction false} EveryRunIsSafe(b: Board, r: Run, cs: seq<Call>, torn: bool)
    requires Inv(b, r) && HonestRun(b, r, cs) && torn == !Sound(b, r)
    ensures Inv(b, RunOf(b, r, cs))
    ensures Sound(b, RunOf(b, r, cs)) <==> !TornAfter(b, r, cs, torn)
    decreases |cs|
  {
    InvIsSized(b, r);
    hide Inv, Sound, Next, LeavesTorn;
    if cs != [] {
      StepIsKnown(b, r, cs[0]);
      BoundaryExact(b, r, cs[0]);
      EveryRunIsSafe(b, Next(b, r, cs[0]), cs[1..], LeavesTorn(b, r.s, cs[0]) || (torn && !Accepted(b, r.s, cs[0])));
    }
  }

  function ScrubOf(c: Call): Outcome {
    match c
    case Begin(_, _, _, _) => Done
    case Chunk(_, _, _, _, _, _, scrub) => scrub
    case End(_, scrub) => scrub
    case Abort(scrub) => scrub
  }

  /** An image this run has seen installed: its end returned true. */
  ghost predicate Finished(b: Board, r: Run, cs: seq<Call>, image: seq<bv8>)
    requires Inv(b, r) && HonestRun(b, r, cs)
    decreases |cs|
  {
    cs != [] && (
      StepIsKnown(b, r, cs[0]);
      || (cs[0].End? && EndStep(b, r.s, cs[0]).ok && image == r.s.digested)
      || Finished(b, Next(b, r, cs[0]), cs[1..], image))
  }

  /** With a flash whose scrubs work, whatever else fails: over any number of installs
      the slot holds what it held at first, or nothing that starts, or, byte for byte, an
      image of which the run returned true. A power cut between calls finds one of these. */
  lemma {:induction false} NoPartialImageStarts(b: Board, r: Run, cs: seq<Call>)
    requires Inv(b, r) && HonestRun(b, r, cs) && forall c :: c in cs ==> ScrubOf(c).Done?
    ensures var f := RunOf(b, r, cs).s.flash;
      || f == r.s.flash || HeaderErased(f)
      || exists image :: Finished(b, r, cs, image) && HoldsImage(f, image) && b.describes(f)
    decreases |cs|
  {
    InvIsSized(b, r);
    InvIsSized(b, RunOf(b, r, cs));
    hide Inv, Next, HoldsImage, EndStep;
    if cs != [] {
      var c, r' := cs[0], Next(b, r, cs[0]);
      StepIsKnown(b, r, c);
      StepLeaves(b, r, c);
      InvIsSized(b, r');
      NoPartialImageStarts(b, r', cs[1..]);
      var f := RunOf(b, r, cs).s.flash;
      if f != r.s.flash && !HeaderErased(f) {
        if f == r'.s.flash {
          assert Finished(b, r, cs, r.s.digested);
        } else {
          var image :| Finished(b, r', cs[1..], image) && HoldsImage(f, image) && b.describes(f);
          assert Finished(b, r, cs, image);
        }
      }
    }
  }

  lemma StepLeaves(b: Board, r: Run, c: Call)
    requires Inv(b, r) && HonestCall(r.s, c) && ScrubOf(c).Done?
    ensures var f := Next(b, r, c).s.flash;
      || f == r.s.flash || HeaderErased(f)
      || (c.End? && EndStep(b, r.s, c).ok && HoldsImage(f, r.s.digested) && b.describes(f))
  {
    var s := r.s;
    if Commits(b, s, c) {
      HeaderLands(b, s, c.commit);
      hide Streaming, Program;
      ScrubWhole(Program(s.flash, 0, s.header[..HeldLen(s)], c.commit), c.scrub);
      assert s.erasedUpTo > 0 by { StreamingErased(s); }
    } else if s.target && !c.Begin? {
      SettledLeaves(b, r, c);
      hide StoreStep, Streaming;
    }
  }

  /** An install that reports success has put exactly the streamed bytes in place. */
  lemma SuccessHoldsTheStream(b: Board, r: Run, c: Call)
    requires Inv(b, r) && c.End? && EndStep(b, r.s, c).ok
    ensures var s := EndStep(b, r.s, c).s;
      && HoldsImage(s.flash, r.s.digested) && b.describes(s.flash) && Verdict(b, r.s)
      && !s.target && !s.inProgress
  {
    HeaderLands(b, r.s, c.commit);
  }

  /** A failure that touched the slot leaves no header, with one exact exception: some
      of the header had landed and the erase that should take it back failed too. One
      that did not touch it leaves it as it was. */
  lemma FailureLeavesNoHeader(b: Board, r: Run, c: Call)
    requires Inv(b, r) && HonestCall(r.s, c) && r.s.target
    requires var a := Step(b, r.s, c); !a.ok && !a.s.target
    ensures var f := Step(b, r.s, c).s.flash;
      if HeaderGoes(b, r.s, c)
      then HeaderErased(f) <==> !(Commits(b, r.s, c) && Landed(r.s, c) > 0 && c.scrub.Broke?)
      else f == r.s.flash == r.base
  {
    hide StoreStep;
    var s := r.s;
    if Commits(b, s, c) {
      HeaderLands(b, s, c.commit);
      StreamingErased(s);
      hide Streaming, Program;
      ScrubWhole(Program(s.flash, 0, s.header[..HeldLen(s)], c.commit), c.scrub);
    } else if c.Chunk? {
      ChunkLeaves(b, r, c);
    } else if !c.Begin? {
      SettledLeaves(b, r, c);
      if s.writeOffset > 0 {
        StreamingErased(s);
        SettledLeaves(b, r.(base := s.flash), c);
      }
    }
  }

  // ---- inside a call ---------------------------------------------------------------------------------

  /** Stopped inside a call, the slot holds what it held when the install began, or no
      header, or, while the header lands, the whole image or one with a torn header. A
      torn header is there exactly when the write of the header stops inside it, at
      bytes that are not those of erased flash. */
  lemma CutInsideACall(b: Board, r: Run, c: Call)
    requires Inv(b, r) && HonestCall(r.s, c) && r.s.target
    ensures var image, trail := r.s.digested, Step(b, r.s, c).trail;
      && (forall f :: f in trail ==>
            || f == r.base || HeaderErased(f)
            || (Commits(b, r.s, c) && (HoldsImage(f, image) || TornHeader(f, image))))
      && ((exists f :: f in trail && TornHeader(f, image))
          <==> Commits(b, r.s, c) && 0 < Landed(r.s, c) && !AllErased(r.s.header, Landed(r.s, c), HeldLen(r.s)))
  {
    StepIsKnown(b, r, c);
    if Commits(b, r.s, c) {
      CommitTrail(b, r, c);
    } else if c.Begin? {
      assert Step(b, r.s, c).trail == [];
    } else {
      SettledTrail(b, r, c);
    }
    hide Inv, Streaming, Step, TornHeader, HoldsImage, HeaderErased, Commits, AllErased;
  }

  lemma CommitTrail(b: Board, r: Run, c: Call)
    requires Inv(b, r) && HonestCall(r.s, c) && Commits(b, r.s, c)
    ensures var image, trail := r.s.digested, Step(b, r.s, c).trail;
      && |trail| > 0 && (forall f :: f in trail ==> f == trail[0] || HeaderErased(f))
      && (HeaderErased(trail[0]) || HoldsImage(trail[0], image) || TornHeader(trail[0], image))
      && (TornHeader(trail[0], image) <==> 0 < Landed(r.s, c) && !AllErased(r.s.header, Landed(r.s, c), HeldLen(r.s)))
      && (forall f :: f in trail && f != trail[0] ==> !TornHeader(f, image))
  {
    var s := r.s;
    HeaderLands(b, s, c.commit);
    StreamingErased(s);
    hide Streaming, Program;
    var f := Program(s.flash, 0, s.header[..HeldLen(s)], c.commit);
    ScrubWhole(f, c.scrub);
    assert Landed(s, c) > 0 ==> Landing(f, s.digested, Landed(s, c));
  }

  lemma SettledTrail(b: Board, r: Run, c: Call)
    requires Inv(b, r) && HonestCall(r.s, c) && r.s.target && !c.Begin? && !Commits(b, r.s, c)
    ensures forall f :: f in Step(b, r.s, c).trail ==>
      (f == r.base || HeaderErased(f)) && !TornHeader(f, r.s.digested)
  {
    var s := r.s;
    hide StoreStep, Streaming, Step;
    StepIsKnown(b, r.(image := None), c) by { NoImageYet(b, r); }
    if s.writeOffset > 0 {
      StreamingErased(s);
      StepIsKnown(b, r.(base := s.flash, image := None), c);
    }
  }

  lemma NoImageYet(b: Board, r: Run)
    requires Inv(b, r) && r.s.target
    ensures Inv(b, r.(image := None))
    ensures r.s.writeOffset > 0 ==> Streaming(r.s)
  {
  }

  /** It happens, on every board: a header of two bytes of which one lands, and a scrub
      that fails. */
  lemma TornHeaderHappens(b: Board, s0: State) returns (r: Run, end: Call)
    requires Sized(b, s0) && !s0.target && !s0.inProgress
    ensures Inv(b, r) && end.End? && HonestCall(r.s, end) && Sound(b, r) && !EndStep(b, r.s, end).ok
    ensures LeavesTorn(b, r.s, end) && !Sound(b, Next(b, r, end))
    ensures exists begin, chunk :: r.s == Step(b, Step(b, s0, begin).s, chunk).s
  {
    var begin := Begin("", true, true, 0);
    var chunk := Chunk([0xE9, 0x01], 0, 0, Done, Done, Done, Done);
    BeginStarts(b, s0, begin);
    var begun := Run(BeginStep(b, s0, begin).s, s0.flash, None);
    StepIsKnown(b, begun, chunk);
    ChunkAccepted(b, begun, chunk);
    r := Next(b, begun, chunk);
    TwoBytesHeld(b, begun.s, chunk);
    end := End(Broke(1), Broke(0));
    assert r.s == Step(b, Step(b, s0, begin).s, chunk).s;
    hide StoreStep, ChunkStep, Streaming, Program, Erase;
    StreamingErased(r.s);
    HeaderLands(b, r.s, end.commit);
    BoundaryExact(b, r, end);
  }

  lemma TwoBytesHeld(b: Board, s: State, chunk: Call)
    requires Sized(b, s) && s.target && s.error.None? && s.writeOffset == 0 && chunk.Chunk?
    requires chunk == Chunk([0xE9, 0x01], 0, 0, Done, Done, Done, Done)
    ensures var t := ChunkStep(b, s, chunk).s;
      t.writeOffset == 2 && t.header[1] == 0x01 && |t.header| == SECTOR && t.callerChecks == s.callerChecks
  {
  }

  // ---- which chunks are taken ------------------------------------------------------------------------

  /** How far the slot is erased when a chunk's own bytes come, first chunk or later. */
  function ErasedFor(s: State): nat {
    if s.writeOffset == 0 then 4096 else s.erasedUpTo
  }

  /** A chunk that holds something is taken if and only if an install runs without an error,
      the chunk goes on where the stream has got to, fits, begins like an image if it is
      the first, and every flash operation it needs is done. */
  lemma ChunkTakenExactly(b: Board, r: Run, c: Call)
    requires Inv(b, r) && c.Chunk? && c.data != []
    ensures var s, end := r.s, r.s.writeOffset + |c.data|;
      ChunkStep(b, s, c).ok <==>
        && s.target && s.error.None?
        && c.streamOffset == s.writeOffset && end <= b.size
        && (s.writeOffset == 0 ==> c.data[0] == 0xE9 && c.headerErase.Done?)
        && (end > ErasedFor(s) ==> c.bodyErase.Done?)
        && (end > 4096 ==> c.write.Done?)
  {
    hide Erase, Program, Streaming;
    var s := r.s;
    if s.target && s.writeOffset > 0 { StreamingMark(b, r); }
    if s.writeOffset + |c.data| <= b.size { EraseMark(s.writeOffset, |c.data|, ErasedFor(s)); }
  }

  lemma StreamingMark(b: Board, r: Run)
    requires Inv(b, r) && r.s.target && r.s.writeOffset > 0
    ensures r.s.erasedUpTo % SECTOR == 0 && SECTOR <= r.s.erasedUpTo
  {
  }

  /** The erase mark lies past what is erased exactly when the chunk's end does. */
  lemma EraseMark(writeOffset: nat, len: nat, erased: nat)
    requires len > 0
    ensures var p := PlanChunk(writeOffset, len, SECTOR);
      && (p.flashBytes > 0 <==> writeOffset + len > SECTOR)
      && (erased % SECTOR == 0 && erased >= SECTOR ==>
            (p.flashBytes > 0 && p.eraseTo > erased <==> writeOffset + len > erased))
  {
    PlanCoversTheChunk(writeOffset, len, SECTOR);
    hide PlanChunk;
  }

  /** A chunk at any other place ends the install, with the slot untouched or without a
      header. */
  lemma OutOfOrderEndsTheInstall(b: Board, r: Run, c: Call)
    requires Inv(b, r) && HonestCall(r.s, c) && r.s.target && r.s.error.None?
    requires c.Chunk? && c.data != [] && c.streamOffset != r.s.writeOffset
    ensures var a := ChunkStep(b, r.s, c);
      && !a.ok && !a.s.target && !a.s.inProgress && a.s.error.Some?
      && (HeaderErased(a.s.flash) || (r.s.writeOffset == 0 && a.s.flash == r.base))
  {
    SettledLeaves(b, r, c);
    if r.s.writeOffset > 0 { StreamingErased(r.s); }
    hide Streaming;
  }

  /** A piece of a stream: where it was said to lie, and its bytes. */
  datatype Piece = Piece(offset: nat, data: seq<bv8>)

  function Bytes(ps: seq<Piece>): seq<bv8> {
    if ps == [] then [] else Bytes(ps[..|ps| - 1]) + ps[|ps| - 1].data
  }

  /** Each piece lies where those before it end, the first at 0. */
  ghost predicate EndToEnd(ps: seq<Piece>) {
    forall k :: 0 <= k < |ps| ==> ps[k].offset == |Bytes(ps[..k])|
  }

  /** The pieces the install in flight has taken, told from the calls and their answers. */
  ghost function TakenAfter(b: Board, r: Run, cs: seq<Call>, taken: seq<Piece>): seq<Piece>
    requires Inv(b, r) && HonestRun(b, r, cs)
    decreases |cs|
  {
    if cs == [] then taken
    else
      StepIsKnown(b, r, cs[0]);
      TakenAfter(b, Next(b, r, cs[0]), cs[1..], TakenOne(b, r.s, cs[0], taken))
  }

  function TakenOne(b: Board, s: State, c: Call, taken: seq<Piece>): seq<Piece>
    requires Sized(b, s)
  {
    if !Step(b, s, c).ok then taken
    else match c
      case Begin(_, _, _, _) => []
      case Chunk(data, streamOffset, _, _, _, _, _) => if data == [] then taken else taken + [Piece(streamOffset, data)]
      case End(_, _) => taken
      case Abort(_) => taken
  }

  ghost predicate Holds(s: State, taken: seq<Piece>) {
    s.target ==> EndToEnd(taken) && Bytes(taken) == s.digested && |Bytes(taken)| == s.writeOffset
  }

  lemma TakenLies(taken: seq<Piece>, p: Piece)
    requires EndToEnd(taken) && p.offset == |Bytes(taken)|
    ensures EndToEnd(taken + [p]) && Bytes(taken + [p]) == Bytes(taken) + p.data
  {
    var all := taken + [p];
    assert all[..|taken|] == taken;
    forall k | 0 <= k < |all|
      ensures all[k].offset == |Bytes(all[..k])|
    {
      if k < |taken| { assert all[..k] == taken[..k]; }
    }
  }

  lemma StepHolds(b: Board, r: Run, c: Call, taken: seq<Piece>)
    requires Inv(b, r) && HonestCall(r.s, c) && Holds(r.s, taken)
    ensures Holds(Next(b, r, c).s, TakenOne(b, r.s, c, taken))
  {
    InvIsSized(b, r);
    hide Inv, Holds, BeginStep, ChunkStep, EndStep, AbortStep, HonestCall;
    match c
    case Begin(_, _, _, _) => BeginTakes(b, r.s, c, taken);
    case Chunk(_, _, _, _, _, _, _) => ChunkHolds(b, r, c, taken);
    case End(_, _) => EndTakes(b, r.s, c, taken);
    case Abort(_) => EndTakes(b, r.s, c, taken);
  }

  lemma BeginTakes(b: Board, s: State, c: Call, taken: seq<Piece>)
    requires Sized(b, s) && Holds(s, taken) && c.Begin?
    ensures Holds(BeginStep(b, s, c).s, if BeginStep(b, s, c).ok then [] else taken)
  {
    BeginHolds(b, s, c);
    hide BeginStep;
  }

  lemma EndTakes(b: Board, s: State, c: Call, taken: seq<Piece>)
    requires Sized(b, s) && Holds(s, taken) && (c.End? || c.Abort?)
    ensures Holds(Step(b, s, c).s, taken)
  {
    hide EndToEnd, Program, Erase;
  }

  lemma ChunkHolds(b: Board, r: Run, c: Call, taken: seq<Piece>)
    requires Inv(b, r) && Holds(r.s, taken) && c.Chunk?
    ensures Holds(ChunkStep(b, r.s, c).s, TakenOne(b, r.s, c, taken))
  {
    if c.data != [] && ChunkStep(b, r.s, c).ok {
      assert r.s.target && c.streamOffset == r.s.writeOffset by { ChunkTakenExactly(b, r, c); }
      TakenGrows(b, r, c);
      hide Inv, ChunkStep, EndToEnd;
      TakenLies(taken, Piece(c.streamOffset, c.data));
    } else {
      ChunkNotTaken(b, r.s, c);
      hide Inv, ChunkStep, EndToEnd;
    }
  }

  lemma BeginHolds(b: Board, s: State, c: Call)
    requires Sized(b, s) && c.Begin?
    ensures BeginStep(b, s, c).ok ==> BeginStep(b, s, c).s.digested == [] && BeginStep(b, s, c).s.writeOffset == 0
    ensures var t := BeginStep(b, s, c).s;
      !BeginStep(b, s, c).ok ==> !t.target || t == s.(error := t.error)
  {
  }

  lemma TakenGrows(b: Board, r: Run, c: Call)
    requires Inv(b, r) && c.Chunk? && ChunkStep(b, r.s, c).ok && c.data != []
    ensures var t := ChunkStep(b, r.s, c).s;
      && t.target && t.digested == r.s.digested + c.data && t.writeOffset == r.s.writeOffset + |c.data|
      && t.inProgress == r.s.inProgress && t.lastChunkMs == c.nowMs
  {
    var s0 := r.s.(lastChunkMs := c.nowMs);
    StoredGrows(b, s0, c, []);
    if r.s.writeOffset == 0 {
      var s1 := s0.(flash := Erase(r.s.flash, 0, SECTOR, c.headerErase), erasedUpTo := SECTOR);
      StoredGrows(b, s1, c, [s1.flash]);
    }
    hide Erase, StoreStep, Streaming;
  }

  lemma StoredGrows(b: Board, s: State, c: Call, trail: seq<seq<bv8>>)
    requires c.Chunk? && Sized(b, s)
    ensures s.writeOffset + |c.data| <= b.size && StoreStep(b, s, c, trail).ok ==>
      var t := StoreStep(b, s, c, trail).s;
      && t.target == s.target && t.digested == s.digested + c.data && t.writeOffset == s.writeOffset + |c.data|
      && t.inProgress == s.inProgress && t.lastChunkMs == s.lastChunkMs
  {
    hide Erase, Program, PlanChunk, Held;
  }

  lemma ChunkNotTaken(b: Board, s: State, c: Call)
    requires Sized(b, s) && c.Chunk? && !(c.data != [] && ChunkStep(b, s, c).ok)
    ensures var a := ChunkStep(b, s, c); a.s == s || (!a.s.target && !a.s.inProgress)
  {
    hide Erase, Program;
  }

  /** Over every run: what an install has taken are the bytes of its chunks, each of which
      was said to lie, and lies, where the one before it ended; nothing of another
      stream is among them. */
  lemma {:induction false} TakenLieEndToEnd(b: Board, r: Run, cs: seq<Call>, taken: seq<Piece>)
    requires Inv(b, r) && HonestRun(b, r, cs) && Holds(r.s, taken)
    ensures Holds(RunOf(b, r, cs).s, TakenAfter(b, r, cs, taken))
    decreases |cs|
  {
    InvIsSized(b, r);
    hide Inv, Next, TakenOne, Holds;
    if cs != [] {
      StepIsKnown(b, r, cs[0]);
      StepHolds(b, r, cs[0], taken);
      TakenLieEndToEnd(b, Next(b, r, cs[0]), cs[1..], TakenOne(b, r.s, cs[0], taken));
    }
  }

  /** So an end that succeeds leaves in flash what those chunks add up to. */
  lemma SuccessHoldsTheChunks(b: Board, r: Run, cs: seq<Call>, taken: seq<Piece>, end: Call)
    requires Inv(b, r) && HonestRun(b, r, cs) && Holds(r.s, taken) && end.End?
    requires var t := RunOf(b, r, cs); Sized(b, t.s) && EndStep(b, t.s, end).ok
    ensures var t := RunOf(b, r, cs);
      && EndToEnd(TakenAfter(b, r, cs, taken))
      && HoldsImage(EndStep(b, t.s, end).s.flash, Bytes(TakenAfter(b, r, cs, taken)))
  {
    TakenLieEndToEnd(b, r, cs, taken);
    var t := RunOf(b, r, cs);
    SuccessHoldsTheStream(b, t, end);
    assert t.s.target;
    hide Inv, EndStep, HoldsImage, EndToEnd;
  }

  // ---- the claim on the slot ---------------------------------------------------------------------------

  /** On a clock that wraps, a claim is the time since the install's last chunk: it lasts
      30 s. */
  lemma ClaimLastsHalfAMinute(s: State, last: nat, since: nat)
    requires since < 0x1_0000_0000 && s.lastChunkMs == last % 0x1_0000_0000
    ensures InProgress(s, (last + since) % 0x1_0000_0000) <==> s.inProgress && since < 30_000
  {
  }

  /** Giving up ends an install, with the slot untouched, or without a header if the scrub
      works, and does nothing when none runs. */
  lemma AbortGivesUp(b: Board, r: Run, c: Call)
    requires Inv(b, r) && HonestCall(r.s, c) && c.Abort?
    ensures var t := AbortStep(b, r.s, c).s;
      if !r.s.target then t == r.s
      else !t.target && !t.inProgress && t.error.Some?
           && if r.s.writeOffset == 0 then t.flash == r.base else HeaderErased(t.flash)
  {
    if r.s.target && r.s.writeOffset > 0 { StreamingErased(r.s); }
    ScrubWhole(r.s.flash, c.scrub);
    hide Streaming, Erase;
  }

  /** A begin is taken if and only if there is a slot and no claim on it; it starts a claim,
      each chunk taken renews it, and it ends with the install. */
  lemma ClaimFollowsTheInstall(b: Board, r: Run, c: Call)
    requires Inv(b, r) && HonestCall(r.s, c)
    ensures c.Begin? ==> (Step(b, r.s, c).ok <==> c.present && !InProgress(r.s, c.nowMs))
    ensures var a := Step(b, r.s, c);
      && (c.Begin? && a.ok ==> a.s.inProgress && a.s.lastChunkMs == c.nowMs)
      && (c.Begin? && !c.present && !InProgress(r.s, c.nowMs) ==>
            !a.s.target && !a.s.inProgress && a.s.error.Some? && a.s.flash == r.s.flash)
      && (c.Chunk? && c.data != [] && a.ok ==> a.s.inProgress == r.s.inProgress && a.s.lastChunkMs == c.nowMs)
      && (r.s.target && !a.s.target ==> !a.s.inProgress)
  {
    hide Streaming, Erase, Program, ChunkStep;
    if c.Chunk? {
      if ChunkStep(b, r.s, c).ok && c.data != [] { TakenGrows(b, r, c); } else { ChunkNotTaken(b, r.s, c); }
    }
  }

  // ---- every way of cutting an image ---------------------------------------------------------------

  function Concat(chunks: seq<seq<bv8>>): seq<bv8> {
    if chunks == [] then [] else Concat(chunks[..|chunks| - 1]) + chunks[|chunks| - 1]
  }

  /** The chunks of a stream in order, with flash that works. */
  function Streamed(b: Board, s: State, chunks: seq<seq<bv8>>, nowMs: u32): (t: State)
    requires Sized(b, s)
    ensures Sized(b, t)
    decreases |chunks|
  {
    if chunks == [] then s
    else
      var n := |chunks| - 1;
      var before := Streamed(b, s, chunks[..n], nowMs);
      var t := ChunkStep(b, before, Chunk(chunks[n], |Concat(chunks[..n])|, nowMs, Done, Done, Done, Done)).s;
      if Sized(b, t) then t else before
  }

  /** Cut any way at all, the stream arrives whole: the install accepts every chunk,
      has digested exactly the image, and its end leaves exactly the image in flash. */
  lemma {:induction false} AnyCutInstallsTheImage(b: Board, base: seq<bv8>, s: State, chunks: seq<seq<bv8>>, nowMs: u32)
    requires Inv(b, Run(s, base, None)) && s.target && s.error.None? && s.writeOffset == 0
    requires |Concat(chunks)| <= b.size && (Concat(chunks) != [] ==> Concat(chunks)[0] == IMAGE_MAGIC)
    ensures var t := Streamed(b, s, chunks, nowMs);
      && Inv(b, Run(t, base, None)) && t.target && t.error.None? && t.digested == Concat(chunks)
      && t.writeOffset == |Concat(chunks)| && t.callerChecks == s.callerChecks && t.expected == s.expected
    decreases |chunks|
  {
    hide StoreStep, Streaming, ChunkStep, Known;
    if chunks != [] {
      var n := |chunks| - 1;
      var before, last := Streamed(b, s, chunks[..n], nowMs), chunks[n];
      assert Concat(chunks) == Concat(chunks[..n]) + last;
      AnyCutInstallsTheImage(b, base, s, chunks[..n], nowMs);
      var c := Chunk(last, |Concat(chunks[..n])|, nowMs, Done, Done, Done, Done);
      StepIsKnown(b, Run(before, base, None), c);
      ChunkAccepted(b, Run(before, base, None), c);
    }
  }

  lemma BeginStarts(b: Board, s0: State, begin: Call)
    requires Sized(b, s0) && begin.Begin? && BeginStep(b, s0, begin).ok
    ensures var s := BeginStep(b, s0, begin).s;
      && Inv(b, Run(s, s0.flash, None)) && s.target && s.error.None? && s.writeOffset == 0
      && s.callerChecks == begin.checkedByCaller && s.expected == begin.expected
  {
  }

  /** The whole way, from any state a begin accepts: the end succeeds if and only if the
      header is written, the digest of the image (not of the chunks) is the one asked
      for, and what is then in flash has a descriptor; and then flash holds exactly the
      image. */
  lemma AnyCutEndsWithTheImage(b: Board, s0: State, begin: Call, chunks: seq<seq<bv8>>, nowMs: u32, end: Call)
    requires Sized(b, s0) && begin.Begin? && BeginStep(b, s0, begin).ok && end.End?
    requires 0 < |Concat(chunks)| <= b.size && Concat(chunks)[0] == IMAGE_MAGIC
    ensures var t := Streamed(b, BeginStep(b, s0, begin).s, chunks, nowMs); var a := EndStep(b, t, end);
      && Committed(t)[..|Concat(chunks)|] == Concat(chunks)
      && (a.ok <==> end.commit.Done? && b.describes(Committed(t))
                    && (begin.checkedByCaller || b.digest(Concat(chunks)) == begin.expected))
      && (a.ok ==> a.s.flash == Committed(t))
  {
    hide StoreStep, ChunkStep, Program, BeginStep;
    var s := BeginStep(b, s0, begin).s;
    BeginStarts(b, s0, begin);
    AnyCutInstallsTheImage(b, s0.flash, s, chunks, nowMs);
    HeaderLands(b, Streamed(b, s, chunks, nowMs), Done);
  }

  lemma ChunkAccepted(b: Board, r: Run, c: Call)
    requires Inv(b, r) && c.Chunk? && r.s.target && r.s.error.None?
    requires c.streamOffset == r.s.writeOffset && r.s.writeOffset + |c.data| <= b.size
    requires r.s.writeOffset == 0 && c.data != [] ==> c.data[0] == IMAGE_MAGIC
    requires c.headerErase.Done? && c.bodyErase.Done? && c.write.Done?
    ensures var a := ChunkStep(b, r.s, c);
      && a.ok && a.s.target && a.s.error.None? && a.s.digested == r.s.digested + c.data
      && a.s.writeOffset == r.s.writeOffset + |c.data|
      && a.s.callerChecks == r.s.callerChecks && a.s.expected == r.s.expected
  {
    PlanCoversTheChunk(r.s.writeOffset, |c.data|, SECTOR);
    hide PlanChunk, Erase, Program;
  }

  // ---- a second begin ------------------------------------------------------------------------------------

  function Steps(b: Board, s: State, cs: seq<Call>): State
    decreases |cs|
  {
    if cs == [] || !Sized(b, s) then s else Steps(b, Step(b, s, cs[0]).s, cs[1..])
  }

  /** Against the promise that a second upload leaves the one in flight alone: being
      refused it marks the state failed, and from then on no chunk and no end of the
      install in flight changes anything, although its claim on the slot stays. */
  lemma {:induction false} RefusedBeginStopsTheInstall(b: Board, s: State, second: Call, cs: seq<Call>)
    requires Sized(b, s) && s.target && second.Begin? && InProgress(s, second.nowMs)
    requires forall c :: c in cs ==> c.Chunk? || c.End?
    ensures var refused := s.(error := Some(InFlight));
      && BeginStep(b, s, second) == Answer(refused, false, [])
      && Steps(b, refused, cs) == refused
      && forall c :: c in cs ==> !Step(b, refused, c).ok
    decreases |cs|
  {
    if cs != [] {
      RefusedBeginStopsTheInstall(b, s, second, cs[1..]);
    }
  }

  // ---- the module's own state --------------------------------------------------------------------------------

  class FactoryInstaller {
    const board: Board
    const flash: array<bv8>
    const header: array<bv8>
    var target: bool
    var writeOffset: nat
    var erasedUpTo: nat
    var digested: seq<bv8>
    var expected: string
    var callerChecks: bool
    var error: Option<Error>
    var inProgress: bool
    var lastChunkMs: u32

    ghost predicate Valid()
      reads this
    {
      && board.size >= SECTOR && board.size % SECTOR == 0
      && flash.Length == board.size && header.Length == SECTOR && flash != header
      && writeOffset <= board.size && erasedUpTo <= board.size
    }

    ghost function Now(): State
      reads this, flash, header
    {
      State(flash[..], target, writeOffset, erasedUpTo, header[..], digested, expected, callerChecks, error, inProgress,
            lastChunkMs)
    }

    constructor (board: Board)
      requires board.size >= SECTOR && board.size % SECTOR == 0
      ensures Valid() && fresh(flash) && fresh(header) && this.board == board && !target && !inProgress
    {
      this.board := board;
      flash := new bv8[board.size];
      header := new bv8[SECTOR];
      target, writeOffset, erasedUpTo, digested, expected, callerChecks, error, inProgress, lastChunkMs :=
        false, 0, 0, [], [], false, None, false, 0;
    }

    method EraseRange(from: nat, to: nat, o: Outcome) returns (ok: bool)
      requires Valid() && from <= to <= board.size
      modifies flash
      ensures ok == o.Done? && flash[..] == Erase(old(flash[..]), from, to, o)
    {
      var end := from + Reach(o, to - from, SECTOR);
      for i := from to end
        invariant forall j :: 0 <= j < flash.Length ==> flash[j] == if from <= j < i then ERASED else old(flash[j])
      {
        flash[i] := ERASED;
      }
      ok := o.Done?;
    }

    method WriteRange(offset: nat, data: seq<bv8>, o: Outcome) returns (ok: bool)
      requires Valid() && offset + |data| <= board.size
      modifies flash
      ensures ok == o.Done? && flash[..] == Program(old(flash[..]), offset, data, o)
    {
      var n := Reach(o, |data|, 1);
      for i := 0 to n
        invariant forall j :: 0 <= j < flash.Length ==>
          flash[j] == if offset <= j < offset + i then old(flash[j]) & data[j - offset] else old(flash[j])
      {
        flash[offset + i] := flash[offset + i] & data[i];
      }
      ok := o.Done?;
    }

    method FailWith(why: Error, scrub: Outcome) returns (ok: bool)
      requires Valid()
      modifies this, flash
      ensures Valid() && !ok && Now() == Fail(old(Now()), why, scrub, []).s
    {
      if target && erasedUpTo > 0 {
        var scrubbed := EraseRange(0, SECTOR, scrub);
      }
      error, target, inProgress := Some(why), false, false;
      ok := false;
    }

    method WriteBegin(md5: string, checkedByCaller: bool, present: bool, nowMs: u32) returns (ok: bool)
      requires Valid()
      modifies this
      ensures Valid()
      ensures var a := BeginStep(board, old(Now()), Call.Begin(md5, checkedByCaller, present, nowMs));
              Now() == a.s && ok == a.ok
    {
      if inProgress && Sub32(nowMs, lastChunkMs) < INSTALL_STALE_MS {
        error := Some(InFlight);
        return false;
      }
      callerChecks := checkedByCaller;
      error := None;
      target := present;
      if !present {
        error, inProgress := Some(NoPartition), false;
        return false;
      }
      writeOffset, erasedUpTo, expected, inProgress, lastChunkMs, digested := 0, 0, md5, true, nowMs, [];
      ok := true;
    }

    method HoldBack(data: seq<bv8>, n: nat)
      requires Valid() && n <= |data| && (n > 0 ==> writeOffset + n <= SECTOR)
      modifies header
      ensures header[..] == Held(old(header[..]), writeOffset, data, n)
    {
      for i := 0 to n
        invariant forall j :: 0 <= j < SECTOR ==>
          header[j] == if writeOffset <= j < writeOffset + i then data[j - writeOffset] else old(header[j])
      {
        header[writeOffset + i] := data[i];
      }
    }

    /** The bytes of a chunk once its checks have passed. */
    method Store(data: seq<bv8>, c: Call) returns (ok: bool)
      requires Valid() && c.Chunk? && c.data == data && writeOffset + |data| <= board.size
      modifies this, flash, header
      ensures Valid()
      ensures var a := StoreStep(board, old(Now()), c, []); Now() == a.s && ok == a.ok
    {
      var p := PlanChunk(writeOffset, |data|, SECTOR);
      PlanCoversTheChunk(writeOffset, |data|, SECTOR);
      WatermarkInside(board.size, writeOffset + |data|);
      assert p.flashBytes > 0 ==> p.eraseTo <= board.size;
      hide PlanChunk, Erase, Program, Fail, Held;
      HoldBack(data, p.headerBytes);
      if p.flashBytes > 0 {
        if p.eraseTo > erasedUpTo {
          var erased := EraseRange(erasedUpTo, p.eraseTo, c.bodyErase);
          if !erased {
            ghost var s2 := Now();
            ok := FailWith(EraseFailed, c.scrub);
            FailTrail(s2, EraseFailed, c.scrub, [s2.flash]);
            return;
          }
          erasedUpTo := p.eraseTo;
        }
        ghost var s3 := Now();
        var written := WriteRange(p.flashOffset, data[p.headerBytes..], c.write);
        if !written {
          ghost var s4 := Now();
          ok := FailWith(WriteFailed, c.scrub);
          FailTrail(s4, WriteFailed, c.scrub, [s4.flash]);
          FailTrail(s4, WriteFailed, c.scrub, [s3.flash] + [s4.flash]);
          return;
        }
      }
      Digest(data);
      writeOffset := writeOffset + |data|;
      ok := true;
    }

    /** Feeds the digest in slices its length argument can hold. */
    method Digest(data: seq<bv8>)
      modifies this`digested
      ensures digested == old(digested) + data
    {
      var added := 0;
      while added < |data|
        invariant added <= |data| && digested == old(digested) + data[..added]
      {
        var n := if |data| - added > DIGEST_SLICE then DIGEST_SLICE else |data| - added;
        assert data[..added + n] == data[..added] + data[added..added + n];
        digested := digested + data[added..added + n];
        added := added + n;
      }
    }

    method WriteChunk(data: seq<bv8>, streamOffset: nat, nowMs: u32, headerErase: Outcome, bodyErase: Outcome,
                      write: Outcome, scrub: Outcome)
      returns (ok: bool)
      requires Valid()
      modifies this, flash, header
      ensures Valid()
      ensures var a := ChunkStep(board, old(Now()),
                                 Chunk(data, streamOffset, nowMs, headerErase, bodyErase, write, scrub));
              Now() == a.s && ok == a.ok
    {
      hide StoreStep, Fail, Erase, Program;
      ghost var c := Chunk(data, streamOffset, nowMs, headerErase, bodyErase, write, scrub);
      if !target || error.Some? { return false; }
      if |data| == 0 { return true; }
      if streamOffset != writeOffset {
        ok := FailWith(OutOfOrder, scrub);
        FailTrail(old(Now()), OutOfOrder, scrub, []);
        return;
      }
      lastChunkMs := nowMs;
      ghost var s0 := Now();
      if writeOffset + |data| > board.size {
        ok := FailWith(TooLarge, scrub);
        FailTrail(s0, TooLarge, scrub, []);
        return;
      }
      if writeOffset == 0 {
        if data[0] != IMAGE_MAGIC {
          ok := FailWith(BadMagic, scrub);
          FailTrail(s0, BadMagic, scrub, []);
          return;
        }
        var erased := EraseRange(0, SECTOR, headerErase);
        if !erased {
          ghost var s1 := Now();
          ok := FailWith(EraseFailed, scrub);
          FailTrail(s1, EraseFailed, scrub, [s1.flash]);
          return;
        }
        erasedUpTo := SECTOR;
      }
      ghost var s2 := Now();
      ok := Store(data, Chunk(data, streamOffset, nowMs, headerErase, bodyErase, write, scrub));
      StoreTrail(board, s2, c, [s2.flash]);
    }

    method WriteEnd(commit: Outcome, scrub: Outcome) returns (ok: bool)
      requires Valid()
      modifies this, flash
      ensures Valid()
      ensures var a := EndStep(board, old(Now()), Call.End(commit, scrub)); Now() == a.s && ok == a.ok
    {
      hide Erase, Program;
      if !target || error.Some? { return false; }
      if writeOffset == 0 {
        ok := FailWith(Empty, scrub);
        return;
      }
      if !callerChecks && board.digest(digested) != expected {
        ok := FailWith(DigestMismatch, scrub);
        return;
      }
      var headerLen := if writeOffset < SECTOR then writeOffset else SECTOR;
      assert header[..headerLen] == header[..][..headerLen];
      var written := WriteRange(0, header[..headerLen], commit);
      if !written {
        ok := FailWith(CommitFailed, scrub);
        return;
      }
      if !board.describes(flash[..]) {
        ok := FailWith(NoDescriptor, scrub);
        return;
      }
      target, inProgress := false, false;
      ok := true;
    }

    method WriteAbort(scrub: Outcome)
      requires Valid()
      modifies this, flash
      ensures Valid() && Now() == AbortStep(board, old(Now()), Call.Abort(scrub)).s
    {
      if target {
        var ok := FailWith(GivenUp, scrub);
      }
    }
  }

  /** What was written before plays no part in how a call goes on. */
  lemma FailTrail(s: State, why: Error, scrub: Outcome, trail: seq<seq<bv8>>)
    requires |s.flash| >= SECTOR
    ensures Fail(s, why, scrub, trail).s == Fail(s, why, scrub, []).s && !Fail(s, why, scrub, trail).ok
  {
  }

  lemma StoreTrail(b: Board, s: State, c: Call, trail: seq<seq<bv8>>)
    requires c.Chunk? && Sized(b, s) && s.writeOffset + |c.data| <= b.size
    ensures StoreStep(b, s, c, trail).s == StoreStep(b, s, c, []).s && StoreStep(b, s, c, trail).ok == StoreStep(b, s, c, []).ok
  {
    hide PlanChunk, Erase, Program;
  }
}
