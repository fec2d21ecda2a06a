/** EventRecordPolicy.h: what one entry of the event record is on flash, and how
    a file of them is paged through backward. */
module EventRecordPolicy {
  import opened Wrappers

  const RECORD_SIZE: nat := 24
  const CHECK_AT: nat := 21
  const CHECK_MASK: u8 := 0x5A
  const CHUNK: nat := 16

  datatype EventRecord = EventRecord(timeS: u32, seqNo: u32, a: u32, b: u32,
                                     board: u16, kind: u8, detail: u8, unit: u8)

  // ---- one entry ---------------------------------------------------------------

  function Put32(v: u32): (p: seq<u8>)
    ensures |p| == 4
  {
    [v % 0x100, v / 0x100 % 0x100, v / 0x1_0000 % 0x100, v / 0x100_0000 % 0x100]
  }

  function Glue(b0: u8, b1: u8, b2: u8, b3: u8): u32 {
    (b0 + 0x100 * b1 + 0x1_0000 * b2 + 0x100_0000 * b3) as int
  }

  function Get32(p: seq<u8>): u32
    requires |p| == 4
  {
    Glue(p[0], p[1], p[2], p[3])
  }

  /** Bitwise exclusive or of two numbers. */
  function XorNat(x: nat, y: nat): nat
    decreases x + y
  {
    if x == 0 && y == 0 then 0 else (x + y) % 2 + 2 * XorNat(x / 2, y / 2)
  }

  lemma {:induction false} XorNatBound(x: nat, y: nat, bound: nat)
    requires x < bound && y < bound && bound in {1, 2, 4, 8, 16, 32, 64, 128, 256}
    ensures XorNat(x, y) < bound
  {
    if bound > 1 {
      XorNatBound(x / 2, y / 2, bound / 2);
    }
  }

  lemma {:induction false} XorNatGroup(x: nat, y: nat, z: nat)
    ensures XorNat(XorNat(x, y), z) == XorNat(x, XorNat(y, z))
    decreases x + y + z
  {
    if x + y + z > 0 {
      XorNatGroup(x / 2, y / 2, z / 2);
      XorNatGroupStep(x, y, z);
    }
  }

  lemma XorNatGroupStep(x: nat, y: nat, z: nat)
    requires XorNat(XorNat(x / 2, y / 2), z / 2) == XorNat(x / 2, XorNat(y / 2, z / 2))
    ensures XorNat(XorNat(x, y), z) == XorNat(x, XorNat(y, z))
  {
    hide XorNat;
    var xy, yz := XorNat(x, y), XorNat(y, z);
    XorNatHalves(x, y);
    XorNatHalves(y, z);
    XorNatHalves(xy, z);
    XorNatHalves(x, yz);
    assert (xy + z) % 2 == (x + yz) % 2 by { ParityGroup(x, y, z); ParityOfSum(xy, z); ParityOfSum(x, yz); }
  }

  lemma ParityGroup(x: nat, y: nat, z: nat)
    ensures (((x + y) % 2) + z) % 2 == (x + ((y + z) % 2)) % 2
  {
  }

  lemma ParityOfSum(x: nat, y: nat)
    ensures (x + y) % 2 == (x % 2 + y) % 2 == (x + y % 2) % 2
  {
  }

  lemma XorNatHalves(x: nat, y: nat)
    ensures XorNat(x, y) == XorNat(x, y) % 2 + 2 * (XorNat(x, y) / 2)
    ensures XorNat(x, y) % 2 == (x + y) % 2 && XorNat(x, y) / 2 == XorNat(x / 2, y / 2)
  {
    BitAndHalf(XorNat(x, y), (x + y) % 2, XorNat(x / 2, y / 2));
  }

  lemma BitAndHalf(v: nat, bit: nat, half: nat)
    requires v == bit + 2 * half && bit < 2
    ensures v % 2 == bit && v / 2 == half
  {
  }

  lemma {:induction false} XorNatLaws(x: nat, y: nat)
    ensures XorNat(x, y) == XorNat(y, x)
    ensures XorNat(x, 0) == x && XorNat(x, x) == 0
    decreases x + y
  {
    if x + y > 0 {
      XorNatLaws(x / 2, y / 2);
    }
  }

  /** Bit `k` of a number. */
  function Bit(x: nat, k: nat): nat { if k == 0 then x % 2 else Bit(x / 2, k - 1) }

  /** Bit by bit it is set where exactly one of the two has it. */
  lemma {:induction false} XorBits(x: nat, y: nat, k: nat)
    ensures Bit(XorNat(x, y), k) == if Bit(x, k) == Bit(y, k) then 0 else 1
    ensures Bit(x, k) in {0, 1} && Bit(y, k) in {0, 1}
    decreases k
  {
    XorNatHalves(x, y);
    if k > 0 {
      XorBits(x / 2, y / 2, k - 1);
    }
  }

  /** The source's `x ^ y` on two bytes. */
  function Xor8(x: u8, y: u8): u8 {
    XorNatBound(x, y, 256);
    XorNat(x, y)
  }

  /** Exclusive or is a commutative group in which every byte is its own inverse. */
  lemma Xor8Laws(x: u8, y: u8, z: u8)
    ensures Xor8(Xor8(x, y), z) == Xor8(x, Xor8(y, z))
    ensures Xor8(x, y) == Xor8(y, x)
    ensures Xor8(x, 0) == x && Xor8(x, x) == 0
  {
    XorNatGroup(x, y, z);
    XorNatLaws(x, y);
  }

  function Xor(p: seq<u8>): u8 {
    if p == [] then 0 else Xor8(p[0], Xor(p[1..]))
  }

  /** The check byte: XOR of the mask and every byte but the check byte itself. */
  function Check(p: seq<u8>): u8
    requires |p| == RECORD_SIZE
  {
    Xor8(CHECK_MASK, Xor8(Xor(p[..CHECK_AT]), Xor(p[CHECK_AT + 1..])))
  }

  function Body(r: EventRecord): (p: seq<u8>)
    ensures |p| == CHECK_AT
  {
    Put32(r.timeS) + Put32(r.seqNo) + Put32(r.a) + Put32(r.b) +
    [r.board % 0x100, r.board / 0x100, r.kind, r.detail, r.unit]
  }

  function Encode(r: EventRecord): (p: seq<u8>)
    ensures |p| == RECORD_SIZE
  {
    var p := Body(r) + [0, 0, 0];
    p[CHECK_AT := Check(p)]
  }

  /** None if the check byte is wrong or the seq is 0. */
  function Decode(p: seq<u8>): Option<EventRecord>
    requires |p| == RECORD_SIZE
  {
    if p[CHECK_AT] != Check(p) then None
    else
      var r := EventRecord(Get32(p[0..4]), Get32(p[4..8]), Get32(p[8..12]), Get32(p[12..16]),
                           Glue(p[16], p[17], 0, 0), p[18], p[19], p[20]);
      if r.seqNo != 0 then Some(r) else None
  }

  lemma Get32Put32(v: u32)
    ensures Get32(Put32(v)) == v
  {
    BytesOf(v);
  }

  lemma BytesOf(v: nat)
    ensures v == v % 0x100 + 0x100 * (v / 0x100 % 0x100) + 0x1_0000 * (v / 0x1_0000 % 0x100)
                 + 0x100_0000 * (v / 0x100_0000)
  {
    assert v / 0x100 / 0x100 == v / 0x1_0000;
    assert v / 0x1_0000 / 0x100 == v / 0x100_0000;
  }

  lemma EncodeShape(r: EventRecord)
    ensures var p := Encode(r);
            && p[..CHECK_AT] == Body(r)
            && p[CHECK_AT + 1..] == [0, 0]
            && p[CHECK_AT] == Check(p)
  {
    var p := Encode(r);
    var q := Body(r) + [0, 0, 0];
    assert p[..CHECK_AT] == q[..CHECK_AT] == Body(r);
    assert p[CHECK_AT + 1..] == q[CHECK_AT + 1..] == [0, 0];
  }

  lemma BodyFields(r: EventRecord, p: seq<u8>)
    requires |p| == RECORD_SIZE && p[..CHECK_AT] == Body(r)
    ensures Get32(p[0..4]) == r.timeS && Get32(p[4..8]) == r.seqNo
    ensures Get32(p[8..12]) == r.a && Get32(p[12..16]) == r.b
    ensures p[4..8] == Put32(r.seqNo)
    ensures p[16..CHECK_AT] == [r.board % 0x100, r.board / 0x100, r.kind, r.detail, r.unit]
  {
    var b := Body(r);
    assert forall i, j :: 0 <= i <= j <= CHECK_AT ==> p[i..j] == p[..CHECK_AT][i..j];
    assert b[0..4] == Put32(r.timeS) && b[4..8] == Put32(r.seqNo);
    assert b[8..12] == Put32(r.a) && b[12..16] == Put32(r.b);
    Get32Put32(r.timeS);
    Get32Put32(r.seqNo);
    Get32Put32(r.a);
    Get32Put32(r.b);
  }

  /** Reading an entry gives back what was written, whatever the record; the one
      record that cannot be written is the one with seq 0. */
  lemma DecodeEncode(r: EventRecord)
    ensures Decode(Encode(r)) == if r.seqNo != 0 then Some(r) else None
  {
    var p := Encode(r);
    EncodeShape(r);
    BodyFields(r, p);
    var tail := p[16..CHECK_AT];
    assert tail[0] == p[16] && tail[1] == p[17] && tail[2] == p[18] && tail[3] == p[19] && tail[4] == p[20];
  }

  /** Where everything lies: numbers low byte first, at the offsets of the layout. */
  lemma EncodeLayout(r: EventRecord)
    ensures LiesAsLaidOut(Encode(r), r) && Xor(Encode(r)) == 0x5A
  {
    var p := Encode(r);
    EncodeShape(r);
    BodyFields(r, p);
    CheckIsXor(p);
    var tail, end := p[16..CHECK_AT], p[CHECK_AT + 1..];
    assert tail[0] == p[16] && tail[1] == p[17] && tail[2] == p[18] && tail[3] == p[19] && tail[4] == p[20];
    assert end[0] == p[22] && end[1] == p[23];
    hide Encode, Body, Xor, Check;
    NumberOf(p, 0);
    NumberOf(p, 4);
    NumberOf(p, 8);
    NumberOf(p, 12);
  }

  predicate LiesAsLaidOut(p: seq<u8>, r: EventRecord)
    requires |p| == 24
  {
    && IsNumberAt(p, 0, r.timeS) && IsNumberAt(p, 4, r.seqNo) && IsNumberAt(p, 8, r.a) && IsNumberAt(p, 12, r.b)
    && r.board == p[16] as int + 256 * p[17] as int
    && p[18] == r.kind && p[19] == r.detail && p[20] == r.unit
    && p[22] == 0 && p[23] == 0
  }

  predicate IsNumberAt(p: seq<u8>, i: nat, v: nat)
    requires i + 4 <= |p|
  {
    v == p[i] as int + 256 * p[i + 1] as int + 65536 * p[i + 2] as int + 16777216 * p[i + 3] as int
  }

  lemma NumberOf(p: seq<u8>, i: nat)
    requires i + 4 <= |p|
    ensures IsNumberAt(p, i, Get32(p[i..i + 4]))
  {
  }

  lemma {:induction false} XorConcat(p: seq<u8>, q: seq<u8>)
    ensures Xor(p + q) == Xor8(Xor(p), Xor(q))
  {
    if p == [] {
      assert p + q == q;
      Xor8Laws(Xor(q), 0, 0);
    } else {
      XorConcat(p[1..], q);
      Xor8Laws(p[0], Xor(p[1..]), Xor(q));
      assert (p + q)[1..] == p[1..] + q;
    }
  }

  /** h ^ m ^ t is the mask exactly when m is mask ^ h ^ t. */
  lemma XorRotates(h: u8, m: u8, t: u8)
    ensures m == Xor8(CHECK_MASK, Xor8(h, t)) <==> Xor8(h, Xor8(m, t)) == CHECK_MASK
  {
    var ht := Xor8(h, t);
    Xor8Laws(m, t, h);
    Xor8Laws(t, h, 0);
    assert Xor8(h, Xor8(m, t)) == Xor8(m, ht) by { Xor8Laws(h, Xor8(m, t), 0); }
    Xor8Laws(m, ht, ht);
    Xor8Laws(CHECK_MASK, ht, ht);
    Xor8Laws(ht, 0, 0);
    Xor8Laws(m, 0, 0);
  }

  /** The check byte is right exactly when all 24 bytes together XOR to the mask. */
  lemma CheckIsXor(p: seq<u8>)
    requires |p| == RECORD_SIZE
    ensures p[CHECK_AT] == Check(p) <==> Xor(p) == CHECK_MASK
  {
    var head, mid, tail := p[..CHECK_AT], [p[CHECK_AT]], p[CHECK_AT + 1..];
    assert p == head + (mid + tail);
    XorConcat(head, mid + tail);
    XorConcat(mid, tail);
    Xor8Laws(mid[0], 0, 0);
    assert Xor(mid) == mid[0];
    XorRotates(Xor(head), Xor(mid), Xor(tail));
  }

  lemma XorCancels(a: u8, b: u8, c: u8)
    requires Xor8(a, c) == Xor8(b, c)
    ensures a == b
  {
    Xor8Laws(a, c, c);
    Xor8Laws(b, c, c);
    Xor8Laws(c, 0, 0);
  }

  lemma {:induction false} XorOfOneChanged(p: seq<u8>, i: nat, x: u8)
    requires i < |p| && x != p[i]
    ensures Xor(p[i := x]) != Xor(p)
  {
    if i == 0 {
      assert p[0 := x][1..] == p[1..];
      if Xor(p[0 := x]) == Xor(p) { XorCancels(p[0], x, Xor(p[1..])); }
    } else {
      var q := p[1..][i - 1 := x];
      XorOfOneChanged(p[1..], i - 1, x);
      assert p[i := x][1..] == q;
      if Xor(p[i := x]) == Xor(p) {
        Xor8Laws(p[0], Xor(p[1..]), 0);
        Xor8Laws(p[0], Xor(q), 0);
        XorCancels(Xor(p[1..]), Xor(q), p[0]);
      }
    }
  }

  /** One damaged byte, wherever it is, is always seen. */
  lemma OneDamagedByteIsRefused(p: seq<u8>, i: nat, x: u8)
    requires |p| == RECORD_SIZE && i < RECORD_SIZE && x != p[i]
    requires Decode(p).Some?
    ensures Decode(p[i := x]) == None
  {
    CheckIsXor(p);
    CheckIsXor(p[i := x]);
    XorOfOneChanged(p, i, x);
  }

  // ---- a write cut short, then padded ---------------------------------------------

  function Zeros(n: nat): (z: seq<u8>)
    ensures |z| == n
  {
    seq(n, _ => 0)
  }

  lemma {:induction false} XorZeros(n: nat)
    ensures Xor(Zeros(n)) == 0
  {
    if n > 0 {
      assert Zeros(n)[1..] == Zeros(n - 1);
      XorZeros(n - 1);
      Xor8Laws(0, 0, 0);
    }
  }

  /** What is on flash once the first `torn` bytes of an entry have been padded
      out to the entry boundary. */
  function PaddedTear(r: EventRecord, torn: nat): (p: seq<u8>)
    requires torn < RECORD_SIZE
    ensures |p| == RECORD_SIZE
  {
    Encode(r)[..torn] + Zeros(RECORD_SIZE - torn)
  }

  /** The seq number a torn entry still shows: its bytes past the tear are zero. */
  function TornSeq(r: EventRecord, torn: nat): u32
    requires torn < RECORD_SIZE
  {
    Get32(PaddedTear(r, torn)[4..8])
  }

  /** The tears that padding turns into an entry after all. */
  predicate TearCompletes(r: EventRecord, torn: nat)
    requires torn < RECORD_SIZE
  {
    if torn > CHECK_AT then r.seqNo != 0
    else Xor(Encode(r)[..torn]) == CHECK_MASK && TornSeq(r, torn) != 0
  }

  /** Padding a torn entry yields something readable exactly for those tears. The
      header comment promises it never does; with 22 or 23 bytes on flash it
      always does, and gives the entry back whole. */
  lemma PaddedTearReadable(r: EventRecord, torn: nat)
    requires torn < RECORD_SIZE
    ensures Decode(PaddedTear(r, torn)).Some? <==> TearCompletes(r, torn)
    ensures torn > CHECK_AT ==> PaddedTear(r, torn) == Encode(r)
  {
    var p := PaddedTear(r, torn);
    EncodeShape(r);
    if torn > CHECK_AT {
      assert Encode(r)[CHECK_AT + 1..][0] == 0 && Encode(r)[CHECK_AT + 1..][1] == 0;
      assert p == Encode(r);
      DecodeEncode(r);
    } else {
      CheckIsXor(p);
      XorConcat(Encode(r)[..torn], Zeros(RECORD_SIZE - torn));
      XorZeros(RECORD_SIZE - torn);
      Xor8Laws(Xor(Encode(r)[..torn]), 0, 0);
    }
  }

  lemma DecodedSeq(p: seq<u8>)
    requires |p| == RECORD_SIZE && Decode(p).Some?
    ensures Decode(p).value.seqNo == Get32(p[4..8]) != 0
  {
  }

  lemma TornSeqBytes(r: EventRecord, torn: nat)
    requires torn < RECORD_SIZE
    ensures PaddedTear(r, torn)[4..8] == LowBytes(Put32(r.seqNo), torn)
  {
    var q := Encode(r);
    EncodeShape(r);
    BodyFields(r, q);
    hide Encode, Body, Put32;
    assert q[4..8] == q[..CHECK_AT][4..8];
    assert forall i :: 0 <= i < 4 ==> q[4..8][i] == q[i + 4];
    assert forall i :: 0 <= i < 4 ==> PaddedTear(r, torn)[4..8][i] == if i + 4 < torn then q[i + 4] else 0;
  }

  /** A torn entry shows its own seq or, torn inside it, one far below. */
  lemma TornSeqIsLow(r: EventRecord, torn: nat)
    requires torn < RECORD_SIZE
    ensures TornSeq(r, torn) == 0 || TornSeq(r, torn) == r.seqNo || TornSeq(r, torn) + 0x100 <= r.seqNo
    ensures TearCompletes(r, torn) ==>
      Decode(PaddedTear(r, torn)).Some? && Decode(PaddedTear(r, torn)).value.seqNo == TornSeq(r, torn) != 0
  {
    hide Decode, Put32, Get32, Encode;
    TornSeqBytes(r, torn);
    LowBytesBelow(r.seqNo, torn);
    PaddedTearReadable(r, torn);
    if TearCompletes(r, torn) {
      DecodedSeq(PaddedTear(r, torn));
    }
  }

  function LowBytes(p: seq<u8>, torn: nat): (q: seq<u8>)
    requires |p| == 4
    ensures |q| == 4
  {
    seq(4, i requires 0 <= i < 4 => if i + 4 < torn then p[i] else 0)
  }

  lemma LowBytesBelow(v: u32, torn: nat)
    ensures var low := Get32(LowBytes(Put32(v), torn)); low == 0 || low == v || low + 0x100 <= v
  {
    var p := Put32(v);
    var b0, b1, b2, b3: int := p[0], p[1], p[2], p[3];
    Get32Put32(v);
    assert v == b0 + 0x100 * b1 + 0x1_0000 * b2 + 0x100_0000 * b3;
    var low := LowBytes(p, torn);
    assert low[0] == if torn > 4 then b0 else 0;
    assert low[1] == if torn > 5 then b1 else 0;
    assert low[2] == if torn > 6 then b2 else 0;
    assert low[3] == if torn > 7 then b3 else 0;
    hide Put32;
  }

  /** A tear inside the time field can never be read back. */
  lemma EarlyTearIsRefused(r: EventRecord, torn: nat)
    requires torn <= 4
    ensures Decode(PaddedTear(r, torn)) == None
  {
    PaddedTearReadable(r, torn);
    assert PaddedTear(r, torn)[4..8] == [0, 0, 0, 0];
  }

  // ---- the entries of a file ---------------------------------------------------------

  function SlotCount(file: seq<u8>): nat { |file| / RECORD_SIZE }

  function Slot(file: seq<u8>, i: nat): Option<EventRecord>
    requires i < SlotCount(file)
  {
    Decode(file[i * RECORD_SIZE..(i + 1) * RECORD_SIZE])
  }

  function EntriesUpTo(file: seq<u8>, n: nat): (es: seq<EventRecord>)
    requires n <= SlotCount(file)
    ensures |es| <= n
  {
    if n == 0 then []
    else
      var older := EntriesUpTo(file, n - 1);
      match Slot(file, n - 1)
      case Some(r) => older + [r]
      case None => older
  }

  /** The readable entries of a file, oldest first. */
  function Entries(file: seq<u8>): seq<EventRecord> {
    EntriesUpTo(file, SlotCount(file))
  }

  predicate Wanted(before: u32, r: EventRecord) {
    before == 0 || r.seqNo < before
  }

  /** The plain backward scan: every wanted entry, newest first. */
  function NewestFirst(es: seq<EventRecord>, before: u32): seq<EventRecord> {
    if es == [] then []
    else
      var last := es[|es| - 1];
      (if Wanted(before, last) then [last] else []) + NewestFirst(es[..|es| - 1], before)
  }

  function Take<T>(s: seq<T>, n: nat): (t: seq<T>)
    ensures t <= s && |t| == if |s| < n then |s| else n
  {
    if |s| < n then s else s[..n]
  }

  function LastSeqOf(es: seq<EventRecord>): u32 {
    if es == [] then 0 else es[|es| - 1].seqNo
  }

  ghost predicate Numbered(es: seq<EventRecord>) {
    forall i :: 0 <= i < |es| ==> es[i].seqNo != 0
  }

  ghost predicate Increasing(es: seq<EventRecord>) {
    forall i, j :: 0 <= i < j < |es| ==> es[i].seqNo < es[j].seqNo
  }

  /** No seq is left out. */
  ghost predicate Consecutive(es: seq<EventRecord>) {
    forall i, j :: 0 <= i <= j < |es| ==> es[j].seqNo - es[i].seqNo == j - i
  }

  lemma {:induction false} EntriesAreNumbered(file: seq<u8>, n: nat)
    requires n <= SlotCount(file)
    ensures Numbered(EntriesUpTo(file, n))
  {
    if n > 0 {
      EntriesAreNumbered(file, n - 1);
    }
  }

  /** Searches backward for something readable. */
  method LastSeq(file: seq<u8>) returns (last: u32)
    ensures last == LastSeqOf(Entries(file))
    ensures last == 0 <==> Entries(file) == []
  {
    hide Decode;
    EntriesAreNumbered(file, SlotCount(file));
    var i := SlotCount(file);
    while i > 0
      invariant 0 <= i <= SlotCount(file)
      invariant EntriesUpTo(file, i) == Entries(file)
    {
      match Slot(file, i - 1)
      case Some(r) => return r.seqNo;
      case None =>
      i := i - 1;
    }
    return 0;
  }

  /** The slot a page is walked back from, itself not part of it. The jump
      is by seq arithmetic alone. */
  function StartSlot(file: seq<u8>, before: u32): (next: nat)
    ensures next <= SlotCount(file)
  {
    var total := SlotCount(file);
    var last := LastSeqOf(Entries(file));
    if before == 0 then total
    else if last == 0 then 0
    else if last < before then total
    else if last - before + 1 >= total then 0
    else total - (last - before + 1)
  }

  /** What the walk from there collects. */
  function PageOf(file: seq<u8>, before: u32, room: nat): seq<EventRecord> {
    Take(NewestFirst(EntriesUpTo(file, StartSlot(file, before)), before), room)
  }

  lemma NewestFirstOfOneMore(es: seq<EventRecord>, r: EventRecord, before: u32)
    ensures NewestFirst(es + [r], before) == (if Wanted(before, r) then [r] else []) + NewestFirst(es, before)
  {
    assert (es + [r])[..|es|] == es;
  }

  lemma TakeCons<T>(x: T, s: seq<T>, n: nat)
    requires n > 0
    ensures Take([x] + s, n) == [x] + Take(s, n - 1)
  {
  }

  /** One step of the walk, from slot `n` down. */
  lemma WalkStep(file: seq<u8>, n: nat, before: u32, room: nat)
    requires 0 < n <= SlotCount(file) && room > 0
    ensures var all, rest := NewestFirst(EntriesUpTo(file, n), before), NewestFirst(EntriesUpTo(file, n - 1), before);
            Take(all, room) == if Slot(file, n - 1).Some? && Wanted(before, Slot(file, n - 1).value)
                               then [Slot(file, n - 1).value] + Take(rest, room - 1)
                               else Take(rest, room)
  {
    var es := EntriesUpTo(file, n - 1);
    match Slot(file, n - 1)
    case Some(r) =>
      NewestFirstOfOneMore(es, r, before);
      TakeCons(r, NewestFirst(es, before), room);
    case None =>
  }

  lemma SliceOfSlice<T>(s: seq<T>, a: nat, b: nat, c: nat, d: nat)
    requires a <= b <= |s| && c <= d <= b - a
    ensures s[a..b][c..d] == s[a + c..a + d]
  {
    var t := s[a..b];
    forall k | 0 <= k < d - c
      ensures t[c..d][k] == s[a + c..a + d][k]
    {
      assert t[c..d][k] == t[c + k] == s[a + (c + k)];
    }
  }

  /** Reading a chunk of slots at once reads the same slots. */
  lemma ChunkSlot(file: seq<u8>, first: nat, n: nat, i: nat)
    requires first + n <= SlotCount(file) && 0 < i <= n
    ensures var raw := file[first * RECORD_SIZE..(first + n) * RECORD_SIZE];
            Decode(raw[(i - 1) * RECORD_SIZE..i * RECORD_SIZE]) == Slot(file, first + i - 1)
  {
    hide Decode;
    SliceOfSlice(file, first * RECORD_SIZE, (first + n) * RECORD_SIZE, (i - 1) * RECORD_SIZE, i * RECORD_SIZE);
  }

  /** The part of a page in slots [first, next), walked from the newest. */
  method ReadChunk(file: seq<u8>, first: nat, next: nat, before: u32, cap: nat, have: seq<EventRecord>)
    returns (out: seq<EventRecord>)
    requires first <= next <= SlotCount(file) && next * RECORD_SIZE <= |file| && |have| <= cap
    ensures |have| <= |out| <= cap
    ensures have + Take(NewestFirst(EntriesUpTo(file, next), before), cap - |have|)
         == out + Take(NewestFirst(EntriesUpTo(file, first), before), cap - |out|)
  {
    hide Decode, EntriesUpTo, NewestFirst, Take;
    out := have;
    var n := next - first;
    var raw := file[first * RECORD_SIZE..next * RECORD_SIZE];
    var i := n;
    while i > 0 && |out| < cap
      invariant 0 <= i <= n && |have| <= |out| <= cap
      invariant have + Take(NewestFirst(EntriesUpTo(file, next), before), cap - |have|)
             == out + Take(NewestFirst(EntriesUpTo(file, first + i), before), cap - |out|)
    {
      ChunkSlot(file, first, n, i);
      WalkStep(file, first + i, before, cap - |out|);
      var slot := Decode(raw[(i - 1) * RECORD_SIZE..i * RECORD_SIZE]);
      if slot.Some? && (before == 0 || slot.value.seqNo < before) {
        out := out + [slot.value];
      }
      i := i - 1;
    }
  }

  /** A page of one file behind what the caller has already: jump, then walk back 16
      slots at a time until `cap` is reached. */
  method PageRead(file: seq<u8>, before: u32, cap: nat, have: seq<EventRecord>)
    returns (out: seq<EventRecord>)
    ensures out == have + if |have| >= cap then [] else PageOf(file, before, cap - |have|)
  {
    out := have;
    var total := SlotCount(file);
    if total == 0 || |have| >= cap { return; }
    var next := total;
    if before != 0 {
      var last := LastSeq(file);
      if last == 0 { return; }
      if last >= before {
        var skip := last - before + 1;
        if skip >= total { return; }
        next := total - skip;
      }
    }
    assert next == StartSlot(file, before);
    while next > 0 && |out| < cap
      invariant 0 <= next <= total && |have| <= |out| <= cap
      invariant have + PageOf(file, before, cap - |have|)
             == out + Take(NewestFirst(EntriesUpTo(file, next), before), cap - |out|)
    {
      var n := if next < CHUNK then next else CHUNK;
      var first := next - n;
      out := ReadChunk(file, first, next, before, cap, out);
      next := first;
    }
  }

  // ---- the jump loses nothing --------------------------------------------------------

  /** One past the newest slot whose entry is wanted, 0 when there is none. */
  function WantedEnd(file: seq<u8>, n: nat, before: u32): (end: nat)
    requires n <= SlotCount(file)
    ensures end <= n
  {
    if n == 0 then 0
    else if Slot(file, n - 1).Some? && Wanted(before, Slot(file, n - 1).value) then n
    else WantedEnd(file, n - 1, before)
  }

  lemma {:induction false} ScanFrom(file: seq<u8>, n: nat, m: nat, before: u32)
    requires n <= m <= SlotCount(file)
    ensures |NewestFirst(EntriesUpTo(file, n), before)| <= |NewestFirst(EntriesUpTo(file, m), before)|
    ensures NewestFirst(EntriesUpTo(file, n), before) == NewestFirst(EntriesUpTo(file, m), before)
       <==> WantedEnd(file, m, before) <= n
    ensures |NewestFirst(EntriesUpTo(file, n), before)| == |NewestFirst(EntriesUpTo(file, m), before)|
       <==> WantedEnd(file, m, before) <= n
  {
    hide Decode;
    if n < m {
      ScanFrom(file, n, m - 1, before);
      if Slot(file, m - 1).Some? {
        NewestFirstOfOneMore(EntriesUpTo(file, m - 1), Slot(file, m - 1).value, before);
      }
    }
  }

  /** The jump passes no wanted entry: nothing is wanted, there is no jump, or no more
      seqs lie between `before` and the newest entry than slots behind the newest
      wanted one. */
  predicate JumpIsShort(file: seq<u8>, before: u32) {
    var end, last := WantedEnd(file, SlotCount(file), before), LastSeqOf(Entries(file));
    end == 0 || before == 0 || last < before || last - before + 1 <= SlotCount(file) - end
  }

  lemma StartBehindWanted(file: seq<u8>, before: u32)
    ensures WantedEnd(file, SlotCount(file), before) <= StartSlot(file, before) <==> JumpIsShort(file, before)
  {
    hide EntriesUpTo, Decode;
    if LastSeqOf(Entries(file)) == 0 {
      NothingInIt(file, before) by { EntriesAreNumbered(file, SlotCount(file)); }
    }
  }

  lemma NothingInIt(file: seq<u8>, before: u32)
    requires Entries(file) == []
    ensures WantedEnd(file, SlotCount(file), before) == 0
  {
    hide Decode;
    NothingWantedBehind(file, 0, SlotCount(file), before);
  }

  /** For a file in seq order, all that the jump's own comment asks for, any `before`
      and any room at all: the page is what the plain scan gives if and only if the
      jump is short enough. */
  lemma JumpExact(file: seq<u8>, before: u32, room: nat)
    requires Increasing(Entries(file)) && room > 0
    ensures PageOf(file, before, room) == Take(NewestFirst(Entries(file), before), room)
       <==> JumpIsShort(file, before)
  {
    hide Decode, EntriesUpTo;
    var n, total := StartSlot(file, before), SlotCount(file);
    StartBehindWanted(file, before);
    hide JumpIsShort, StartSlot;
    ScanFrom(file, n, total, before);
    EntriesArePrefix(file, n, total);
    if WantedEnd(file, total, before) > n {
      var es, m := Entries(file), |EntriesUpTo(file, n)|;
      assert es == EntriesUpTo(file, total) && es[..m] == EntriesUpTo(file, n);
      ScanFromNewest(es, m, before);
    }
  }

  /** In seq order a scan that misses an entry misses the newest one first. */
  lemma {:induction false} ScanFromNewest(es: seq<EventRecord>, n: nat, before: u32)
    requires Increasing(es) && n <= |es| && NewestFirst(es[..n], before) != NewestFirst(es, before)
    ensures NewestFirst(es, before) != []
    ensures NewestFirst(es[..n], before) == [] || NewestFirst(es[..n], before)[0] != NewestFirst(es, before)[0]
  {
    assert es[..|es|] == es;
    var k := |es| - 1;
    if n < |es| && !Wanted(before, es[k]) {
      assert es[..k][..n] == es[..n];
      ScanFromNewest(es[..k], n, before);
    } else if NewestFirst(es[..n], before) != [] {
      ScanIsFrom(es[..n], before);
    }
  }

  lemma {:induction false} ScanIsFrom(es: seq<EventRecord>, before: u32)
    requires NewestFirst(es, before) != []
    ensures exists i :: 0 <= i < |es| && es[i] == NewestFirst(es, before)[0]
  {
    var k := |es| - 1;
    if Wanted(before, es[k]) {
      assert NewestFirst(es, before)[0] == es[k];
    } else {
      ScanIsFrom(es[..k], before);
    }
  }

  /** Whatever the order of its seqs, with room for all of a file the same holds. */
  lemma JumpExactAnyOrder(file: seq<u8>, before: u32, room: nat)
    requires room > |Entries(file)|
    ensures PageOf(file, before, room) == NewestFirst(Entries(file), before) <==> JumpIsShort(file, before)
  {
    hide Decode;
    var n := StartSlot(file, before);
    StartBehindWanted(file, before);
    hide JumpIsShort, StartSlot;
    ScanFrom(file, n, SlotCount(file), before);
    NewestFirstIsShorter(EntriesUpTo(file, n), before);
    EntriesArePrefix(file, n, SlotCount(file));
  }

  lemma {:induction false} NewestFirstIsShorter(es: seq<EventRecord>, before: u32)
    ensures |NewestFirst(es, before)| <= |es|
  {
    if es != [] {
      NewestFirstIsShorter(es[..|es| - 1], before);
    }
  }

  lemma {:induction false} EntriesArePrefix(file: seq<u8>, n: nat, m: nat)
    requires n <= m <= SlotCount(file)
    ensures EntriesUpTo(file, n) <= EntriesUpTo(file, m)
    ensures |EntriesUpTo(file, m)| - |EntriesUpTo(file, n)| <= m - n
  {
    hide Decode;
    if n < m {
      EntriesArePrefix(file, n, m - 1);
    }
  }

  lemma {:induction false} NothingWantedBehind(file: seq<u8>, n: nat, m: nat, before: u32)
    requires n <= m <= SlotCount(file)
    requires forall k :: |EntriesUpTo(file, n)| <= k < |EntriesUpTo(file, m)|
                     ==> !Wanted(before, EntriesUpTo(file, m)[k])
    ensures WantedEnd(file, m, before) <= n
  {
    hide Decode;
    if n < m {
      EntriesArePrefix(file, n, m - 1);
      var es, shorter := EntriesUpTo(file, m), EntriesUpTo(file, m - 1);
      if Slot(file, m - 1).Some? {
        assert es[|shorter|] == Slot(file, m - 1).value;
      }
      forall k | |EntriesUpTo(file, n)| <= k < |shorter|
        ensures !Wanted(before, shorter[k])
      {
        assert shorter[k] == es[k];
      }
      NothingWantedBehind(file, n, m - 1, before);
    }
  }

  /** With no seq missing, unreadable slots anywhere, the jump loses nothing: the
      page is exactly the plain scan, for every `before` and every room. */
  lemma JumpLosesNothing(file: seq<u8>, before: u32, room: nat)
    requires Consecutive(Entries(file))
    ensures PageOf(file, before, room) == Take(NewestFirst(Entries(file), before), room)
  {
    hide Decode;
    var es, total := Entries(file), SlotCount(file);
    var n := StartSlot(file, before);
    EntriesArePrefix(file, n, total);
    EntriesAreNumbered(file, total);
    forall k | |EntriesUpTo(file, n)| <= k < |es|
      ensures !Wanted(before, es[k])
    {
      assert es[|es| - 1].seqNo - es[k].seqNo == |es| - 1 - k;
    }
    NothingWantedBehind(file, n, total, before);
    ScanFrom(file, n, total, before);
  }

  // ---- appending ---------------------------------------------------------------------

  lemma SameSlot(file: seq<u8>, more: seq<u8>, i: nat)
    requires i < SlotCount(file)
    ensures SlotCount(file) <= SlotCount(file + more) && Slot(file + more, i) == Slot(file, i)
  {
    assert (file + more)[i * RECORD_SIZE..(i + 1) * RECORD_SIZE] == file[i * RECORD_SIZE..(i + 1) * RECORD_SIZE];
  }

  lemma {:induction false} SameEntries(file: seq<u8>, more: seq<u8>, n: nat)
    requires n <= SlotCount(file)
    ensures SlotCount(file) <= SlotCount(file + more) && EntriesUpTo(file + more, n) == EntriesUpTo(file, n)
  {
    hide Decode;
    if n > 0 {
      SameSlot(file, more, n - 1);
      SameEntries(file, more, n - 1);
    }
  }

  /** A slot appended on the entry boundary adds what it decodes to, and nothing else. */
  lemma EntriesOfAppend(file: seq<u8>, slot: seq<u8>)
    requires |file| % RECORD_SIZE == 0 && |slot| == RECORD_SIZE
    ensures Entries(file + slot) == Entries(file) + (if Decode(slot).Some? then [Decode(slot).value] else [])
  {
    hide Decode;
    var n := SlotCount(file);
    SameEntries(file, slot, n);
    assert SlotCount(file + slot) == n + 1;
    assert (file + slot)[n * RECORD_SIZE..(n + 1) * RECORD_SIZE] == slot;
  }

  /** Less than a slot appended adds nothing. */
  lemma EntriesOfTail(file: seq<u8>, tail: seq<u8>)
    requires |file| % RECORD_SIZE == 0 && |tail| < RECORD_SIZE
    ensures Entries(file + tail) == Entries(file)
  {
    hide EntriesUpTo, Decode;
    SameEntries(file, tail, SlotCount(file));
  }

  /** The jump needs more than ordered, distinct seqs, which is all its comment asks
      for: with seq 2 missing, a page of what lies below 2 comes back empty although
      entry 1 is there. */
  lemma GapLosesAnEntry(r1: EventRecord, r3: EventRecord)
    requires r1.seqNo == 1 && r3.seqNo == 3
    ensures var file := Encode(r1) + Encode(r3);
            && Entries(file) == [r1, r3] && Increasing(Entries(file))
            && NewestFirst(Entries(file), 2) == [r1]
            && PageOf(file, 2, 50) == []
  {
    hide Decode;
    DecodeEncode(r1);
    DecodeEncode(r3);
    EntriesOfAppend([], Encode(r1));
    assert [] + Encode(r1) == Encode(r1);
    EntriesOfAppend(Encode(r1), Encode(r3));
    NewestFirstOfOneMore([r1], r3, 2);
    NewestFirstOfOneMore([], r1, 2);
  }
}
