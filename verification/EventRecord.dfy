/** EventRecord.cpp: the two files of the event record over ticks, rotations,
    power cuts and restarts, and reading them back page by page. */
module EventRecordStore {
  import opened Wrappers
  import opened EventRecordPolicy
  import opened EventDampPolicy

  const FILE_RECORDS: nat := 2048
  const STAGE_CAP: nat := 32
  const SEED_ENTRIES: nat := 64
  /** How many entries the array of what a tick writes holds. */
  const TO_WRITE: nat := 2 * (STAGE_CAP + 1) + SLOTS
  const SEQ_END: nat := 0x1_0000_0000

  // ---- what a tick writes -----------------------------------------------------------

  datatype Damped = Damped(slots: seq<Slot>, out: seq<EventRecord>)

  function DampEach(slots: seq<Slot>, taken: seq<EventRecord>): (d: Damped)
    requires |slots| == SLOTS
    ensures |d.slots| == SLOTS
    decreases |taken|
  {
    if taken == [] then Damped(slots, [])
    else
      var n := |taken| - 1;
      var before := DampEach(slots, taken[..n]);
      var last := Admitted(before.slots, taken[n]);
      Damped(last.slots,
             before.out + (if last.summary.Some? then [last.summary.value] else []) +
                          (if last.written then [taken[n]] else []))
  }

  function DampTakenOf(slots: seq<Slot>, taken: seq<EventRecord>, nowS: u32, clockSet: bool): (d: Damped)
    requires |slots| == SLOTS
    ensures |d.slots| == SLOTS
  {
    var each := DampEach(slots, taken);
    if clockSet then
      var passed := DueOf(each.slots, nowS, SLOTS);
      Damped(passed.slots, each.out + passed.out)
    else each
  }

  lemma {:induction false} DampEachFits(slots: seq<Slot>, taken: seq<EventRecord>)
    requires |slots| == SLOTS
    ensures |DampEach(slots, taken).out| <= 2 * |taken|
    decreases |taken|
  {
    if taken != [] {
      DampEachFits(slots, taken[..|taken| - 1]);
    }
  }

  /** Whatever was taken and whatever the table holds, the array is never overrun. */
  lemma ToWriteFits(slots: seq<Slot>, taken: seq<EventRecord>, nowS: u32, clockSet: bool)
    requires |slots| == SLOTS && |taken| <= 33
    ensures |DampTakenOf(slots, taken, nowS, clockSet).out| <= 82 == TO_WRITE
  {
    DampEachFits(slots, taken);
  }

  /** What of the output are entries, and what Repeated ones. */
  function Plain(out: seq<EventRecord>): seq<EventRecord> {
    if out == [] then []
    else Plain(out[..|out| - 1]) + if out[|out| - 1].kind == REPEATED then [] else [out[|out| - 1]]
  }

  function Told(out: seq<EventRecord>): nat {
    if out == [] then 0
    else Told(out[..|out| - 1]) + if out[|out| - 1].kind == REPEATED then out[|out| - 1].a else 0
  }

  /** `s` is `of` with some left out. */
  predicate PartOf<T(==)>(s: seq<T>, of: seq<T>)
    decreases |of|
  {
    if s == [] then true
    else if of == [] then false
    else if s[|s| - 1] == of[|of| - 1] then PartOf(s[..|s| - 1], of[..|of| - 1])
    else PartOf(s, of[..|of| - 1])
  }

  lemma PlainMore(out: seq<EventRecord>, r: EventRecord)
    ensures Plain(out + [r]) == Plain(out) + if r.kind == REPEATED then [] else [r]
    ensures Told(out + [r]) == Told(out) + if r.kind == REPEATED then r.a else 0
  {
    assert (out + [r])[..|out|] == out;
  }

  lemma {:induction false} CountWithin(slots: seq<Slot>, i: nat)
    requires i < |slots|
    ensures slots[i].unwritten <= Unwritten(slots)
  {
    if i > 0 { CountWithin(slots[1..], i - 1); }
  }

  lemma NotAtCeiling(slots: seq<Slot>, r: EventRecord)
    requires Unwritten(slots) < 0xFFFF
    ensures !AtCeiling(slots, r)
  {
    var i := FindIndex(slots, r);
    if i < |slots| { CountWithin(slots, i); }
  }

  /** Damping what was taken: the entries written are those taken, unchanged and in their
      order, with some left out; each one left out is counted in the table or told of. */
  lemma {:induction false} DampEachConserves(slots: seq<Slot>, taken: seq<EventRecord>)
    requires |slots| == SLOTS && Distinct(slots) && Unwritten(slots) + |taken| < 0xFFFF
    requires forall i :: 0 <= i < |taken| ==> taken[i].kind !in {0, REPEATED}
    ensures var d := DampEach(slots, taken);
      && Distinct(d.slots)
      && PartOf(Plain(d.out), taken)
      && |Plain(d.out)| + Unwritten(d.slots) + Told(d.out) == Unwritten(slots) + |taken|
    decreases |taken|
  {
    if taken != [] {
      var n := |taken| - 1;
      DampEachConserves(slots, taken[..n]);
      DampOneMore(DampEach(slots, taken[..n]), taken[n]);
      DampEachStep(slots, taken);
      hide OneMoreOut, Admitted, Distinct, SumOfA;
      var before, after := Plain(DampEach(slots, taken[..n]).out), Plain(DampEach(slots, taken).out);
      assert taken[..n] == taken[..|taken| - 1];
      assert after != before ==> after[..|after| - 1] == before;
      if after == before && before != [] && before[|before| - 1] == taken[n] { PartOfLess(before, taken[..n]); }
      hide DampEach, Plain, Told;
    }
  }

  /** One entry fewer on both sides. */
  lemma {:induction false} PartOfLess<T>(s: seq<T>, of: seq<T>)
    requires PartOf(s, of) && s != []
    ensures PartOf(s[..|s| - 1], of)
    decreases |of|
  {
    var t := s[..|s| - 1];
    if t != [] {
      if s[|s| - 1] == of[|of| - 1] {
        if t[|t| - 1] == of[|of| - 1] { PartOfLess(t, of[..|of| - 1]); }
      } else {
        PartOfLess(s, of[..|of| - 1]);
        if t[|t| - 1] == of[|of| - 1] { PartOfLess(t, of[..|of| - 1]); }
      }
    }
  }

  /** The output after one more entry: its summary, if its slot had one, then itself. */
  function OneMoreOut(d: Damped, r: EventRecord): Damped
    requires |d.slots| == SLOTS
  {
    var a := Admitted(d.slots, r);
    Damped(a.slots, d.out + (if a.summary.Some? then [a.summary.value] else []) + (if a.written then [r] else []))
  }

  lemma DampEachStep(slots: seq<Slot>, taken: seq<EventRecord>)
    requires |slots| == SLOTS && taken != []
    ensures DampEach(slots, taken) == OneMoreOut(DampEach(slots, taken[..|taken| - 1]), taken[|taken| - 1])
  {
  }

  lemma DampOneMore(d: Damped, r: EventRecord)
    requires |d.slots| == SLOTS && Distinct(d.slots) && Unwritten(d.slots) < 0xFFFF && r.kind !in {0, REPEATED}
    ensures var e, a := OneMoreOut(d, r), Admitted(d.slots, r);
      && Distinct(e.slots)
      && Plain(e.out) == Plain(d.out) + (if a.written then [r] else [])
      && |Plain(e.out)| + Unwritten(e.slots) + Told(e.out) == |Plain(d.out)| + Unwritten(d.slots) + Told(d.out) + 1
  {
    var a := Admitted(d.slots, r);
    AdmitConserves(d.slots, r);
    AdmitKeepsDistinct(d.slots, r);
    NotAtCeiling(d.slots, r);
    SummaryIsRepeated(d.slots, r);
    hide Admitted, Plain, Told, Distinct;
    var mid := d.out + if a.summary.Some? then [a.summary.value] else [];
    if a.summary.Some? { PlainMore(d.out, a.summary.value); } else { assert mid == d.out; }
    if a.written { PlainMore(mid, r); } else { assert mid + [] == mid; }
  }

  lemma SummaryIsRepeated(slots: seq<Slot>, r: EventRecord)
    requires |slots| == SLOTS
    ensures var a := Admitted(slots, r); a.summary.Some? ==> a.written && a.summary.value.kind == REPEATED
  {
  }

  lemma {:induction false} PlainOfRepeated(out: seq<EventRecord>, more: seq<EventRecord>)
    requires forall i :: 0 <= i < |more| ==> more[i].kind == REPEATED
    ensures Plain(out + more) == Plain(out) && Told(out + more) == Told(out) + SumOfA(more)
    decreases |more|
  {
    if more == [] {
      assert out + more == out;
    } else {
      PlainMore(out, more[0]);
      PlainOfRepeated(out + [more[0]], more[1..]);
      assert out + more == (out + [more[0]]) + more[1..];
    }
  }

  lemma {:induction false} DueIsRepeated(slots: seq<Slot>, nowS: u32, cap: nat, i: nat)
    requires i < |DueOf(slots, nowS, cap).out|
    ensures DueOf(slots, nowS, cap).out[i].kind == REPEATED
  {
    var s := slots[0];
    if Passed(s, nowS) && s.unwritten > 0 {
      if i > 0 { DueIsRepeated(slots[1..], nowS, cap - 1, i - 1); }
    } else {
      DueIsRepeated(slots[1..], nowS, cap, i);
    }
  }

  /** The same for all a tick writes, passed windows included. */
  lemma DampingLosesNothing(slots: seq<Slot>, taken: seq<EventRecord>, nowS: u32, clockSet: bool)
    requires |slots| == SLOTS && Distinct(slots) && Unwritten(slots) + |taken| < 0xFFFF
    requires forall i :: 0 <= i < |taken| ==> taken[i].kind !in {0, REPEATED}
    ensures var d := DampTakenOf(slots, taken, nowS, clockSet);
      && PartOf(Plain(d.out), taken)
      && |Plain(d.out)| + Unwritten(d.slots) + Told(d.out) == Unwritten(slots) + |taken|
  {
    DampEachConserves(slots, taken);
    if clockSet {
      var each := DampEach(slots, taken);
      var passed := DueOf(each.slots, nowS, SLOTS);
      DueConserves(each.slots, nowS, SLOTS);
      forall i | 0 <= i < |passed.out|
        ensures passed.out[i].kind == REPEATED
      {
        DueIsRepeated(each.slots, nowS, SLOTS, i);
      }
      hide DueOf, DampEach, Plain, Told;
      PlainOfRepeated(each.out, passed.out);
    }
  }

  /** A summary stands right before the entry that took its slot over. */
  lemma {:induction false} SummaryBeforeEntry(slots: seq<Slot>, taken: seq<EventRecord>, k: nat)
    requires |slots| == SLOTS && k < |DampEach(slots, taken).out|
    requires forall i :: 0 <= i < |taken| ==> taken[i].kind != REPEATED
    ensures var out := DampEach(slots, taken).out;
      out[k].kind == REPEATED ==> k + 1 < |out| && out[k + 1].kind != REPEATED && out[k + 1] in taken
    decreases |taken|
  {
    var n := |taken| - 1;
    var before := DampEach(slots, taken[..n]);
    DampEachStep(slots, taken);
    SummaryIsRepeated(before.slots, taken[n]);
    hide Admitted;
    assert forall r :: r in taken[..n] ==> r in taken;
    if k < |before.out| { SummaryBeforeEntry(slots, taken[..n], k); }
  }

  /** The entries under ascending seqs, on the 32-bit counter. */
  function Number(recs: seq<EventRecord>, first: u32): (out: seq<EventRecord>)
    ensures |out| == |recs|
  {
    seq(|recs|, i requires 0 <= i < |recs| => recs[i].(seqNo := (first + i) % SEQ_END))
  }

  // ---- the files as values -------------------------------------------------------------

  /** How a rotation that is due goes: whole, broken off by a failure or a cut after the
      older file was removed, or before anything was done. */
  datatype Rotation = Renamed | OnlyRemoved | Untouched

  /** The two files, the next seq, and everything ever written whole; whether numbers have
      been used since that nothing was written under; and where in what was written such
      a hole lies. */
  datatype World = World(prev: seq<u8>, cur: seq<u8>, nextSeq: u32, written: seq<EventRecord>,
                         lost: bool, holes: set<nat>)

  function PadNeeded(size: nat): (n: nat)
    ensures n < RECORD_SIZE && (size + n) % RECORD_SIZE == 0
  {
    PadFits(size);
    (RECORD_SIZE - size % RECORD_SIZE) % RECORD_SIZE
  }

  lemma PadFits(size: nat)
    ensures (size + (RECORD_SIZE - size % RECORD_SIZE) % RECORD_SIZE) % RECORD_SIZE == 0
  {
    var q, r := size / 24, size % 24;
    assert size == 24 * q + r;
    if r == 0 {
      assert (24 - r) % 24 == 0;
    } else {
      assert (24 - r) % 24 == 24 - r && size + (24 - r) == 24 * (q + 1);
    }
  }

  function Pad(file: seq<u8>): (p: seq<u8>)
    ensures |p| % RECORD_SIZE == 0
  {
    file + Zeros(PadNeeded(|file|))
  }

  function EncodeAll(recs: seq<EventRecord>): (p: seq<u8>)
    ensures |p| == |recs| * RECORD_SIZE
  {
    if recs == [] then [] else EncodeAll(recs[..|recs| - 1]) + Encode(recs[|recs| - 1])
  }

  predicate ShouldRotate(size: nat) { size >= FILE_RECORDS * RECORD_SIZE }

  /** The next seq, as far as the files tell. */
  function Recovered(prev: seq<u8>, cur: seq<u8>): u32 {
    var last := LastSeqOf(Entries(cur));
    ((if last != 0 then last else LastSeqOf(Entries(prev))) + 1) % SEQ_END
  }

  function Start(w: World): World {
    w.(nextSeq := Recovered(w.prev, w.cur), lost := false)
  }

  /** A tick that writes: pad, append, rotate when the file is full. */
  function Ticked(w: World, recs: seq<EventRecord>, turn: Rotation): World {
    if recs == [] then w
    else
      var numbered := Number(recs, w.nextSeq);
      var cur := Pad(w.cur) + EncodeAll(numbered);
      Rotated(Wrote(w, numbered).(cur := cur, nextSeq := (w.nextSeq + |recs|) % SEQ_END), turn)
  }

  /** What was written whole, one hole more if numbers were lost before it. */
  function Wrote(w: World, recs: seq<EventRecord>): World {
    if recs == [] then w
    else w.(written := w.written + recs, lost := false, holes := if w.lost then w.holes + {|w.written|} else w.holes)
  }

  function Rotated(w: World, turn: Rotation): World {
    if !ShouldRotate(|w.cur|) then w
    else match turn
      case Renamed => w.(prev := w.cur, cur := [])
      case OnlyRemoved => w.(prev := [])
      case Untouched => w
  }

  /** An append that fails with the board up uses its numbers all the same. */
  function LostTick(w: World, lost: nat): World {
    w.(nextSeq := (w.nextSeq + lost) % SEQ_END, lost := w.lost || lost > 0)
  }

  /** An append for which the file takes only `room` bytes, of the padding, or whole
      entries and part of one. */
  predicate TooLittleRoom(w: World, recs: seq<EventRecord>, room: nat) {
    recs != [] && room < PadNeeded(|w.cur|) + |recs| * RECORD_SIZE
  }

  function WholeIn(w: World, room: nat): nat {
    if room < PadNeeded(|w.cur|) then 0 else (room - PadNeeded(|w.cur|)) / RECORD_SIZE
  }

  function TornIn(w: World, room: nat): (torn: nat)
    ensures torn < RECORD_SIZE
  {
    if room < PadNeeded(|w.cur|) then 0 else (room - PadNeeded(|w.cur|)) % RECORD_SIZE
  }

  lemma WholeFits(w: World, recs: seq<EventRecord>, room: nat)
    requires TooLittleRoom(w, recs, room)
    ensures WholeIn(w, room) < |recs| && (room < PadNeeded(|w.cur|) ==> WholeIn(w, room) == 0)
  {
  }

  function Partly(w: World, recs: seq<EventRecord>, room: nat): World
    requires TooLittleRoom(w, recs, room)
  {
    if room < PadNeeded(|w.cur|) then w.(cur := w.cur + Zeros(room))
    else
      Torn(w, recs, WholeIn(w, room), TornIn(w, room)).(nextSeq := (w.nextSeq + WholeIn(w, room)) % SEQ_END)
  }

  lemma StopsInPad(w: World, recs: seq<EventRecord>, room: nat)
    requires recs != [] && room < PadNeeded(|w.cur|)
    ensures TooLittleRoom(w, recs, room)
    ensures LostTick(Partly(w, recs, room), |recs| - WholeIn(w, room))
         == w.(cur := w.cur + Zeros(room), nextSeq := (w.nextSeq + |recs|) % SEQ_END, lost := true)
  {
  }

  lemma StopsAt(w: World, recs: seq<EventRecord>, room: nat, whole: nat, torn: nat)
    requires whole < |recs| && torn < RECORD_SIZE && room == PadNeeded(|w.cur|) + whole * RECORD_SIZE + torn
    ensures TooLittleRoom(w, recs, room)
    ensures var numbered := Number(recs, w.nextSeq);
      LostTick(Partly(w, recs, room), |recs| - WholeIn(w, room))
      == Wrote(w, numbered[..whole]).(cur := Pad(w.cur) + EncodeAll(numbered[..whole]) + Encode(numbered[whole])[..torn],
                                      nextSeq := (w.nextSeq + |recs|) % SEQ_END, lost := true)
  {
    hide Encode, EncodeAll, Pad, Number;
    assert WholeIn(w, room) == whole && TornIn(w, room) == torn;
  }

  function FailedTick(w: World, recs: seq<EventRecord>, room: nat, turn: Rotation): World
    requires TooLittleRoom(w, recs, room)
  {
    Rotated(LostTick(Partly(w, recs, room), |recs| - WholeIn(w, room)), turn)
  }

  datatype Event =
    | Tick(recs: seq<EventRecord>, turn: Rotation)
    | NotOpened(recs: seq<EventRecord>)
    | Failed(recs: seq<EventRecord>, room: nat, turn: Rotation)
    | Restart
    | CutInPad(zeros: nat)
    | CutInAppend(recs: seq<EventRecord>, whole: nat, torn: nat)
    | CutInRotate(recs: seq<EventRecord>, turn: Rotation)

  /** What the cut leaves: some whole entries and the first bytes of the next. */
  function Torn(w: World, recs: seq<EventRecord>, whole: nat, torn: nat): World
    requires whole < |recs| && torn < RECORD_SIZE
  {
    var numbered := Number(recs, w.nextSeq);
    Wrote(w, numbered[..whole]).(cur := Pad(w.cur) + EncodeAll(numbered[..whole]) + Encode(numbered[whole])[..torn])
  }

  /** Ticks that write nothing keep the files; a cut is followed by a start. Once all is
      written it comes before the older file is removed, before the rename or after it. */
  function Step(w: World, e: Event): World
    requires Possible(w, e)
  {
    match e
    case Tick(recs, turn) => Ticked(w, recs, turn)
    case NotOpened(recs) => LostTick(w, |recs|)
    case Failed(recs, room, turn) => FailedTick(w, recs, room, turn)
    case Restart => Start(w)
    case CutInPad(zeros) => Start(w.(cur := w.cur + Zeros(zeros)))
    case CutInAppend(recs, whole, torn) => Start(Torn(w, recs, whole, torn))
    case CutInRotate(recs, turn) => Start(Ticked(w, recs, turn))
  }

  predicate Possible(w: World, e: Event) {
    match e
    case Tick(recs, _) => w.nextSeq + |recs| < SEQ_END
    case NotOpened(recs) => w.nextSeq + |recs| < SEQ_END
    case Failed(recs, room, _) => w.nextSeq + |recs| < SEQ_END && TooLittleRoom(w, recs, room)
    case Restart => true
    case CutInPad(zeros) => zeros < PadNeeded(|w.cur|)
    case CutInAppend(recs, whole, torn) =>
      w.nextSeq + |recs| < SEQ_END && whole < |recs| && torn < RECORD_SIZE
    case CutInRotate(recs, _) => w.nextSeq + |recs| < SEQ_END
  }

  /** The one hypothesis on what is torn: padding does not complete it. */
  predicate Clean(w: World, e: Event)
    requires Possible(w, e)
  {
    match e
    case CutInAppend(recs, whole, torn) => !TearCompletes(Number(recs, w.nextSeq)[whole], torn)
    case Failed(recs, room, _) => !TearCompletes(Number(recs, w.nextSeq)[WholeIn(w, room)], TornIn(w, room))
    case _ => true
  }

  // ---- what every run keeps ----------------------------------------------------------------

  function Retained(w: World): seq<EventRecord> {
    Entries(w.prev) + Entries(w.cur)
  }

  function Tail(file: seq<u8>): (t: seq<u8>)
    ensures |t| == |file| % RECORD_SIZE
  {
    file[SlotCount(file) * RECORD_SIZE..]
  }

  ghost predicate TailUnreadable(file: seq<u8>) {
    Tail(file) == [] || Decode(Tail(file) + Zeros(RECORD_SIZE - |Tail(file)|)) == None
  }

  ghost predicate Suffix<T>(s: seq<T>, of: seq<T>) {
    |s| <= |of| && of[|of| - |s|..] == s
  }

  /** `es` is what was written last, in seq order, none doubled; one is missing exactly at
      each hole, and before `next` exactly if numbers were lost since. */
  ghost predicate GoesOn(es: seq<EventRecord>, w: World) {
    && Increasing(es)
    && Suffix(es, w.written)
    && w.nextSeq > 0
    && (es != [] ==> if w.lost then LastSeqOf(es) + 1 < w.nextSeq else w.nextSeq == LastSeqOf(es) + 1)
    && HolesAre(es, |w.written|, w.holes)
  }

  ghost predicate HolesAre(es: seq<EventRecord>, written: nat, holes: set<nat>) {
    && (forall h :: h in holes ==> h < written)
    && (forall i :: 0 < i < |es| ==> (es[i].seqNo == es[i - 1].seqNo + 1 <==> written - |es| + i !in holes))
  }

  ghost predicate Inv(w: World) {
    TailUnreadable(w.cur) && GoesOn(Retained(w), w)
  }

  lemma TailShape(file: seq<u8>)
    ensures file == file[..SlotCount(file) * RECORD_SIZE] + Tail(file)
    ensures Entries(file) == Entries(file[..SlotCount(file) * RECORD_SIZE])
  {
    var whole := file[..SlotCount(file) * RECORD_SIZE];
    assert file == whole + Tail(file);
    EntriesOfTail(whole, Tail(file));
  }

  /** Padding changes nothing that can be read, as long as it completes no entry. */
  lemma PadAddsNothing(file: seq<u8>)
    requires TailUnreadable(file)
    ensures Entries(Pad(file)) == Entries(file)
  {
    hide Decode;
    var whole, tail := file[..SlotCount(file) * RECORD_SIZE], Tail(file);
    TailShape(file);
    if tail == [] {
      assert Pad(file) == file + [] == file;
    } else {
      assert Pad(file) == whole + (tail + Zeros(RECORD_SIZE - |tail|));
      EntriesOfAppend(whole, tail + Zeros(RECORD_SIZE - |tail|));
    }
  }

  lemma {:induction false} EntriesOfEncodeAll(file: seq<u8>, recs: seq<EventRecord>)
    requires |file| % RECORD_SIZE == 0 && Numbered(recs)
    ensures Entries(file + EncodeAll(recs)) == Entries(file) + recs
  {
    hide Decode, Encode;
    if recs == [] {
      assert file + EncodeAll(recs) == file;
    } else {
      var n := |recs| - 1;
      EntriesOfEncodeAll(file, recs[..n]);
      DecodeEncode(recs[n]);
      hide EntriesUpTo;
      EntriesOfAppend(file + EncodeAll(recs[..n]), Encode(recs[n]));
      Grouped(file, EncodeAll(recs[..n]), Encode(recs[n]));
      Grouped(Entries(file), recs[..n], [recs[n]]);
      assert recs == recs[..n] + [recs[n]];
    }
  }

  /** Numbering changes the seqs alone. */
  lemma NumberKeepsTheRest(recs: seq<EventRecord>, first: u32)
    ensures |Number(recs, first)| == |recs|
    ensures forall i :: 0 <= i < |recs| ==>
      var r, n := recs[i], Number(recs, first)[i];
      n == EventRecord(r.timeS, (first + i) % 0x1_0000_0000, r.a, r.b, r.board, r.kind, r.detail, r.unit)
  {
  }

  lemma NumberAt(recs: seq<EventRecord>, first: u32)
    requires first != 0 && first + |recs| < SEQ_END
    ensures forall i :: 0 <= i < |recs| ==> Number(recs, first)[i].seqNo == first + i
    ensures Numbered(Number(recs, first))
  {
  }

  lemma GoesOnAfter(es: seq<EventRecord>, w: World, recs: seq<EventRecord>)
    requires GoesOn(es, w) && w.nextSeq + |recs| < SEQ_END
    ensures var numbered := Number(recs, w.nextSeq);
      GoesOn(es + numbered, Wrote(w, numbered).(nextSeq := w.nextSeq + |recs|))
  {
    hide Number, Increasing, Suffix, HolesAre;
    NumberAt(recs, w.nextSeq);
    var numbered := Number(recs, w.nextSeq);
    SuffixAfter(es, w.written, numbered);
    LastOfConcat(es, numbered);
    if recs == [] {
      assert es + numbered == es;
    } else {
      assert LastSeqOf(numbered) == w.nextSeq + |recs| - 1;
      OrderedAfter(es, numbered, w.nextSeq);
      HolesAfter(es, w, numbered) by { SuffixIsShorter(es, w.written); }
    }
    hide LastSeqOf, Numbered;
  }

  lemma SuffixIsShorter<T>(s: seq<T>, of: seq<T>)
    requires Suffix(s, of)
    ensures |s| <= |of|
  {
  }

  lemma HolesAfter(es: seq<EventRecord>, w: World, numbered: seq<EventRecord>)
    requires HolesAre(es, |w.written|, w.holes) && |es| <= |w.written| && numbered != []
    requires es != [] ==> (w.lost <==> LastSeqOf(es) + 1 != w.nextSeq)
    requires forall i :: 0 <= i < |numbered| ==> numbered[i].seqNo == w.nextSeq + i
    ensures HolesAre(es + numbered, |w.written + numbered|, Wrote(w, numbered).holes)
  {
    var all, n, holes := es + numbered, |w.written| - |es|, Wrote(w, numbered).holes;
    forall i | 0 < i < |all|
      ensures all[i].seqNo == all[i - 1].seqNo + 1 <==> n + i !in holes
    {
      if i < |es| {
        assert all[i] == es[i] && all[i - 1] == es[i - 1];
      } else if i == |es| {
        assert all[i] == numbered[0] && all[i - 1] == es[|es| - 1];
      } else {
        assert all[i] == numbered[i - |es|] && all[i - 1] == numbered[i - |es| - 1];
      }
    }
  }

  lemma LastOfConcat(p: seq<EventRecord>, q: seq<EventRecord>)
    ensures LastSeqOf(p + q) == if q == [] then LastSeqOf(p) else LastSeqOf(q)
  {
    assert q == [] ==> p + q == p;
  }

  lemma SuffixAfter<T>(s: seq<T>, of: seq<T>, more: seq<T>)
    requires Suffix(s, of)
    ensures Suffix(s + more, of + more)
  {
    assert (of + more)[|of| - |s|..] == of[|of| - |s|..] + more;
  }

  lemma OrderedAfter(es: seq<EventRecord>, numbered: seq<EventRecord>, first: u32)
    requires Increasing(es) && (es != [] ==> LastSeqOf(es) < first)
    requires forall i :: 0 <= i < |numbered| ==> numbered[i].seqNo == first + i
    ensures Increasing(es + numbered)
  {
    var all, n := es + numbered, |es|;
    forall i, j | 0 <= i < j < |all|
      ensures all[i].seqNo < all[j].seqNo
    {
      if i < n {
        assert i < n - 1 ==> es[i].seqNo < es[n - 1].seqNo;
      }
    }
  }

  lemma GoesOnLater(p: seq<EventRecord>, q: seq<EventRecord>, w: World)
    requires GoesOn(p + q, w)
    ensures GoesOn(q, w)
  {
    hide Increasing, Suffix, HolesAre;
    LaterParts(p, q, w.written);
    HolesLater(p, q, |w.written|, w.holes) by { SuffixIsShorter(p + q, w.written); }
    LastOfConcat(p, q);
  }

  lemma LaterParts(p: seq<EventRecord>, q: seq<EventRecord>, written: seq<EventRecord>)
    requires Increasing(p + q) && Suffix(p + q, written)
    ensures Increasing(q) && Suffix(q, written)
  {
    forall i, j | 0 <= i < j < |q|
      ensures q[i].seqNo < q[j].seqNo
    {
      assert q[i] == (p + q)[|p| + i] && q[j] == (p + q)[|p| + j];
    }
    assert written[|written| - |q|..] == written[|written| - |p + q|..][|p|..];
  }

  lemma HolesLater(p: seq<EventRecord>, q: seq<EventRecord>, written: nat, holes: set<nat>)
    requires HolesAre(p + q, written, holes) && |p + q| <= written
    ensures HolesAre(q, written, holes)
  {
    forall i | 0 < i < |q|
      ensures q[i].seqNo == q[i - 1].seqNo + 1 <==> written - |q| + i !in holes
    {
      var k := |p| + i;
      assert (p + q)[k] == q[i] && (p + q)[k - 1] == q[i - 1];
      assert written - |p + q| + k == written - |q| + i;
    }
  }

  lemma RecoveredSeq(w: World)
    requires Retained(w) != [] ==> LastSeqOf(Retained(w)) + 1 < SEQ_END
    ensures Recovered(w.prev, w.cur) == if Retained(w) == [] then 1 else LastSeqOf(Retained(w)) + 1
  {
    hide EntriesUpTo, Decode;
    EntriesAreNumbered(w.prev, SlotCount(w.prev));
    EntriesAreNumbered(w.cur, SlotCount(w.cur));
    var prev, cur := Entries(w.prev), Entries(w.cur);
    assert cur != [] ==> (prev + cur)[|prev + cur| - 1] == cur[|cur| - 1];
    assert cur == [] ==> prev + cur == prev;
  }

  /** Appending whole entries and a torn one on a padded file, before any rotation. */
  lemma AppendKeepsInv(w: World, recs: seq<EventRecord>, tail: seq<u8>)
    requires Inv(w) && w.nextSeq + |recs| < SEQ_END
    requires |tail| < RECORD_SIZE && (tail == [] || Decode(tail + Zeros(RECORD_SIZE - |tail|)) == None)
    ensures var numbered := Number(recs, w.nextSeq);
            Inv(Wrote(w, numbered).(cur := Pad(w.cur) + EncodeAll(numbered) + tail, nextSeq := w.nextSeq + |recs|))
  {
    hide Decode, Encode, EntriesUpTo, EncodeAll, Pad, Number, GoesOn;
    var numbered := Number(recs, w.nextSeq);
    AppendedEntries(w.cur, numbered, tail) by { NumberAtGoesOn(w, recs); }
    var cur := Pad(w.cur) + EncodeAll(numbered) + tail;
    assert Entries(w.prev) + (Entries(w.cur) + numbered) == Retained(w) + numbered;
    GoesOnAfter(Retained(w), w, recs);
    GoesOnIsOf(Retained(w) + numbered, Wrote(w, numbered).(nextSeq := w.nextSeq + |recs|), cur);
  }

  lemma GoesOnIsOf(es: seq<EventRecord>, w: World, cur: seq<u8>)
    requires GoesOn(es, w)
    ensures GoesOn(es, w.(cur := cur))
  {
  }

  lemma NumberAtGoesOn(w: World, recs: seq<EventRecord>)
    requires Inv(w) && w.nextSeq + |recs| < SEQ_END
    ensures Numbered(Number(recs, w.nextSeq))
  {
    NumberAt(recs, w.nextSeq);
  }

  lemma AppendedEntries(file: seq<u8>, numbered: seq<EventRecord>, tail: seq<u8>)
    requires TailUnreadable(file) && Numbered(numbered) && |tail| < RECORD_SIZE
    ensures Entries(Pad(file) + EncodeAll(numbered) + tail) == Entries(file) + numbered
    ensures Tail(Pad(file) + EncodeAll(numbered) + tail) == tail
  {
    hide Decode, Encode, EntriesUpTo, EncodeAll, Pad;
    PadAddsNothing(file);
    EntriesOfEncodeAll(Pad(file), numbered);
    EntriesOfTail(Pad(file) + EncodeAll(numbered), tail);
  }

  lemma RotateKeepsInv(w: World, turn: Rotation)
    requires Inv(w)
    ensures Inv(Rotated(w, turn))
  {
    hide Decode, EntriesUpTo, Suffix, Increasing, HolesAre;
    GoesOnLater(Entries(w.prev), Entries(w.cur), w);
    NoEntries();
    assert Retained(w.(prev := [])) == Entries(w.cur) == Retained(w.(prev := w.cur, cur := []));
  }

  lemma TickKeepsInv(w: World, recs: seq<EventRecord>, turn: Rotation)
    requires Inv(w) && w.nextSeq + |recs| < SEQ_END
    ensures Inv(Ticked(w, recs, turn))
  {
    hide Decode, Encode, Inv, Pad, EncodeAll, Number, EntriesUpTo;
    if recs != [] {
      var numbered := Number(recs, w.nextSeq);
      var cur := Pad(w.cur) + EncodeAll(numbered);
      AppendKeepsInv(w, recs, []);
      assert cur + [] == cur;
      RotateKeepsInv(Wrote(w, numbered).(cur := cur, nextSeq := w.nextSeq + |recs|), turn);
    }
  }

  lemma StartKeepsInv(w: World, nextSeq: u32)
    requires Inv(w.(nextSeq := nextSeq))
    ensures Inv(Start(w)) && Start(w).nextSeq <= nextSeq
  {
    hide Suffix, Increasing, HolesAre, EntriesUpTo, Decode;
    RecoveredSeq(w);
    assert Retained(Start(w)) == Retained(w) == Retained(w.(nextSeq := nextSeq));
  }

  lemma NumberPrefix(recs: seq<EventRecord>, first: u32, n: nat)
    requires n <= |recs|
    ensures Number(recs, first)[..n] == Number(recs[..n], first)
  {
  }

  lemma CutInPadReads(w: World, zeros: nat)
    requires zeros < PadNeeded(|w.cur|)
    ensures var cur := w.cur + Zeros(zeros);
      && Entries(cur) == Entries(w.cur)
      && (TailUnreadable(w.cur) ==> TailUnreadable(cur))
  {
    hide Decode, EntriesUpTo;
    var whole, tail := w.cur[..SlotCount(w.cur) * RECORD_SIZE], Tail(w.cur);
    var cur := w.cur + Zeros(zeros);
    TailShape(w.cur);
    assert cur == whole + (tail + Zeros(zeros));
    assert Tail(cur) == tail + Zeros(zeros);
    assert Tail(cur) + Zeros(RECORD_SIZE - |Tail(cur)|) == tail + Zeros(RECORD_SIZE - |tail|);
    EntriesOfTail(whole, tail + Zeros(zeros));
  }

  lemma CutInPadKeepsInv(w: World, zeros: nat)
    requires Inv(w) && zeros < PadNeeded(|w.cur|)
    ensures Inv(w.(cur := w.cur + Zeros(zeros)))
  {
    hide TailUnreadable, Suffix, Increasing, HolesAre, Entries;
    CutInPadReads(w, zeros);
    assert Retained(w.(cur := w.cur + Zeros(zeros))) == Retained(w);
  }

  lemma TearKeepsInv(w: World, recs: seq<EventRecord>, whole: nat, torn: nat)
    requires whole < |recs| && torn < RECORD_SIZE && w.nextSeq + |recs| < SEQ_END
    requires !TearCompletes(Number(recs, w.nextSeq)[whole], torn) && Inv(w)
    ensures Inv(Torn(w, recs, whole, torn).(nextSeq := w.nextSeq + whole))
  {
    hide Decode, Encode, EntriesUpTo, EncodeAll, Pad, Inv, Number;
    var numbered := Number(recs, w.nextSeq);
    NumberPrefix(recs, w.nextSeq, whole);
    PaddedTearReadable(numbered[whole], torn);
    AppendKeepsInv(w, recs[..whole], Encode(numbered[whole])[..torn]);
  }

  lemma LostKeepsInv(w: World, lost: nat)
    requires Inv(w) && w.nextSeq + lost < SEQ_END
    ensures Inv(LostTick(w, lost))
  {
    hide Decode, EntriesUpTo, Suffix, Increasing, HolesAre;
    assert Retained(LostTick(w, lost)) == Retained(w);
  }

  lemma FailedKeepsInv(w: World, recs: seq<EventRecord>, room: nat, turn: Rotation)
    requires w.nextSeq + |recs| < SEQ_END && TooLittleRoom(w, recs, room)
    requires !TearCompletes(Number(recs, w.nextSeq)[WholeIn(w, room)], TornIn(w, room)) && Inv(w)
    ensures Inv(FailedTick(w, recs, room, turn))
  {
    hide Inv, Number, Torn, WholeIn, TornIn, Rotated, Partly, Clean;
    WholeFits(w, recs, room);
    PartlyKeepsInv(w, recs, room);
    var part, n := Partly(w, recs, room), WholeIn(w, room);
    LostKeepsInv(part, |recs| - n);
    RotateKeepsInv(LostTick(part, |recs| - n), turn);
  }

  lemma PartlyKeepsInv(w: World, recs: seq<EventRecord>, room: nat)
    requires w.nextSeq + |recs| < SEQ_END && TooLittleRoom(w, recs, room)
    requires WholeIn(w, room) < |recs|
    requires !TearCompletes(Number(recs, w.nextSeq)[WholeIn(w, room)], TornIn(w, room)) && Inv(w)
    ensures Inv(Partly(w, recs, room)) && Partly(w, recs, room).nextSeq == w.nextSeq + WholeIn(w, room)
  {
    hide Inv, Number, Torn, TornIn, TearCompletes;
    WholeFits(w, recs, room);
    if room < PadNeeded(|w.cur|) {
      CutInPadKeepsInv(w, room);
    } else {
      TearKeepsInv(w, recs, WholeIn(w, room), TornIn(w, room));
    }
  }

  lemma StepKeepsInv(w: World, e: Event)
    requires Inv(w) && Possible(w, e) && Clean(w, e)
    ensures Inv(Step(w, e))
  {
    hide Inv, Start, Ticked, Torn, Number, LostTick, FailedTick;
    match e
    case Tick(recs, turn) => TickKeepsInv(w, recs, turn);
    case NotOpened(recs) => LostKeepsInv(w, |recs|);
    case Failed(recs, room, turn) => FailedKeepsInv(w, recs, room, turn);
    case Restart => StartKeepsInv(w, w.nextSeq);
    case CutInPad(zeros) =>
      CutInPadKeepsInv(w, zeros);
      StartKeepsInv(w.(cur := w.cur + Zeros(zeros)), w.nextSeq);
    case CutInAppend(recs, whole, torn) =>
      TearKeepsInv(w, recs, whole, torn);
      StartKeepsInv(Torn(w, recs, whole, torn), w.nextSeq + whole);
    case CutInRotate(recs, turn) =>
      TickKeepsInv(w, recs, turn);
      StartKeepsInv(Ticked(w, recs, turn), Ticked(w, recs, turn).nextSeq);
  }

  ghost predicate CleanRun(w: World, es: seq<Event>)
    decreases |es|
  {
    es == [] || (Possible(w, es[0]) && Clean(w, es[0]) && CleanRun(Step(w, es[0]), es[1..]))
  }

  function Run(w: World, es: seq<Event>): World
    requires CleanRun(w, es)
    decreases |es|
  {
    if es == [] then w else Run(Step(w, es[0]), es[1..])
  }

  /** Over every run of ticks, failed appends, rotations, cuts and restarts: what can be
      read of the two files is a suffix of all that was written, in order and nothing
      doubled, with a seq missing exactly at each hole. */
  lemma {:induction false} RunKeepsInv(w: World, es: seq<Event>)
    requires Inv(w) && CleanRun(w, es)
    ensures Inv(Run(w, es))
    decreases |es|
  {
    if es != [] {
      StepKeepsInv(w, es[0]);
      RunKeepsInv(Step(w, es[0]), es[1..]);
    }
  }

  lemma FreshRecord()
    ensures Inv(World([], [], 1, [], false, {}))
  {
    assert Entries([]) == [];
  }

  lemma CompletedEntries(file: seq<u8>, numbered: seq<EventRecord>, r: EventRecord, torn: nat)
    requires TailUnreadable(file) && Numbered(numbered)
    requires torn < RECORD_SIZE && TearCompletes(r, torn)
    ensures var cut := Pad(file) + EncodeAll(numbered) + Encode(r)[..torn];
            && Entries(cut) == Entries(file) + numbered
            && Decode(PaddedTear(r, torn)).Some?
            && Entries(Pad(cut)) == Entries(file) + numbered + [Decode(PaddedTear(r, torn)).value]
  {
    hide Decode, Encode, Entries, Tail, EncodeAll, TearCompletes, TailUnreadable, TornSeq, PaddedTear;
    var filled := Pad(file) + EncodeAll(numbered);
    AppendedEntries(file, numbered, Encode(r)[..torn]);
    AppendedEntries(file, numbered, []);
    assert filled + [] == filled;
    TornSeqIsLow(r, torn);
    PadOfTear(filled, r, torn) by { if torn == 0 { EarlyTearIsRefused(r, torn); } }
    EntriesOfAppend(filled, PaddedTear(r, torn));
  }

  lemma PadOfTear(file: seq<u8>, r: EventRecord, torn: nat)
    requires |file| % RECORD_SIZE == 0 && 0 < torn < RECORD_SIZE
    ensures Pad(file + Encode(r)[..torn]) == file + PaddedTear(r, torn)
  {
    hide Encode;
    assert PadNeeded(|file + Encode(r)[..torn]|) == RECORD_SIZE - torn;
  }

  /** What is appended next lies behind it, rotation or not. */
  lemma LastEntriesStay(w: World, recs: seq<EventRecord>, turn: Rotation, p: seq<EventRecord>, back: seq<EventRecord>)
    requires Entries(Pad(w.cur)) == p + back && recs != []
    requires w.nextSeq != 0 && w.nextSeq + |recs| < SEQ_END
    ensures Suffix(back + Number(recs, w.nextSeq), Retained(Ticked(w, recs, turn)))
  {
    hide Decode, Encode, EntriesUpTo, EncodeAll, Pad, Number;
    var next := Number(recs, w.nextSeq);
    NumberAt(recs, w.nextSeq);
    EntriesOfEncodeAll(Pad(w.cur), next);
    assert Entries([]) == [] by { hide *; NoEntries(); }
    var after := Ticked(w, recs, turn);
    assert Retained(after) == Entries(w.prev) + (p + back + next) || Retained(after) == p + back + next;
  }

  lemma NoEntries()
    ensures Entries([]) == []
  {
  }

  /** Padding that completes a torn entry puts it behind the whole ones, and what
      is written next behind it. */
  lemma CompletedTear(w: World, recs: seq<EventRecord>, whole: nat, torn: nat, more: seq<EventRecord>, turn: Rotation)
    requires Inv(w) && !w.lost && whole < |recs| && torn < RECORD_SIZE && more != []
    requires w.nextSeq + |recs| + |more| < SEQ_END
    requires TearCompletes(Number(recs, w.nextSeq)[whole], torn)
    ensures var cut, r := Start(Torn(w, recs, whole, torn)), Number(recs, w.nextSeq)[whole];
            && r.seqNo == w.nextSeq + whole
            && (cut.nextSeq == r.seqNo || cut.nextSeq == 1)
            && Decode(PaddedTear(r, torn)).Some?
            && Suffix([Decode(PaddedTear(r, torn)).value] + Number(more, cut.nextSeq), Retained(Ticked(cut, more, turn)))
  {
    hide Decode, Encode, EntriesUpTo, EncodeAll, Number, Pad, Ticked;
    var numbered := Number(recs, w.nextSeq);
    var r := numbered[whole];
    var torn0 := Torn(w, recs, whole, torn);
    NumberAt(recs, w.nextSeq);
    TornSeqIsLow(r, torn);
    NumberPrefix(recs, w.nextSeq, whole);
    CompletedEntries(w.cur, numbered[..whole], r, torn);
    GoesOnAfter(Retained(w), w, recs[..whole]);
    assert Retained(torn0) == Entries(w.prev) + (Entries(w.cur) + numbered[..whole]) == Retained(w) + numbered[..whole];
    RecoveredSeq(torn0);
    LastEntriesStay(Start(torn0), more, turn, Entries(w.cur) + numbered[..whole],
                    [Decode(PaddedTear(r, torn)).value]);
  }

  /** The hypothesis on tears is exact. Cut in an append, restarted and written to
      once more, the record is still without a missing or doubled seq if and only
      if padding did not complete the torn entry. */
  lemma TearExact(w: World, recs: seq<EventRecord>, whole: nat, torn: nat, more: seq<EventRecord>, turn: Rotation)
    requires Inv(w) && Gapless(w) && whole < |recs| && torn < RECORD_SIZE && more != []
    requires w.nextSeq + |recs| + |more| < SEQ_END
    ensures Consecutive(Retained(Ticked(Start(Torn(w, recs, whole, torn)), more, turn)))
       <==> !TearCompletes(Number(recs, w.nextSeq)[whole], torn)
  {
    hide Decode, Encode, EntriesUpTo, EncodeAll, Torn, Start, Ticked, Pad, Retained, Number;
    var r := Number(recs, w.nextSeq)[whole];
    var cut := Torn(w, recs, whole, torn);
    var es := Retained(Ticked(Start(cut), more, turn));
    if !TearCompletes(r, torn) {
      TearKeepsInv(w, recs, whole, torn);
      StartKeepsInv(cut, w.nextSeq + whole);
      TickKeepsInv(Start(cut), more, turn);
      assert Gapless(Start(cut)) by { TearKeepsGapless(w, recs, whole, torn); }
      TickStaysGapless(Start(cut), more, turn);
    } else {
      CompletedTear(w, recs, whole, torn, more, turn);
      TornSeqIsLow(r, torn);
      NumberAt(more, Start(cut).nextSeq);
      NumberAt(recs, w.nextSeq);
      var back, next := Decode(PaddedTear(r, torn)).value, Number(more, Start(cut).nextSeq);
      var i := |es| - |more|;
      assert es[i - 1] == ([back] + next)[0] && es[i] == ([back] + next)[1];
      assert es[i].seqNo - es[i - 1].seqNo != 1;
    }
  }

  // ---- where a seq is missing ---------------------------------------------------------------

  /** No seq is missing among what can be read, and none before the next one. */
  ghost predicate Gapless(w: World) {
    !w.lost && Consecutive(Retained(w))
  }

  lemma {:induction false} StepByStep(es: seq<EventRecord>)
    ensures Consecutive(es) <==> forall i :: 0 < i < |es| ==> es[i].seqNo - es[i - 1].seqNo == 1
  {
    if es != [] && (forall i :: 0 < i < |es| ==> es[i].seqNo - es[i - 1].seqNo == 1) {
      var n := |es| - 1;
      StepByStep(es[..n]);
      forall i, j | 0 <= i <= j < |es|
        ensures es[j].seqNo - es[i].seqNo == j - i
      {
        if j == n && i < n {
          assert es[..n][n - 1].seqNo - es[..n][i].seqNo == n - 1 - i;
        } else if j < n {
          assert es[..n][j].seqNo - es[..n][i].seqNo == j - i;
        }
      }
    }
  }

  /** A hole among the entries that can be read, not before the first of them. */
  ghost predicate HoleKept(w: World) {
    exists h :: h in w.holes && |w.written| - |Retained(w)| < h
  }

  lemma MissingAtHoles(w: World)
    requires Inv(w)
    ensures Consecutive(Retained(w)) <==> !HoleKept(w)
  {
    hide Consecutive, Retained, HolesAre, Increasing, TailUnreadable;
    SuffixIsShorter(Retained(w), w.written);
    MissingInside(Retained(w), |w.written|, w.holes);
  }

  lemma MissingInside(es: seq<EventRecord>, written: nat, holes: set<nat>)
    requires HolesAre(es, written, holes) && |es| <= written
    ensures Consecutive(es) <==> !exists h :: h in holes && written - |es| < h
  {
    StepByStep(es);
    hide Consecutive;
    var n := written - |es|;
    if h :| h in holes && n < h {
      var i := h - n;
      assert n + i in holes && 0 < i < |es|;
      assert es[i].seqNo - es[i - 1].seqNo != 1;
    } else {
      forall i | 0 < i < |es|
        ensures es[i].seqNo - es[i - 1].seqNo == 1
      {
        assert written - |es| + i !in holes;
      }
    }
  }

  /** Exactly, over every run: a seq is missing among what can be read if and only if the
      first entry written after an append lost numbers, with no restart in between, can
      still be read, and one from before the loss with it. */
  lemma MissingExactly(w: World, es: seq<Event>)
    requires Inv(w) && CleanRun(w, es)
    ensures Consecutive(Retained(Run(w, es))) <==> !HoleKept(Run(w, es))
  {
    RunKeepsInv(w, es);
    MissingAtHoles(Run(w, es));
  }

  /** What a tick leaves of the entries there were: a rotation drops the older file. */
  function Surviving(w: World, recs: seq<EventRecord>, turn: Rotation): seq<EventRecord> {
    if ShouldRotate(|Pad(w.cur)| + |recs| * RECORD_SIZE) && !turn.Untouched? then Entries(w.cur) else Retained(w)
  }

  lemma RetainedAfter(w: World, recs: seq<EventRecord>, turn: Rotation)
    requires TailUnreadable(w.cur) && recs != [] && w.nextSeq != 0 && w.nextSeq + |recs| < SEQ_END
    ensures Retained(Ticked(w, recs, turn)) == Surviving(w, recs, turn) + Number(recs, w.nextSeq)
  {
    hide Decode, Encode, EntriesUpTo, EncodeAll, Pad, Number;
    var next := Number(recs, w.nextSeq);
    NumberAt(recs, w.nextSeq);
    PadAddsNothing(w.cur);
    EntriesOfEncodeAll(Pad(w.cur), next);
    NoEntries();
    var es := Entries(w.cur) + next;
    assert es + [] == es == [] + es;
    assert Entries(w.prev) + es == Retained(w) + next;
  }

  /** `es` ends with the entries of `recs`, field for field, under the seqs from `first` on. */
  ghost predicate EndsWith(es: seq<EventRecord>, recs: seq<EventRecord>, first: nat)
    requires first + |recs| <= 0x1_0000_0000
  {
    && |es| >= |recs|
    && forall i :: 0 <= i < |recs| ==>
         var r := recs[i];
         es[|es| - |recs| + i] == EventRecord(r.timeS, first + i, r.a, r.b, r.board, r.kind, r.detail, r.unit)
  }

  lemma NumberOne(recs: seq<EventRecord>, first: u32, i: nat)
    requires i < |recs| && first + i < SEQ_END
    ensures var r := recs[i];
      Number(recs, first)[i] == EventRecord(r.timeS, first + i, r.a, r.b, r.board, r.kind, r.detail, r.unit)
  {
  }

  lemma EndsWithNumber(kept: seq<EventRecord>, recs: seq<EventRecord>, first: u32)
    requires first + |recs| < SEQ_END
    ensures EndsWith(kept + Number(recs, first), recs, first)
  {
    hide Number;
    var next := Number(recs, first);
    var es := kept + next;
    forall i | 0 <= i < |recs|
      ensures var r := recs[i];
        es[|es| - |recs| + i] == EventRecord(r.timeS, first + i, r.a, r.b, r.board, r.kind, r.detail, r.unit)
    {
      assert es[|es| - |recs| + i] == next[i];
      NumberOne(recs, first, i);
    }
  }

  /** A tick that writes everything: what can be read of the two files then ends with its
      entries, numbered on. */
  lemma TickWritesItsEntries(w: World, recs: seq<EventRecord>, turn: Rotation)
    requires Inv(w) && recs != [] && w.nextSeq + |recs| < SEQ_END
    ensures EndsWith(Retained(Ticked(w, recs, turn)), recs, w.nextSeq)
  {
    InvBasics(w);
    hide Inv, Ticked, Surviving, Retained, Number, TailUnreadable, EndsWith;
    RetainedAfter(w, recs, turn);
    EndsWithNumber(Surviving(w, recs, turn), recs, w.nextSeq);
  }

  lemma InvBasics(w: World)
    requires Inv(w)
    ensures TailUnreadable(w.cur) && w.nextSeq != 0
  {
  }

  /** With a rename that works a file never passes 2048 entries' worth between ticks, and
      the older one is never less than that. */
  lemma RotationKeepsAFile(w: World, recs: seq<EventRecord>)
    requires |w.cur| < 49152
    ensures var t := Ticked(w, recs, Renamed);
      && |t.cur| < 49152
      && (if |Pad(w.cur)| + |recs| * 24 >= 49152 && recs != []
          then t.cur == [] && 49152 <= |t.prev| < 49152 + 24 + |recs| * 24 else t.prev == w.prev)
  {
    hide Number;
  }

  /** The other hypothesis is exact too, for every state of the two files: whatever a
      failed append loses, the next tick leaves a record without a missing seq if and
      only if no number was lost, or it writes nothing, or none of the entries there
      were before survives it. */
  lemma LostAppendExact(w: World, lost: nat, more: seq<EventRecord>, turn: Rotation)
    requires Inv(w) && Gapless(w) && w.nextSeq + lost + |more| < SEQ_END
    ensures Consecutive(Retained(Ticked(LostTick(w, lost), more, turn)))
       <==> lost == 0 || more == [] || Surviving(w, more, turn) == []
  {
    hide Decode, Encode, EntriesUpTo, EncodeAll, Pad, Ticked, Number, PageOf, HolesAre, Increasing, Suffix;
    var w', kept := LostTick(w, lost), Surviving(w, more, turn);
    if more == [] {
      assert Ticked(w', more, turn) == w' by { hide *; NothingTicked(w', turn); }
      assert Retained(w') == Retained(w);
    } else if lost == 0 {
      assert w' == w;
      TickStaysGapless(w, more, turn);
    } else {
      RetainedAfter(w', more, turn);
      NumberAt(more, w'.nextSeq);
      var next := Number(more, w'.nextSeq);
      assert Surviving(w', more, turn) == kept;
      if kept == [] {
        assert kept + next == next;
        StepByStep(next);
      } else {
        LastSurvives(w, more, turn);
        var i := |kept|;
        assert (kept + next)[i] == next[0] && (kept + next)[i - 1] == kept[i - 1];
        assert next[0].seqNo - kept[i - 1].seqNo == 1 + lost;
      }
    }
  }

  /** A restart before the next write takes the lost numbers back: no gap opens. */
  lemma RestartTakesBack(w: World, lost: nat, more: seq<EventRecord>, turn: Rotation)
    requires Inv(w) && Gapless(w) && w.nextSeq + lost + |more| < SEQ_END
    ensures Consecutive(Retained(Ticked(Start(LostTick(w, lost)), more, turn)))
  {
    hide Decode, EntriesUpTo, Ticked, Inv;
    LostKeepsInv(w, lost);
    StartKeepsInv(LostTick(w, lost), LostTick(w, lost).nextSeq);
    assert Retained(Start(LostTick(w, lost))) == Retained(w);
    assert Start(LostTick(w, lost)).nextSeq <= w.nextSeq + lost;
    TickStaysGapless(Start(LostTick(w, lost)), more, turn);
  }

  /** A tick on a record without a gap leaves none. */
  lemma TickStaysGapless(w: World, recs: seq<EventRecord>, turn: Rotation)
    requires Inv(w) && Gapless(w) && w.nextSeq + |recs| < SEQ_END
    ensures Gapless(Ticked(w, recs, turn))
  {
    hide Decode, Encode, EntriesUpTo, EncodeAll, Pad, Number, Surviving;
    if recs == [] {
      NothingTicked(w, turn);
    } else {
      RetainedAfter(w, recs, turn);
      NumberAt(recs, w.nextSeq);
      SurvivingConsecutive(w, recs, turn);
      if Surviving(w, recs, turn) != [] { LastSurvives(w, recs, turn); }
      ConsecutiveJoined(Surviving(w, recs, turn), Number(recs, w.nextSeq), w.nextSeq);
      assert !Ticked(w, recs, turn).lost by { NothingLostByTick(w, recs, turn); }
    }
  }

  lemma SurvivingConsecutive(w: World, recs: seq<EventRecord>, turn: Rotation)
    requires Consecutive(Retained(w))
    ensures Consecutive(Surviving(w, recs, turn))
  {
    hide Pad, EntriesUpTo;
    ConsecutiveParts(Entries(w.prev), Entries(w.cur));
  }

  lemma ConsecutiveJoined(p: seq<EventRecord>, numbered: seq<EventRecord>, first: u32)
    requires Consecutive(p) && (p != [] ==> LastSeqOf(p) + 1 == first)
    requires forall i :: 0 <= i < |numbered| ==> numbered[i].seqNo == first + i
    ensures Consecutive(p + numbered)
  {
    var all := p + numbered;
    forall i | 0 < i < |all|
      ensures all[i].seqNo == all[i - 1].seqNo + 1
    {
      if i < |p| {
        assert p[i].seqNo - p[i - 1].seqNo == 1;
      }
    }
    StepByStep(all);
  }

  lemma NothingLostByTick(w: World, recs: seq<EventRecord>, turn: Rotation)
    requires !w.lost
    ensures !Ticked(w, recs, turn).lost && Ticked(w, recs, turn).holes == w.holes
  {
  }

  lemma TearKeepsGapless(w: World, recs: seq<EventRecord>, whole: nat, torn: nat)
    requires Inv(w) && Gapless(w) && whole < |recs| && torn < RECORD_SIZE && w.nextSeq + |recs| < SEQ_END
    requires !TearCompletes(Number(recs, w.nextSeq)[whole], torn)
    ensures Gapless(Start(Torn(w, recs, whole, torn)))
  {
    hide Decode, Encode, EntriesUpTo, EncodeAll, Pad, Number;
    var numbered, t := Number(recs, w.nextSeq)[..whole], Torn(w, recs, whole, torn);
    NumberAt(recs, w.nextSeq);
    AppendedEntries(w.cur, numbered, Encode(Number(recs, w.nextSeq)[whole])[..torn]);
    assert Retained(Start(t)) == Entries(w.prev) + (Entries(w.cur) + numbered) == Retained(w) + numbered;
    ConsecutiveJoined(Retained(w), numbered, w.nextSeq);
  }

  lemma NothingTicked(w: World, turn: Rotation)
    ensures Ticked(w, [], turn) == w
  {
  }

  lemma LastSurvives(w: World, recs: seq<EventRecord>, turn: Rotation)
    requires Surviving(w, recs, turn) != []
    ensures LastSeqOf(Surviving(w, recs, turn)) == LastSeqOf(Retained(w)) && Retained(w) != []
  {
    hide EntriesUpTo, Pad;
  }

  // ---- reading back -----------------------------------------------------------------------

  /** A page: the current file first, then the older one. */
  function PageAt(w: World, before: u32, cap: nat): seq<EventRecord> {
    var newer := PageOf(w.cur, before, cap);
    newer + PageOf(w.prev, before, cap - |newer|)
  }

  lemma PageFits(file: seq<u8>, before: u32, room: nat)
    ensures |PageOf(file, before, room)| <= room
  {
  }

  lemma Grouped<T>(a: seq<T>, b: seq<T>, c: seq<T>)
    ensures a + (b + c) == (a + b) + c
  {
  }

  lemma {:induction false} NewestFirstConcat(p: seq<EventRecord>, q: seq<EventRecord>, before: u32)
    ensures NewestFirst(p + q, before) == NewestFirst(q, before) + NewestFirst(p, before)
  {
    if q == [] {
      assert p + q == p;
    } else {
      var n := |q| - 1;
      var last := if Wanted(before, q[n]) then [q[n]] else [];
      NewestFirstConcat(p, q[..n], before);
      assert NewestFirst(q, before) == last + NewestFirst(q[..n], before);
      hide NewestFirst;
      NewestFirstOfOneMore(p + q[..n], q[n], before);
      assert p + q == (p + q[..n]) + [q[n]];
      Grouped(last, NewestFirst(q[..n], before), NewestFirst(p, before));
    }
  }

  /** Two indexed lookups, one plain scan: a page of the record is what scanning
      all retained entries backward would give. */
  lemma PageIsScan(w: World, before: u32, cap: nat)
    requires Consecutive(Retained(w))
    ensures PageAt(w, before, cap) == Take(NewestFirst(Retained(w), before), cap)
  {
    hide EntriesUpTo, Decode, NewestFirst, PageOf, StartSlot;
    var prev, cur := Entries(w.prev), Entries(w.cur);
    ConsecutiveParts(prev, cur);
    JumpLosesNothing(w.cur, before, cap);
    JumpLosesNothing(w.prev, before, cap - |PageOf(w.cur, before, cap)|);
    NewestFirstConcat(prev, cur, before);
  }

  lemma ConsecutiveParts(p: seq<EventRecord>, q: seq<EventRecord>)
    requires Consecutive(p + q)
    ensures Consecutive(p) && Consecutive(q)
  {
    assert forall i :: 0 <= i < |p| ==> p[i] == (p + q)[i];
    forall i, j | 0 <= i <= j < |q|
      ensures q[j].seqNo - q[i].seqNo == j - i
    {
      var k, l := |p| + i, |p| + j;
      assert (p + q)[l].seqNo - (p + q)[k].seqNo == l - k;
    }
  }

  /** Of entries in seq order the wanted ones are a prefix, and the scan is that
      prefix backward. */
  lemma {:induction false} ScanIsPrefixBackward(es: seq<EventRecord>, before: u32)
    requires Consecutive(es)
    ensures IsPrefixBackward(es, NewestFirst(es, before), before)
  {
    if es != [] {
      var n := |es| - 1;
      ScanIsPrefixBackward(es[..n], before);
      NewestFirstOfOneMore(es[..n], es[n], before);
      assert es == es[..n] + [es[n]];
      forall i | 0 <= i < n
        ensures es[..n][i].seqNo <= es[n].seqNo
      {
        assert es[n].seqNo - es[i].seqNo == n - i;
      }
      hide NewestFirst, Consecutive, IsPrefixBackward;
      BackwardMore(es[..n], es[n], NewestFirst(es[..n], before), before);
    }
  }

  ghost predicate IsPrefixBackward(es: seq<EventRecord>, scan: seq<EventRecord>, before: u32) {
    && |scan| <= |es|
    && (forall i :: 0 <= i < |es| ==> (i < |scan| <==> Wanted(before, es[i])))
    && (forall i :: 0 <= i < |scan| ==> scan[i] == es[|scan| - 1 - i])
  }

  lemma BackwardMore(es: seq<EventRecord>, r: EventRecord, scan: seq<EventRecord>, before: u32)
    requires IsPrefixBackward(es, scan, before) && forall i :: 0 <= i < |es| ==> es[i].seqNo <= r.seqNo
    ensures IsPrefixBackward(es + [r], (if Wanted(before, r) then [r] else []) + scan, before)
  {
    var m := |scan|;
    if Wanted(before, r) {
      assert m < |es| ==> Wanted(before, es[m]);
      Backward(es, r, scan);
    } else {
      assert [] + scan == scan;
    }
  }

  lemma Backward(es: seq<EventRecord>, r: EventRecord, scan: seq<EventRecord>)
    requires |scan| == |es| && forall i :: 0 <= i < |scan| ==> scan[i] == es[|scan| - 1 - i]
    ensures forall i :: 0 <= i < |[r] + scan| ==> ([r] + scan)[i] == (es + [r])[|[r] + scan| - 1 - i]
  {
    var m := |scan|;
    forall i | 0 <= i < m + 1
      ensures ([r] + scan)[i] == (es + [r])[m - i]
    {
      if i > 0 {
        assert ([r] + scan)[i] == scan[i - 1];
        assert (es + [r])[m - i] == es[m - i];
      }
    }
  }

  /** Asking again from the last entry of a page gives what follows that page. */
  lemma NextPageFollows(es: seq<EventRecord>, before: u32, n: nat)
    requires Consecutive(es) && Numbered(es) && 0 < n <= |NewestFirst(es, before)|
    ensures NewestFirst(es, NewestFirst(es, before)[n - 1].seqNo) == NewestFirst(es, before)[n..]
  {
    var scan := NewestFirst(es, before);
    ScanIsPrefixBackward(es, before);
    ScanIsPrefixBackward(es, scan[n - 1].seqNo);
    var rest := NewestFirst(es, scan[n - 1].seqNo);
    var k := |scan| - n;
    assert scan[n - 1] == es[k];
    forall i | 0 <= i < |es|
      ensures Wanted(es[k].seqNo, es[i]) <==> i < k
    {
      assert if i <= k then es[k].seqNo - es[i].seqNo == k - i else es[i].seqNo - es[k].seqNo == i - k;
    }
    var m := if |rest| < k then |rest| else k;
    assert m < |rest| <==> Wanted(es[k].seqNo, es[m]);
  }

  /** Every page from `before` on, each started at the last seq of the one before. */
  ghost function AllPages(w: World, before: u32, cap: nat): seq<EventRecord>
    requires Consecutive(Retained(w)) && cap > 0
    decreases |NewestFirst(Retained(w), before)|
  {
    var page := PageAt(w, before, cap);
    if page == [] then []
    else
      PageShortensTheRest(w, before, cap);
      page + AllPages(w, page[|page| - 1].seqNo, cap)
  }

  lemma PageShortensTheRest(w: World, before: u32, cap: nat)
    requires Consecutive(Retained(w)) && PageAt(w, before, cap) != []
    ensures var page := PageAt(w, before, cap);
      |NewestFirst(Retained(w), page[|page| - 1].seqNo)| < |NewestFirst(Retained(w), before)|
  {
    hide Inv, Retained, PageAt, NewestFirst, Decode;
    PageIsScan(w, before, cap);
    RetainedNumbered(w);
    NextPageFollows(Retained(w), before, |PageAt(w, before, cap)|);
  }

  lemma RetainedNumbered(w: World)
    ensures Numbered(Retained(w))
  {
    EntriesAreNumbered(w.prev, SlotCount(w.prev));
    EntriesAreNumbered(w.cur, SlotCount(w.cur));
  }

  function Reversed(es: seq<EventRecord>): seq<EventRecord> {
    if es == [] then [] else [es[|es| - 1]] + Reversed(es[..|es| - 1])
  }

  lemma {:induction false} ScanOfAllIsReversed(es: seq<EventRecord>)
    ensures NewestFirst(es, 0) == Reversed(es)
  {
    if es != [] {
      ScanOfAllIsReversed(es[..|es| - 1]);
    }
  }

  /** Paging to the end terminates and visits every retained entry of both files
      exactly once, newest first, whatever the page size. */
  lemma PagingVisitsEverything(w: World, cap: nat)
    requires Consecutive(Retained(w)) && cap > 0
    ensures AllPages(w, 0, cap) == Reversed(Retained(w))
  {
    PagesAreTheScan(w, 0, cap);
    ScanOfAllIsReversed(Retained(w));
  }

  lemma {:induction false} PagesAreTheScan(w: World, before: u32, cap: nat)
    requires Consecutive(Retained(w)) && cap > 0
    ensures AllPages(w, before, cap) == NewestFirst(Retained(w), before)
    decreases |NewestFirst(Retained(w), before)|
  {
    hide Inv, Retained, PageAt, NewestFirst;
    var page := PageAt(w, before, cap);
    PageIsScan(w, before, cap);
    if page != [] {
      RetainedNumbered(w);
      NextPageFollows(Retained(w), before, |page|);
      PagesAreTheScan(w, page[|page| - 1].seqNo, cap);
    }
  }

  /** Which is so over every run in which no append failed with the board up. */
  lemma {:induction false} NoneMissing(w: World, es: seq<Event>)
    requires Inv(w) && Gapless(w) && CleanRun(w, es)
    requires forall e :: e in es ==> !e.Failed? && (e.NotOpened? ==> e.recs == [])
    ensures Gapless(Run(w, es))
    decreases |es|
  {
    hide Clean, Possible, Inv, Gapless, Step;
    if es != [] {
      StepKeepsInv(w, es[0]);
      StepStaysGapless(w, es[0]);
      NoneMissing(Step(w, es[0]), es[1..]);
    }
  }

  lemma StepStaysGapless(w: World, e: Event)
    requires Inv(w) && Gapless(w) && Possible(w, e) && Clean(w, e)
    requires !e.Failed? && (e.NotOpened? ==> e.recs == [])
    ensures Gapless(Step(w, e))
  {
    hide Ticked, Torn, Inv, Entries, FailedTick, TearCompletes;
    match e
    case Tick(recs, turn) => TickStaysGapless(w, recs, turn);
    case NotOpened(recs) =>
    case Failed(_, _, _) => assert false;
    case Restart =>
    case CutInPad(zeros) =>
      assert Entries(w.cur + Zeros(zeros)) == Entries(w.cur) by { CutInPadReads(w, zeros); }
    case CutInAppend(recs, whole, torn) => TearKeepsGapless(w, recs, whole, torn);
    case CutInRotate(recs, turn) => TickStaysGapless(w, recs, turn);
  }

  /** Entries written between two pages never show in the later ones, and those
      only lose what a rotation removed: the oldest. */
  lemma LaterPagesStay(w: World, recs: seq<EventRecord>, turn: Rotation, before: u32)
    requires Inv(w) && w.nextSeq + |recs| < SEQ_END && 0 < before <= w.nextSeq
    ensures NewestFirst(Retained(Ticked(w, recs, turn)), before) <= NewestFirst(Retained(w), before)
    ensures !ShouldRotate(|Pad(w.cur)| + |recs| * RECORD_SIZE)
        ==> NewestFirst(Retained(Ticked(w, recs, turn)), before) == NewestFirst(Retained(w), before)
  {
    hide Decode, Encode, EntriesUpTo, EncodeAll, Pad, Number, NewestFirst, Ticked, Entries;
    if recs == [] {
      NothingTicked(w, turn);
    } else {
      var numbered := Number(recs, w.nextSeq);
      NumberAt(recs, w.nextSeq);
      NothingBelow(numbered, before);
      RetainedAfter(w, recs, turn);
      NewestFirstConcat(Surviving(w, recs, turn), numbered, before);
      NewestFirstConcat(Entries(w.prev), Entries(w.cur), before);
    }
  }

  lemma {:induction false} NothingBelow(es: seq<EventRecord>, before: u32)
    requires before > 0 && forall i :: 0 <= i < |es| ==> es[i].seqNo >= before
    ensures NewestFirst(es, before) == []
  {
    if es != [] {
      NothingBelow(es[..|es| - 1], before);
    }
  }

  // ---- the module's own state ------------------------------------------------------------------

  class EventRecorder {
    var prev: seq<u8>
    var cur: seq<u8>
    var nextSeq: u32
    const damp: EventDamp
    /** Everything ever written whole. */
    ghost var written: seq<EventRecord>
    /** A failed append has used numbers. */
    ghost var lost: bool
    /** Where in what was written numbers are missing. */
    ghost var holes: set<nat>

    ghost predicate Valid()
      reads this, damp
    {
      damp.Valid()
    }

    ghost function Now(): World
      reads this
    {
      World(prev, cur, nextSeq, written, lost, holes)
    }

    constructor (prev: seq<u8>, cur: seq<u8>)
      ensures Valid() && fresh(damp) && fresh(damp.slots)
      ensures Now() == World(prev, cur, 1, [], false, {})
    {
      this.prev, this.cur, nextSeq, written, lost, holes := prev, cur, 1, [], false, {};
      damp := new EventDamp();
    }

    /** A start: the seq count off the files; the table, when it did not survive,
        from the newest entries, oldest of them first. */
    method Init(tableLost: bool)
      requires Valid()
      modifies this, damp.slots
      ensures Valid() && Now() == Start(old(Now()))
      ensures damp.slots[..] == if tableLost
              then Seeds(Blank(), Reversed(PageAt(Start(old(Now())), 0, 64)))
              else old(damp.slots[..])
    {
      hide Seeds, EntriesUpTo, PageAt, Reversed;
      var last := LastSeq(cur);
      if last == 0 { last := LastSeq(prev); }
      nextSeq, lost := (last + 1) % SEQ_END, false;
      if tableLost {
        var newest := Page(0, SEED_ENTRIES);
        Rebuild(newest);
      }
    }

    /** The table as these entries alone make it, given newest first. */
    method Rebuild(newest: seq<EventRecord>)
      requires Valid()
      modifies damp.slots
      ensures damp.slots[..] == Seeds(Blank(), Reversed(newest))
    {
      hide Seeded;
      damp.Clear();
      var i := |newest|;
      assert newest[..i] == newest;
      while i > 0
        invariant 0 <= i <= |newest|
        invariant Seeds(Blank(), Reversed(newest)) == Seeds(damp.slots[..], Reversed(newest[..i]))
      {
        assert newest[..i][..i - 1] == newest[..i - 1];
        assert Reversed(newest[..i])[1..] == Reversed(newest[..i - 1]);
        damp.Seed(newest[i - 1]);
        i := i - 1;
      }
    }

    method DampTaken(taken: seq<EventRecord>, nowS: u32, clockSet: bool) returns (toWrite: seq<EventRecord>)
      requires Valid()
      modifies damp.slots
      ensures Damped(damp.slots[..], toWrite) == DampTakenOf(old(damp.slots[..]), taken, nowS, clockSet)
      ensures |taken| <= STAGE_CAP + 1 ==> |toWrite| <= TO_WRITE
    {
      toWrite := [];
      for i := 0 to |taken|
        invariant Damped(damp.slots[..], toWrite) == DampEach(old(damp.slots[..]), taken[..i])
      {
        assert taken[..i + 1][..i] == taken[..i];
        var admitted, summary := damp.Admit(taken[i]);
        if summary.Some? { toWrite := toWrite + [summary.value]; }
        if admitted { toWrite := toWrite + [taken[i]]; }
      }
      assert taken[..|taken|] == taken;
      DampEachFits(old(damp.slots[..]), taken);
      if clockSet {
        var passed := damp.Due(nowS, SLOTS);
        toWrite := toWrite + passed;
      }
    }

    /** One tick's entries, damped, numbered, padded to the boundary, appended, and the
        files rotated. A file that does not open, or takes only `room` bytes, loses
        some of them, and their numbers. */
    method Tick(taken: seq<EventRecord>, nowS: u32, clockSet: bool, opens: bool, room: nat, turn: Rotation)
      requires Valid()
      modifies this, damp.slots
      ensures Valid()
      ensures var d := DampTakenOf(old(damp.slots[..]), taken, nowS, clockSet);
              && damp.slots[..] == d.slots
              && Now() == if !opens then LostTick(old(Now()), |d.out|)
                          else if TooLittleRoom(old(Now()), d.out, room) then FailedTick(old(Now()), d.out, room, turn)
                          else Ticked(old(Now()), d.out, turn)
    {
      hide Number, Pad, EncodeAll, DampTakenOf, Torn, WholeIn, TornIn;
      var plain := DampTaken(taken, nowS, clockSet);
      ghost var w := Now();
      var toWrite := Renumber(plain, nextSeq);
      nextSeq := (nextSeq + |toWrite|) % SEQ_END;
      if |toWrite| == 0 { return; }
      if !opens {
        lost := true;
        return;
      }
      ghost var first := w.nextSeq;
      Append(plain, first, toWrite, room);
      ghost var appended := Now();
      if ShouldRotate(|cur|) {
        if !turn.Untouched? { prev := []; }
        if turn.Renamed? { prev, cur := cur, []; }
      }
    }

    /** From the first seq on, whatever was taken under which. */
    method Renumber(plain: seq<EventRecord>, firstSeq: u32) returns (toWrite: seq<EventRecord>)
      ensures toWrite == Number(plain, firstSeq) && |toWrite| == |plain|
      ensures forall i :: 0 <= i < |plain| ==>
        var r := plain[i];
        toWrite[i] == EventRecord(r.timeS, (firstSeq + i) % 0x1_0000_0000, r.a, r.b, r.board, r.kind, r.detail, r.unit)
    {
      toWrite := plain;
      for i := 0 to |plain|
        invariant |toWrite| == |plain|
        invariant forall j :: 0 <= j < i ==> toWrite[j] == plain[j].(seqNo := (firstSeq + j) % SEQ_END)
        invariant forall j :: i <= j < |plain| ==> toWrite[j] == plain[j]
      {
        toWrite := toWrite[i := toWrite[i].(seqNo := (firstSeq + i) % SEQ_END)];
      }
    }

    /** Pads, then writes entry after entry until one write comes short. */
    method Append(ghost plain: seq<EventRecord>, ghost first: u32, recs: seq<EventRecord>, room: nat)
      requires recs != [] && recs == Number(plain, first) && nextSeq == (first + |recs|) % SEQ_END
      modifies this`cur, this`written, this`lost, this`holes
      ensures var w := old(Now()).(nextSeq := first);
        Now() == if TooLittleRoom(w, plain, room)
                 then LostTick(Partly(w, plain, room), |plain| - WholeIn(w, room))
                 else Wrote(w, recs).(cur := Pad(w.cur) + EncodeAll(recs), nextSeq := nextSeq)
    {
      hide Encode, Zeros, Number, WholeIn, Partly, EncodeAll, LostTick;
      ghost var w := old(Now()).(nextSeq := first);
      var pad := PadNeeded(|cur|);
      if room < pad {
        StopsInPad(w, plain, room);
        cur := cur + Zeros(room);
        lost := true;
        return;
      }
      cur := cur + Zeros(pad);
      var n := WriteEntries(recs, room - pad);
      if n > 0 {
        holes, lost := if lost then holes + {|written|} else holes, false;
        written := written + recs[..n];
      }
      if n < |recs| {
        StopsAt(w, plain, room, n, room - pad - n * RECORD_SIZE);
        lost := true;
      } else {
        assert recs[..n] == recs;
      }
    }

    /** Entry after entry, as long as the file takes them whole. */
    method WriteEntries(recs: seq<EventRecord>, room: nat) returns (n: nat)
      modifies this`cur
      ensures n <= |recs| && n * RECORD_SIZE <= room && (n < |recs| ==> room < (n + 1) * RECORD_SIZE)
      ensures cur == if n == |recs| then old(cur) + EncodeAll(recs)
                     else old(cur) + EncodeAll(recs[..n]) + Encode(recs[n])[..room - n * RECORD_SIZE]
    {
      hide Encode;
      n := 0;
      while n < |recs|
        invariant n <= |recs| && n * RECORD_SIZE <= room
        invariant cur == old(cur) + EncodeAll(recs[..n])
      {
        assert recs[..n + 1][..n] == recs[..n];
        var left := room - n * RECORD_SIZE;
        if left < RECORD_SIZE {
          cur := cur + Encode(recs[n])[..left];
          return;
        }
        cur := cur + Encode(recs[n]);
        n := n + 1;
      }
      assert recs[..n] == recs;
    }

    method Page(before: u32, cap: nat) returns (out: seq<EventRecord>)
      ensures out == PageAt(Now(), before, cap)
    {
      PageFits(cur, before, cap);
      PageFits(prev, before, 0);
      hide PageOf;
      out := PageRead(cur, before, cap, []);
      assert out == PageOf(cur, before, cap);
      out := PageRead(prev, before, cap, out);
    }
  }
}
