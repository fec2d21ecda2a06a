/** EventDampPolicy.h: a table of 16 slots, rewritten in place, that keeps an entry
    which recurs from filling the record. */
module EventDampPolicy {
  import opened Wrappers
  import opened EventRecordPolicy

  const BURST: nat := 10
  const WINDOW_S: nat := 3600
  const SLOTS: nat := 16
  const REPEATED: u8 := 3

  /** What the table knows of an entry it follows; a kind of 0 stands for nothing. */
  datatype Slot = Slot(a: u32, b: u32, windowStartS: u32, lastS: u32, board: u16,
                       written: u16, unwritten: u16, kind: u8, detail: u8, unit: u8)

  const FREE: Slot := Slot(0, 0, 0, 0, 0, 0, 0, 0, 0, 0)

  predicate Same(s: Slot, r: EventRecord) {
    s.kind == r.kind && s.detail == r.detail && s.board == r.board && s.unit == r.unit && s.a == r.a && s.b == r.b
  }

  predicate SameSlots(s: Slot, t: Slot) {
    s.kind == t.kind && s.detail == t.detail && s.board == t.board && s.unit == t.unit && s.a == t.a && s.b == t.b
  }

  /** A slot's account of its refusals, under the time of the newest. */
  function Repeated(s: Slot): EventRecord {
    EventRecord(s.lastS, 0, s.unwritten, s.detail, s.board, REPEATED, s.kind, s.unit)
  }

  predicate Undamped(r: EventRecord) {
    r.timeS == 0 || r.kind == REPEATED
  }

  predicate InWindow(s: Slot, r: EventRecord) {
    r.timeS >= s.windowStartS && r.timeS - s.windowStartS < WINDOW_S
  }

  predicate Passed(s: Slot, nowS: u32) {
    s.kind != 0 && nowS >= s.windowStartS && nowS - s.windowStartS >= WINDOW_S
  }

  /** The slot an entry has now, one written in a window that starts with it. */
  function Opened(r: EventRecord): Slot {
    Slot(r.a, r.b, r.timeS, 0, r.board, 1, 0, r.kind, r.detail, r.unit)
  }

  /** The first occupied slot for `r`, |slots| when there is none. */
  function FindIndex(slots: seq<Slot>, r: EventRecord): (i: nat)
    ensures i <= |slots|
    ensures i < |slots| ==> slots[i].kind != 0 && Same(slots[i], r)
    ensures forall j :: 0 <= j < i ==> !(slots[j].kind != 0 && Same(slots[j], r))
  {
    if slots == [] || (slots[0].kind != 0 && Same(slots[0], r)) then 0 else 1 + FindIndex(slots[1..], r)
  }

  /** `i` is the slot that makes room: the first free one, else the first of those
      whose window began earliest. */
  ghost predicate MakesRoom(slots: seq<Slot>, i: nat) {
    && i < |slots|
    && (slots[i].kind == 0 || forall j :: 0 <= j < |slots| ==> slots[j].kind != 0)
    && (forall j :: 0 <= j < i ==>
          && slots[j].kind != 0
          && (slots[i].kind != 0 ==> slots[i].windowStartS < slots[j].windowStartS))
    && (slots[i].kind != 0 ==> forall j :: 0 <= j < |slots| ==> slots[i].windowStartS <= slots[j].windowStartS)
  }

  function RoomFrom(slots: seq<Slot>, next: nat, oldest: nat): (i: nat)
    requires oldest < |slots| && next <= |slots|
    ensures i < |slots|
    decreases |slots| - next
  {
    if next == |slots| then oldest
    else if slots[next].kind == 0 then next
    else RoomFrom(slots, next + 1, if slots[next].windowStartS < slots[oldest].windowStartS then next else oldest)
  }

  lemma {:induction false} RoomFromMakesRoom(slots: seq<Slot>, next: nat, oldest: nat)
    requires oldest < |slots| && next <= |slots| && (oldest < next || oldest == 0)
    requires forall j :: 0 <= j < next ==> slots[j].kind != 0 && slots[oldest].windowStartS <= slots[j].windowStartS
    requires forall j :: 0 <= j < oldest ==> slots[oldest].windowStartS < slots[j].windowStartS
    ensures MakesRoom(slots, RoomFrom(slots, next, oldest))
    decreases |slots| - next
  {
    if next < |slots| && slots[next].kind != 0 {
      RoomFromMakesRoom(slots, next + 1,
                        if slots[next].windowStartS < slots[oldest].windowStartS then next else oldest);
    }
  }

  datatype Admission = Admission(slots: seq<Slot>, written: bool, summary: Option<EventRecord>)

  /** What becomes of the table and of `r`. */
  function Admitted(slots: seq<Slot>, r: EventRecord): (out: Admission)
    requires |slots| > 0
    ensures |out.slots| == |slots|
  {
    var i := FindIndex(slots, r);
    if Undamped(r) then Admission(slots, true, None)
    else if i < |slots| && InWindow(slots[i], r) then
      var s := slots[i];
      if s.written < BURST then Admission(slots[i := s.(written := s.written + 1)], true, None)
      else
        var count := if s.unwritten < 0xFFFF then s.unwritten + 1 else s.unwritten;
        Admission(slots[i := s.(unwritten := count, lastS := r.timeS)], false, None)
    else
      var k := if i < |slots| then i else RoomFrom(slots, 0, 0);
      var s := slots[k];
      Admission(slots[k := Opened(r)], true, if s.kind != 0 && s.unwritten > 0 then Some(Repeated(s)) else None)
  }

  function Seeded(slots: seq<Slot>, r: EventRecord): (out: seq<Slot>)
    requires |slots| > 0
    ensures |out| == |slots|
  {
    var i := FindIndex(slots, r);
    if Undamped(r) then slots
    else if i < |slots| && InWindow(slots[i], r) then
      if slots[i].written < 0xFFFF then slots[i := slots[i].(written := slots[i].written + 1)] else slots
    else Admitted(slots, r).slots
  }

  datatype Dues = Dues(slots: seq<Slot>, out: seq<EventRecord>)

  /** Frees the windows that have passed, front to back, until `cap` entries are out. */
  function DueOf(slots: seq<Slot>, nowS: u32, cap: nat): (d: Dues)
    ensures |d.slots| == |slots| && |d.out| <= cap
  {
    if slots == [] then Dues([], [])
    else
      var s := slots[0];
      if !Passed(s, nowS) then
        var rest := DueOf(slots[1..], nowS, cap);
        Dues([s] + rest.slots, rest.out)
      else if s.unwritten > 0 then
        if cap == 0 then Dues(slots, [])
        else
          var rest := DueOf(slots[1..], nowS, cap - 1);
          Dues([FREE] + rest.slots, [Repeated(s)] + rest.out)
      else
        var rest := DueOf(slots[1..], nowS, cap);
        Dues([FREE] + rest.slots, rest.out)
  }

  lemma DueOfNone(nowS: u32, cap: nat)
    ensures DueOf([], nowS, cap) == Dues([], [])
  {
  }

  /** The same, one slot at a time. */
  lemma DueStep(slots: seq<Slot>, i: nat, nowS: u32, cap: nat)
    requires i < |slots|
    ensures var here, s := DueOf(slots[i..], nowS, cap), slots[i];
            if Passed(s, nowS) && s.unwritten > 0 then
              if cap == 0 then here == Dues(slots[i..], [])
              else
                var rest := DueOf(slots[i + 1..], nowS, cap - 1);
                here.out == [Repeated(s)] + rest.out && here.slots[0] == FREE && here.slots[1..] == rest.slots
            else
              var rest := DueOf(slots[i + 1..], nowS, cap);
              here.out == rest.out && here.slots[0] == (if Passed(s, nowS) then FREE else s) && here.slots[1..] == rest.slots
  {
    assert slots[i..][1..] == slots[i + 1..];
  }

  // ---- the table in place --------------------------------------------------------------

  class EventDamp {
    const slots: array<Slot>

    ghost predicate Valid()
      reads this
    {
      slots.Length == SLOTS
    }

    constructor ()
      ensures Valid() && fresh(slots)
      ensures slots[..] == seq(SLOTS, _ => FREE)
    {
      slots := new Slot[SLOTS](_ => FREE);
    }

    method Clear()
      requires Valid()
      modifies slots
      ensures slots[..] == seq(SLOTS, _ => FREE)
    {
      for i := 0 to slots.Length
        invariant forall j :: 0 <= j < i ==> slots[j] == FREE
      {
        slots[i] := FREE;
      }
    }

    method Find(r: EventRecord) returns (i: nat)
      requires Valid()
      ensures i == FindIndex(slots[..], r)
    {
      i := 0;
      while i < slots.Length
        invariant i <= slots.Length
        invariant forall j :: 0 <= j < i ==> !(slots[j].kind != 0 && Same(slots[j], r))
      {
        if slots[i].kind != 0 && Same(slots[i], r) { break; }
        i := i + 1;
      }
    }

    method Room() returns (i: nat)
      requires Valid()
      ensures i == RoomFrom(slots[..], 0, 0) && MakesRoom(slots[..], i)
    {
      RoomFromMakesRoom(slots[..], 0, 0);
      i := 0;
      var next := 0;
      while next < slots.Length
        invariant next <= slots.Length && i < slots.Length
        invariant RoomFrom(slots[..], next, i) == RoomFrom(slots[..], 0, 0)
      {
        if slots[next].kind == 0 { return next; }
        if slots[next].windowStartS < slots[i].windowStartS { i := next; }
        next := next + 1;
      }
    }

    method Admit(r: EventRecord) returns (written: bool, summary: Option<EventRecord>)
      requires Valid()
      modifies slots
      ensures Admission(slots[..], written, summary) == Admitted(old(slots[..]), r)
    {
      summary := None;
      if r.timeS == 0 || r.kind == REPEATED { return true, None; }
      var i := Find(r);
      if i < slots.Length && r.timeS >= slots[i].windowStartS && r.timeS - slots[i].windowStartS < WINDOW_S {
        if slots[i].written < BURST {
          slots[i] := slots[i].(written := slots[i].written + 1);
          return true, None;
        }
        if slots[i].unwritten < 0xFFFF {
          slots[i] := slots[i].(unwritten := slots[i].unwritten + 1);
        }
        slots[i] := slots[i].(lastS := r.timeS);
        return false, None;
      }
      if i == slots.Length { i := Room(); }
      if slots[i].kind != 0 && slots[i].unwritten > 0 {
        summary := Some(Repeated(slots[i]));
      }
      slots[i] := Opened(r);
      written := true;
    }

    method Seed(r: EventRecord)
      requires Valid()
      modifies slots
      ensures slots[..] == Seeded(old(slots[..]), r)
    {
      if r.timeS == 0 || r.kind == REPEATED { return; }
      var i := Find(r);
      if i < slots.Length && r.timeS >= slots[i].windowStartS && r.timeS - slots[i].windowStartS < WINDOW_S {
        if slots[i].written < 0xFFFF {
          slots[i] := slots[i].(written := slots[i].written + 1);
        }
        return;
      }
      var ignoredWritten, ignored := Admit(r);
    }

    method Due(nowS: u32, cap: nat) returns (out: seq<EventRecord>)
      requires Valid()
      modifies slots
      ensures Dues(slots[..], out) == DueOf(old(slots[..]), nowS, cap)
    {
      hide DueOf, Repeated;
      out := [];
      var i := 0;
      ghost var was := slots[..];
      ghost var all := DueOf(was, nowS, cap);
      assert was[0..] == was;
      while i < slots.Length
        invariant i <= slots.Length && |out| <= cap
        invariant forall j :: i <= j < slots.Length ==> slots[j] == was[j]
        invariant forall j :: 0 <= j < i ==> slots[j] == all.slots[j]
        invariant DueOf(was[i..], nowS, cap - |out|).slots == all.slots[i..]
        invariant out + DueOf(was[i..], nowS, cap - |out|).out == all.out
      {
        DueStep(was, i, nowS, cap - |out|);
        ghost var here := DueOf(was[i..], nowS, cap - |out|);
        var s := slots[i];
        if Passed(s, nowS) {
          if s.unwritten > 0 {
            if |out| >= cap { break; }
            out := out + [Repeated(s)];
          }
          slots[i] := FREE;
        }
        assert all.slots[i] == here.slots[0] && all.slots[i + 1..] == here.slots[1..];
        i := i + 1;
      }
      if i < slots.Length {
        DueStep(was, i, nowS, cap - |out|);
        assert was[i..] == all.slots[i..];
      } else {
        DueOfNone(nowS, cap - |out|);
        assert was[i..] == [];
      }
    }
  }

  // ---- what every run keeps ---------------------------------------------------------------

  function Unwritten(slots: seq<Slot>): nat {
    if slots == [] then 0 else slots[0].unwritten + Unwritten(slots[1..])
  }

  lemma {:induction false} UnwrittenOfUpdate(slots: seq<Slot>, i: nat, s: Slot)
    requires i < |slots|
    ensures Unwritten(slots[i := s]) == Unwritten(slots) - slots[i].unwritten + s.unwritten
  {
    if i == 0 {
      assert slots[0 := s][1..] == slots[1..];
    } else {
      UnwrittenOfUpdate(slots[1..], i - 1, s);
      assert slots[i := s][1..] == slots[1..][i - 1 := s];
    }
  }

  /** Free slots hold no count; occupied slots stand for different entries. */
  ghost predicate Distinct(slots: seq<Slot>) {
    && (forall i :: 0 <= i < |slots| && slots[i].kind == 0 ==> slots[i].unwritten == 0)
    && (forall i, j :: 0 <= i < j < |slots| && slots[i].kind != 0 && slots[j].kind != 0 ==> !SameSlots(slots[i], slots[j]))
  }

  ghost predicate BurstKept(slots: seq<Slot>) {
    forall i :: 0 <= i < |slots| ==> slots[i].written <= BURST
  }

  lemma AdmitKeepsDistinct(slots: seq<Slot>, r: EventRecord)
    requires |slots| > 0 && Distinct(slots)
    ensures Distinct(Admitted(slots, r).slots)
    ensures BurstKept(slots) ==> BurstKept(Admitted(slots, r).slots)
  {
  }

  /** A refusal that its counter could not hold any more. */
  predicate AtCeiling(slots: seq<Slot>, r: EventRecord) {
    var i := FindIndex(slots, r);
    i < |slots| && slots[i].unwritten == 0xFFFF
  }

  function Count(refused: bool): nat { if refused then 1 else 0 }

  function Reported(summary: Option<EventRecord>): nat {
    if summary.Some? then summary.value.a else 0
  }

  /** One entry offered: what was refused is counted in the table or reported, to
      the unit, except a refusal at the ceiling. */
  lemma AdmitConserves(slots: seq<Slot>, r: EventRecord)
    requires |slots| > 0 && Distinct(slots)
    ensures var out := Admitted(slots, r);
            Unwritten(out.slots) + Reported(out.summary) + Count(!out.written && AtCeiling(slots, r))
            == Unwritten(slots) + Count(!out.written)
  {
    var i := FindIndex(slots, r);
    if !Undamped(r) {
      var k := if i < |slots| then i else RoomFrom(slots, 0, 0);
      UnwrittenOfUpdate(slots, k, Admitted(slots, r).slots[k]);
    }
  }

  function SumOfA(rs: seq<EventRecord>): nat {
    if rs == [] then 0 else rs[0].a + SumOfA(rs[1..])
  }

  lemma {:induction false} SumOfAConcat(p: seq<EventRecord>, q: seq<EventRecord>)
    ensures SumOfA(p + q) == SumOfA(p) + SumOfA(q)
  {
    if p == [] {
      assert p + q == q;
    } else {
      SumOfAConcat(p[1..], q);
      assert (p + q)[1..] == p[1..] + q;
    }
  }

  lemma {:induction false} DueConserves(slots: seq<Slot>, nowS: u32, cap: nat)
    ensures Unwritten(DueOf(slots, nowS, cap).slots) + SumOfA(DueOf(slots, nowS, cap).out) == Unwritten(slots)
  {
    if slots != [] {
      var s, tail := slots[0], slots[1..];
      DueConserves(tail, nowS, cap);
      if Passed(s, nowS) && s.unwritten > 0 && cap > 0 {
        DueConserves(tail, nowS, cap - 1);
        var rest := DueOf(tail, nowS, cap - 1);
        assert ([FREE] + rest.slots)[1..] == rest.slots;
        assert ([Repeated(s)] + rest.out)[1..] == rest.out;
      } else {
        var rest := DueOf(tail, nowS, cap);
        assert ([FREE] + rest.slots)[1..] == rest.slots == ([s] + rest.slots)[1..];
      }
    }
  }

  /** Windows that have passed are freed; every other slot stays as it is. */
  lemma {:induction false} DueFreesOrKeeps(slots: seq<Slot>, nowS: u32, cap: nat, i: nat)
    requires i < |slots|
    ensures var after := DueOf(slots, nowS, cap).slots[i];
            && (after == slots[i] || (after == FREE && Passed(slots[i], nowS)))
            && (cap >= |slots| ==>
                  after == if slots[i].kind != 0 && nowS >= slots[i].windowStartS + 3600 then FREE else slots[i])
  {
    if i > 0 {
      DueFreesOrKeeps(slots[1..], nowS, cap, i - 1);
      if cap > 0 {
        DueFreesOrKeeps(slots[1..], nowS, cap - 1, i - 1);
      }
    }
  }

  lemma DueKeepsDistinct(slots: seq<Slot>, nowS: u32, cap: nat)
    requires Distinct(slots)
    ensures Distinct(DueOf(slots, nowS, cap).slots)
    ensures BurstKept(slots) ==> BurstKept(DueOf(slots, nowS, cap).slots)
  {
    forall i | 0 <= i < |slots|
      ensures DueOf(slots, nowS, cap).slots[i] == slots[i] || DueOf(slots, nowS, cap).slots[i] == FREE
    {
      DueFreesOrKeeps(slots, nowS, cap, i);
    }
  }

  /** Rebuilt from the record after a power cut, oldest entry first. */
  function Seeds(slots: seq<Slot>, rs: seq<EventRecord>): (out: seq<Slot>)
    requires |slots| > 0
    ensures |out| == |slots|
    decreases |rs|
  {
    if rs == [] then slots else Seeds(Seeded(slots, rs[0]), rs[1..])
  }

  lemma {:induction false} SeedsCountNothing(slots: seq<Slot>, rs: seq<EventRecord>)
    requires |slots| > 0 && Distinct(slots) && Unwritten(slots) == 0
    ensures Distinct(Seeds(slots, rs)) && Unwritten(Seeds(slots, rs)) == 0
    decreases |rs|
  {
    if rs != [] {
      var r := rs[0];
      var i := FindIndex(slots, r);
      if !Undamped(r) {
        var k := if i < |slots| then i else RoomFrom(slots, 0, 0);
        UnwrittenOfUpdate(slots, k, Seeded(slots, r)[k]);
        UnwrittenOfUpdate(slots, k, FREE);
      }
      AdmitKeepsDistinct(slots, r);
      SeedsCountNothing(Seeded(slots, r), rs[1..]);
    }
  }

  // ---- runs ---------------------------------------------------------------------------------

  datatype Event =
    | Offered(r: EventRecord)
    | WindowsPassed(nowS: u32, cap: nat)
    | PowerCut(newest: seq<EventRecord>)

  /** The table, and what a run has seen: entries refused, the numbers told in
      Repeated entries, refusals past the ceiling, counts a power cut took. */
  datatype Ledger = Ledger(slots: seq<Slot>, refused: nat, told: nat, pastCeiling: nat, cutOff: nat)

  function Blank(): seq<Slot> { seq(SLOTS, _ => FREE) }

  function Step(l: Ledger, e: Event): (l': Ledger)
    requires |l.slots| == SLOTS
    ensures |l'.slots| == SLOTS
  {
    match e
    case Offered(r) =>
      var out := Admitted(l.slots, r);
      Ledger(out.slots, l.refused + Count(!out.written), l.told + Reported(out.summary),
             l.pastCeiling + Count(!out.written && AtCeiling(l.slots, r)), l.cutOff)
    case WindowsPassed(nowS, cap) =>
      var d := DueOf(l.slots, nowS, cap);
      l.(slots := d.slots, told := l.told + SumOfA(d.out))
    case PowerCut(newest) =>
      l.(slots := Seeds(Blank(), newest), cutOff := l.cutOff + Unwritten(l.slots))
  }

  function Run(l: Ledger, es: seq<Event>): (l': Ledger)
    requires |l.slots| == SLOTS
    ensures |l'.slots| == SLOTS
    decreases |es|
  {
    if es == [] then l else Run(Step(l, es[0]), es[1..])
  }

  ghost predicate Balanced(l: Ledger) {
    && |l.slots| == SLOTS && Distinct(l.slots)
    && l.refused == l.told + Unwritten(l.slots) + l.pastCeiling + l.cutOff
  }

  lemma {:induction false} UnwrittenOfFree(n: nat)
    ensures Unwritten(seq(n, _ => FREE)) == 0
  {
    if n > 0 {
      UnwrittenOfFree(n - 1);
      assert seq(n, _ => FREE)[1..] == seq(n - 1, _ => FREE);
    }
  }

  lemma StepBalances(l: Ledger, e: Event)
    requires Balanced(l)
    ensures Balanced(Step(l, e))
  {
    match e
    case Offered(r) =>
      AdmitConserves(l.slots, r);
      AdmitKeepsDistinct(l.slots, r);
    case WindowsPassed(nowS, cap) =>
      DueConserves(l.slots, nowS, cap);
      DueKeepsDistinct(l.slots, nowS, cap);
    case PowerCut(newest) =>
      UnwrittenOfFree(SLOTS);
      SeedsCountNothing(Blank(), newest);
  }

  lemma BlankIsBalanced()
    ensures Balanced(Ledger(Blank(), 0, 0, 0, 0))
  {
    UnwrittenOfFree(SLOTS);
  }

  /** Over every run: nothing refused is lost. It was told in a Repeated entry, is
      still counted in the table, hit a full counter, or was in RAM at a power cut.
      The slots in use always stand for different entries. */
  lemma {:induction false} RunBalances(es: seq<Event>)
    ensures Balanced(Run(Ledger(Blank(), 0, 0, 0, 0), es))
  {
    BlankIsBalanced();
    hide *;
    RunBalancesFrom(Ledger(Blank(), 0, 0, 0, 0), es);
  }

  lemma {:induction false} RunBalancesFrom(l: Ledger, es: seq<Event>)
    requires Balanced(l)
    ensures Balanced(Run(l, es))
    decreases |es|
  {
    if es != [] {
      StepBalances(l, es[0]);
      RunBalancesFrom(Step(l, es[0]), es[1..]);
    }
  }

  /** The Repeated entries tell exactly what the table no longer counts, as long as
      no counter was full and no power was cut; a full counter is the only leak
      while the board stays up. */
  lemma ToldExactly(es: seq<Event>)
    ensures var l := Run(Ledger(Blank(), 0, 0, 0, 0), es);
            l.refused == l.told + Unwritten(l.slots) <==> l.pastCeiling == 0 && l.cutOff == 0
  {
    RunBalances(es);
  }

  /** Without a rebuild no slot ever counts more than the burst as written. */
  lemma {:induction false} BurstIsKept(l: Ledger, es: seq<Event>)
    requires Balanced(l) && BurstKept(l.slots)
    requires forall e :: e in es ==> !e.PowerCut?
    ensures BurstKept(Run(l, es).slots)
    decreases |es|
  {
    if es != [] {
      StepBalances(l, es[0]);
      match es[0] {
        case Offered(r) => AdmitKeepsDistinct(l.slots, r);
        case WindowsPassed(nowS, cap) => DueKeepsDistinct(l.slots, nowS, cap);
        case PowerCut(_) =>
      }
      BurstIsKept(Step(l, es[0]), es[1..]);
    }
  }

  // ---- the table stands for one counter an entry --------------------------------------------

  /** What two occurrences of one entry share. */
  datatype Id = Id(kind: u8, detail: u8, board: u16, unit: u8, a: u32, b: u32)

  function IdOf(r: EventRecord): Id { Id(r.kind, r.detail, r.board, r.unit, r.a, r.b) }

  function SlotId(s: Slot): Id { Id(s.kind, s.detail, s.board, s.unit, s.a, s.b) }

  /** A counter that follows one entry alone, from its first damped occurrence on. */
  function Counted(c: Option<Slot>, r: EventRecord): Slot {
    if c.None? || !InWindow(c.value, r) then Opened(r)
    else if c.value.written < BURST then c.value.(written := c.value.written + 1)
    else c.value.(unwritten := if c.value.unwritten < 0xFFFF then c.value.unwritten + 1 else 0xFFFF, lastS := r.timeS)
  }

  /** What that counter says of the next one. */
  predicate Refuses(c: Option<Slot>, r: EventRecord) {
    c.Some? && InWindow(c.value, r) && c.value.written >= BURST
  }

  /** Where a table is asked for an entry: the slot that follows it. */
  function View(slots: seq<Slot>, q: EventRecord): Option<Slot> {
    var i := FindIndex(slots, q);
    if i < |slots| then Some(slots[i]) else None
  }

  /** The entry's own counter over a run, as if nothing else were ever offered and
      no slot ever freed. */
  function Alone(es: seq<Event>, q: EventRecord): Option<Slot>
    decreases |es|
  {
    if es == [] then None
    else
      var before, last := Alone(es[..|es| - 1], q), es[|es| - 1];
      if last.Offered? && !Undamped(last.r) && IdOf(last.r) == IdOf(q) then Some(Counted(before, last.r)) else before
  }

  /** The entries a run asks the table to follow. */
  function Followed(es: seq<Event>): set<Id>
    decreases |es|
  {
    if es == [] then {}
    else
      var before, last := Followed(es[..|es| - 1]), es[|es| - 1];
      if last.Offered? && !Undamped(last.r) then before + {IdOf(last.r)} else before
  }

  /** The latest moment windows were freed at. */
  function FreedAt(es: seq<Event>): nat
    decreases |es|
  {
    if es == [] then 0
    else
      var before, last := FreedAt(es[..|es| - 1]), es[|es| - 1];
      if last.WindowsPassed? && last.nowS > before then last.nowS else before
  }

  function TableAfter(es: seq<Event>): (slots: seq<Slot>)
    ensures |slots| == SLOTS
    decreases |es|
  {
    if es == [] then Blank()
    else
      var before := TableAfter(es[..|es| - 1]);
      match es[|es| - 1]
      case Offered(r) => Admitted(before, r).slots
      case WindowsPassed(nowS, cap) => DueOf(before, nowS, cap).slots
      case PowerCut(newest) => Seeds(Blank(), newest)
  }

  /** A board that stays up: real kinds, and no entry dated before the moment windows
      were last freed at. */
  ghost predicate InOrder(es: seq<Event>) {
    && (forall k :: 0 <= k < |es| ==> !es[k].PowerCut?)
    && (forall k :: 0 <= k < |es| && es[k].Offered? ==>
          es[k].r.kind != 0 && (Undamped(es[k].r) || es[k].r.timeS >= FreedAt(es[..k])))
  }

  /** The table's slot for an entry is the entry's own counter, unless that one's
      window passed and its slot was freed. */
  ghost predicate Stands(v: Option<Slot>, c: Option<Slot>, freedAt: nat) {
    v == c || (v.None? && c.Some? && c.value.windowStartS + WINDOW_S <= freedAt)
  }

  function IdsOf(slots: seq<Slot>): set<Id> {
    if slots == [] then {} else IdsOf(slots[1..]) + if slots[0].kind != 0 then {SlotId(slots[0])} else {}
  }

  lemma {:induction false} IdsAre(slots: seq<Slot>, x: Id)
    ensures x in IdsOf(slots) <==> exists i :: 0 <= i < |slots| && slots[i].kind != 0 && SlotId(slots[i]) == x
  {
    if slots != [] {
      IdsAre(slots[1..], x);
      assert forall i :: 0 < i < |slots| ==> slots[i] == slots[1..][i - 1];
    }
  }

  /** A full table follows as many entries as it has slots. */
  lemma {:induction false} FullFollowsAll(slots: seq<Slot>)
    requires Distinct(slots) && forall i :: 0 <= i < |slots| ==> slots[i].kind != 0
    ensures |IdsOf(slots)| == |slots|
  {
    if slots != [] {
      FullFollowsAll(slots[1..]);
      IdsAre(slots[1..], SlotId(slots[0]));
    }
  }

  lemma ViewIs(slots: seq<Slot>, q: EventRecord, i: nat)
    requires Distinct(slots) && i < |slots| && slots[i].kind != 0 && SlotId(slots[i]) == IdOf(q)
    ensures View(slots, q) == Some(slots[i])
  {
  }

  lemma NoView(slots: seq<Slot>, q: EventRecord)
    requires forall i :: 0 <= i < |slots| && slots[i].kind != 0 ==> SlotId(slots[i]) != IdOf(q)
    ensures View(slots, q) == None
  {
  }

  /** An admission is the entry's own counter moved on; no other entry's slot changes
      as long as there is one to spare. */
  lemma AdmitIsCounted(slots: seq<Slot>, r: EventRecord, q: EventRecord)
    requires |slots| > 0 && Distinct(slots) && r.kind != 0 && !Undamped(r)
    requires View(slots, r).Some? || exists i :: 0 <= i < |slots| && slots[i].kind == 0
    ensures var out := Admitted(slots, r);
      && View(out.slots, q) == (if IdOf(q) == IdOf(r) then Some(Counted(View(slots, r), r)) else View(slots, q))
      && out.written == !Refuses(View(slots, r), r)
  {
    var i := FindIndex(slots, r);
    RoomFromMakesRoom(slots, 0, 0);
    var k := if i < |slots| then i else RoomFrom(slots, 0, 0);
    var after := Admitted(slots, r).slots;
    AdmitKeepsDistinct(slots, r);
    assert after == slots[k := after[k]] && after[k] == Counted(View(slots, r), r);
    if IdOf(q) == IdOf(r) {
      ViewIs(after, q, k);
    } else {
      SameView(slots, after, k, q);
    }
  }

  lemma SameView(slots: seq<Slot>, after: seq<Slot>, k: nat, q: EventRecord)
    requires k < |slots| == |after| && after == slots[k := after[k]] && Distinct(slots) && Distinct(after)
    requires slots[k].kind != 0 ==> SlotId(slots[k]) != IdOf(q)
    requires after[k].kind != 0 ==> SlotId(after[k]) != IdOf(q)
    ensures View(after, q) == View(slots, q)
  {
    var i := FindIndex(slots, q);
    if i < |slots| { ViewIs(after, q, i); } else { NoView(after, q); }
  }

  lemma DueStands(slots: seq<Slot>, nowS: u32, cap: nat, q: EventRecord)
    requires Distinct(slots)
    ensures var v, v' := View(slots, q), View(DueOf(slots, nowS, cap).slots, q);
      v' == v || (v'.None? && v.Some? && v.value.windowStartS + WINDOW_S <= nowS)
  {
    var after := DueOf(slots, nowS, cap).slots;
    forall i | 0 <= i < |slots|
      ensures after[i] == slots[i] || (after[i] == FREE && Passed(slots[i], nowS))
    {
      DueFreesOrKeeps(slots, nowS, cap, i);
    }
    DueKeepsDistinct(slots, nowS, cap);
    var i := FindIndex(slots, q);
    if i < |slots| && after[i] == slots[i] { ViewIs(after, q, i); } else { NoView(after, q); }
  }

  /** The slots in use are for entries the run offered. */
  lemma {:induction false} SlotsAreFollowed(es: seq<Event>)
    requires InOrder(es)
    ensures Distinct(TableAfter(es))
    ensures forall i :: 0 <= i < SLOTS && TableAfter(es)[i].kind != 0 ==> SlotId(TableAfter(es)[i]) in Followed(es)
    decreases |es|
  {
    if es != [] {
      var n := |es| - 1;
      Earlier(es);
      SlotsAreFollowed(es[..n]);
      match es[n]
      case Offered(r) => AdmitKeepsDistinct(TableAfter(es[..n]), r);
      case WindowsPassed(nowS, cap) =>
        DueKeepsDistinct(TableAfter(es[..n]), nowS, cap);
        forall i | 0 <= i < SLOTS
          ensures var s := DueOf(TableAfter(es[..n]), nowS, cap).slots[i]; s == TableAfter(es[..n])[i] || s == FREE
        {
          DueFreesOrKeeps(TableAfter(es[..n]), nowS, cap, i);
        }
      case PowerCut(_) => assert false;
    }
  }

  lemma Earlier(es: seq<Event>)
    requires InOrder(es) && es != []
    ensures InOrder(es[..|es| - 1])
  {
    var before := es[..|es| - 1];
    assert forall k :: 0 <= k < |before| ==> before[k] == es[k] && before[..k] == es[..k];
  }

  /** With no more entries than slots, one the table does not follow finds a free slot. */
  lemma FindsFreeSlot(es: seq<Event>, r: EventRecord)
    requires InOrder(es) && |Followed(es) + {IdOf(r)}| <= SLOTS && View(TableAfter(es), r).None?
    ensures exists i :: 0 <= i < SLOTS && TableAfter(es)[i].kind == 0
  {
    var slots := TableAfter(es);
    SlotsAreFollowed(es);
    if forall i :: 0 <= i < SLOTS ==> slots[i].kind != 0 {
      FullFollowsAll(slots);
      forall x | x in IdsOf(slots)
        ensures x in Followed(es) && x != IdOf(r)
      {
        IdsAre(slots, x);
      }
      Within(IdsOf(slots) + {IdOf(r)}, Followed(es) + {IdOf(r)});
      assert false;
    }
  }

  lemma {:induction false} Within<T>(a: set<T>, b: set<T>)
    requires a <= b
    ensures |a| <= |b|
  {
    if a != {} {
      var x :| x in a;
      Within(a - {x}, b - {x});
    }
  }

  /** As long as a run follows no more different entries than the table has slots,
      the one table stands for a counter of its own for every entry: whatever else is
      offered, and whatever windows are freed in between. */
  lemma {:induction false} TableIsManyCounters(es: seq<Event>, q: EventRecord)
    requires InOrder(es) && |Followed(es)| <= 16
    ensures Stands(View(TableAfter(es), q), Alone(es, q), FreedAt(es))
    decreases |es|
  {
    if es == [] {
      NoView(Blank(), q);
    } else {
      var n := |es| - 1;
      var before := es[..n];
      Earlier(es);
      Within(Followed(before), Followed(es));
      TableIsManyCounters(before, q);
      SlotsAreFollowed(before);
      hide View, Admitted, DueOf, Counted, Distinct, Refuses, Seeds;
      match es[n]
      case Offered(r) =>
        if !Undamped(r) {
          TableIsManyCounters(before, r);
          if View(TableAfter(before), r).None? { FindsFreeSlot(before, r); }
          AdmitIsCounted(TableAfter(before), r, q);
          if IdOf(q) == IdOf(r) { SameAlone(before, q, r); }
        }
      case WindowsPassed(nowS, cap) => DueStands(TableAfter(before), nowS, cap, q);
      case PowerCut(_) => assert false;
    }
  }

  lemma {:induction false} SameAlone(es: seq<Event>, q: EventRecord, r: EventRecord)
    requires IdOf(q) == IdOf(r)
    ensures Alone(es, q) == Alone(es, r)
    decreases |es|
  {
    if es != [] {
      SameAlone(es[..|es| - 1], q, r);
    }
  }

  /** So the next entry is refused exactly when its own counter refuses it: neither the
      other entries nor the freeing of slots ever changes what is written. */
  lemma RefusedByItsOwnCount(es: seq<Event>, r: EventRecord)
    requires InOrder(es + [Offered(r)]) && |Followed(es + [Offered(r)])| <= 16
    ensures Admitted(TableAfter(es), r).written <==> Undamped(r) || !Refuses(Alone(es, r), r)
  {
    var all := es + [Offered(r)];
    assert all[..|es|] == es && all[..|all| - 1] == es;
    Earlier(all);
    Within(Followed(es), Followed(all));
    TableIsManyCounters(es, r);
    SlotsAreFollowed(es);
    if !Undamped(r) {
      if View(TableAfter(es), r).None? { FindsFreeSlot(es, r); }
      AdmitIsCounted(TableAfter(es), r, r);
      assert all[|es|] == Offered(r);
    }
  }

  // ---- what one counter does -------------------------------------------------------------------

  /** A counter that has seen nothing yet, fed with these. */
  function CountedAll(rs: seq<EventRecord>): Option<Slot>
    decreases |rs|
  {
    if rs == [] then None else Some(Counted(CountedAll(rs[..|rs| - 1]), rs[|rs| - 1]))
  }

  /** Occurrences of one entry within the hour that its first one opens. */
  ghost predicate OneWindow(rs: seq<EventRecord>) {
    forall i :: 0 <= i < |rs| ==>
      && IdOf(rs[i]) == IdOf(rs[0])
      && rs[0].timeS <= rs[i].timeS < rs[0].timeS + 3600
  }

  lemma {:induction false} CountedInWindow(rs: seq<EventRecord>)
    requires rs != [] && OneWindow(rs) && |rs| < 0x1_0000
    ensures var c, n := CountedAll(rs).value, |rs|;
      && SlotId(c) == IdOf(rs[0]) && c.windowStartS == rs[0].timeS
      && c.written == (if n < 10 then n else 10) && c.unwritten == (if n < 10 then 0 else n - 10)
      && c.lastS == (if n <= 10 then 0 else rs[n - 1].timeS)
    decreases |rs|
  {
    var n := |rs| - 1;
    if n > 0 {
      assert OneWindow(rs[..n]);
      CountedInWindow(rs[..n]);
    } else {
      assert CountedAll(rs[..n]) == None;
    }
  }

  /** Of the occurrences within one window exactly the first ten are written. */
  lemma FirstTenAreWritten(rs: seq<EventRecord>, k: nat)
    requires k < |rs| < 0x1_0000 && OneWindow(rs)
    ensures Refuses(CountedAll(rs[..k]), rs[k]) <==> k >= 10
  {
    if k > 0 {
      assert OneWindow(rs[..k]);
      CountedInWindow(rs[..k]);
    }
  }

  /** And one Repeated entry tells of the others: how many, of which entry, and when the
      last of them was. */
  lemma RepeatedTellsTheRest(rs: seq<EventRecord>)
    requires 10 < |rs| < 0x1_0000 && OneWindow(rs)
    ensures var r := rs[0];
      Repeated(CountedAll(rs).value)
      == EventRecord(rs[|rs| - 1].timeS, 0, |rs| - 10, r.detail, r.board, 3, r.kind, r.unit)
  {
    CountedInWindow(rs);
  }

  /** An hour after the first one the next occurrence opens a window of its own, and is
      written. */
  lemma WindowStartsOver(rs: seq<EventRecord>, r: EventRecord)
    requires rs != [] && |rs| < 0x1_0000 && OneWindow(rs) && IdOf(r) == IdOf(rs[0])
    requires r.timeS >= rs[0].timeS + 3600 || r.timeS < rs[0].timeS
    ensures !Refuses(CountedAll(rs), r) && Counted(CountedAll(rs), r) == CountedAll([r]).value
  {
    CountedInWindow(rs);
    assert [r][..0] == [];
  }

  /** An entry without a time, and a Repeated one, is written and leaves the table alone. */
  lemma UndampedPasses(slots: seq<Slot>, r: EventRecord)
    requires |slots| > 0 && (r.timeS == 0 || r.kind == 3)
    ensures Admitted(slots, r) == Admission(slots, true, None) && Seeded(slots, r) == slots
  {
  }

  /** An entry read back counts as written in its window, however often, and never as
      refused; no other entry's slot changes as long as there is one to spare. */
  lemma SeedIsCounted(slots: seq<Slot>, r: EventRecord, q: EventRecord)
    requires |slots| > 0 && Distinct(slots) && r.kind != 0 && !Undamped(r)
    requires View(slots, r).Some? || exists i :: 0 <= i < |slots| && slots[i].kind == 0
    ensures var v, v' := View(slots, r), View(Seeded(slots, r), q);
      if IdOf(q) != IdOf(r) then v' == View(slots, q)
      else if v.Some? && InWindow(v.value, r)
      then v' == Some(v.value.(written := if v.value.written < 0xFFFF then v.value.written + 1 else 0xFFFF))
      else v' == Some(Opened(r))
  {
    var i := FindIndex(slots, r);
    var after := Seeded(slots, r);
    if i < |slots| && InWindow(slots[i], r) {
      assert after == slots[i := after[i]];
      assert Distinct(after);
      if IdOf(q) == IdOf(r) { ViewIs(after, q, i); } else { SameView(slots, after, i, q); }
    } else {
      AdmitIsCounted(slots, r, q);
    }
  }
}
