/** EventRecordPolicy.h, in front of the files: a bounded queue for entries whose time is
    not settled yet, which counts those it turns away and tells of them. */
module EventStaging {
  import opened Wrappers
  import opened EventRecordPolicy

  const STAGE_CAP: nat := 32
  const CLOCK_WAIT_MS: nat := 120000
  const EVENTS_DROPPED: u8 := 2
  const DROPPED_MAX: nat := 0xFFFF_FFFF
  const SEQ_END: nat := 0x1_0000_0000

  datatype Pending = Pending(record: EventRecord, atMs: u32)

  /** What a take is told: the wall clock, whether it is set, the uptime clock, and
      whether there is no more time to wait. */
  datatype Moment = Moment(nowEpochS: u32, clockSet: bool, nowMs: u32, force: bool)

  predicate MayGo(p: Pending, m: Moment) {
    m.clockSet || m.force || Sub32(m.nowMs, p.atMs) >= CLOCK_WAIT_MS
  }

  /** An entry with the time it happened, 0 when that cannot be told. */
  function Dated(p: Pending, m: Moment): EventRecord {
    var ageS := Sub32(m.nowMs, p.atMs) / 1000;
    p.record.(timeS := if m.clockSet && m.nowEpochS > ageS then m.nowEpochS - ageS else 0)
  }

  /** How many of the queue go: from the front, up to the first that must wait. */
  function Going(q: seq<Pending>, m: Moment, cap: nat): (n: nat)
    ensures n <= |q| && n <= cap
    ensures forall i :: 0 <= i < n ==> MayGo(q[i], m)
    ensures n < |q| && n < cap ==> !MayGo(q[n], m)
  {
    if q == [] || cap == 0 || !MayGo(q[0], m) then 0 else 1 + Going(q[1..], m, cap - 1)
  }

  lemma GoingFrom(q: seq<Pending>, n: nat, m: Moment, cap: nat)
    requires n < |q|
    ensures Going(q[n..], m, cap) == if cap == 0 || !MayGo(q[n], m) then 0 else 1 + Going(q[n + 1..], m, cap - 1)
  {
    assert q[n..][1..] == q[n + 1..];
  }

  lemma NoneGoing(q: seq<Pending>, m: Moment, cap: nat)
    requires q == [] || cap == 0
    ensures Going(q, m, cap) == 0
  {
  }

  function Lost(dropped: u32, m: Moment): EventRecord {
    EventRecord(if m.clockSet then m.nowEpochS else 0, 0, dropped, 0, 0, EVENTS_DROPPED, 0, 0)
  }

  /** Whether the entries lost are owned up to now. */
  predicate OwnsUp(q: seq<Pending>, dropped: u32, m: Moment, cap: nat) {
    var n := Going(q, m, cap);
    dropped > 0 && n == |q| && n < cap && (m.clockSet || m.force || n > 0)
  }

  /** The entries a take hands out, not yet numbered. */
  function Out(q: seq<Pending>, dropped: u32, m: Moment, cap: nat): seq<EventRecord> {
    var n := Going(q, m, cap);
    seq(n, i requires 0 <= i < n => Dated(q[i], m)) + if OwnsUp(q, dropped, m, cap) then [Lost(dropped, m)] else []
  }

  /** In true time: an entry that happened at `at` and is taken `age` later on a clock that
      wraps is dated that many whole seconds back, if the wall clock is known and that far
      on, and not at all otherwise; nothing else of it changes. It may go once the clock is
      known, the board forces it, or two minutes are over. */
  lemma DatedByItsAge(r: EventRecord, at: nat, age: nat, m: Moment)
    requires age < 0x1_0000_0000 && m.nowMs == (at + age) % 0x1_0000_0000
    ensures var p := Pending(r, at % 0x1_0000_0000); var s := age / 1000;
      && Dated(p, m) == EventRecord(if m.clockSet && m.nowEpochS > s then m.nowEpochS - s else 0,
                                    r.seqNo, r.a, r.b, r.board, r.kind, r.detail, r.unit)
      && (MayGo(p, m) <==> m.clockSet || m.force || age >= 120_000)
  {
    assert Sub32(m.nowMs, at % 0x1_0000_0000) == age;
  }

  /** What a take hands out: the longest front of the queue that may go, and behind it, if
      it has emptied the queue, has room and something to tell, one entry with the number
      of those lost. */
  lemma OutTells(q: seq<Pending>, dropped: u32, m: Moment, cap: nat)
    ensures var out, n := Out(q, dropped, m, cap), Going(q, m, cap);
      && n <= |out| <= n + 1 && |out| <= cap
      && (forall i :: 0 <= i < n ==> MayGo(q[i], m) && out[i] == Dated(q[i], m))
      && (n < |q| && n < cap ==> !MayGo(q[n], m))
      && (|out| > n <==> dropped > 0 && n == |q| && n < cap && (m.clockSet || m.force || n > 0))
      && (|out| > n ==> out[n] == EventRecord(if m.clockSet then m.nowEpochS else 0, 0, dropped, 0, 0, 2, 0, 0))
  {
  }

  class EventStage {
    const q: array<Pending>
    var count: nat
    var dropped: u32

    ghost predicate Valid()
      reads this
    {
      q.Length == STAGE_CAP && count <= STAGE_CAP
    }

    ghost function Waiting(): seq<Pending>
      reads this, q
      requires Valid()
    {
      q[..count]
    }

    constructor ()
      ensures Valid() && fresh(q) && Waiting() == [] && dropped == 0
    {
      q := new Pending[STAGE_CAP](_ => Pending(EventRecord(0, 0, 0, 0, 0, 0, 0, 0), 0));
      count, dropped := 0, 0;
    }

    method Put(record: EventRecord, nowMs: u32) returns (kept: bool)
      requires Valid()
      modifies this, q
      ensures Valid() && kept == (|old(Waiting())| < 32)
      ensures Waiting() == old(Waiting()) + if kept then [Pending(record, nowMs)] else []
      ensures dropped == if kept || old(dropped) == DROPPED_MAX then old(dropped) else old(dropped) + 1
    {
      if count >= STAGE_CAP {
        if dropped < DROPPED_MAX { dropped := dropped + 1; }
        return false;
      }
      q[count] := Pending(record, nowMs);
      count := count + 1;
      kept := true;
    }

    /** Drops the first `n`, moving the others up. */
    method Shift(n: nat)
      requires Valid() && n <= count
      modifies this`count, q
      ensures Valid() && Waiting() == old(Waiting())[n..]
    {
      ghost var was := Waiting();
      for i := n to count
        modifies q
        invariant forall j :: 0 <= j < i - n ==> q[j] == was[n + j]
        invariant forall j :: i - n <= j < count ==> q[j] == was[j]
      {
        q[i - n] := q[i];
      }
      count := count - n;
    }

    /** Copies out, dated and numbered, those that may go. */
    method CopyOut(m: Moment, nextSeq: u32, cap: nat) returns (out: seq<EventRecord>)
      requires Valid()
      ensures |out| == Going(Waiting(), m, cap)
      ensures forall i :: 0 <= i < |out| ==> out[i] == Dated(Waiting()[i], m).(seqNo := (nextSeq + i) % SEQ_END)
    {
      hide Dated, Going;
      ghost var was := Waiting();
      out := [];
      var n := 0;
      assert was[0..] == was;
      while n < count && n < cap
        invariant n <= count && n <= cap && |out| == n && Going(was, m, cap) == n + Going(was[n..], m, cap - n)
        invariant forall i :: 0 <= i < n ==> out[i] == Dated(was[i], m).(seqNo := (nextSeq + i) % SEQ_END)
      {
        GoingFrom(was, n, m, cap - n);
        if !m.clockSet && !m.force && Sub32(m.nowMs, q[n].atMs) < CLOCK_WAIT_MS { break; }
        out := out + [Dated(q[n], m).(seqNo := (nextSeq + n) % SEQ_END)];
        n := n + 1;
      }
      if n == cap || n == count { NoneGoing(was[n..], m, cap - n); }
    }

    method Take(m: Moment, nextSeq: u32, cap: nat) returns (out: seq<EventRecord>, next: u32)
      requires Valid()
      modifies this, q
      ensures Valid()
      ensures Waiting() == old(Waiting())[Going(old(Waiting()), m, cap)..]
      ensures var plain := Out(old(Waiting()), old(dropped), m, cap);
        && |out| == |plain| && next == (nextSeq + |plain|) % SEQ_END
        && forall i :: 0 <= i < |out| ==> out[i] == plain[i].(seqNo := (nextSeq + i) % SEQ_END)
      ensures dropped == if OwnsUp(old(Waiting()), old(dropped), m, cap) then 0 else old(dropped)
    {
      hide Lost, Dated, Going;
      out := CopyOut(m, nextSeq, cap);
      var n := |out|;
      Shift(n);
      if dropped > 0 && count == 0 && n < cap && (m.clockSet || m.force || n > 0) {
        out := out + [Lost(dropped, m).(seqNo := (nextSeq + n) % SEQ_END)];
        dropped := 0;
      }
      next := (nextSeq + |out|) % SEQ_END;
    }
  }

  // ---- runs ------------------------------------------------------------------------------

  datatype Event = Put(record: EventRecord, nowMs: u32) | Take(m: Moment, cap: nat)

  /** The queue, and what a run has seen: entries accepted and handed out in order,
      refusals, refusals told of, refusals past the counter's end. */
  datatype Ledger = Ledger(q: seq<Pending>, dropped: u32, accepted: seq<Pending>, handed: nat,
                           refused: nat, told: nat, pastEnd: nat)

  function Step(l: Ledger, e: Event): Ledger {
    match e
    case Put(record, nowMs) =>
      if |l.q| < STAGE_CAP then
        l.(q := l.q + [Pending(record, nowMs)], accepted := l.accepted + [Pending(record, nowMs)])
      else if l.dropped < DROPPED_MAX then l.(dropped := l.dropped + 1, refused := l.refused + 1)
      else l.(refused := l.refused + 1, pastEnd := l.pastEnd + 1)
    case Take(m, cap) =>
      var n := Going(l.q, m, cap);
      var l' := l.(q := l.q[n..], handed := l.handed + n);
      if OwnsUp(l.q, l.dropped, m, cap) then l'.(dropped := 0, told := l.told + l.dropped) else l'
  }

  function Run(l: Ledger, es: seq<Event>): Ledger
    decreases |es|
  {
    if es == [] then l else Run(Step(l, es[0]), es[1..])
  }

  ghost predicate Balanced(l: Ledger) {
    && |l.q| <= STAGE_CAP && l.handed <= |l.accepted|
    && l.q == l.accepted[l.handed..]
    && l.refused == l.told + l.dropped + l.pastEnd
  }

  /** Over every run: entries leave in the order they came, none twice and none lost
      between; those refused are told of or still counted. */
  lemma {:induction false} StagedInOrder(l: Ledger, es: seq<Event>)
    requires Balanced(l)
    ensures Balanced(Run(l, es))
    decreases |es|
  {
    if es != [] {
      var l' := Step(l, es[0]);
      if es[0].Put? && |l.q| < STAGE_CAP {
        assert l'.accepted[l'.handed..] == l.accepted[l.handed..] + [l'.accepted[|l.accepted|]];
      }
      StagedInOrder(l', es[1..]);
    }
  }
}
