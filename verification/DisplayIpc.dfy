/** DisplayIpc.h: the verdict that a unit shows a wrong letter, kept over frames,
    re-shows and folds whose facts may predate the frame. */
module DisplayIpc {
  import opened Wrappers

  const UNITS: nat := 16
  const NO_LETTER: u8 := 0xFF
  const HALF: nat := 0x8000_0000
  const CLOCK_WRAP: nat := 0x1_0000_0000

  datatype UnitFacts = UnitFacts(mismatch: bool, lastSeenMs: u32, diagValid: bool, positionKnown: bool,
                                 physLetter: u8, statusValid: bool, moving: bool)

  /** `unread` is the mask of units not read since the frame. */
  datatype Snapshot = Snapshot(units: seq<UnitFacts>, letters: seq<u8>, frameValid: bool, frameAtMs: u32,
                               unread: seq<bool>)

  ghost predicate Shaped(s: Snapshot) {
    |s.units| == |s.letters| == |s.unread| == UNITS
  }

  datatype Event =
    | Frame(letters: seq<u8>, nowMs: u32)
    | Reshow(nowMs: u32)
    | Fold(facts: seq<UnitFacts>, maxUnits: nat)

  predicate Fitting(e: Event) {
    match e
    case Frame(letters, _) => |letters| == UNITS
    case Reshow(_) => true
    case Fold(facts, maxUnits) => maxUnits <= |facts|
  }

  /** (int32_t)(seen - frame) > 0, of a unit that was ever read. */
  predicate ReadAfter(seenMs: u32, frameMs: u32) {
    seenMs != 0 && 0 < Sub32(seenMs, frameMs) < HALF
  }

  /** On a clock that wraps, that is the true order as long as the two moments are
      within 2^31 ms of each other, but for a read at the very instant the clock shows
      0, which counts as none. */
  lemma ReadAfterIsTrueOrder(seen: nat, frame: nat)
    requires seen - frame < HALF && frame - seen < HALF
    ensures ReadAfter(seen % CLOCK_WRAP, frame % CLOCK_WRAP) <==> seen > frame && seen % CLOCK_WRAP != 0
  {
    var a, b := seen % CLOCK_WRAP, frame % CLOCK_WRAP;
    var d := seen - frame;
    assert (a - b) % CLOCK_WRAP == d % CLOCK_WRAP by {
      var p, q := seen / CLOCK_WRAP, frame / CLOCK_WRAP;
      assert a - b == d - (p - q) * CLOCK_WRAP;
    }
  }

  /** A known letter of a drum that stands still, other than the one wanted. */
  predicate WrongLetter(u: UnitFacts, wanted: u8) {
    && u.diagValid && u.positionKnown && u.physLetter != NO_LETTER
    && !(u.statusValid && u.moving)
    && u.physLetter != wanted
  }

  function Framed(s: Snapshot, letters: seq<u8>, nowMs: u32): (t: Snapshot)
    requires Shaped(s) && |letters| == UNITS
    ensures Shaped(t)
  {
    Snapshot(seq(UNITS, i requires 0 <= i < UNITS =>
               if !s.frameValid || s.letters[i] != letters[i] then s.units[i].(mismatch := false) else s.units[i]),
             letters, true, nowMs, seq(UNITS, _ => true))
  }

  function Reshown(s: Snapshot, nowMs: u32): (t: Snapshot)
    requires Shaped(s)
    ensures Shaped(t)
  {
    s.(units := seq(UNITS, i requires 0 <= i < UNITS => s.units[i].(mismatch := false)),
       frameAtMs := nowMs, unread := seq(UNITS, _ => true))
  }

  function Least(a: nat, b: nat): nat { if a < b then a else b }

  /** One unit after a fold: its facts, its verdict, and whether it is still unread. */
  function FoldedUnit(s: Snapshot, u: UnitFacts, i: nat): (UnitFacts, bool)
    requires Shaped(s) && i < UNITS
  {
    var unread := s.unread[i] && !ReadAfter(u.lastSeenMs, s.frameAtMs);
    (u.(mismatch := if unread then s.units[i].mismatch else s.frameValid && WrongLetter(u, s.letters[i])), unread)
  }

  function Folded(s: Snapshot, facts: seq<UnitFacts>, maxUnits: nat): (t: Snapshot)
    requires Shaped(s) && maxUnits <= |facts|
    ensures Shaped(t)
  {
    var n := Least(maxUnits, UNITS);
    s.(units := seq(UNITS, i requires 0 <= i < UNITS => if i < n then FoldedUnit(s, facts[i], i).0 else s.units[i]),
       unread := seq(UNITS, i requires 0 <= i < UNITS => if i < n then FoldedUnit(s, facts[i], i).1 else s.unread[i]))
  }

  function Step(s: Snapshot, e: Event): (t: Snapshot)
    requires Shaped(s) && Fitting(e)
    ensures Shaped(t)
  {
    match e
    case Frame(letters, nowMs) => Framed(s, letters, nowMs)
    case Reshow(nowMs) => Reshown(s, nowMs)
    case Fold(facts, maxUnits) => Folded(s, facts, maxUnits)
  }

  ghost predicate AllFitting(es: seq<Event>) {
    forall k :: 0 <= k < |es| ==> Fitting(es[k])
  }

  /** Before anything: no frame, no verdict, nothing owed a read. */
  ghost predicate Blank(s: Snapshot) {
    && Shaped(s) && !s.frameValid
    && forall i :: 0 <= i < UNITS ==> !s.units[i].mismatch && !s.unread[i]
  }

  function Run(s: Snapshot, es: seq<Event>): (t: Snapshot)
    requires Shaped(s) && AllFitting(es)
    ensures Shaped(t)
    decreases |es|
  {
    if es == [] then s else Step(Run(s, es[..|es| - 1]), es[|es| - 1])
  }

  // ---- the verdict, told from the history alone -------------------------------------------

  /** The letter a unit was last told to show, None before any frame. */
  function Wanted(es: seq<Event>, i: nat): Option<u8>
    requires AllFitting(es) && i < UNITS
    decreases |es|
  {
    if es == [] then None
    else if es[|es| - 1].Frame? then Some(es[|es| - 1].letters[i])
    else Wanted(es[..|es| - 1], i)
  }

  /** When a frame last went out, or went out again. */
  function SentAt(es: seq<Event>): Option<u32>
    decreases |es|
  {
    if es == [] then None
    else match es[|es| - 1]
      case Frame(_, nowMs) => Some(nowMs)
      case Reshow(nowMs) => Some(nowMs)
      case Fold(_, _) => SentAt(es[..|es| - 1])
  }

  /** A fold since then had read the unit after it. */
  function ReadSince(es: seq<Event>, i: nat): bool
    requires AllFitting(es)
    decreases |es|
  {
    if es == [] then false
    else
      var before, last := es[..|es| - 1], es[|es| - 1];
      match last
      case Fold(facts, maxUnits) =>
        ReadSince(before, i)
        || (i < maxUnits && SentAt(before).Some? && ReadAfter(facts[i].lastSeenMs, SentAt(before).value))
      case _ => false
  }

  /** What the verdict on a unit should be: that of the last fold that could judge it
      against the frame in force, unless its letter has changed or the frame was sent
      again since. */
  function Verdict(es: seq<Event>, i: nat): bool
    requires AllFitting(es) && i < UNITS
    decreases |es|
  {
    if es == [] then false
    else
      var before, last := es[..|es| - 1], es[|es| - 1];
      match last
      case Frame(letters, _) => Wanted(before, i) == Some(letters[i]) && Verdict(before, i)
      case Reshow(_) => false
      case Fold(facts, maxUnits) =>
        if i < maxUnits && ReadSince(es, i) then Wanted(before, i).Some? && WrongLetter(facts[i], Wanted(before, i).value)
        else Verdict(before, i)
  }

  ghost predicate Agrees(s: Snapshot, es: seq<Event>, i: nat)
    requires Shaped(s) && AllFitting(es) && i < UNITS
  {
    && s.units[i].mismatch == Verdict(es, i)
    && s.frameValid == Wanted(es, i).Some?
    && (s.frameValid ==> Wanted(es, i) == Some(s.letters[i]))
    && (SentAt(es).Some? ==> s.frameAtMs == SentAt(es).value)
    && (s.frameValid ==> SentAt(es).Some?)
    && (SentAt(es).Some? ==> s.unread[i] == !ReadSince(es, i))
    && (SentAt(es).None? ==> !s.unread[i] && !ReadSince(es, i) && !Verdict(es, i))
  }

  /** Over every run of frames, re-shows and folds, whatever facts they bring: the
      verdict kept step by step is the one the history tells. */
  lemma {:induction false} VerdictIsTheHistorys(s: Snapshot, es: seq<Event>, i: nat)
    requires Blank(s) && AllFitting(es) && i < UNITS
    ensures Agrees(Run(s, es), es, i)
    decreases |es|
  {
    if es != [] {
      VerdictIsTheHistorys(s, es[..|es| - 1], i);
    }
  }

  /** Where a true verdict comes from: fold `k` found the unit standing still on a known
      letter other than the one it is wanted to show now; since then that letter was
      never changed and the frame never sent again; and at fold `j`, of the same frame,
      the unit had been read after the frame went out. */
  lemma {:induction false} VerdictHasAReason(s: Snapshot, es: seq<Event>, i: nat) returns (k: nat, j: nat)
    requires Blank(s) && AllFitting(es) && i < UNITS && Run(s, es).units[i].mismatch
    ensures j <= k < |es| && es[k].Fold? && es[j].Fold? && i < es[k].maxUnits && i < es[j].maxUnits
    ensures WrongLetter(es[k].facts[i], Run(s, es).letters[i])
    ensures forall m :: k < m < |es| ==> !es[m].Reshow? && (es[m].Frame? ==> es[m].letters[i] == Run(s, es).letters[i])
    ensures Run(s, es[..j]).frameValid && ReadAfter(es[j].facts[i].lastSeenMs, Run(s, es[..j]).frameAtMs)
    ensures forall m :: j <= m <= k ==> es[m].Fold?
    decreases |es|
  {
    VerdictIsTheHistorys(s, es, i);
    var n := |es| - 1;
    var before, last := es[..n], es[n];
    VerdictIsTheHistorys(s, before, i);
    hide WrongLetter, ReadAfter;
    if last.Fold? && i < last.maxUnits && ReadSince(es, i) {
      k := n;
      j := LastRead(s, es, i);
    } else {
      assert Verdict(before, i) && Wanted(before, i) == Wanted(es, i) && !last.Reshow?;
      assert Run(s, before).letters[i] == Run(s, es).letters[i];
      hide Run, Verdict, ReadSince, WrongLetter, ReadAfter;
      k, j := VerdictHasAReason(s, before, i);
      assert before[..j] == es[..j];
      forall m | k < m < |es|
        ensures !es[m].Reshow? && (es[m].Frame? ==> es[m].letters[i] == Run(s, es).letters[i])
      {
        if m < n { assert es[m] == before[m]; }
      }
    }
  }

  /** How a fold judges a unit that has been read since the frame: wrong if and only if
      there is a frame, the unit reports a letter it is sure of, that is not the one in the
      frame, and its drum is not known to turn. One not read since keeps its verdict. */
  lemma FoldJudges(s: Snapshot, facts: seq<UnitFacts>, maxUnits: nat, i: nat)
    requires Shaped(s) && maxUnits <= |facts| && i < UNITS
    ensures var t, u := Folded(s, facts, maxUnits), if i < maxUnits then facts[i] else s.units[i];
      var unread := s.unread[i] && (i >= maxUnits || u.lastSeenMs == 0 || !ReadAfter(u.lastSeenMs, s.frameAtMs));
      && t.unread[i] == unread
      && (t.units[i].mismatch <==>
            if i >= maxUnits || unread then s.units[i].mismatch
            else s.frameValid && u.diagValid && u.positionKnown && u.physLetter != 0xFF
                 && (u.statusValid ==> !u.moving) && u.physLetter != s.letters[i])
  {
  }

  /** The facts a unit was last folded with, those of the beginning before any fold. */
  function LastFacts(s: Snapshot, es: seq<Event>, i: nat): UnitFacts
    requires Shaped(s) && AllFitting(es) && i < UNITS
    decreases |es|
  {
    if es == [] then s.units[i]
    else
      var last := es[|es| - 1];
      if last.Fold? && i < last.maxUnits then last.facts[i] else LastFacts(s, es[..|es| - 1], i)
  }

  /** All but the verdict is what the last fold brought, whatever frames came since. */
  lemma {:induction false} FactsAreTheLast(s: Snapshot, es: seq<Event>, i: nat)
    requires Shaped(s) && AllFitting(es) && i < UNITS
    ensures var u, f := Run(s, es).units[i], LastFacts(s, es, i);
      && u.lastSeenMs == f.lastSeenMs && u.diagValid == f.diagValid && u.positionKnown == f.positionKnown
      && u.physLetter == f.physLetter && u.statusValid == f.statusValid && u.moving == f.moving
    decreases |es|
  {
    hide WrongLetter, ReadAfter, Step;
    if es != [] {
      FactsAreTheLast(s, es[..|es| - 1], i);
      StepAndFacts(Run(s, es[..|es| - 1]), es[|es| - 1], i);
    }
  }

  predicate SameFacts(u: UnitFacts, f: UnitFacts) {
    u.(mismatch := false) == f.(mismatch := false)
  }

  lemma StepAndFacts(s: Snapshot, e: Event, i: nat)
    requires Shaped(s) && Fitting(e) && i < UNITS
    ensures SameFacts(Step(s, e).units[i], if e.Fold? && i < e.maxUnits then e.facts[i] else s.units[i])
  {
    hide WrongLetter, ReadAfter;
  }

  /** The fold that read the unit after the frame in force. */
  lemma {:induction false} LastRead(s: Snapshot, es: seq<Event>, i: nat) returns (j: nat)
    requires Blank(s) && AllFitting(es) && i < UNITS && ReadSince(es, i) && Wanted(es, i).Some?
    ensures j < |es| && (forall m :: j <= m < |es| ==> es[m].Fold?) && i < es[j].maxUnits
    ensures Run(s, es[..j]).frameValid && ReadAfter(es[j].facts[i].lastSeenMs, Run(s, es[..j]).frameAtMs)
    decreases |es|
  {
    var n := |es| - 1;
    VerdictIsTheHistorys(s, es[..n], i);
    hide WrongLetter, ReadAfter, Verdict;
    if ReadSince(es[..n], i) {
      j := LastRead(s, es[..n], i);
      assert es[..n][..j] == es[..j];
    } else {
      j := n;
    }
  }

  // ---- the snapshot in place -----------------------------------------------------------------

  class DisplaySnapshot {
    const units: array<UnitFacts>
    const letters: array<u8>
    const unread: array<bool>
    var frameValid: bool
    var frameAtMs: u32

    ghost predicate Valid()
      reads this
    {
      units.Length == letters.Length == unread.Length == UNITS
    }

    ghost function Now(): Snapshot
      reads this, units, letters, unread
    {
      Snapshot(units[..], letters[..], frameValid, frameAtMs, unread[..])
    }

    constructor ()
      ensures Valid() && Blank(Now()) && fresh(units) && fresh(letters) && fresh(unread)
    {
      units := new UnitFacts[UNITS](_ => UnitFacts(false, 0, false, false, NO_LETTER, false, false));
      letters := new u8[UNITS](_ => 0);
      unread := new bool[UNITS](_ => false);
      frameValid, frameAtMs := false, 0;
    }

    method MarkAllUnread()
      requires Valid()
      modifies unread
      ensures unread[..] == seq(UNITS, _ => true)
    {
      for i := 0 to UNITS
        invariant forall j :: 0 <= j < i ==> unread[j]
      {
        unread[i] := true;
      }
    }

    method ApplyFrame(frame: seq<u8>, nowMs: u32)
      requires Valid() && |frame| == UNITS
      modifies this, units, letters, unread
      ensures Valid() && Now() == Framed(old(Now()), frame, nowMs)
    {
      for i := 0 to UNITS
        modifies units, letters
        invariant forall j :: 0 <= j < i ==> letters[j] == frame[j]
        invariant forall j :: i <= j < UNITS ==> letters[j] == old(letters[j]) && units[j] == old(units[j])
        invariant forall j :: 0 <= j < i ==>
          units[j] == if !frameValid || old(letters[j]) != frame[j] then old(units[j]).(mismatch := false) else old(units[j])
      {
        if !frameValid || letters[i] != frame[i] {
          units[i] := units[i].(mismatch := false);
        }
        letters[i] := frame[i];
      }
      frameValid, frameAtMs := true, nowMs;
      MarkAllUnread();
      assert letters[..] == frame;
      assert units[..] == Framed(old(Now()), frame, nowMs).units;
    }

    method ApplyReshow(nowMs: u32)
      requires Valid()
      modifies this, units, unread
      ensures Valid() && Now() == Reshown(old(Now()), nowMs)
    {
      for i := 0 to UNITS
        modifies units
        invariant forall j :: 0 <= j < UNITS ==>
          units[j] == if j < i then old(units[j]).(mismatch := false) else old(units[j])
      {
        units[i] := units[i].(mismatch := false);
      }
      frameAtMs := nowMs;
      MarkAllUnread();
      assert units[..] == Reshown(old(Now()), nowMs).units;
    }

    method ApplyUnitFacts(facts: seq<UnitFacts>, maxUnits: nat)
      requires Valid() && maxUnits <= |facts|
      modifies units, unread
      ensures Valid() && Now() == Folded(old(Now()), facts, maxUnits)
    {
      var n := if maxUnits > UNITS then UNITS else maxUnits;
      ghost var s := Now();
      for i := 0 to n
        invariant forall j :: 0 <= j < UNITS ==>
          (units[j], unread[j]) == if j < i then FoldedUnit(s, facts[j], j) else (s.units[j], s.unread[j])
      {
        var before := units[i].mismatch;
        var u := facts[i];
        if unread[i] && u.lastSeenMs != 0 && 0 < Sub32(u.lastSeenMs, frameAtMs) < HALF {
          unread[i] := false;
        }
        if unread[i] {
          units[i] := u.(mismatch := before);
        } else {
          var physKnown := u.diagValid && u.positionKnown && u.physLetter != NO_LETTER;
          var moving := u.statusValid && u.moving;
          units[i] := u.(mismatch := physKnown && !moving && frameValid && u.physLetter != letters[i]);
        }
      }
      assert units[..] == Folded(s, facts, maxUnits).units;
      assert unread[..] == Folded(s, facts, maxUnits).unread;
    }
  }
}
