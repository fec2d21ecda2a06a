/** FollowerLog.h: the row's log, a byte ring read through a cursor that counts every
    byte ever written. */
module FollowerLog {
  import opened Wrappers

  const LOG_SIZE: nat := 4096
  const CURSOR_END: nat := 0x1_0000_0000
  /** What the buffer of a stamp holds besides its terminator. */
  const STAMP_MAX: nat := 13

  // ---- what a reader is given -------------------------------------------------------

  /** A line without its newline, or `cap` bytes of one longer than that. */
  datatype Piece = Piece(text: string, whole: bool)

  function Taken(p: Piece): nat { |p.text| + if p.whole then 1 else 0 }

  function Spelled(p: Piece): string { if p.whole then p.text + ['\n'] else p.text }

  /** The next piece of `rest`, none while no whole line is waiting. */
  function PieceAt(rest: string, cap: nat, i: nat): Option<Piece>
    requires i <= |rest|
    decreases |rest| - i
  {
    if i == |rest| then None
    else if rest[i] == '\n' then Some(Piece(rest[..i], true))
    else if i == cap then Some(Piece(rest[..i], false))
    else PieceAt(rest, cap, i + 1)
  }

  predicate OneLine(s: string) { forall i :: 0 <= i < |s| ==> s[i] != '\n' }

  lemma {:induction false} PieceIsNext(rest: string, cap: nat, i: nat)
    requires i <= |rest| && i <= cap && OneLine(rest[..i])
    ensures match PieceAt(rest, cap, i)
            case Some(p) =>
              && Taken(p) <= |rest| && rest[..Taken(p)] == Spelled(p)
              && OneLine(p.text) && |p.text| <= cap
              && (!p.whole ==> |p.text| == cap < |rest| && rest[cap] != '\n')
            case None => OneLine(rest) && |rest| <= cap
    decreases |rest| - i
  {
    if i < |rest| {
      if rest[i] != '\n' && i != cap {
        assert rest[..i + 1] == rest[..i] + [rest[i]];
        PieceIsNext(rest, cap, i + 1);
      } else {
        assert rest[..i + 1] == rest[..i] + [rest[i]];
      }
    } else {
      assert rest[..i] == rest;
    }
  }

  /** Every piece there is, one after the other. */
  function Drain(rest: string, cap: nat): seq<Piece>
    requires cap > 0
    decreases |rest|
  {
    match PieceAt(rest, cap, 0)
    case None => []
    case Some(p) => PieceIsNext(rest, cap, 0); if Taken(p) == 0 then [] else [p] + Drain(rest[Taken(p)..], cap)
  }

  function Spell(ps: seq<Piece>): string {
    if ps == [] then [] else Spelled(ps[0]) + Spell(ps[1..])
  }

  /** Reading to the end delivers every byte exactly once and in order, as whole lines
      or as pieces of exactly `cap` bytes of longer ones, and leaves only the
      beginning of a line that is not longer than that. */
  lemma {:induction false} DrainSpellsTheLog(rest: string, cap: nat)
    requires cap > 0
    ensures var ps := Drain(rest, cap); var n := |Spell(ps)|;
      && n <= |rest| && rest[..n] == Spell(ps)
      && OneLine(rest[n..]) && |rest| - n <= cap
      && (forall k :: 0 <= k < |ps| ==> OneLine(ps[k].text) && |ps[k].text| <= cap && (!ps[k].whole ==> |ps[k].text| == cap))
    decreases |rest|
  {
    PieceIsNext(rest, cap, 0);
    match PieceAt(rest, cap, 0)
    case None =>
    case Some(p) =>
      var more := rest[Taken(p)..];
      DrainSpellsTheLog(more, cap);
      var n := |Spell(Drain(more, cap))|;
      assert rest == rest[..Taken(p)] + more && more == more[..n] + more[n..];
      assert rest[Taken(p) + n..] == more[n..];
      assert ([p] + Drain(more, cap))[1..] == Drain(more, cap);
  }

  // ---- stamps --------------------------------------------------------------------------

  function Decimal(n: nat): (s: string)
    ensures |s| > 0
  {
    if n < 10 then ["0123456789"[n]] else Decimal(n / 10) + ["0123456789"[n % 10]]
  }

  function StampText(seconds: u32): string { ['['] + Decimal(seconds) + [']', ' '] }

  lemma {:induction false} DecimalLength(n: nat, digits: nat, bound: nat)
    requires 0 < digits <= 10 && n < bound
    requires bound == [10, 100, 1000, 10000, 100000, 1000000, 10000000, 100000000, 1000000000, 10000000000][digits - 1]
    ensures |Decimal(n)| <= digits
  {
    if n >= 10 { DecimalLength(n / 10, digits - 1, bound / 10); }
  }

  /** A stamp always fits its buffer whole. */
  lemma StampFits(seconds: u32)
    ensures |StampText(seconds)| <= STAMP_MAX
  {
    DecimalLength(seconds, 10, 10000000000);
  }

  /** Text with a stamp before the first byte of every line. */
  function Stamped(data: string, atStart: bool, seconds: u32): string {
    if data == [] then []
    else (if atStart then StampText(seconds) else []) + [data[0]] + Stamped(data[1..], data[0] == '\n', seconds)
  }

  function EndsAtStart(data: string, atStart: bool): bool {
    if data == [] then atStart else data[|data| - 1] == '\n'
  }

  lemma {:induction false} StampedOneMore(data: string, c: char, atStart: bool, seconds: u32)
    ensures Stamped(data + [c], atStart, seconds)
         == Stamped(data, atStart, seconds)
            + (if EndsAtStart(data, atStart) then StampText(seconds) else []) + [c]
  {
    hide StampText, Stamped;
    if data == [] {
      StampedFirst(c, [], atStart, seconds);
      StampedFirst(c, [], c == '\n', seconds);
      assert data + [c] == [c] + [];
    } else {
      var rest := data[1..];
      StampedOneMore(rest, c, data[0] == '\n', seconds);
      StampedFirst(data[0], rest, atStart, seconds);
      StampedFirst(data[0], rest + [c], atStart, seconds);
      assert data == [data[0]] + rest && data + [c] == [data[0]] + (rest + [c]);
      var first := (if atStart then StampText(seconds) else []) + [data[0]];
      var stamp := if EndsAtStart(data, atStart) then StampText(seconds) else [];
      var tail := Stamped(rest, data[0] == '\n', seconds);
      Grouped(first, tail, stamp + [c]);
      Grouped(tail, stamp, [c]);
      Grouped(first + tail, stamp, [c]);
      assert EndsAtStart(rest, data[0] == '\n') == EndsAtStart(data, atStart);
    }
  }

  lemma StampedFirst(c: char, rest: string, atStart: bool, seconds: u32)
    ensures Stamped([c] + rest, atStart, seconds)
         == (if atStart then StampText(seconds) else []) + [c] + Stamped(rest, c == '\n', seconds)
    ensures Stamped([], atStart, seconds) == []
  {
    hide StampText;
    assert ([c] + rest)[1..] == rest;
  }

  lemma Grouped(a: string, b: string, c: string)
    ensures a + (b + c) == (a + b) + c
  {
  }

  lemma EndsAtStartOneMore(data: string, c: char, atStart: bool)
    ensures EndsAtStart(data + [c], atStart) == (c == '\n')
  {
  }

  /** Line by line: a stamp, the line, its newline, and so on; none in the middle of a line. */
  lemma {:induction false} StampedByLine(line: string, rest: string, atStart: bool, seconds: u32)
    requires OneLine(line)
    ensures Stamped(line + ['\n'] + rest, atStart, seconds)
         == (if atStart then StampText(seconds) else []) + line + ['\n'] + Stamped(rest, true, seconds)
  {
    hide StampText, Stamped;
    var stamp := if atStart then StampText(seconds) else [];
    if line == [] {
      StampedFirst('\n', rest, atStart, seconds);
      assert line + ['\n'] + rest == ['\n'] + rest && stamp + line == stamp;
    } else {
      var more := line[1..] + ['\n'] + rest;
      StampedFirst(line[0], more, atStart, seconds);
      StampedByLine(line[1..], rest, false, seconds);
      assert line + ['\n'] + rest == [line[0]] + more && line == [line[0]] + line[1..];
      var tail := ['\n'] + Stamped(rest, true, seconds);
      Grouped(stamp, [line[0]], line[1..]);
      assert ([] + line[1..]) + ['\n'] + Stamped(rest, true, seconds) == line[1..] + tail;
      Grouped(stamp + [line[0]], line[1..], tail);
      Grouped(stamp + line, ['\n'], Stamped(rest, true, seconds));
    }
  }

  /** The number a string of digits stands for. */
  function ValueOf(s: string): nat
    requires forall i :: 0 <= i < |s| ==> '0' <= s[i] <= '9'
  {
    if s == [] then 0 else 10 * ValueOf(s[..|s| - 1]) + (s[|s| - 1] as int - '0' as int)
  }

  /** A stamp is the seconds between brackets and a space behind them. */
  lemma StampShowsTheSeconds(seconds: u32)
    ensures var t, n := StampText(seconds), |StampText(seconds)|;
      && n > 3 && t[0] == '[' && t[n - 2] == ']' && t[n - 1] == ' '
      && (forall i :: 1 <= i < n - 2 ==> '0' <= t[i] <= '9')
      && t[1..n - 2] == Decimal(seconds) && ValueOf(Decimal(seconds)) == seconds
  {
    DecimalReadsBack(seconds);
    hide Decimal, ValueOf;
    var t, n := StampText(seconds), |StampText(seconds)|;
    assert t[1..n - 2] == Decimal(seconds);
    forall i | 1 <= i < n - 2
      ensures '0' <= t[i] <= '9'
    {
      assert t[i] == Decimal(seconds)[i - 1];
    }
  }

  /** The digits of a number, without leading zeros, read back as it. */
  lemma {:induction false} DecimalReadsBack(n: nat)
    ensures forall i :: 0 <= i < |Decimal(n)| ==> '0' <= Decimal(n)[i] <= '9'
    ensures ValueOf(Decimal(n)) == n && (|Decimal(n)| > 1 ==> Decimal(n)[0] != '0')
  {
    if n < 10 {
      OneDigit(n);
    } else {
      DecimalReadsBack(n / 10);
      OneDigit(n % 10);
      var d := Decimal(n);
      assert d[..|d| - 1] == Decimal(n / 10);
      if |Decimal(n / 10)| == 1 { assert n / 10 != 0; OneDigitNotZero(n / 10); }
    }
  }

  lemma OneDigit(n: nat)
    requires n < 10
    ensures var c := "0123456789"[n]; '0' <= c <= '9' && c as int - '0' as int == n
    ensures ValueOf([]) == 0
  {
  }

  lemma OneDigitNotZero(n: nat)
    requires 0 < n && |Decimal(n)| == 1
    ensures Decimal(n)[0] != '0'
  {
  }

  lemma NothingStamped(atStart: bool, seconds: u32)
    ensures Stamped([], atStart, seconds) == [] && EndsAtStart([], atStart) == atStart
  {
  }

  // ---- the ring --------------------------------------------------------------------------

  function StartOf(cursor: u32, written: nat): nat {
    var oldest := if written > LOG_SIZE then written - LOG_SIZE else 0;
    if cursor < oldest then oldest else if cursor > written then written else cursor
  }

  lemma DifferentSlots(a: nat, b: nat)
    requires a < b < a + LOG_SIZE
    ensures a % LOG_SIZE != b % LOG_SIZE
  {
  }

  /** Where in the ring a byte of the log lies. */
  function SlotOf(k: nat): (i: nat)
    ensures i < LOG_SIZE
  {
    k % LOG_SIZE
  }

  class FollowerLogRing {
    const buf: array<char>
    var head: nat
    var wrapped: bool
    var written: u32
    var atLineStart: bool
    /** Every byte ever appended. */
    ghost var history: string

    /** The ring holds the last bytes of the history, as many as fit. */
    ghost predicate Valid()
      reads this, buf
    {
      && buf.Length == LOG_SIZE && head == |history| % LOG_SIZE
      && written == |history| && (wrapped <==> |history| >= LOG_SIZE)
      && forall k :: 0 <= k < |history| && |history| - LOG_SIZE <= k ==> buf[k % LOG_SIZE] == history[k]
    }

    constructor ()
      ensures Valid() && fresh(buf) && history == [] && atLineStart
    {
      buf := new char[LOG_SIZE];
      head, wrapped, written, atLineStart, history := 0, false, 0, true, [];
    }

    method AppendByte(c: char)
      requires Valid() && |history| + 1 < CURSOR_END
      modifies this, buf
      ensures Valid() && history == old(history) + [c] && atLineStart == old(atLineStart)
    {
      buf[head] := c;
      head := head + 1;
      if head >= LOG_SIZE {
        head := 0;
        wrapped := true;
      }
      written := written + 1;
      ghost var n := |history|;
      history := history + [c];
      forall k | 0 <= k < n && n + 1 - LOG_SIZE <= k
        ensures buf[k % LOG_SIZE] == history[k]
      {
        DifferentSlots(k, n);
      }
    }

    method Append(data: string)
      requires Valid() && |history| + |data| < CURSOR_END
      modifies this, buf
      ensures Valid() && history == old(history) + data && atLineStart == old(atLineStart)
    {
      for i := 0 to |data|
        invariant Valid() && history == old(history) + data[..i] && atLineStart == old(atLineStart)
      {
        assert data[..i + 1] == data[..i] + [data[i]];
        AppendByte(data[i]);
      }
      assert data[..|data|] == data;
    }

    method AppendStampedByte(c: char, seconds: u32)
      requires Valid() && |history| + |if atLineStart then StampText(seconds) else []| + 1 < CURSOR_END
      modifies this, buf
      ensures Valid() && atLineStart == (c == '\n')
      ensures history == old(history) + (if old(atLineStart) then StampText(seconds) else []) + [c]
    {
      hide StampText;
      if atLineStart {
        Append(StampText(seconds));
        atLineStart := false;
      }
      AppendByte(c);
      if c == '\n' { atLineStart := true; }
    }

    method AppendStamped(data: string, seconds: u32)
      requires Valid() && |history| + |Stamped(data, atLineStart, seconds)| < CURSOR_END
      modifies this, buf
      ensures Valid()
      ensures history == old(history) + Stamped(data, old(atLineStart), seconds)
      ensures atLineStart == EndsAtStart(data, old(atLineStart))
    {
      hide Valid, Stamped, StampText, EndsAtStart;
      ghost var start := atLineStart;
      NothingStamped(start, seconds);
      for i := 0 to |data|
        invariant Valid() && history == old(history) + Stamped(data[..i], start, seconds)
        invariant atLineStart == EndsAtStart(data[..i], start)
      {
        assert data[..i + 1] == data[..i] + [data[i]];
        StampedOneMore(data[..i], data[i], start, seconds);
        StampedPrefix(data, i + 1, start, seconds);
        EndsAtStartOneMore(data[..i], data[i], start);
        AppendStampedByte(data[i], seconds);
      }
      assert data[..|data|] == data;
    }

    function Fill(): nat
      reads this
    {
      if wrapped then LOG_SIZE else head
    }

    function OldestCursor(): int
      reads this
    {
      written - Fill()
    }

    /** The ring refines the unbounded log: what it retains is the log's last bytes. */
    lemma RetainsTheLast()
      requires Valid()
      ensures Fill() == (if |history| < 4096 then |history| else 4096)
      ensures OldestCursor() == |history| - Fill() == StartOf(0, |history|)
      ensures forall k :: OldestCursor() <= k < |history| ==> buf[k % LOG_SIZE] == history[k]
    {
    }

    lemma RetainsByte(k: nat)
      requires Valid() && OldestCursor() <= k < |history|
      ensures buf.Length == LOG_SIZE && buf[SlotOf(k)] == history[k]
    {
    }

    method NextLine(cursor: u32, cap: nat) returns (found: bool, next: u32, line: string)
      requires Valid()
      ensures var start := StartOf(cursor, |history|);
        match PieceAt(history[start..], cap, 0)
        case None => !found && next == cursor
        case Some(p) => found && line == p.text && next == start + Taken(p)
    {
      RetainsTheLast();
      var start := cursor;
      if start < OldestCursor() { start := OldestCursor(); }
      if start > written { start := written; }
      found, next, line := LineFrom(start, cap);
      if !found { next := cursor; }
    }

    /** The walk from a cursor that the ring still holds. */
    method LineFrom(start: nat, cap: nat) returns (found: bool, next: u32, line: string)
      requires Valid() && OldestCursor() <= start <= |history|
      ensures match PieceAt(history[start..], cap, 0)
        case None => !found
        case Some(p) => found && line == p.text && next == start + Taken(p)
    {
      line, next := [], 0;
      var waiting := written - start;
      var idx := (head + LOG_SIZE - waiting) % LOG_SIZE;
      ghost var rest := history[start..];
      RetainsTheLast();
      SlotOfStart(|history|, waiting);
      assert waiting == |rest| && idx == SlotOf(start) && |history| < CURSOR_END;
      hide PieceAt, Valid, OldestCursor, Fill, SlotOf;
      for i := 0 to waiting
        invariant idx == SlotOf(start + i) && |line| == i <= cap && line == rest[..i]
        invariant PieceAt(rest, cap, i) == PieceAt(rest, cap, 0)
      {
        PieceStep(rest, cap, i);
        NextSlot(start + i);
        RetainsByte(start + i);
        var c := buf[idx];
        assert c == rest[i];
        idx := idx + 1;
        if idx >= LOG_SIZE { idx := 0; }
        if c == '\n' {
          return true, start + i + 1, line;
        }
        if |line| == cap {
          return true, start + i, line;
        }
        assert rest[..i + 1] == rest[..i] + [c];
        line := line + [c];
      }
      PieceStep(rest, cap, waiting);
      found := false;
    }
  }

  lemma PieceStep(rest: string, cap: nat, i: nat)
    requires i <= |rest|
    ensures PieceAt(rest, cap, i) ==
      if i == |rest| then None
      else if rest[i] == '\n' then Some(Piece(rest[..i], true))
      else if i == cap then Some(Piece(rest[..i], false))
      else PieceAt(rest, cap, i + 1)
  {
  }

  lemma NextSlot(k: nat)
    ensures SlotOf(k + 1) == if SlotOf(k) + 1 == LOG_SIZE then 0 else SlotOf(k) + 1
  {
  }

  lemma SlotOfStart(written: nat, waiting: nat)
    requires waiting <= written && waiting <= LOG_SIZE
    ensures (SlotOf(written) + LOG_SIZE - waiting) % LOG_SIZE == SlotOf(written - waiting)
  {
  }

  lemma {:induction false} StampedPrefix(data: string, n: nat, atStart: bool, seconds: u32)
    requires n <= |data|
    ensures |Stamped(data[..n], atStart, seconds)| <= |Stamped(data, atStart, seconds)|
  {
    if n > 0 {
      StampedPrefix(data[1..], n - 1, data[0] == '\n', seconds);
      assert data[..n][1..] == data[1..][..n - 1];
    }
  }

  // ---- a reader beside a writer ---------------------------------------------------------------

  datatype Event = Logged(data: string) | Read(cap: nat)

  /** What was overwritten before it was read: from a byte of the log to another. */
  datatype Gap = Gap(from: nat, to: nat)

  /** The log, where the reader stands, what it was given, and what it was too late for. */
  datatype Reader = Reader(history: string, cursor: nat, given: string, gaps: seq<Gap>)

  function Step(r: Reader, e: Event): Reader {
    match e
    case Logged(data) => r.(history := r.history + data)
    case Read(cap) =>
      if r.cursor >= CURSOR_END then r
      else
        var start := StartOf(r.cursor, |r.history|);
        match PieceAt(r.history[start..], cap, 0)
        case None => r
        case Some(p) =>
          r.(cursor := start + Taken(p), given := r.given + Spelled(p),
             gaps := r.gaps + if r.cursor < start then [Gap(r.cursor, start)] else [])
  }

  function Run(r: Reader, es: seq<Event>): Reader
    decreases |es|
  {
    if es == [] then r else Run(Step(r, es[0]), es[1..])
  }

  /** The log stays within what a cursor can count. */
  ghost predicate Countable(r: Reader, es: seq<Event>)
    decreases |es|
  {
    |r.history| < CURSOR_END && (es != [] ==> Countable(Step(r, es[0]), es[1..]))
  }

  /** Gaps that lie one behind the other in [from, to]. */
  ghost predicate Ordered(from: nat, gaps: seq<Gap>, to: nat)
    decreases |gaps|
  {
    if gaps == [] then from <= to
    else
      var last := gaps[|gaps| - 1];
      last.from < last.to <= to && Ordered(from, gaps[..|gaps| - 1], last.from)
  }

  /** The log in [from, to], without the gaps. */
  ghost function Without(history: string, from: nat, gaps: seq<Gap>, to: nat): string
    requires Ordered(from, gaps, to) && to <= |history|
    decreases |gaps|
  {
    if gaps == [] then history[from..to]
    else
      var last := gaps[|gaps| - 1];
      Without(history, from, gaps[..|gaps| - 1], last.from) + history[last.to..to]
  }

  /** A reader that began at `first` was given all of the log up to its cursor, in order,
      but for its gaps. */
  ghost predicate Told(r: Reader, first: nat) {
    && first <= r.cursor <= |r.history|
    && Ordered(first, r.gaps, r.cursor)
    && r.given == Without(r.history, first, r.gaps, r.cursor)
  }

  lemma {:induction false} WithoutLonger(history: string, more: string, from: nat, gaps: seq<Gap>, to: nat)
    requires Ordered(from, gaps, to) && to <= |history|
    ensures Without(history + more, from, gaps, to) == Without(history, from, gaps, to)
    decreases |gaps|
  {
    if gaps == [] {
      assert (history + more)[from..to] == history[from..to];
    } else {
      var last := gaps[|gaps| - 1];
      WithoutLonger(history, more, from, gaps[..|gaps| - 1], last.from);
      assert (history + more)[last.to..to] == history[last.to..to];
    }
  }

  lemma {:induction false} WithoutOn(history: string, from: nat, gaps: seq<Gap>, to: nat, next: nat)
    requires Ordered(from, gaps, to) && to <= next <= |history|
    ensures Ordered(from, gaps, next)
    ensures Without(history, from, gaps, next) == Without(history, from, gaps, to) + history[to..next]
  {
    if gaps == [] {
      assert history[from..next] == history[from..to] + history[to..next];
    } else {
      var last := gaps[|gaps| - 1];
      assert history[last.to..next] == history[last.to..to] + history[to..next];
      Grouped(Without(history, from, gaps[..|gaps| - 1], last.from), history[last.to..to], history[to..next]);
    }
  }

  lemma WithoutGap(history: string, from: nat, gaps: seq<Gap>, to: nat, start: nat, next: nat)
    requires Ordered(from, gaps, to) && to < start <= next <= |history|
    ensures Ordered(from, gaps + [Gap(to, start)], next)
    ensures Without(history, from, gaps + [Gap(to, start)], next)
         == Without(history, from, gaps, to) + history[start..next]
  {
    assert (gaps + [Gap(to, start)])[..|gaps|] == gaps;
  }

  /** One read: what the ring has overwritten of what the reader still wanted is its next
      gap, exactly that; then it is given what follows. */
  lemma ReadTells(r: Reader, first: nat, cap: nat)
    requires Told(r, first) && |r.history| < CURSOR_END
    ensures var t := Step(r, Read(cap));
      && Told(t, first) && r.cursor <= t.cursor
      && t.gaps == r.gaps + if t.cursor > r.cursor && |r.history| - r.cursor > LOG_SIZE
                            then [Gap(r.cursor, |r.history| - LOG_SIZE)] else []
  {
    var start := StartOf(r.cursor, |r.history|);
    var rest := r.history[start..];
    PieceIsNext(rest, cap, 0);
    var p := PieceAt(rest, cap, 0);
    hide PieceAt, OneLine;
    if p.Some? {
      var next := start + Taken(p.value);
      assert rest[..Taken(p.value)] == r.history[start..next] == Spelled(p.value);
      var more := if r.cursor < start then [Gap(r.cursor, start)] else [];
      assert Step(r, Read(cap)) == r.(cursor := next, given := r.given + Spelled(p.value), gaps := r.gaps + more);
      hide Step, Without, Ordered, Spelled, Taken;
      if r.cursor < start {
        WithoutGap(r.history, first, r.gaps, r.cursor, start, next);
      } else {
        WithoutOn(r.history, first, r.gaps, r.cursor, next);
        assert r.gaps + [] == r.gaps;
      }
    }
  }

  /** Lines written between reads, in any order: a reader is given the log from where it
      started, byte for byte and nothing twice, but for what was overwritten before it
      came back. */
  lemma {:induction false} ReaderGetsTheLog(r: Reader, first: nat, es: seq<Event>)
    requires Told(r, first) && Countable(r, es)
    ensures Told(Run(r, es), first) && r.cursor <= Run(r, es).cursor
    decreases |es|
  {
    hide Step, Told;
    if es != [] {
      match es[0] {
        case Logged(data) => LoggedKeepsTold(r, first, data);
        case Read(cap) => ReadTells(r, first, cap);
      }
      ReaderGetsTheLog(Step(r, es[0]), first, es[1..]);
    }
  }

  lemma LoggedKeepsTold(r: Reader, first: nat, data: string)
    requires Told(r, first)
    ensures Told(Step(r, Logged(data)), first)
    ensures Step(r, Logged(data)).cursor == r.cursor && Step(r, Logged(data)).gaps == r.gaps
  {
    WithoutLonger(r.history, data, first, r.gaps, r.cursor);
  }

  /** The reader has not fallen behind by more than the ring holds. */
  predicate KeepsUp(r: Reader) {
    |r.history| - r.cursor <= LOG_SIZE
  }

  ghost predicate AlwaysKeepsUp(r: Reader, es: seq<Event>)
    decreases |es|
  {
    KeepsUp(r) && (es != [] ==> AlwaysKeepsUp(Step(r, es[0]), es[1..]))
  }

  /** One that keeps up misses nothing. */
  lemma {:induction false} KeepingUpMissesNothing(r: Reader, first: nat, es: seq<Event>)
    requires Told(r, first) && Countable(r, es) && AlwaysKeepsUp(r, es) && r.gaps == []
    ensures var t := Run(r, es); first <= t.cursor <= |t.history| && t.given == t.history[first..t.cursor]
    decreases |es|
  {
    if es != [] {
      hide Step, Told;
      match es[0] {
        case Logged(data) => LoggedKeepsTold(r, first, data);
        case Read(cap) => ReadTells(r, first, cap);
      }
      KeepingUpMissesNothing(Step(r, es[0]), first, es[1..]);
    }
  }

  ghost predicate StaysBehind(r: Reader, es: seq<Event>)
    decreases |es|
  {
    |r.history| <= r.cursor && (es != [] ==> StaysBehind(Step(r, es[0]), es[1..]))
  }

  /** A cursor past the end of the log: nothing is given, and the cursor stays, until the
      log has passed it. */
  lemma {:induction false} AheadIsGivenNothing(r: Reader, es: seq<Event>)
    requires StaysBehind(r, es)
    ensures Run(r, es).given == r.given && Run(r, es).cursor == r.cursor
    decreases |es|
  {
    if es != [] {
      AheadIsGivenNothing(Step(r, es[0]), es[1..]);
    }
  }

  /** The reader as if it had been put back to the end of the log. */
  function Moved(r: Reader): Reader {
    if r.cursor > |r.history| then r.(cursor := |r.history|) else r
  }

  predicate AsFromTheEnd(r: Reader, es: seq<Event>) {
    Run(r, es).given == Run(Moved(r), es).given
  }

  /** Whatever is logged and read from here on, a reader is given what one put back to the
      end of the log is given, if and only if its cursor does not lie past that end. */
  lemma StartsAtTheEndExactly(r: Reader)
    requires |r.history| + 1 < CURSOR_END && r.cursor < CURSOR_END
    ensures (forall es: seq<Event> :: AsFromTheEnd(r, es)) <==> r.cursor <= |r.history|
  {
    if r.cursor > |r.history| {
      var line, read, m := Logged("\n"), Read(1), Moved(r);
      var es := [line, read];
      assert es[1..] == [read] && es[1..][1..] == [];
      AheadIsGivenNothing(r, es) by { assert StaysBehind(Step(Step(r, line), read), []); }
      TwoSteps(m, line, read);
      var log := r.history + "\n";
      assert log[|r.history|..] == "\n";
      assert PieceAt("\n", 1, 0) == Some(Piece([], true));
      assert Step(Step(m, line), read).given == r.given + "\n";
      assert !AsFromTheEnd(r, es);
    }
  }

  lemma TwoSteps(r: Reader, a: Event, b: Event)
    ensures Run(r, [a, b]) == Step(Step(r, a), b)
  {
    hide Step;
    assert [a, b][1..] == [b] && [b][1..] == [];
    assert Run(Step(r, a), [b]) == Run(Step(Step(r, a), b), []);
  }
}
