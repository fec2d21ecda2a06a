/** ClusterLayout.h, second half: which boards make up the wall, which part of a
    row's text each of them shows, and the wall mirrored from those parts. */
module ClusterLayout {
  import opened Wrappers
  import opened ClusterWrap

  const MAX_MEMBERS: nat := 8
  /** Past every column: col and width are bytes. */
  const COL_END: nat := 512

  datatype Member = Member(host: string, row: u8, col: u8, width: u8)

  datatype Grid = Grid(rows: nat, rowWidth: seq<nat>, rowExtent: seq<nat>)

  datatype Verdict = Fine | TableEmpty | TooManyMembers | RowBeyondCap | NothingRenders | MembersOverlap | RowsNotContiguous

  datatype Alignment = Left | Right | Center

  const NO_GRID: Grid := Grid(0, seq(MAX_MEMBERS, _ => 0), seq(MAX_MEMBERS, _ => 0))

  // ---- spans of a row ------------------------------------------------------------------

  predicate SameSpan(a: Member, b: Member) {
    a.row == b.row && a.col == b.col && a.width == b.width
  }

  /** Two rendering members of a row that share columns without being twins. */
  predicate Clash(a: Member, b: Member) {
    && a.width != 0 && b.width != 0 && a.row == b.row && !SameSpan(a, b)
    && a.col < b.col + b.width && b.col < a.col + a.width
  }

  predicate SpanIsFirst(t: seq<Member>, i: nat)
    requires i < |t|
  {
    forall j :: 0 <= j < i ==> !(t[j].width != 0 && t[j].row == t[i].row && t[j].col == t[i].col)
  }

  /** The widths of the distinct spans of a row that start left of `col`, over the
      first `n` members. */
  function WidthUpTo(t: seq<Member>, row: nat, col: nat, n: nat): nat
    requires n <= |t|
  {
    if n == 0 then 0
    else
      var m := t[n - 1];
      WidthUpTo(t, row, col, n - 1)
      + if m.width == 0 || m.row != row || m.col >= col then 0
        else if SpanIsFirst(t, n - 1) then m.width else 0
  }

  /** Where a member that starts at `col` begins in its row's text. */
  function TextOffset(t: seq<Member>, row: nat, col: nat): nat {
    WidthUpTo(t, row, col, |t|)
  }

  function RowWidth(t: seq<Member>, row: nat): nat {
    WidthUpTo(t, row, COL_END, |t|)
  }

  function ExtentUpTo(t: seq<Member>, row: nat, n: nat): (x: nat)
    requires n <= |t|
    ensures forall i :: 0 <= i < n && t[i].width != 0 && t[i].row == row ==> t[i].col + t[i].width <= x
    ensures x < COL_END
  {
    if n == 0 then 0
    else
      var m, x := t[n - 1], ExtentUpTo(t, row, n - 1);
      if m.width != 0 && m.row == row && m.col + m.width > x then m.col + m.width else x
  }

  function RowExtent(t: seq<Member>, row: nat): nat {
    ExtentUpTo(t, row, |t|)
  }

  // ---- the verdict -----------------------------------------------------------------------

  ghost predicate Renders(t: seq<Member>, row: int) {
    exists i :: 0 <= i < |t| && t[i].width != 0 && t[i].row == row
  }

  ghost predicate NoClash(t: seq<Member>) {
    forall i, j :: 0 <= i < j < |t| ==> !Clash(t[i], t[j])
  }

  ghost predicate NoRowMissing(t: seq<Member>) {
    forall i, r :: 0 <= i < |t| && t[i].width != 0 && 0 <= r <= t[i].row ==> Renders(t, r)
  }

  /** What the table is judged by, in the order the faults are named. */
  ghost function VerdictOf(t: seq<Member>): Verdict {
    if t == [] then TableEmpty
    else if |t| > MAX_MEMBERS then TooManyMembers
    else if exists i :: 0 <= i < |t| && t[i].row >= MAX_MEMBERS then RowBeyondCap
    else if forall i :: 0 <= i < |t| ==> t[i].width == 0 then NothingRenders
    else if !NoClash(t) then MembersOverlap
    else if !NoRowMissing(t) then RowsNotContiguous
    else Fine
  }

  ghost predicate ValidTable(t: seq<Member>) {
    VerdictOf(t) == Fine
  }

  ghost predicate GridOf(t: seq<Member>, g: Grid) {
    && |g.rowWidth| == |g.rowExtent| == MAX_MEMBERS
    && g.rows <= MAX_MEMBERS
    && (forall r :: 0 <= r < MAX_MEMBERS ==> g.rowWidth[r] == RowWidth(t, r) && g.rowExtent[r] == RowExtent(t, r))
    && (forall r :: 0 <= r < g.rows <==> r >= 0 && Renders(t, r))
  }

  lemma {:induction false} WidthNeedsAMember(t: seq<Member>, row: nat, n: nat)
    requires n <= |t|
    ensures WidthUpTo(t, row, COL_END, n) > 0
       <==> exists i :: 0 <= i < n && t[i].width != 0 && t[i].row == row
  {
    if n > 0 {
      WidthNeedsAMember(t, row, n - 1);
      var m := t[n - 1];
      if m.width != 0 && m.row == row && !SpanIsFirst(t, n - 1) {
        var j :| 0 <= j < n - 1 && t[j].width != 0 && t[j].row == m.row && t[j].col == m.col;
      }
    }
  }

  method AnyClash(t: seq<Member>) returns (clash: bool)
    ensures clash <==> !NoClash(t)
  {
    for i := 0 to |t|
      invariant forall k, j :: 0 <= k < i && k < j < |t| ==> !Clash(t[k], t[j])
    {
      for j := i + 1 to |t|
        invariant forall k :: i < k < j ==> !Clash(t[i], t[k])
      {
        if Clash(t[i], t[j]) { return true; }
      }
    }
    clash := false;
  }

  method MeasureRows(t: seq<Member>) returns (g: Grid)
    requires forall i :: 0 <= i < |t| ==> t[i].row < MAX_MEMBERS
    ensures |g.rowWidth| == |g.rowExtent| == MAX_MEMBERS
    ensures forall r :: 0 <= r < MAX_MEMBERS ==> g.rowWidth[r] == RowWidth(t, r) && g.rowExtent[r] == RowExtent(t, r)
  {
    var widths, extents := NO_GRID.rowWidth, NO_GRID.rowExtent;
    for i := 0 to |t|
      invariant |widths| == |extents| == MAX_MEMBERS
      invariant forall r :: 0 <= r < MAX_MEMBERS ==> widths[r] == WidthUpTo(t, r, COL_END, i)
      invariant forall r :: 0 <= r < MAX_MEMBERS ==> extents[r] == ExtentUpTo(t, r, i)
    {
      var m := t[i];
      if m.width != 0 {
        if m.col + m.width > extents[m.row] { extents := extents[m.row := m.col + m.width]; }
        if SpanIsFirst(t, i) { widths := widths[m.row := widths[m.row] + m.width]; }
      }
    }
    g := Grid(0, widths, extents);
  }

  method Validate(t: seq<Member>) returns (verdict: Verdict, g: Grid)
    ensures verdict == VerdictOf(t)
    ensures if verdict == Fine then GridOf(t, g) else g == NO_GRID
  {
    g := NO_GRID;
    if |t| == 0 { return TableEmpty, g; }
    if |t| > MAX_MEMBERS { return TooManyMembers, g; }
    var maxRow := -1;
    for i := 0 to |t|
      invariant forall j :: 0 <= j < i ==> t[j].row < MAX_MEMBERS && (t[j].width != 0 ==> t[j].row <= maxRow)
      invariant -1 <= maxRow < MAX_MEMBERS
      invariant maxRow >= 0 ==> exists j :: 0 <= j < i && t[j].width != 0 && t[j].row == maxRow
    {
      if t[i].row >= MAX_MEMBERS { return RowBeyondCap, g; }
      if t[i].width != 0 && t[i].row > maxRow { maxRow := t[i].row; }
    }
    if maxRow == -1 { return NothingRenders, g; }
    ghost var lowest :| 0 <= lowest < |t| && t[lowest].width != 0 && t[lowest].row == maxRow;
    var clash := AnyClash(t);
    if clash { return MembersOverlap, g; }
    g := MeasureRows(t);
    for r := 0 to maxRow + 1
      invariant forall q :: 0 <= q < r ==> Renders(t, q)
    {
      WidthNeedsAMember(t, r, |t|);
      if g.rowWidth[r] == 0 {
        assert r <= t[lowest].row && !Renders(t, r);
        return RowsNotContiguous, NO_GRID;
      }
    }
    g := g.(rows := maxRow + 1);
    verdict := Fine;
  }

  // ---- text positions and columns ------------------------------------------------------------

  predicate Covers(m: Member, row: nat, c: nat) {
    m.width != 0 && m.row == row && m.col <= c < m.col + m.width
  }

  /** There is a flap in this column of the row. */
  predicate Owned(t: seq<Member>, row: nat, c: nat) {
    exists i :: 0 <= i < |t| && Covers(t[i], row, c)
  }

  /** Two members clash if and only if some column of a row is both theirs and some other
      only one's. */
  lemma ClashIsASharedColumn(a: Member, b: Member)
    ensures Clash(a, b) <==>
      exists row, c, d ::
        && Covers(a, row, c) && Covers(b, row, c)
        && Covers(a, row, d) != Covers(b, row, d)
  {
    if Clash(a, b) {
      var c := if a.col < b.col then b.col else a.col;
      assert Covers(a, a.row, c) && Covers(b, a.row, c);
      var d := if a.col < b.col then a.col else if b.col < a.col then b.col
               else if a.width < b.width then a.col + a.width else a.col + b.width;
      assert Covers(a, a.row, d) != Covers(b, a.row, d);
    }
  }

  /** Two members share a column of a row without sharing all of them. */
  ghost predicate Overlap(a: Member, b: Member) {
    exists row, c, d :: Covers(a, row, c) && Covers(b, row, c) && Covers(a, row, d) != Covers(b, row, d)
  }

  /** Which tables are accepted, told by their flaps: one to eight members, rows below 8,
      a flap somewhere, none in two members that are not twins, and rows with flaps from 0
      on without one missing. */
  lemma AcceptedTables(t: seq<Member>)
    ensures ValidTable(t) <==>
      && 1 <= |t| <= 8
      && (forall i :: 0 <= i < |t| ==> t[i].row < 8)
      && (exists i :: 0 <= i < |t| && t[i].width > 0)
      && (forall i, j :: 0 <= i < j < |t| ==> !Overlap(t[i], t[j]))
      && (forall i, r :: 0 <= i < |t| && t[i].width > 0 && 0 <= r <= t[i].row ==> Renders(t, r))
  {
    forall i, j | 0 <= i < j < |t|
      ensures Clash(t[i], t[j]) <==> Overlap(t[i], t[j])
    {
      ClashIsASharedColumn(t[i], t[j]);
    }
    hide Clash, Overlap, Renders;
    assert NoClash(t) <==> forall i, j :: 0 <= i < j < |t| ==> !Overlap(t[i], t[j]);
    assert NoRowMissing(t) <==> forall i, r :: 0 <= i < |t| && t[i].width > 0 && 0 <= r <= t[i].row ==> Renders(t, r);
    hide NoClash, NoRowMissing;
  }

  /** A row reaches as far as its rightmost flap, and no further. */
  lemma {:induction false} ExtentIsReached(t: seq<Member>, row: nat, n: nat)
    requires n <= |t|
    ensures ExtentUpTo(t, row, n) > 0 ==>
      exists i :: 0 <= i < n && t[i].width != 0 && t[i].row == row && t[i].col + t[i].width == ExtentUpTo(t, row, n)
  {
    if n > 0 {
      ExtentIsReached(t, row, n - 1);
    }
  }

  lemma ExtentEndsAtAFlap(t: seq<Member>, row: nat)
    ensures RowExtent(t, row) > 0 ==> Owned(t, row, RowExtent(t, row) - 1)
    ensures forall c :: c >= RowExtent(t, row) ==> !Owned(t, row, c)
  {
    ExtentIsReached(t, row, |t|);
    hide ExtentUpTo;
    if RowExtent(t, row) > 0 {
      var i :| 0 <= i < |t| && t[i].width != 0 && t[i].row == row && t[i].col + t[i].width == RowExtent(t, row);
      assert Covers(t[i], row, RowExtent(t, row) - 1);
    }
  }

  /** The number of flaps before column `x`. */
  function OwnedBefore(t: seq<Member>, row: nat, x: nat): nat {
    if x == 0 then 0 else OwnedBefore(t, row, x - 1) + if Owned(t, row, x - 1) then 1 else 0
  }

  function Clip(m: Member, row: nat, x: nat): nat {
    if m.width == 0 || m.row != row || x <= m.col then 0
    else if x < m.col + m.width then x - m.col else m.width
  }

  /** The distinct spans of a row, each cut off at column `x`. */
  function ClipSum(t: seq<Member>, row: nat, x: nat, n: nat): nat
    requires n <= |t|
  {
    if n == 0 then 0
    else ClipSum(t, row, x, n - 1) + if SpanIsFirst(t, n - 1) then Clip(t[n - 1], row, x) else 0
  }

  /** A covered column is covered by exactly one distinct span. */
  lemma FirstCover(t: seq<Member>, row: nat, c: nat, i: nat) returns (k: nat)
    requires NoClash(t) && i < |t| && Covers(t[i], row, c)
    ensures k <= i && Covers(t[k], row, c) && SpanIsFirst(t, k) && SameSpan(t[k], t[i])
  {
    if SpanIsFirst(t, i) {
      k := i;
    } else {
      var j :| 0 <= j < i && t[j].width != 0 && t[j].row == t[i].row && t[j].col == t[i].col;
      assert !Clash(t[j], t[i]);
      k := FirstCover(t, row, c, j);
    }
  }

  lemma FirstCoverIsOne(t: seq<Member>, row: nat, c: nat, i: nat, j: nat)
    requires NoClash(t) && i < |t| && j < |t|
    requires Covers(t[i], row, c) && Covers(t[j], row, c) && SpanIsFirst(t, i) && SpanIsFirst(t, j)
    ensures i == j
  {
    if i != j { NoClashAt(t, i, j); }
  }

  lemma NoClashAt(t: seq<Member>, i: nat, j: nat)
    requires NoClash(t) && i < |t| && j < |t|
    ensures !Clash(t[i], t[j])
  {
    assert i < j ==> !Clash(t[i], t[j]);
    assert j < i ==> !Clash(t[j], t[i]);
  }

  lemma OwnedByFirst(t: seq<Member>, row: nat, c: nat)
    requires NoClash(t)
    ensures Owned(t, row, c) <==> CoveredAmong(t, row, c, |t|)
  {
    if Owned(t, row, c) {
      var i :| 0 <= i < |t| && Covers(t[i], row, c);
      var k := FirstCover(t, row, c, i);
    }
  }

  /** A distinct span among the first `n` members covers the column. */
  ghost predicate CoveredAmong(t: seq<Member>, row: nat, x: nat, n: nat)
    requires n <= |t|
  {
    exists i :: 0 <= i < n && SpanIsFirst(t, i) && Covers(t[i], row, x)
  }

  lemma ClipNext(m: Member, row: nat, x: nat)
    ensures Clip(m, row, x + 1) == Clip(m, row, x) + if Covers(m, row, x) then 1 else 0
  {
  }

  lemma CoveredByOne(t: seq<Member>, row: nat, x: nat, n: nat)
    requires NoClash(t) && n < |t|
    ensures CoveredAmong(t, row, x, n + 1) <==> CoveredAmong(t, row, x, n) || (SpanIsFirst(t, n) && Covers(t[n], row, x))
    ensures !(CoveredAmong(t, row, x, n) && SpanIsFirst(t, n) && Covers(t[n], row, x))
  {
    hide Covers, SpanIsFirst, NoClash;
    if CoveredAmong(t, row, x, n) && SpanIsFirst(t, n) && Covers(t[n], row, x) {
      var i :| 0 <= i < n && SpanIsFirst(t, i) && Covers(t[i], row, x);
      FirstCoverIsOne(t, row, x, i, n);
    }
  }

  lemma {:induction false} ClipSumStep(t: seq<Member>, row: nat, x: nat, n: nat)
    requires NoClash(t) && n <= |t|
    ensures ClipSum(t, row, x + 1, n) == ClipSum(t, row, x, n) + if CoveredAmong(t, row, x, n) then 1 else 0
  {
    hide Covers, SpanIsFirst, NoClash, Clip;
    if n > 0 {
      ClipSumStep(t, row, x, n - 1);
      ClipNext(t[n - 1], row, x);
      CoveredByOne(t, row, x, n - 1);
      hide CoveredAmong;
    }
  }

  lemma ClipSumNext(t: seq<Member>, row: nat, x: nat)
    requires NoClash(t)
    ensures ClipSum(t, row, x + 1, |t|) == ClipSum(t, row, x, |t|) + if Owned(t, row, x) then 1 else 0
  {
    hide *;
    ClipSumStep(t, row, x, |t|);
    OwnedByFirst(t, row, x);
  }

  lemma {:induction false} ClipSumCounts(t: seq<Member>, row: nat, x: nat)
    requires NoClash(t)
    ensures ClipSum(t, row, x, |t|) == OwnedBefore(t, row, x)
  {
    hide ClipSum, Owned, NoClash;
    if x == 0 {
      ClipSumAtZero(t, row, |t|);
    } else {
      ClipSumCounts(t, row, x - 1);
      ClipSumNext(t, row, x - 1);
    }
  }

  lemma {:induction false} ClipSumAtZero(t: seq<Member>, row: nat, n: nat)
    requires n <= |t|
    ensures ClipSum(t, row, 0, n) == 0
  {
    if n > 0 { ClipSumAtZero(t, row, n - 1); }
  }

  lemma {:induction false} WidthIsClipSum(t: seq<Member>, row: nat, x: nat, n: nat)
    requires n <= |t|
    requires forall i :: 0 <= i < |t| && t[i].width != 0 && t[i].row == row && t[i].col < x ==> t[i].col + t[i].width <= x
    ensures WidthUpTo(t, row, x, n) == ClipSum(t, row, x, n)
  {
    if n > 0 { WidthIsClipSum(t, row, x, n - 1); }
  }

  /** The offset arithmetic counts columns: text position `offset + k` of a member
      is the number of flaps left of its column `col + k`. */
  lemma OffsetCountsFlaps(t: seq<Member>, i: nat, k: nat)
    requires NoClash(t) && i < |t| && k <= t[i].width && t[i].width != 0
    ensures TextOffset(t, t[i].row, t[i].col) + k == OwnedBefore(t, t[i].row, t[i].col + k)
  {
    var m := t[i];
    if k == 0 {
      forall j | 0 <= j < |t| && t[j].width != 0 && t[j].row == m.row && t[j].col < m.col
        ensures t[j].col + t[j].width <= m.col
      {
        NoClashAt(t, i, j);
      }
      WidthIsClipSum(t, m.row, m.col, |t|);
      ClipSumCounts(t, m.row, m.col);
    } else {
      OffsetCountsFlaps(t, i, k - 1);
      assert Covers(m, m.row, m.col + k - 1);
    }
  }

  lemma {:induction false} OwnedBeforeGrows(t: seq<Member>, row: nat, x: nat, y: nat)
    requires x <= y
    ensures OwnedBefore(t, row, x) <= OwnedBefore(t, row, y)
    ensures OwnedBefore(t, row, y) - OwnedBefore(t, row, x) <= y - x
  {
    if x < y { OwnedBeforeGrows(t, row, x, y - 1); }
  }

  /** A row is as wide as it has flaps. */
  lemma RowWidthCountsFlaps(t: seq<Member>, row: nat)
    requires NoClash(t)
    ensures RowWidth(t, row) == OwnedBefore(t, row, COL_END) == OwnedBefore(t, row, RowExtent(t, row))
  {
    WidthIsClipSum(t, row, COL_END, |t|);
    ClipSumCounts(t, row, COL_END);
    NoFlapsPast(t, row, RowExtent(t, row), COL_END);
  }

  lemma {:induction false} NoFlapsPast(t: seq<Member>, row: nat, x: nat, y: nat)
    requires RowExtent(t, row) <= x <= y
    ensures OwnedBefore(t, row, y) == OwnedBefore(t, row, x)
  {
    if x < y { NoFlapsPast(t, row, x, y - 1); }
  }

  /** The column that shows text position `p`. */
  lemma {:induction false} ColumnOf(t: seq<Member>, row: nat, p: nat, x: nat) returns (c: nat)
    requires p < OwnedBefore(t, row, x)
    ensures c < x && Owned(t, row, c) && OwnedBefore(t, row, c) == p
  {
    if p < OwnedBefore(t, row, x - 1) {
      c := ColumnOf(t, row, p, x - 1);
    } else {
      c := x - 1;
    }
  }

  ghost predicate InSpan(t: seq<Member>, i: nat, p: nat)
    requires i < |t|
  {
    var offset := TextOffset(t, t[i].row, t[i].col);
    offset <= p < offset + t[i].width
  }

  /** The distinct spans of a row cut its text into pieces: every position of the
      text belongs to exactly one of them, and no span reaches past the text. */
  lemma SpansPartitionTheText(t: seq<Member>, row: nat, p: nat)
    requires ValidTable(t)
    ensures p < RowWidth(t, row)
       <==> exists i :: 0 <= i < |t| && t[i].row == row && t[i].width != 0 && SpanIsFirst(t, i) && InSpan(t, i, p)
    ensures forall i, j | 0 <= i < |t| && 0 <= j < |t| && t[i].row == t[j].row == row ::
      t[i].width != 0 && t[j].width != 0 && InSpan(t, i, p) && InSpan(t, j, p) ==> SameSpan(t[i], t[j])
  {
    assert NoClash(t);
    hide ValidTable, NoClash, InSpan, SpanIsFirst, SameSpan, RowWidth;
    if p < RowWidth(t, row) {
      var k := SpanOf(t, row, p);
    }
    forall i | 0 <= i < |t| && t[i].row == row && t[i].width != 0 && InSpan(t, i, p)
      ensures p < RowWidth(t, row)
    {
      SpanInsideTheText(t, i, p);
    }
    forall i, j | 0 <= i < |t| && 0 <= j < |t| && t[i].row == t[j].row == row
        && t[i].width != 0 && t[j].width != 0 && InSpan(t, i, p) && InSpan(t, j, p)
      ensures SameSpan(t[i], t[j])
    {
      SamePositionSameSpan(t, i, j, p);
    }
  }

  /** The distinct span a text position belongs to. */
  lemma SpanOf(t: seq<Member>, row: nat, p: nat) returns (k: nat)
    requires NoClash(t) && p < RowWidth(t, row)
    ensures k < |t| && t[k].row == row && t[k].width != 0 && SpanIsFirst(t, k) && InSpan(t, k, p)
  {
    RowWidthCountsFlaps(t, row);
    var c := ColumnOf(t, row, p, COL_END);
    var i :| 0 <= i < |t| && Covers(t[i], row, c);
    k := FirstCover(t, row, c, i);
    hide NoClash, SpanIsFirst, RowWidth, OwnedBefore, TextOffset, Owned;
    OffsetCountsFlaps(t, k, c - t[k].col);
  }

  lemma SpanInsideTheText(t: seq<Member>, i: nat, p: nat)
    requires NoClash(t) && i < |t| && t[i].width != 0 && InSpan(t, i, p)
    ensures p < RowWidth(t, t[i].row)
  {
    hide NoClash, RowWidth, OwnedBefore, TextOffset;
    RowWidthCountsFlaps(t, t[i].row);
    OffsetCountsFlaps(t, i, t[i].width);
    OwnedBeforeGrows(t, t[i].row, t[i].col + t[i].width, COL_END);
  }

  lemma SamePositionSameSpan(t: seq<Member>, i: nat, j: nat, p: nat)
    requires NoClash(t) && i < |t| && j < |t| && t[i].row == t[j].row && t[i].width != 0 && t[j].width != 0
    requires InSpan(t, i, p) && InSpan(t, j, p)
    ensures SameSpan(t[i], t[j])
  {
    hide NoClash, OwnedBefore, TextOffset;
    var row := t[i].row;
    var a := t[i].col + (p - TextOffset(t, row, t[i].col));
    var b := t[j].col + (p - TextOffset(t, row, t[j].col));
    OffsetCountsFlaps(t, i, a - t[i].col);
    OffsetCountsFlaps(t, j, b - t[j].col);
    assert Covers(t[i], row, a) && Covers(t[j], row, b);
    SameCountSameColumn(t, row, a, b);
    NoClashAt(t, i, j);
  }

  /** Two columns with flaps and as many flaps left of them are one column. */
  lemma SameCountSameColumn(t: seq<Member>, row: nat, a: nat, b: nat)
    requires Owned(t, row, a) && Owned(t, row, b) && OwnedBefore(t, row, a) == OwnedBefore(t, row, b)
    ensures a == b
  {
    hide OwnedBefore, Owned;
    if a < b {
      MoreFlapsBefore(t, row, a, b);
    } else if b < a {
      MoreFlapsBefore(t, row, b, a);
    }
  }

  lemma MoreFlapsBefore(t: seq<Member>, row: nat, a: nat, b: nat)
    requires a < b && Owned(t, row, a)
    ensures OwnedBefore(t, row, a) < OwnedBefore(t, row, b)
  {
    hide Owned;
    OwnedBeforeGrows(t, row, a + 1, b);
  }

  // ---- alignment and slices ----------------------------------------------------------------------

  function Blanks(n: nat): string { seq(n, _ => ' ') }

  function Lead(len: nat, width: nat, align: Alignment): nat {
    if len >= width then 0
    else match align case Left => 0 case Right => width - len case Center => (width - len) / 2
  }

  function AlignRow(text: string, width: nat, align: Alignment): (out: string)
    ensures |out| == width
  {
    var len := if |text| > width then width else |text|;
    var lead := Lead(len, width, align);
    seq(width, i requires 0 <= i < width => if i >= lead && i - lead < len then text[i - lead] else ' ')
  }

  /** Shorter text stands between blanks, all of it; longer text keeps its beginning. */
  lemma AlignRowMeaning(text: string, width: nat, align: Alignment)
    ensures var out := AlignRow(text, width, align);
            if |text| >= width then out == text[..width]
            else exists lead: nat, rest: nat ::
              && lead + |text| + rest == width && out == Blanks(lead) + text + Blanks(rest)
              && match align case Left => lead == 0 case Right => rest == 0 case Center => lead <= rest <= lead + 1
  {
    var out := AlignRow(text, width, align);
    if |text| < width {
      var lead := Lead(|text|, width, align);
      assert out == Blanks(lead) + text + Blanks(width - lead - |text|);
    }
  }

  function AlignedRows(rows: seq<string>, t: seq<Member>, align: Alignment): (out: seq<string>)
    ensures |out| == |rows|
  {
    seq(|rows|, r requires 0 <= r < |rows| => AlignRow(rows[r], RowWidth(t, r), align))
  }

  /** Arduino's substring: the bounds are clamped to the string. */
  function Substring(s: string, from: nat, to: nat): string
    requires from <= to
  {
    if from > |s| then [] else if to > |s| then s[from..] else s[from..to]
  }

  function SliceSegment(t: seq<Member>, rows: seq<string>, i: nat): string
    requires i < |t|
  {
    var m := t[i];
    if m.width == 0 || m.row >= |rows| then []
    else
      var from := TextOffset(t, m.row, m.col);
      Substring(rows[m.row], from, from + m.width)
  }

  /** The rows hold exactly the row texts. */
  ghost predicate FilledRows(t: seq<Member>, rows: seq<string>) {
    && (forall i :: 0 <= i < |t| && t[i].width != 0 ==> t[i].row < |rows|)
    && (forall r :: 0 <= r < |rows| ==> |rows[r]| == RowWidth(t, r))
  }

  /** A member's segment is exactly as long as the member is wide. */
  lemma SegmentIsAsWide(t: seq<Member>, rows: seq<string>, i: nat)
    requires NoClash(t) && FilledRows(t, rows) && i < |t|
    ensures |SliceSegment(t, rows, i)| == t[i].width
  {
    hide OwnedBefore, WidthUpTo, NoClash;
    var m := t[i];
    if m.width != 0 {
      RowWidthCountsFlaps(t, m.row);
      OffsetCountsFlaps(t, i, m.width);
      OwnedBeforeGrows(t, m.row, m.col + m.width, COL_END);
    }
  }

  /** Its k-th character is the one as far into the row's text as flaps lie left of it. */
  lemma SegmentShowsItsColumns(t: seq<Member>, rows: seq<string>, i: nat, k: nat)
    requires NoClash(t) && FilledRows(t, rows) && i < |t| && k < t[i].width
    ensures k < |SliceSegment(t, rows, i)|
    ensures var p := OwnedBefore(t, t[i].row, t[i].col + k);
            p < |rows[t[i].row]| && SliceSegment(t, rows, i)[k] == rows[t[i].row][p]
  {
    SegmentIsASlice(t, rows, i);
    hide OwnedBefore, TextOffset, SliceSegment, NoClash, FilledRows;
    OffsetCountsFlaps(t, i, k);
  }

  lemma SegmentIsASlice(t: seq<Member>, rows: seq<string>, i: nat)
    requires NoClash(t) && FilledRows(t, rows) && i < |t| && t[i].width != 0
    ensures t[i].row < |rows|
    ensures var line, offset := rows[t[i].row], TextOffset(t, t[i].row, t[i].col);
      offset + t[i].width <= |line| && SliceSegment(t, rows, i) == line[offset..offset + t[i].width]
  {
    var m := t[i];
    hide OwnedBefore, TextOffset, RowWidth, NoClash;
    RowWidthCountsFlaps(t, m.row);
    OffsetCountsFlaps(t, i, m.width);
    OwnedBeforeGrows(t, m.row, m.col + m.width, COL_END);
  }

  /** Coincident members show the same. */
  lemma TwinsGetTheSame(t: seq<Member>, rows: seq<string>, i: nat, j: nat)
    requires i < |t| && j < |t| && SameSpan(t[i], t[j])
    ensures SliceSegment(t, rows, i) == SliceSegment(t, rows, j)
  {
  }

  function GridWidths(g: Grid): seq<nat>
    requires g.rows <= |g.rowWidth|
  {
    g.rowWidth[..g.rows]
  }

  /** The rows of the wall's text, aligned to the number of flaps of each row. */
  ghost function LaidOutRows(text: string, align: Alignment, t: seq<Member>, g: Grid): seq<string>
    requires GridOf(t, g)
  {
    AlignedRows(Wrapping(text, GridWidths(g)).rows, t, align)
  }

  lemma LaidOutRowsAreFilled(t: seq<Member>, g: Grid, rows: seq<string>, align: Alignment)
    requires GridOf(t, g) && |rows| == g.rows
    ensures FilledRows(t, AlignedRows(rows, t, align))
  {
    forall i | 0 <= i < |t| && t[i].width != 0
      ensures t[i].row < g.rows
    {
      assert Renders(t, t[i].row);
    }
  }

  method AlignAndSlice(rows0: seq<string>, align: Alignment, t: seq<Member>, g: Grid) returns (segments: seq<string>)
    requires GridOf(t, g) && |rows0| == g.rows
    ensures |segments| == |t|
    ensures forall i :: 0 <= i < |t| ==> segments[i] == SliceSegment(t, AlignedRows(rows0, t, align), i)
  {
    var rows := rows0;
    for r := 0 to g.rows
      invariant |rows| == g.rows
      invariant forall q :: 0 <= q < r ==> rows[q] == AlignRow(rows0[q], RowWidth(t, q), align)
      invariant forall q :: r <= q < g.rows ==> rows[q] == rows0[q]
    {
      rows := rows[r := AlignRow(rows[r], g.rowWidth[r], align)];
    }
    assert rows == AlignedRows(rows0, t, align);
    segments := [];
    for i := 0 to |t|
      invariant |segments| == i
      invariant forall j :: 0 <= j < i ==> segments[j] == SliceSegment(t, rows, j)
    {
      segments := segments + [SliceSegment(t, rows, i)];
    }
  }

  method LayoutGridText(text: string, align: Alignment, t: seq<Member>) returns (ok: bool, segments: seq<string>, ghost g: Grid)
    ensures ok <==> ValidTable(t)
    ensures ok ==> GridOf(t, g) && |segments| == |t|
    ensures ok ==> forall i :: 0 <= i < |t| ==> segments[i] == SliceSegment(t, LaidOutRows(text, align, t, g), i)
  {
    segments := [];
    var verdict, grid := Validate(t);
    g := grid;
    ok := verdict == Fine;
    if ok {
      var rows := WrapRows(text, GridWidths(grid));
      segments := AlignAndSlice(rows, align, t, grid);
    }
  }

  /** Time on row 0, the date on row 1 when there is one, blank below. */
  method ClockSegments(timeText: string, dateText: string, align: Alignment, t: seq<Member>)
    returns (ok: bool, segments: seq<string>, ghost g: Grid)
    ensures ok <==> ValidTable(t)
    ensures ok ==> GridOf(t, g) && g.rows > 0 && |segments| == |t|
    ensures ok ==> var rows := seq(g.rows, r => if r == 0 then timeText else if r == 1 then dateText else []);
      forall i :: 0 <= i < |t| ==> segments[i] == SliceSegment(t, AlignedRows(rows, t, align), i)
  {
    segments := [];
    var verdict, grid := Validate(t);
    g := grid;
    ok := verdict == Fine;
    if ok {
      assert grid.rows > 0 by {
        var i :| 0 <= i < |t| && t[i].width != 0;
        assert Renders(t, t[i].row);
      }
      var rows := BlankRows(grid.rows)[0 := timeText];
      if grid.rows >= 2 { rows := rows[1 := dateText]; }
      assert rows == seq(g.rows, r => if r == 0 then timeText else if r == 1 then dateText else []);
      segments := AlignAndSlice(rows, align, t, grid);
    }
  }

  // ---- the wall mirrored --------------------------------------------------------------------------

  predicate IsSelf(m: Member) { m.host == [] }

  /** The last of the first `n` members, own slots or others, that covers a column. */
  function LastCover(t: seq<Member>, self: bool, row: nat, c: nat, n: nat): (k: nat)
    requires n <= |t|
    ensures k <= n
    ensures k > 0 ==> Covers(t[k - 1], row, c) && IsSelf(t[k - 1]) == self
    ensures forall i :: k <= i < n ==> !(Covers(t[i], row, c) && IsSelf(t[i]) == self)
  {
    if n == 0 then 0
    else if Covers(t[n - 1], row, c) && IsSelf(t[n - 1]) == self then n
    else LastCover(t, self, row, c, n - 1)
  }

  function SlotText(t: seq<Member>, segments: seq<string>, selfText: string, selfAlign: Alignment, i: nat): (s: string)
    requires i < |t| == |segments|
    ensures |s| == t[i].width
  {
    if IsSelf(t[i]) then AlignRow(selfText, t[i].width, selfAlign) else AlignRow(segments[i], t[i].width, Left)
  }

  /** What a column of the mirror shows: an own slot's live text before anything,
      then the last other member's segment, else a blank. */
  function MirrorCell(t: seq<Member>, segments: seq<string>, selfText: string, selfAlign: Alignment, row: nat, c: nat): char
    requires |t| == |segments|
  {
    var own, other := LastCover(t, true, row, c, |t|), LastCover(t, false, row, c, |t|);
    if own > 0 then SlotText(t, segments, selfText, selfAlign, own - 1)[c - t[own - 1].col]
    else if other > 0 then SlotText(t, segments, selfText, selfAlign, other - 1)[c - t[other - 1].col]
    else ' '
  }

  /** Writes one slot into its row. */
  method DrawSlot(rows0: seq<string>, m: Member, slot: string) returns (rows: seq<string>)
    requires |slot| == m.width
    requires m.width != 0 ==> m.row < |rows0| && m.col + m.width <= |rows0[m.row]|
    ensures |rows| == |rows0| && forall r :: 0 <= r < |rows| ==> |rows[r]| == |rows0[r]|
    ensures forall r, c :: 0 <= r < |rows| && 0 <= c < |rows[r]| ==>
      rows[r][c] == if Covers(m, r, c) then slot[c - m.col] else rows0[r][c]
  {
    rows := rows0;
    for c := 0 to m.width
      invariant |rows| == |rows0| && forall r :: 0 <= r < |rows| ==> |rows[r]| == |rows0[r]|
      invariant forall r, x :: 0 <= r < |rows| && 0 <= x < |rows[r]| ==>
        rows[r][x] == if Covers(m, r, x) && x < m.col + c then slot[x - m.col] else rows0[r][x]
    {
      rows := rows[m.row := rows[m.row][m.col + c := slot[c]]];
    }
  }

  method MirrorRows(t: seq<Member>, segments: seq<string>, selfText: string, selfAlign: Alignment)
    returns (rows: seq<string>)
    requires |segments| == |t|
    ensures !ValidTable(t) ==> rows == []
    ensures ValidTable(t) ==>
      && (forall r :: 0 <= r < |rows| <==> r >= 0 && Renders(t, r))
      && (forall r :: 0 <= r < |rows| ==> |rows[r]| == RowExtent(t, r))
      && (forall r, c :: 0 <= r < |rows| && 0 <= c < |rows[r]| ==>
            rows[r][c] == MirrorCell(t, segments, selfText, selfAlign, r, c))
  {
    var verdict, g := Validate(t);
    if verdict != Fine { return []; }
    rows := seq(g.rows, r requires 0 <= r < g.rows => AlignRow([], g.rowExtent[r], Left));
    assert forall i :: 0 <= i < |t| && t[i].width != 0 ==> Renders(t, t[i].row);
    ghost var blank := rows;
    assert RoomForAll(t, blank);
    rows := DrawPass(t, segments, selfText, selfAlign, false, rows);
    rows := DrawPass(t, segments, selfText, selfAlign, true, rows);
    forall r, c | 0 <= r < |rows| && 0 <= c < |rows[r]|
      ensures rows[r][c] == MirrorCell(t, segments, selfText, selfAlign, r, c)
    {
      hide DrawnCell, MirrorCell;
      assert blank[r][c] == ' ';
      TwoPasses(t, segments, selfText, selfAlign, r, c);
    }
  }

  /** A column after the first `n` members, own slots or others, were drawn on `below`. */
  function DrawnCell(t: seq<Member>, segments: seq<string>, selfText: string, selfAlign: Alignment, self: bool,
                     row: nat, c: nat, n: nat, below: char): char
    requires |segments| == |t| && n <= |t|
  {
    var k := LastCover(t, self, row, c, n);
    if k > 0 then SlotText(t, segments, selfText, selfAlign, k - 1)[c - t[k - 1].col] else below
  }

  lemma DrawnCellStep(t: seq<Member>, segments: seq<string>, selfText: string, selfAlign: Alignment, self: bool,
                      row: nat, c: nat, n: nat, below: char)
    requires |segments| == |t| && n < |t|
    ensures DrawnCell(t, segments, selfText, selfAlign, self, row, c, n + 1, below)
         == if IsSelf(t[n]) == self && Covers(t[n], row, c)
            then SlotText(t, segments, selfText, selfAlign, n)[c - t[n].col]
            else DrawnCell(t, segments, selfText, selfAlign, self, row, c, n, below)
  {
    hide SlotText;
  }

  lemma TwoPasses(t: seq<Member>, segments: seq<string>, selfText: string, selfAlign: Alignment, row: nat, c: nat)
    requires |segments| == |t|
    ensures DrawnCell(t, segments, selfText, selfAlign, true, row, c, |t|,
                      DrawnCell(t, segments, selfText, selfAlign, false, row, c, |t|, ' '))
         == MirrorCell(t, segments, selfText, selfAlign, row, c)
  {
    hide SlotText;
  }

  lemma RoomFor(t: seq<Member>, rows: seq<string>, i: nat)
    requires RoomForAll(t, rows) && i < |t| && t[i].width != 0
    ensures t[i].row < |rows| && t[i].col + t[i].width <= |rows[t[i].row]|
  {
  }

  lemma SameRoom(t: seq<Member>, was: seq<string>, rows: seq<string>)
    requires RoomForAll(t, was) && |rows| == |was| && forall r :: 0 <= r < |rows| ==> |rows[r]| == |was[r]|
    ensures RoomForAll(t, rows)
  {
  }

  /** The rows can take every member's slot. */
  ghost predicate RoomForAll(t: seq<Member>, rows: seq<string>) {
    && (forall r :: 0 <= r < |rows| ==> |rows[r]| == RowExtent(t, r))
    && (forall i :: 0 <= i < |t| && t[i].width != 0 ==> t[i].row < |rows|)
  }

  /** `rows` is `below` with the first `n` members, own slots or others, drawn on it. */
  ghost predicate Drawn(t: seq<Member>, segments: seq<string>, selfText: string, selfAlign: Alignment, self: bool,
                        n: nat, below: seq<string>, rows: seq<string>)
    requires |segments| == |t| && n <= |t|
  {
    && |rows| == |below|
    && (forall r :: 0 <= r < |rows| ==> |rows[r]| == |below[r]|)
    && (forall r, c :: 0 <= r < |rows| && 0 <= c < |rows[r]| ==>
          rows[r][c] == DrawnCell(t, segments, selfText, selfAlign, self, r, c, n, below[r][c]))
  }

  lemma DrawnNone(t: seq<Member>, segments: seq<string>, selfText: string, selfAlign: Alignment, self: bool,
                  rows: seq<string>)
    requires |segments| == |t|
    ensures Drawn(t, segments, selfText, selfAlign, self, 0, rows, rows)
  {
    hide SlotText;
  }

  lemma DrawnOneMore(t: seq<Member>, segments: seq<string>, selfText: string, selfAlign: Alignment, self: bool,
                     n: nat, below: seq<string>, was: seq<string>, rows: seq<string>)
    requires |segments| == |t| && n < |t| && Drawn(t, segments, selfText, selfAlign, self, n, below, was)
    requires |rows| == |was| && forall r :: 0 <= r < |rows| ==> |rows[r]| == |was[r]|
    requires forall r, c :: 0 <= r < |rows| && 0 <= c < |rows[r]| ==>
      rows[r][c] == if IsSelf(t[n]) == self && Covers(t[n], r, c)
                    then SlotText(t, segments, selfText, selfAlign, n)[c - t[n].col] else was[r][c]
    ensures Drawn(t, segments, selfText, selfAlign, self, n + 1, below, rows)
  {
    hide DrawnCell, SlotText, Covers;
    forall r, c | 0 <= r < |rows| && 0 <= c < |rows[r]|
      ensures rows[r][c] == DrawnCell(t, segments, selfText, selfAlign, self, r, c, n + 1, below[r][c])
    {
      DrawnCellStep(t, segments, selfText, selfAlign, self, r, c, n, below[r][c]);
    }
  }

  method DrawPass(t: seq<Member>, segments: seq<string>, selfText: string, selfAlign: Alignment, self: bool,
                  rows0: seq<string>)
    returns (rows: seq<string>)
    requires |segments| == |t| && RoomForAll(t, rows0)
    ensures RoomForAll(t, rows) && Drawn(t, segments, selfText, selfAlign, self, |t|, rows0, rows)
  {
    hide Drawn, DrawnCell, RoomForAll, SlotText, LastCover, Covers;
    rows := rows0;
    DrawnNone(t, segments, selfText, selfAlign, self, rows);
    for i := 0 to |t|
      invariant RoomForAll(t, rows) && Drawn(t, segments, selfText, selfAlign, self, i, rows0, rows)
    {
      ghost var was := rows;
      if IsSelf(t[i]) == self {
        if t[i].width != 0 { RoomFor(t, rows, i); }
        rows := DrawSlot(rows, t[i], SlotText(t, segments, selfText, selfAlign, i));
      }
      SameRoom(t, was, rows);
      DrawnOneMore(t, segments, selfText, selfAlign, self, i, rows0, was, rows);
    }
  }

  /** The mirror undoes the slicing: where no own slot lies over it, a column with a flap
      shows the character of the row's text as far in as flaps lie left of it, and a gap
      is blank. */
  lemma MirrorUndoesLayout(t: seq<Member>, texts: seq<string>, segments: seq<string>, selfText: string,
                           selfAlign: Alignment, row: nat, c: nat)
    requires ValidTable(t) && FilledRows(t, texts) && |segments| == |t|
    requires forall i :: 0 <= i < |t| ==> segments[i] == SliceSegment(t, texts, i)
    requires LastCover(t, true, row, c, |t|) == 0
    ensures Owned(t, row, c) ==> row < |texts| && OwnedBefore(t, row, c) < |texts[row]|
    ensures MirrorCell(t, segments, selfText, selfAlign, row, c)
         == if Owned(t, row, c) then texts[row][OwnedBefore(t, row, c)] else ' '
  {
    hide AlignRow, SliceSegment, OwnedBefore, GridOf, LastCover;
    var other := LastCover(t, false, row, c, |t|);
    if other > 0 {
      var i := other - 1;
      SegmentIsAsWide(t, texts, i);
      SegmentShowsItsColumns(t, texts, i, c - t[i].col);
      AlignExact(segments[i]);
    } else {
      assert !Owned(t, row, c);
    }
  }

  lemma AlignExact(s: string)
    ensures AlignRow(s, |s|, Left) == s
  {
  }

  /** Reads a row left to right, flaps only. */
  function ReadFlaps(t: seq<Member>, row: nat, line: string, x: nat): string
    requires x <= |line|
  {
    if x == 0 then []
    else ReadFlaps(t, row, line, x - 1) + if Owned(t, row, x - 1) then [line[x - 1]] else []
  }

  lemma {:induction false} FlapsSpell(t: seq<Member>, row: nat, line: string, text: string, x: nat)
    requires x <= |line| && OwnedBefore(t, row, x) <= |text|
    requires forall c :: 0 <= c < x && Owned(t, row, c) ==>
      OwnedBefore(t, row, c) < |text| && line[c] == text[OwnedBefore(t, row, c)]
    ensures ReadFlaps(t, row, line, x) == text[..OwnedBefore(t, row, x)]
  {
    if x > 0 {
      FlapsSpell(t, row, line, text, x - 1);
    }
  }

  /** No own slot lies in the row. */
  predicate NoneOwn(t: seq<Member>, row: nat) {
    forall i :: 0 <= i < |t| && t[i].width != 0 && t[i].row == row ==> t[i].host != ""
  }

  lemma NoOwnCover(t: seq<Member>, row: nat, c: nat)
    requires NoneOwn(t, row)
    ensures LastCover(t, true, row, c, |t|) == 0
  {
    hide LastCover;
  }

  /** Read left to right over its flaps, a mirrored row spells the row's text. */
  lemma MirrorSpellsTheText(t: seq<Member>, texts: seq<string>, segments: seq<string>, selfText: string,
                            selfAlign: Alignment, row: nat, line: string)
    requires ValidTable(t) && FilledRows(t, texts) && |segments| == |t| && row < |texts|
    requires forall i :: 0 <= i < |t| ==> segments[i] == SliceSegment(t, texts, i)
    requires NoneOwn(t, row)
    requires |line| == RowExtent(t, row)
    requires forall c :: 0 <= c < |line| ==> line[c] == MirrorCell(t, segments, selfText, selfAlign, row, c)
    ensures ReadFlaps(t, row, line, |line|) == texts[row]
    ensures forall c :: 0 <= c < |line| && !Owned(t, row, c) ==> line[c] == ' '
  {
    hide ValidTable, MirrorCell, SliceSegment, OwnedBefore, ReadFlaps, RowExtent, Owned, NoneOwn;
    assert NoClash(t) by { ValidHasNoClash(t); }
    RowWidthCountsFlaps(t, row);
    forall c | 0 <= c < |line|
      ensures Owned(t, row, c) ==> OwnedBefore(t, row, c) < |texts[row]| && line[c] == texts[row][OwnedBefore(t, row, c)]
      ensures !Owned(t, row, c) ==> line[c] == ' '
    {
      NoOwnCover(t, row, c);
      MirrorUndoesLayout(t, texts, segments, selfText, selfAlign, row, c);
    }
    FlapsSpell(t, row, line, texts[row], |line|);
  }

  lemma ValidHasNoClash(t: seq<Member>)
    requires ValidTable(t)
    ensures NoClash(t)
  {
  }

  /** What column `c` shows of the row's text `shown`: the live text where an own slot lies,
      else the character its flap counts to, else a blank. */
  predicate ShowsColumn(t: seq<Member>, shown: string, selfText: string, selfAlign: Alignment, row: nat, c: nat, cell: char) {
    var own := LastCover(t, true, row, c, |t|);
    if own > 0 then cell == AlignRow(selfText, t[own - 1].width, selfAlign)[c - t[own - 1].col]
    else if Owned(t, row, c) then OwnedBefore(t, row, c) < |shown| && cell == shown[OwnedBefore(t, row, c)]
    else cell == ' '
  }

  lemma MirrorShowsColumn(t: seq<Member>, texts: seq<string>, segments: seq<string>, selfText: string,
                          selfAlign: Alignment, row: nat, c: nat)
    requires ValidTable(t) && FilledRows(t, texts) && |segments| == |t| && row < |texts|
    requires forall i :: 0 <= i < |t| ==> segments[i] == SliceSegment(t, texts, i)
    ensures ShowsColumn(t, texts[row], selfText, selfAlign, row, c, MirrorCell(t, segments, selfText, selfAlign, row, c))
  {
    if LastCover(t, true, row, c, |t|) == 0 {
      MirrorUndoesLayout(t, texts, segments, selfText, selfAlign, row, c);
    }
    hide ValidTable, FilledRows, SliceSegment, OwnedBefore, Owned, LastCover, AlignRow;
  }

  /** The whole way round: wrap, align, slice, mirror. Whatever the text and the table,
      every column of the wall shows what it should of the wrapped and aligned line; and
      the flaps of a row without an own slot spell that line. */
  lemma WallShowsTheText(text: string, align: Alignment, t: seq<Member>, g: Grid, segments: seq<string>,
                         selfText: string, selfAlign: Alignment, row: nat, line: string)
    requires ValidTable(t) && GridOf(t, g) && |segments| == |t| && row < g.rows
    requires forall i :: 0 <= i < |t| ==> segments[i] == SliceSegment(t, LaidOutRows(text, align, t, g), i)
    requires |line| == RowExtent(t, row)
    requires forall c :: 0 <= c < |line| ==> line[c] == MirrorCell(t, segments, selfText, selfAlign, row, c)
    ensures var shown := AlignRow(Wrapping(text, GridWidths(g)).rows[row], RowWidth(t, row), align);
      && (forall c :: 0 <= c < |line| ==> ShowsColumn(t, shown, selfText, selfAlign, row, c, line[c]))
      && (NoneOwn(t, row) ==> ReadFlaps(t, row, line, |line|) == shown)
  {
    var texts := LaidOutRows(text, align, t, g);
    hide ValidTable, SliceSegment, ReadFlaps, RowExtent, NoneOwn, GridOf, AlignRow, ShowsColumn, MirrorCell, FilledRows;
    LaidOutRowsAreFilled(t, g, Wrapping(text, GridWidths(g)).rows, align);
    if NoneOwn(t, row) { MirrorSpellsTheText(t, texts, segments, selfText, selfAlign, row, line); }
    forall c | 0 <= c < |line|
      ensures ShowsColumn(t, texts[row], selfText, selfAlign, row, c, line[c])
    {
      MirrorShowsColumn(t, texts, segments, selfText, selfAlign, row, c);
    }
  }

  /** The own slot drawn last over a column is a twin of any other own slot there. */
  lemma OwnSlotDrawn(t: seq<Member>, i: nat, c: nat)
    requires ValidTable(t) && i < |t| && IsSelf(t[i]) && Covers(t[i], t[i].row, c)
    ensures var n := LastCover(t, true, t[i].row, c, |t|);
      n > 0 && IsSelf(t[n - 1]) && t[n - 1].col == t[i].col && t[n - 1].width == t[i].width
  {
    assert NoClash(t);
    hide LastCover, ValidTable, NoClash;
    var n := LastCover(t, true, t[i].row, c, |t|);
    assert n > i;
    NoClashAt(t, i, n - 1);
  }

  /** An own slot shows the live text, also over a twin with another segment. */
  lemma OwnSlotWins(t: seq<Member>, segments: seq<string>, selfText: string, selfAlign: Alignment, i: nat, c: nat)
    requires ValidTable(t) && |segments| == |t| && i < |t| && t[i].host == "" && Covers(t[i], t[i].row, c)
    ensures MirrorCell(t, segments, selfText, selfAlign, t[i].row, c)
         == AlignRow(selfText, t[i].width, selfAlign)[c - t[i].col]
  {
    OwnSlotDrawn(t, i, c);
    hide AlignRow, LastCover, ValidTable, Covers;
    var k := LastCover(t, true, t[i].row, c, |t|) - 1;
    assert SlotText(t, segments, selfText, selfAlign, k) == AlignRow(selfText, t[i].width, selfAlign);
  }
}
