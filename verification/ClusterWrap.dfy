/** ClusterLayout.h, first half: wrapping a text onto rows of given widths. The
    loop over characters is proved against a greedy placement of words, and the
    placement is proved lossless, tidy and optimal. */
module ClusterWrap {

  datatype Token = Word(chars: string) | Break

  // ---- the text as words and breaks ------------------------------------------------

  /** The wire's two-character marker and a raw newline are the same break. */
  function NormalBreaks(s: string): string {
    if s == [] then []
    else if |s| >= 2 && s[0] == '\\' && s[1] == 'n' then ['\n'] + NormalBreaks(s[2..])
    else [s[0]] + NormalBreaks(s[1..])
  }

  predicate Solid(s: string) {
    forall i :: 0 <= i < |s| ==> s[i] != ' ' && s[i] != '\n'
  }

  function WordLen(s: string): (n: nat)
    ensures n <= |s| && Solid(s[..n]) && (n < |s| ==> s[n] == ' ' || s[n] == '\n')
  {
    if s == [] || s[0] == ' ' || s[0] == '\n' then 0
    else
      var n := 1 + WordLen(s[1..]);
      assert s[..n] == [s[0]] + s[1..][..n - 1];
      n
  }

  function Tokens(s: string): seq<Token>
    decreases |s|
  {
    if s == [] then []
    else if s[0] == ' ' then Tokens(s[1..])
    else if s[0] == '\n' then [Break] + Tokens(s[1..])
    else [Word(s[..WordLen(s)])] + Tokens(s[WordLen(s)..])
  }

  ghost predicate Proper(toks: seq<Token>) {
    forall i :: 0 <= i < |toks| && toks[i].Word? ==> toks[i].chars != [] && Solid(toks[i].chars)
  }

  lemma {:induction false} TokensAreProper(s: string)
    ensures Proper(Tokens(s))
    decreases |s|
  {
    if s != [] {
      if s[0] == ' ' || s[0] == '\n' {
        TokensAreProper(s[1..]);
      } else {
        TokensAreProper(s[WordLen(s)..]);
      }
    }
  }

  /** What is left of a text without spaces and breaks. */
  function Letters(s: string): string {
    if s == [] then []
    else (if s[0] == ' ' || s[0] == '\n' then [] else [s[0]]) + Letters(s[1..])
  }

  function LettersOf(toks: seq<Token>): string {
    if toks == [] then []
    else (match toks[0] case Word(w) => w case Break => []) + LettersOf(toks[1..])
  }

  lemma Grouped(a: string, b: string, c: string)
    ensures a + (b + c) == (a + b) + c
  {
  }

  lemma {:induction false} LettersConcat(a: string, b: string)
    ensures Letters(a + b) == Letters(a) + Letters(b)
  {
    if a == [] {
      assert a + b == b;
    } else {
      var first := if a[0] == ' ' || a[0] == '\n' then [] else [a[0]];
      LettersConcat(a[1..], b);
      assert (a + b)[1..] == a[1..] + b && (a + b)[0] == a[0];
      assert Letters(a + b) == first + Letters(a[1..] + b);
      hide Letters;
      Grouped(first, Letters(a[1..]), Letters(b));
    }
  }

  lemma {:induction false} LettersOfSolid(w: string)
    requires Solid(w)
    ensures Letters(w) == w
  {
    if w != [] {
      LettersOfSolid(w[1..]);
    }
  }

  /** Cutting a text into words loses no letter and keeps their order. */
  lemma {:induction false} TokensKeepLetters(s: string)
    ensures LettersOf(Tokens(s)) == Letters(s)
    decreases |s|
  {
    if s != [] {
      if s[0] == ' ' || s[0] == '\n' {
        TokensKeepLetters(s[1..]);
      } else {
        var n := WordLen(s);
        TokensKeepLetters(s[n..]);
        LettersOfSolid(s[..n]);
        LettersConcat(s[..n], s[n..]);
        assert s == s[..n] + s[n..];
      }
    }
  }

  // ---- greedy placement ----------------------------------------------------------------

  /** The rows so far, the row being filled, and the tokens not placed. */
  datatype Wrapped = Wrapped(rows: seq<string>, row: nat, left: seq<Token>)

  function Need(pos: nat, len: nat): nat {
    if pos == 0 then len else pos + 1 + len
  }

  function Joined(line: string, w: string): string {
    if line == [] then w else line + [' '] + w
  }

  /** Fills the remainder of a row with a word wider than it, then the rows below. */
  function Split(widths: seq<nat>, rows: seq<string>, row: nat, w: string): (out: Wrapped)
    requires |rows| == |widths|
    ensures |out.rows| == |rows|
    decreases |rows| - row
  {
    if w == [] then Wrapped(rows, row, [])
    else if row >= |widths| then Wrapped(rows, row, [Word(w)])
    else
      var pos := |rows[row]|;
      if pos > 0 && pos + 1 >= widths[row] then Split(widths, rows, row + 1, w)
      else
        var room := if pos > 0 then widths[row] - pos - 1 else widths[row];
        if |w| <= room then Wrapped(rows[row := Joined(rows[row], w)], row, [])
        else Split(widths, rows[row := Joined(rows[row], w[..room])], row + 1, w[room..])
  }

  datatype Placement = Placed(at: Wrapped) | NoRoom

  function Place(widths: seq<nat>, rows: seq<string>, row: nat, w: string): (p: Placement)
    requires |rows| == |widths| && row < |widths|
    ensures p.Placed? ==> |p.at.rows| == |rows|
  {
    if Need(|rows[row]|, |w|) <= widths[row] then
      Placed(Wrapped(rows[row := Joined(rows[row], w)], row, []))
    else if row + 1 < |widths| && |w| <= widths[row + 1] then
      Placed(Wrapped(rows[row + 1 := w], row + 1, []))
    else if |w| <= widths[row] then NoRoom
    else Placed(Split(widths, rows, row, w))
  }

  function Wrap(widths: seq<nat>, rows: seq<string>, row: nat, toks: seq<Token>): (out: Wrapped)
    requires |rows| == |widths|
    ensures |out.rows| == |rows|
    decreases |toks|
  {
    if toks == [] || row >= |widths| then Wrapped(rows, row, toks)
    else
      match toks[0]
      case Break => Wrap(widths, rows, row + 1, toks[1..])
      case Word(w) =>
        match Place(widths, rows, row, w)
        case NoRoom => Wrapped(rows, row, toks)
        case Placed(at) =>
          if at.left != [] then at.(left := at.left + toks[1..])
          else Wrap(widths, at.rows, at.row, toks[1..])
  }

  /** One token on. */
  lemma WrapStep(widths: seq<nat>, rows: seq<string>, row: nat, token: Token, rest: seq<Token>)
    requires row < |rows| == |widths|
    ensures Wrap(widths, rows, row, [token] + rest) ==
      match token
      case Break => Wrap(widths, rows, row + 1, rest)
      case Word(w) =>
        match Place(widths, rows, row, w)
        case NoRoom => Wrapped(rows, row, [token] + rest)
        case Placed(at) =>
          if at.left != [] then at.(left := at.left + rest) else Wrap(widths, at.rows, at.row, rest)
  {
    assert ([token] + rest)[1..] == rest;
    hide Place;
  }

  lemma WrapEnds(widths: seq<nat>, rows: seq<string>, row: nat, toks: seq<Token>)
    requires |rows| == |widths|
    ensures toks == [] || row >= |widths| ==> Wrap(widths, rows, row, toks) == Wrapped(rows, row, toks)
  {
  }

  function BlankRows(n: nat): (rows: seq<string>)
    ensures |rows| == n
  {
    seq(n, _ => [])
  }

  function Wrapping(text: string, widths: seq<nat>): Wrapped {
    Wrap(widths, BlankRows(|widths|), 0, Tokens(NormalBreaks(text)))
  }

  // ---- the loop over characters -----------------------------------------------------------

  lemma WordAt(s: string, i: nat, j: nat)
    requires i < j <= |s| && Solid(s[i..j]) && (j < |s| ==> s[j] == ' ' || s[j] == '\n')
    ensures Tokens(s[i..]) == [Word(s[i..j])] + Tokens(s[j..])
  {
    var t := s[i..];
    assert s[i] == s[i..j][0] && t[..j - i] == s[i..j] && t[j - i..] == s[j..];
    WordLenIs(t, j - i);
  }

  lemma {:induction false} WordLenIs(t: string, n: nat)
    requires n <= |t| && Solid(t[..n]) && (n < |t| ==> t[n] == ' ' || t[n] == '\n')
    ensures WordLen(t) == n
  {
    if n > 0 {
      assert t[0] == t[..n][0];
      assert t[1..][..n - 1] == t[..n][1..];
      WordLenIs(t[1..], n - 1);
    }
  }

  lemma SpaceAt(s: string, i: nat)
    requires i < |s| && s[i] == ' '
    ensures Tokens(s[i..]) == Tokens(s[i + 1..])
  {
    assert s[i..][1..] == s[i + 1..];
  }

  lemma BreakAt(s: string, i: nat)
    requires i < |s| && s[i] == '\n'
    ensures Tokens(s[i..]) == [Break] + Tokens(s[i + 1..])
  {
    assert s[i..][1..] == s[i + 1..];
  }

  /** The hard split, in place: `rows` and the row reached. */
  method SplitRows(widths: seq<nat>, rows0: seq<string>, row0: nat, w: string) returns (rows: seq<string>, row: nat)
    requires |rows0| == |widths|
    ensures var out := Split(widths, rows0, row0, w);
            rows == out.rows && row == out.row && (out.left != [] ==> row >= |widths|)
  {
    hide Split, Joined;
    rows, row := rows0, row0;
    var i := 0;
    assert w[0..] == w;
    while i < |w| && row < |widths|
      invariant i <= |w| && |rows| == |widths|
      invariant Split(widths, rows, row, w[i..]) == Split(widths, rows0, row0, w)
      decreases |w| - i, |widths| - row
    {
      ghost var rest, was := w[i..], rows;
      SplitStep(widths, rows, row, rest);
      var width := widths[row];
      var pos := |rows[row]|;
      var line := rows[row];
      if pos > 0 {
        if pos + 1 >= width {
          row := row + 1;
          continue;
        }
        line := line + [' '];
        pos := pos + 1;
      }
      var take := if width - pos > |w| - i then |w| - i else width - pos;
      RestOf(w, i, take);
      JoinedInPlace(was[row], line, rest[..take]);
      rows := rows[row := line + w[i..i + take]];
      i := i + take;
      if i == |w| { SplitStep(widths, rows, row, w[i..]); }
      if i < |w| { row := row + 1; }
    }
    SplitStep(widths, rows, row, w[i..]);
  }

  lemma RestOf(w: string, i: nat, n: nat)
    requires i + n <= |w|
    ensures w[i..][..n] == w[i..i + n] && w[i..][n..] == w[i + n..]
  {
  }

  lemma JoinedInPlace(was: string, line: string, w: string)
    requires line == if was == [] then was else was + [' ']
    ensures line + w == Joined(was, w)
  {
  }

  /** One past the last character of the word at `i`. */
  method WordEnd(s: string, i: nat) returns (j: nat)
    requires i < |s| && s[i] != ' ' && s[i] != '\n'
    ensures i < j <= |s| && Solid(s[i..j]) && Tokens(s[i..]) == [Word(s[i..j])] + Tokens(s[j..])
  {
    j := i;
    while j < |s| && s[j] != ' ' && s[j] != '\n'
      invariant i <= j <= |s| && Solid(s[i..j])
    {
      assert s[i..j + 1] == s[i..j] + [s[j]];
      j := j + 1;
    }
    WordAt(s, i, j);
  }

  /** One word, in place: into this row, the next, or split from here on. */
  method PlaceWord(widths: seq<nat>, rows0: seq<string>, row0: nat, w: string)
    returns (placed: bool, rows: seq<string>, row: nat)
    requires |rows0| == |widths| && row0 < |widths|
    ensures match Place(widths, rows0, row0, w)
      case NoRoom => !placed && rows == rows0
      case Placed(at) => placed && rows == at.rows && row == at.row && (at.left != [] ==> row >= |widths|)
  {
    hide Split;
    rows, row := rows0, row0;
    var width, pos := widths[row], |rows[row]|;
    var need := if pos == 0 then |w| else pos + 1 + |w|;
    placed := true;
    if need <= width {
      rows := rows[row := if pos > 0 then rows[row] + [' '] + w else w];
    } else if row + 1 < |widths| && |w| <= widths[row + 1] {
      row := row + 1;
      rows := rows[row := w];
    } else if |w| <= width {
      placed := false;
    } else {
      rows, row := SplitRows(widths, rows, row, w);
    }
  }

  method SkipSpaces(s: string, i0: nat) returns (i: nat)
    requires i0 <= |s|
    ensures i0 <= i <= |s| && (i < |s| ==> s[i] != ' ') && Tokens(s[i..]) == Tokens(s[i0..])
  {
    hide Tokens;
    i := i0;
    while i < |s| && s[i] == ' '
      invariant i0 <= i <= |s| && Tokens(s[i..]) == Tokens(s[i0..])
    {
      SpaceAt(s, i);
      i := i + 1;
    }
  }

  method WrapRows(text: string, widths: seq<nat>) returns (rows: seq<string>)
    ensures rows == Wrapping(text, widths).rows
  {
    var s := NormalBreaks(text);
    var i: nat, row: nat := 0, 0;
    rows := BlankRows(|widths|);
    assert s[0..] == s;
    assert Wrap(widths, rows, row, Tokens(s[0..])).rows == Wrapping(text, widths).rows;
    assert Tokens([]) == [];
    hide Tokens, Wrapping, NormalBreaks, BlankRows, Solid, Wrap, Place;
    while i < |s| && row < |widths|
      invariant i <= |s| && |rows| == |widths|
      invariant Wrap(widths, rows, row, Tokens(s[i..])).rows == Wrapping(text, widths).rows
      decreases |s| - i
    {
      i := SkipSpaces(s, i);
      if i >= |s| {
        assert s[i..] == [];
        break;
      }
      if s[i] == '\n' {
        BreakAt(s, i);
        WrapStep(widths, rows, row, Break, Tokens(s[i + 1..]));
        row, i := row + 1, i + 1;
        continue;
      }
      var j := WordEnd(s, i);
      WrapStep(widths, rows, row, Word(s[i..j]), Tokens(s[j..]));
      var placed: bool;
      placed, rows, row := PlaceWord(widths, rows, row, s[i..j]);
      if !placed { break; }
      WrapEnds(widths, rows, row, Tokens(s[j..]));
      i := j;
    }
    WrapEnds(widths, rows, row, Tokens(s[i..]));
  }

  // ---- what wrapping keeps -----------------------------------------------------------------

  /** No leading, trailing or double spaces, and no break. */
  ghost predicate Tidy(line: string) {
    && (line != [] ==> line[0] != ' ' && line[|line| - 1] != ' ')
    && (forall i :: 0 <= i < |line| ==> line[i] != '\n')
    && (forall i :: 0 <= i < |line| - 1 ==> !(line[i] == ' ' && line[i + 1] == ' '))
  }

  ghost predicate Fitting(widths: seq<nat>, rows: seq<string>, row: nat) {
    && |rows| == |widths|
    && (forall r :: 0 <= r < |rows| ==> |rows[r]| <= widths[r] && Tidy(rows[r]))
    && (forall r :: row < r < |rows| ==> rows[r] == [])
  }

  lemma JoinedIsTidy(line: string, w: string)
    requires Tidy(line) && Solid(w) && w != []
    ensures Tidy(Joined(line, w)) && |Joined(line, w)| == Need(|line|, |w|)
  {
  }

  lemma FittingBelow(widths: seq<nat>, rows: seq<string>, row: nat)
    requires Fitting(widths, rows, row)
    ensures Fitting(widths, rows, row + 1)
  {
  }

  function Room(widths: seq<nat>, rows: seq<string>, row: nat): int
    requires row < |rows| == |widths|
  {
    var pos := |rows[row]|;
    if pos > 0 then widths[row] - pos - 1 else widths[row]
  }

  /** As much of a word as its row has room for. */
  lemma CutFits(widths: seq<nat>, rows: seq<string>, row: nat, w: string, n: nat)
    requires Fitting(widths, rows, row) && row < |widths| && Solid(w) && n <= |w| && n <= Room(widths, rows, row)
    requires rows[row] == [] || n > 0
    ensures Fitting(widths, rows[row := Joined(rows[row], w[..n])], row)
  {
    if n > 0 { JoinedIsTidy(rows[row], w[..n]); }
    hide Tidy;
  }

  lemma {:induction false} SplitFits(widths: seq<nat>, rows: seq<string>, row: nat, w: string)
    requires Fitting(widths, rows, row) && Solid(w)
    ensures var out := Split(widths, rows, row, w);
            Fitting(widths, out.rows, out.row) && Proper(out.left)
    decreases |rows| - row
  {
    hide Joined;
    if w != [] && row < |widths| {
      FittingBelow(widths, rows, row);
      if rows[row] != [] && |rows[row]| + 1 >= widths[row] {
        hide Fitting;
        SplitFits(widths, rows, row + 1, w);
      } else {
        var n := if |w| <= Room(widths, rows, row) then |w| else Room(widths, rows, row);
        CutFits(widths, rows, row, w, n);
        assert w[..|w|] == w;
        var cut := rows[row := Joined(rows[row], w[..n])];
        FittingBelow(widths, cut, row);
        hide Fitting;
        if n < |w| { SplitFits(widths, cut, row + 1, w[n..]); }
      }
    }
  }

  lemma PlaceFits(widths: seq<nat>, rows: seq<string>, row: nat, w: string)
    requires Fitting(widths, rows, row) && row < |widths| && Solid(w) && w != []
    requires Place(widths, rows, row, w).Placed?
    ensures var at := Place(widths, rows, row, w).at;
            Fitting(widths, at.rows, at.row)
  {
    JoinedIsTidy(rows[row], w);
    JoinedIsTidy([], w);
    SplitFits(widths, rows, row, w);
  }

  lemma {:induction false} WrapFits(widths: seq<nat>, rows: seq<string>, row: nat, toks: seq<Token>)
    requires Fitting(widths, rows, row) && Proper(toks)
    ensures var out := Wrap(widths, rows, row, toks); Fitting(widths, out.rows, out.row)
    decreases |toks|
  {
    if toks != [] && row < |widths| {
      match toks[0] {
        case Break => WrapFits(widths, rows, row + 1, toks[1..]);
        case Word(w) =>
          var p := Place(widths, rows, row, w);
          if p.Placed? {
            PlaceFits(widths, rows, row, w);
            if p.at.left == [] { WrapFits(widths, p.at.rows, p.at.row, toks[1..]); }
          }
      }
    }
  }

  /** Every text, every grid: each row stays within its width and has no leading,
      trailing or double space. */
  lemma RowsFitAndAreTidy(text: string, widths: seq<nat>)
    ensures var rows := Wrapping(text, widths).rows;
            |rows| == |widths| && forall r :: 0 <= r < |rows| ==> |rows[r]| <= widths[r] && Tidy(rows[r])
  {
    TokensAreProper(NormalBreaks(text));
    WrapFits(widths, BlankRows(|widths|), 0, Tokens(NormalBreaks(text)));
  }

  function AllLetters(rows: seq<string>): string {
    if rows == [] then [] else Letters(rows[0]) + AllLetters(rows[1..])
  }

  /** Writing at the last used row appends to the letters of the wall. */
  lemma {:induction false} LettersOfUpdate(rows: seq<string>, row: nat, line: string)
    requires row < |rows| && rows[row] <= line
    requires forall r :: row < r < |rows| ==> rows[r] == []
    ensures AllLetters(rows[row := line]) == AllLetters(rows) + Letters(line[|rows[row]|..])
  {
    if row > 0 {
      LettersOfUpdate(rows[1..], row - 1, line);
      assert rows[row := line][1..] == rows[1..][row - 1 := line];
    } else {
      assert line == rows[0] + line[|rows[0]|..];
      LettersConcat(rows[0], line[|rows[0]|..]);
      LettersOfBlank(rows[1..]);
      assert rows[0 := line][1..] == rows[1..];
    }
  }

  lemma {:induction false} LettersOfBlank(rows: seq<string>)
    requires forall r :: 0 <= r < |rows| ==> rows[r] == []
    ensures AllLetters(rows) == []
  {
    if rows != [] {
      LettersOfBlank(rows[1..]);
    }
  }

  lemma LettersOfJoined(rows: seq<string>, row: nat, w: string)
    requires row < |rows| && Solid(w)
    requires forall r :: row < r < |rows| ==> rows[r] == []
    ensures AllLetters(rows[row := Joined(rows[row], w)]) == AllLetters(rows) + w
  {
    hide Solid, AllLetters;
    var line := rows[row];
    LettersOfUpdate(rows, row, Joined(line, w));
    LettersOfSolid(w);
    if line != [] {
      assert Joined(line, w)[|line|..] == [' '] + w;
      assert ([' '] + w)[1..] == w;
    }
  }

  lemma {:induction false} SplitKeepsLetters(widths: seq<nat>, rows: seq<string>, row: nat, w: string)
    requires Fitting(widths, rows, row) && Solid(w)
    ensures var out := Split(widths, rows, row, w);
            AllLetters(out.rows) + LettersOf(out.left) == AllLetters(rows) + w
    decreases |rows| - row
  {
    hide Joined, AllLetters;
    if w != [] && row < |widths| {
      FittingBelow(widths, rows, row);
      if rows[row] != [] && |rows[row]| + 1 >= widths[row] {
        hide Fitting;
        SplitKeepsLetters(widths, rows, row + 1, w);
      } else {
        var n := if |w| <= Room(widths, rows, row) then |w| else Room(widths, rows, row);
        CutFits(widths, rows, row, w, n);
        LettersOfJoined(rows, row, w[..n]);
        assert w[..|w|] == w;
        var cut := rows[row := Joined(rows[row], w[..n])];
        FittingBelow(widths, cut, row);
        hide Fitting;
        if n < |w| {
          SplitKeepsLetters(widths, cut, row + 1, w[n..]);
          var out := Split(widths, cut, row + 1, w[n..]);
          assert AllLetters(out.rows) + LettersOf(out.left) == (AllLetters(rows) + w[..n]) + w[n..];
          assert w == w[..n] + w[n..];
        }
      }
    }
  }

  lemma {:induction false} LettersOfConcat(a: seq<Token>, b: seq<Token>)
    ensures LettersOf(a + b) == LettersOf(a) + LettersOf(b)
  {
    if a == [] {
      assert a + b == b;
    } else {
      var first := match a[0] case Word(w) => w case Break => [];
      LettersOfConcat(a[1..], b);
      assert (a + b)[1..] == a[1..] + b && (a + b)[0] == a[0];
      assert LettersOf(a + b) == first + LettersOf(a[1..] + b);
      hide LettersOf;
      Grouped(first, LettersOf(a[1..]), LettersOf(b));
    }
  }

  lemma PlaceKeepsLetters(widths: seq<nat>, rows: seq<string>, row: nat, w: string)
    requires Fitting(widths, rows, row) && row < |widths| && Solid(w) && w != []
    requires Place(widths, rows, row, w).Placed?
    ensures var at := Place(widths, rows, row, w).at;
            AllLetters(at.rows) + LettersOf(at.left) == AllLetters(rows) + w
  {
    LettersOfJoined(rows, row, w);
    if row + 1 < |widths| {
      LettersOfJoined(rows, row + 1, w);
    }
    SplitKeepsLetters(widths, rows, row, w);
  }

  lemma {:induction false} WrapKeepsLetters(widths: seq<nat>, rows: seq<string>, row: nat, toks: seq<Token>)
    requires |rows| == |widths| && Fitting(widths, rows, row) && Proper(toks)
    ensures var out := Wrap(widths, rows, row, toks);
            AllLetters(out.rows) + LettersOf(out.left) == AllLetters(rows) + LettersOf(toks)
    decreases |toks|
  {
    hide Place, AllLetters, Fitting;
    if toks != [] && row < |widths| {
      var rest := toks[1..];
      match toks[0] {
        case Break =>
          FittingBelow(widths, rows, row);
          WrapKeepsLetters(widths, rows, row + 1, rest);
        case Word(w) =>
          var p := Place(widths, rows, row, w);
          if p.Placed? {
            PlaceKeepsLetters(widths, rows, row, w);
            PlaceFits(widths, rows, row, w);
            var here := AllLetters(p.at.rows);
            assert LettersOf(toks) == w + LettersOf(rest);
            Grouped(AllLetters(rows), w, LettersOf(rest));
            if p.at.left == [] {
              WrapKeepsLetters(widths, p.at.rows, p.at.row, rest);
              assert here + [] == here;
            } else {
              LettersOfConcat(p.at.left, rest);
              Grouped(here, LettersOf(p.at.left), LettersOf(rest));
            }
          }
      }
    }
  }

  /** Every text, every grid: what the rows show, read on end, is the text's letters
      up to where it was cut off, in order; nothing is lost before that or doubled. */
  lemma RowsSpellThePrefix(text: string, widths: seq<nat>)
    ensures var out := Wrapping(text, widths);
            AllLetters(out.rows) + LettersOf(out.left) == Letters(NormalBreaks(text))
  {
    var s := NormalBreaks(text);
    TokensAreProper(s);
    TokensKeepLetters(s);
    LettersOfBlank(BlankRows(|widths|));
    WrapKeepsLetters(widths, BlankRows(|widths|), 0, Tokens(s));
  }

  // ---- words stay whole ----------------------------------------------------------------------

  function WordsOf(toks: seq<Token>): seq<string> {
    if toks == [] then []
    else (match toks[0] case Word(w) => [w] case Break => []) + WordsOf(toks[1..])
  }

  /** The words a reader sees on the rows, one after the other. */
  function AllWords(rows: seq<string>): seq<string> {
    if rows == [] then [] else WordsOf(Tokens(rows[0])) + AllWords(rows[1..])
  }

  /** No word is wider than any row of the grid. */
  ghost predicate AllFit(widths: seq<nat>, toks: seq<Token>) {
    forall k, r :: 0 <= k < |toks| && toks[k].Word? && 0 <= r < |widths| ==> |toks[k].chars| <= widths[r]
  }

  lemma TokensOfWord(w: string)
    requires Solid(w) && w != []
    ensures Tokens(w) == [Word(w)]
  {
    assert w[0..] == w && w[|w|..] == [] && w[0..|w|] == w;
    WordAt(w, 0, |w|);
  }

  lemma {:induction false} TokensOfJoined(line: string, w: string)
    requires Solid(w) && w != []
    ensures Tokens(line + [' '] + w) == Tokens(line) + [Word(w)]
    decreases |line|
  {
    var all := line + [' '] + w;
    if line == [] {
      TokensOfWord(w);
      assert all[1..] == w;
    } else if line[0] == ' ' || line[0] == '\n' {
      TokensOfJoined(line[1..], w);
      assert all[1..] == line[1..] + [' '] + w;
    } else {
      var n := WordLen(line);
      TokensOfJoined(line[n..], w);
      assert all[..n] == line[..n] && all[n..] == line[n..] + [' '] + w;
      assert all[n] == if n < |line| then line[n] else ' ';
      WordLenIs(all, n);
    }
  }

  lemma {:induction false} WordsOfConcat(a: seq<Token>, b: seq<Token>)
    ensures WordsOf(a + b) == WordsOf(a) + WordsOf(b)
  {
    if a == [] {
      assert a + b == b;
    } else {
      var first := match a[0] case Word(w) => [w] case Break => [];
      WordsOfConcat(a[1..], b);
      assert (a + b)[1..] == a[1..] + b && (a + b)[0] == a[0];
      assert WordsOf(a + b) == first + WordsOf(a[1..] + b);
      hide WordsOf;
      assert first + (WordsOf(a[1..]) + WordsOf(b)) == (first + WordsOf(a[1..])) + WordsOf(b);
    }
  }

  lemma {:induction false} WordsOfUpdate(rows: seq<string>, row: nat, w: string)
    requires row < |rows| && Solid(w) && w != []
    requires forall r :: row < r < |rows| ==> rows[r] == []
    ensures AllWords(rows[row := Joined(rows[row], w)]) == AllWords(rows) + [w]
  {
    var line := rows[row];
    if row > 0 {
      WordsOfUpdate(rows[1..], row - 1, w);
      assert rows[row := Joined(line, w)][1..] == rows[1..][row - 1 := Joined(line, w)];
    } else {
      NoWordsOnBlank(rows[1..]);
      assert rows[0 := Joined(line, w)][1..] == rows[1..];
      TokensOfWord(w);
      TokensOfJoined(line, w);
      WordsOfConcat(Tokens(line), [Word(w)]);
    }
  }

  lemma {:induction false} NoWordsOnBlank(rows: seq<string>)
    requires forall r :: 0 <= r < |rows| ==> rows[r] == []
    ensures AllWords(rows) == []
  {
    if rows != [] {
      NoWordsOnBlank(rows[1..]);
    }
  }

  /** A word is split only if it is wider than the row reached and fits no next one:
      otherwise it shows whole behind the others, or the text stops before it. */
  lemma PlaceKeepsWordWhole(widths: seq<nat>, rows: seq<string>, row: nat, w: string)
    requires Fitting(widths, rows, row) && row < |widths| && Solid(w) && w != []
    requires |w| <= widths[row] || (row + 1 < |widths| && |w| <= widths[row + 1])
    ensures var p := Place(widths, rows, row, w);
            p.Placed? ==> p.at.left == [] && AllWords(p.at.rows) == AllWords(rows) + [w]
  {
    WordsOfUpdate(rows, row, w);
    if row + 1 < |widths| {
      WordsOfUpdate(rows, row + 1, w);
    }
  }

  lemma {:induction false} WrapKeepsWords(widths: seq<nat>, rows: seq<string>, row: nat, toks: seq<Token>)
    requires |rows| == |widths| && Fitting(widths, rows, row) && Proper(toks) && AllFit(widths, toks)
    ensures var out := Wrap(widths, rows, row, toks);
            AllWords(out.rows) + WordsOf(out.left) == AllWords(rows) + WordsOf(toks)
    decreases |toks|
  {
    hide Place, AllWords, Fitting;
    if toks != [] && row < |widths| {
      var rest := toks[1..];
      match toks[0] {
        case Break =>
          FittingBelow(widths, rows, row);
          WrapKeepsWords(widths, rows, row + 1, rest);
        case Word(w) =>
          var p := Place(widths, rows, row, w);
          PlaceKeepsWordWhole(widths, rows, row, w);
          if p.Placed? {
            PlaceFits(widths, rows, row, w);
            WrapKeepsWords(widths, p.at.rows, p.at.row, rest);
            assert AllWords(rows) + ([w] + WordsOf(rest)) == (AllWords(rows) + [w]) + WordsOf(rest);
          }
      }
    }
  }

  // ---- breaks ---------------------------------------------------------------------------------

  /** Nowhere a backslash before an n. */
  predicate NoMarker(s: string) {
    forall i :: 0 <= i < |s| - 1 ==> !(s[i] == '\\' && s[i + 1] == 'n')
  }

  lemma {:induction false} NoMarkerUnchanged(s: string)
    requires NoMarker(s)
    ensures NormalBreaks(s) == s
  {
    if s != [] {
      NoMarkerUnchanged(s[1..]);
    }
  }

  lemma NormalBreaksStep(s: string)
    requires s != []
    ensures var marker := |s| >= 2 && s[0] == '\\' && s[1] == 'n';
      NormalBreaks(s) == if marker then ['\n'] + NormalBreaks(s[2..]) else [s[0]] + NormalBreaks(s[1..])
  {
  }

  lemma {:induction false} NormalBreaksConcat(a: string, b: string)
    requires a != [] && b != [] && a[|a| - 1] == '\\' ==> b[0] != 'n'
    ensures NormalBreaks(a + b) == NormalBreaks(a) + NormalBreaks(b)
  {
    hide NormalBreaks;
    if a == [] {
      assert a + b == b;
      NothingToBreak();
    } else {
      NormalBreaksStep(a);
      NormalBreaksStep(a + b);
      var n := if |a| >= 2 && a[0] == '\\' && a[1] == 'n' then 2 else 1;
      assert (a + b)[0] == a[0];
      assert if |a| >= 2 then (a + b)[1] == a[1] else b != [] ==> (a + b)[1] == b[0];
      assert (a + b)[n..] == a[n..] + b;
      assert a[n..] != [] ==> a[n..][|a[n..]| - 1] == a[|a| - 1];
      NormalBreaksConcat(a[n..], b);
      Grouped(if n == 2 then ['\n'] else [a[0]], NormalBreaks(a[n..]), NormalBreaks(b));
    }
  }

  lemma NothingToBreak()
    ensures NormalBreaks([]) == []
  {
  }

  /** The wire's marker, a backslash and an n, is a newline wherever it stands; nothing
      before it or after it is changed by it. */
  lemma MarkerIsABreak(a: string, b: string)
    ensures NormalBreaks(a + ['\\', 'n'] + b) == NormalBreaks(a) + ['\n'] + NormalBreaks(b)
    ensures NormalBreaks(a + ['\n'] + b) == NormalBreaks(a) + ['\n'] + NormalBreaks(b)
  {
    hide NormalBreaks;
    var marked, raw := ['\\', 'n'] + b, ['\n'] + b;
    NormalBreaksConcat(a, marked);
    NormalBreaksConcat(a, raw);
    NormalBreaksStep(marked);
    NormalBreaksStep(raw);
    assert marked[2..] == b && raw[1..] == b;
    Grouped(a, ['\\', 'n'], b);
    Grouped(a, ['\n'], b);
    Grouped(NormalBreaks(a), ['\n'], NormalBreaks(b));
  }

  lemma {:induction false} WordLenUpTo(a: string, rest: string)
    requires rest != [] && rest[0] == '\n'
    ensures WordLen(a + rest) == WordLen(a)
  {
    if a == [] {
      assert a + rest == rest;
    } else if a[0] != ' ' && a[0] != '\n' {
      WordLenUpTo(a[1..], rest);
      assert (a + rest)[1..] == a[1..] + rest;
    }
  }

  lemma TokensOfBreak(a: string, b: string)
    ensures Tokens(a + ['\n'] + b) == Tokens(a) + [Break] + Tokens(b)
  {
    hide Tokens;
    var rest := ['\n'] + b;
    assert a + ['\n'] + b == a + rest && rest[1..] == b;
    TokensBefore(a, rest, [Break] + Tokens(b)) by { TokensStep(rest); }
    assert Tokens(a) + ([Break] + Tokens(b)) == Tokens(a) + [Break] + Tokens(b);
  }

  /** What precedes a break is cut into tokens as it would be alone. */
  lemma {:induction false} TokensBefore(a: string, rest: string, tail: seq<Token>)
    requires rest != [] && rest[0] == '\n' && Tokens(rest) == tail
    ensures Tokens(a + rest) == Tokens(a) + tail
    decreases |a|
  {
    hide Tokens, WordLen, Solid;
    TokensStep(a);
    TokensStep(a + rest);
    if a == [] {
      assert a + rest == rest;
      assert Tokens(a) + tail == tail;
    } else {
      var n := if a[0] == ' ' || a[0] == '\n' then 1 else WordLen(a);
      WordLenUpTo(a, rest);
      CutOfConcat(a, rest, n);
      TokensBefore(a[n..], rest, tail);
      var first := if a[0] == ' ' then [] else if a[0] == '\n' then [Break] else [Word(a[..n])];
      assert Tokens(a) == first + Tokens(a[n..]);
      assert first + (Tokens(a[n..]) + tail) == (first + Tokens(a[n..])) + tail;
    }
  }

  lemma CutOfConcat(a: string, rest: string, n: nat)
    requires 0 < n <= |a|
    ensures (a + rest)[n..] == a[n..] + rest && (a + rest)[..n] == a[..n] && (a + rest)[0] == a[0]
  {
  }

  lemma TokensStep(s: string)
    ensures Tokens(s) ==
      if s == [] then []
      else if s[0] == ' ' then Tokens(s[1..])
      else if s[0] == '\n' then [Break] + Tokens(s[1..])
      else [Word(s[..WordLen(s)])] + Tokens(s[WordLen(s)..])
    ensures s != [] && s[0] != ' ' && s[0] != '\n' ==> WordLen(s) > 0
  {
  }

  /** Tokens wrapped in two goes. */
  lemma {:induction false} WrapAppend(widths: seq<nat>, rows: seq<string>, row: nat, t: seq<Token>, u: seq<Token>)
    requires |rows| == |widths|
    ensures var w := Wrap(widths, rows, row, t);
      Wrap(widths, rows, row, t + u)
      == if w.left != [] then w.(left := w.left + u) else Wrap(widths, w.rows, w.row, u)
    decreases |t|
  {
    hide Place;
    if t == [] {
      assert t + u == u;
    } else if row < |widths| {
      var rest := t[1..];
      assert (t + u)[1..] == rest + u && (t + u)[0] == t[0];
      match t[0] {
        case Break => WrapAppend(widths, rows, row + 1, rest, u);
        case Word(w) =>
          var p := Place(widths, rows, row, w);
          if p.Placed? {
            if p.at.left == [] { WrapAppend(widths, p.at.rows, p.at.row, rest, u); }
            else { assert (p.at.left + rest) + u == p.at.left + (rest + u); }
          }
      }
    }
  }

  /** The rows above the one reached play no part. */
  lemma {:induction false} SplitBelow(widths: seq<nat>, rows: seq<string>, row: nat, w: string, d: nat)
    requires |rows| == |widths| && d <= row && d <= |rows|
    ensures var low := Split(widths[d..], rows[d..], row - d, w);
      Split(widths, rows, row, w) == Wrapped(rows[..d] + low.rows, low.row + d, low.left)
    decreases |rows| - row
  {
    hide Joined, Split;
    var ws, rs, r := widths[d..], rows[d..], row - d;
    SplitStep(widths, rows, row, w);
    SplitStep(ws, rs, r, w);
    assert rows[..d] + rs == rows;
    if w != [] && row < |widths| {
      assert rs[r] == rows[row] && ws[r] == widths[row];
      if rows[row] != [] && |rows[row]| + 1 >= widths[row] {
        SplitBelow(widths, rows, row + 1, w, d);
      } else {
        var n := if |w| <= Room(widths, rows, row) then |w| else Room(widths, rows, row);
        var cut := rows[row := Joined(rows[row], w[..n])];
        assert cut[d..] == rs[r := Joined(rs[r], w[..n])] && cut[..d] == rows[..d];
        assert cut[..d] + cut[d..] == cut;
        if n < |w| { SplitBelow(widths, cut, row + 1, w[n..], d); }
      }
    }
  }

  lemma PlaceBelow(widths: seq<nat>, rows: seq<string>, row: nat, w: string, d: nat)
    requires |rows| == |widths| && d <= row < |rows|
    ensures var low := Place(widths[d..], rows[d..], row - d, w);
      Place(widths, rows, row, w)
      == match low case NoRoom => NoRoom case Placed(at) => Placed(Wrapped(rows[..d] + at.rows, at.row + d, at.left))
  {
    hide Joined, Split;
    var rs, r := rows[d..], row - d;
    SplitBelow(widths, rows, row, w, d);
    var here := rows[row := Joined(rows[row], w)];
    assert here == rows[..d] + rs[r := Joined(rs[r], w)];
    if row + 1 < |rows| { assert rows[row + 1 := w] == rows[..d] + rs[r + 1 := w]; }
  }

  lemma {:induction false} WrapBelow(widths: seq<nat>, rows: seq<string>, row: nat, toks: seq<Token>, d: nat)
    requires |rows| == |widths| && d <= row && d <= |rows|
    ensures var low := Wrap(widths[d..], rows[d..], row - d, toks);
      Wrap(widths, rows, row, toks) == Wrapped(rows[..d] + low.rows, low.row + d, low.left)
    decreases |toks|
  {
    hide Place;
    assert rows[..d] + rows[d..] == rows;
    if toks != [] && row < |widths| {
      match toks[0] {
        case Break => WrapBelow(widths, rows, row + 1, toks[1..], d);
        case Word(w) =>
          PlaceBelow(widths, rows, row, w, d);
          var p := Place(widths, rows, row, w);
          if p.Placed? && p.at.left == [] {
            PlaceGoesDown(widths, rows, row, w);
            var low := Place(widths[d..], rows[d..], row - d, w).at.rows;
            assert p.at.rows[..d] == rows[..d] && p.at.rows[d..] == low;
            WrapBelow(widths, p.at.rows, p.at.row, toks[1..], d);
          }
      }
    }
  }

  lemma {:induction false} SplitGoesDown(widths: seq<nat>, rows: seq<string>, row: nat, w: string)
    requires |rows| == |widths|
    ensures Split(widths, rows, row, w).row >= row
    decreases |rows| - row
  {
    hide Joined, Split;
    SplitStep(widths, rows, row, w);
    if w != [] && row < |widths| {
      if rows[row] != [] && |rows[row]| + 1 >= widths[row] {
        SplitGoesDown(widths, rows, row + 1, w);
      } else {
        var n := if |w| <= Room(widths, rows, row) then |w| else Room(widths, rows, row);
        if n < |w| { SplitGoesDown(widths, rows[row := Joined(rows[row], w[..n])], row + 1, w[n..]); }
      }
    }
  }

  lemma PlaceGoesDown(widths: seq<nat>, rows: seq<string>, row: nat, w: string)
    requires |rows| == |widths| && row < |rows|
    ensures Place(widths, rows, row, w).Placed? ==> Place(widths, rows, row, w).at.row >= row
  {
    SplitGoesDown(widths, rows, row, w);
    hide Split, Joined;
  }

  lemma BlankBelow(widths: seq<nat>, rows: seq<string>, row: nat, d: nat)
    requires Fitting(widths, rows, row) && row < d <= |rows|
    ensures rows[d..] == BlankRows(|widths[d..]|)
  {
  }

  lemma WrapOverBreak(widths: seq<nat>, t: seq<Token>, u: seq<Token>)
    requires Proper(t)
    ensures var first := Wrap(widths, BlankRows(|widths|), 0, t);
      Wrap(widths, BlankRows(|widths|), 0, t + ([Break] + u)).rows
      == if first.left != [] || first.row >= |widths| then first.rows
         else
           var rest := widths[first.row + 1..];
           first.rows[..first.row + 1] + Wrap(rest, BlankRows(|rest|), 0, u).rows
  {
    var blank := BlankRows(|widths|);
    WrapFits(widths, blank, 0, t);
    WrapAppend(widths, blank, 0, t, [Break] + u);
    hide Place, Wrap, BlankRows, Proper;
    var first := Wrap(widths, blank, 0, t);
    if first.left == [] {
      if first.row < |widths| {
        WrapStep(widths, first.rows, first.row, Break, u);
        var d := first.row + 1;
        WrapBelow(widths, first.rows, d, u, d);
        BlankBelow(widths, first.rows, first.row, d);
      } else {
        WrapEnds(widths, first.rows, first.row, [Break] + u);
      }
    }
    hide Fitting;
  }

  /** What follows a break, raw or the wire's marker, stands on the rows below what precedes
      it, and there just as it would stand alone; if what precedes it is cut off or fills
      the wall, nothing of it shows. */
  lemma BreakStartsANewRow(a: string, b: string, widths: seq<nat>)
    ensures var first := Wrapping(a, widths);
      var rows := if first.left != [] || first.row >= |widths| then first.rows
                  else first.rows[..first.row + 1] + Wrapping(b, widths[first.row + 1..]).rows;
      && Wrapping(a + ['\n'] + b, widths).rows == rows
      && Wrapping(a + ['\\', 'n'] + b, widths).rows == rows
  {
    hide Tokens, NormalBreaks, Wrap, BlankRows, Proper;
    MarkerIsABreak(a, b);
    TokensOfBreak(NormalBreaks(a), NormalBreaks(b));
    TokensAreProper(NormalBreaks(a));
    var t, u := Tokens(NormalBreaks(a)), Tokens(NormalBreaks(b));
    WrapOverBreak(widths, t, u);
    assert t + [Break] + u == t + ([Break] + u);
  }

  /** A break before anything leaves the first row blank. */
  lemma LeadingBreak(b: string, widths: seq<nat>)
    requires |widths| > 0
    ensures Wrapping(['\n'] + b, widths).rows == [[]] + Wrapping(b, widths[1..]).rows
  {
    BreakStartsANewRow([], b, widths);
    assert [] + ['\n'] + b == ['\n'] + b;
    assert Tokens([]) == [] && NormalBreaks([]) == [];
    assert Wrapping([], widths) == Wrapped(BlankRows(|widths|), 0, []);
    assert BlankRows(|widths|)[..1] == [[]];
  }

  // ---- what is given up, and what a split leaves -----------------------------------------------

  /** Every row a split word passes over is full: not even a space and a character would go
      on it. */
  lemma {:induction false} SplitFillsRows(widths: seq<nat>, rows: seq<string>, row: nat, w: string, r: nat)
    requires |rows| == |widths| && row <= r < |rows| && r < Split(widths, rows, row, w).row
    ensures |Split(widths, rows, row, w).rows[r]| + 1 >= widths[r]
    decreases |rows| - row
  {
    hide Joined, Split;
    SplitStep(widths, rows, row, w);
    if w != [] && row < |widths| {
      if rows[row] != [] && |rows[row]| + 1 >= widths[row] {
        if r > row { SplitFillsRows(widths, rows, row + 1, w, r); }
        else { SplitKeepsAbove(widths, rows, row + 1, w, r); }
      } else {
        var n := if |w| <= Room(widths, rows, row) then |w| else Room(widths, rows, row);
        var cut := rows[row := Joined(rows[row], w[..n])];
        assert |Joined(rows[row], w[..n])| == Need(|rows[row]|, n) by { JoinedLength(rows[row], w[..n]); }
        if n < |w| {
          if r > row { SplitFillsRows(widths, cut, row + 1, w[n..], r); }
          else { SplitKeepsAbove(widths, cut, row + 1, w[n..], r); }
        }
      }
    }
  }

  lemma JoinedLength(line: string, w: string)
    ensures |Joined(line, w)| == Need(|line|, |w|)
  {
  }

  lemma SplitKeepsAbove(widths: seq<nat>, rows: seq<string>, row: nat, w: string, r: nat)
    requires |rows| == |widths| && r < row <= |rows|
    ensures Split(widths, rows, row, w).rows[r] == rows[r]
  {
    SplitBelow(widths, rows, row, w, row);
  }

  /** Why the rest of a text is not on the wall: the rows have run out, or its next word,
      which is no wider than the row reached, has no room left on it and none on a next
      row, because there is none or because that is narrower. */
  lemma {:induction false} GivenUpForCause(widths: seq<nat>, rows: seq<string>, row: nat, toks: seq<Token>)
    requires |rows| == |widths|
    ensures var out := Wrap(widths, rows, row, toks);
      out.left != [] ==>
        || out.row >= |widths|
        || (&& out.left[0].Word?
            && var w := out.left[0].chars;
            && |w| <= widths[out.row] < Need(|out.rows[out.row]|, |w|)
            && (out.row + 1 < |widths| ==> |w| > widths[out.row + 1]))
    decreases |toks|
  {
    hide Joined;
    if toks != [] && row < |widths| {
      match toks[0] {
        case Break => GivenUpForCause(widths, rows, row + 1, toks[1..]);
        case Word(w) =>
          SplitLeavesPastTheEnd(widths, rows, row, w);
          hide Split;
          var p := Place(widths, rows, row, w);
          if p.Placed? && p.at.left == [] { GivenUpForCause(widths, p.at.rows, p.at.row, toks[1..]); }
      }
    }
  }

  lemma {:induction false} SplitLeavesPastTheEnd(widths: seq<nat>, rows: seq<string>, row: nat, w: string)
    requires |rows| == |widths|
    ensures Split(widths, rows, row, w).left != [] ==> Split(widths, rows, row, w).row >= |widths|
    decreases |rows| - row
  {
    hide Joined, Split;
    SplitStep(widths, rows, row, w);
    if w != [] && row < |widths| {
      if rows[row] != [] && |rows[row]| + 1 >= widths[row] {
        SplitLeavesPastTheEnd(widths, rows, row + 1, w);
      } else {
        var n := if |w| <= Room(widths, rows, row) then |w| else Room(widths, rows, row);
        if n < |w| { SplitLeavesPastTheEnd(widths, rows[row := Joined(rows[row], w[..n])], row + 1, w[n..]); }
      }
    }
  }

  // ---- how every word shows -----------------------------------------------------------------

  /** A word of the text and the pieces of it that stand on the rows. */
  datatype Shown = Shown(word: string, pieces: seq<string>)

  function Concat(pieces: seq<string>): string {
    if pieces == [] then [] else pieces[0] + Concat(pieces[1..])
  }

  function AllPieces(shown: seq<Shown>): seq<string> {
    if shown == [] then [] else shown[0].pieces + AllPieces(shown[1..])
  }

  /** In one piece, or wider than a row and than the next one, if there is one. */
  ghost predicate SplitForCause(widths: seq<nat>, s: Shown) {
    s.pieces == [s.word] || exists r :: 0 <= r < |widths| && TooWide(widths, r, s.word)
  }

  predicate TooWide(widths: seq<nat>, r: nat, w: string)
    requires r < |widths|
  {
    |w| > widths[r] && (r + 1 < |widths| ==> |w| > widths[r + 1])
  }

  lemma SplitStep(widths: seq<nat>, rows: seq<string>, row: nat, w: string)
    requires |rows| == |widths|
    ensures var out := Split(widths, rows, row, w);
      if w == [] then out == Wrapped(rows, row, [])
      else if row >= |widths| then out == Wrapped(rows, row, [Word(w)])
      else if rows[row] != [] && |rows[row]| + 1 >= widths[row] then out == Split(widths, rows, row + 1, w)
      else
        var n := if |w| <= Room(widths, rows, row) then |w| else Room(widths, rows, row);
        var cut := rows[row := Joined(rows[row], w[..n])];
        out == if n < |w| then Split(widths, cut, row + 1, w[n..]) else Wrapped(cut, row, [])
  {
    hide Joined;
    assert w[..|w|] == w;
  }

  lemma {:induction false} SplitShows(widths: seq<nat>, rows: seq<string>, row: nat, w: string) returns (pieces: seq<string>)
    requires Fitting(widths, rows, row) && Solid(w)
    ensures var out := Split(widths, rows, row, w);
      && AllWords(out.rows) == AllWords(rows) + pieces
      && Concat(pieces) + LettersOf(out.left) == w
    decreases |rows| - row
  {
    hide Joined, AllWords, Split;
    SplitStep(widths, rows, row, w);
    pieces := [];
    if w != [] && row < |widths| {
      FittingBelow(widths, rows, row);
      if rows[row] != [] && |rows[row]| + 1 >= widths[row] {
        hide Fitting;
        pieces := SplitShows(widths, rows, row + 1, w);
      } else {
        var n := if |w| <= Room(widths, rows, row) then |w| else Room(widths, rows, row);
        var cut, first := rows[row := Joined(rows[row], w[..n])], if n > 0 then [w[..n]] else [];
        CutFits(widths, rows, row, w, n);
        CutShows(rows, row, w, n);
        FittingBelow(widths, cut, row);
        var more := [];
        if n < |w| { more := SplitShows(widths, cut, row + 1, w[n..]); }
        pieces := first + more;
        hide Fitting, Concat, Solid;
        ConcatMore(w, n, more);
        assert (AllWords(rows) + first) + more == AllWords(rows) + pieces;
        Grouped(w[..n], Concat(more), LettersOf(Split(widths, rows, row, w).left));
      }
    }
  }

  lemma CutShows(rows: seq<string>, row: nat, w: string, n: nat)
    requires row < |rows| && Solid(w) && n <= |w| && (rows[row] == [] || n > 0)
    requires forall r :: row < r < |rows| ==> rows[r] == []
    ensures AllWords(rows[row := Joined(rows[row], w[..n])]) == AllWords(rows) + if n > 0 then [w[..n]] else []
  {
    if n > 0 {
      WordsOfUpdate(rows, row, w[..n]);
    } else {
      assert rows[row := []] == rows;
    }
  }

  lemma ConcatMore(w: string, n: nat, more: seq<string>)
    requires n <= |w|
    ensures Concat((if n > 0 then [w[..n]] else []) + more) == w[..n] + Concat(more)
    ensures w[..n] + w[n..] == w
  {
    assert ([w[..n]] + more)[1..] == more && [] + more == more;
  }

  /** Where one word goes it shows: whole, or split because no row at hand takes it. */
  lemma PlaceShows(widths: seq<nat>, rows: seq<string>, row: nat, w: string) returns (s: Shown)
    requires Fitting(widths, rows, row) && row < |widths| && Solid(w) && w != []
    requires Place(widths, rows, row, w).Placed?
    ensures var at := Place(widths, rows, row, w).at;
      && s.word == w && SplitForCause(widths, s)
      && AllWords(at.rows) == AllWords(rows) + s.pieces
      && Concat(s.pieces) + LettersOf(at.left) == w
  {
    if TooWide(widths, row, w) {
      hide AllWords, Joined;
      var pieces := SplitShows(widths, rows, row, w);
      s := Shown(w, pieces);
    } else {
      s := Shown(w, [w]);
      PlaceKeepsWordWhole(widths, rows, row, w);
      ConcatMore(w, |w|, []);
      assert w[..|w|] == w && [w] + [] == [w];
    }
  }

  /** The words of the text that a wrap shows, in order. */
  lemma {:induction false} WrapShows(widths: seq<nat>, rows: seq<string>, row: nat, toks: seq<Token>)
    returns (shown: seq<Shown>)
    requires |rows| == |widths| && Fitting(widths, rows, row) && Proper(toks)
    ensures AllWords(Wrap(widths, rows, row, toks).rows) == AllWords(rows) + AllPieces(shown)
    ensures |shown| <= |WordsOf(toks)|
    ensures forall k :: 0 <= k < |shown| ==> shown[k].word == WordsOf(toks)[k] && SplitForCause(widths, shown[k])
    ensures forall k :: 0 <= k < |shown| ==> Concat(shown[k].pieces) <= shown[k].word
    ensures forall k :: 0 <= k < |shown| - 1 ==> Concat(shown[k].pieces) == shown[k].word
    decreases |toks|
  {
    hide Place, AllWords, Fitting, SplitForCause, Concat;
    shown := [];
    if toks != [] && row < |widths| {
      var rest := toks[1..];
      match toks[0] {
        case Break =>
          FittingBelow(widths, rows, row);
          shown := WrapShows(widths, rows, row + 1, rest);
        case Word(w) =>
          var p := Place(widths, rows, row, w);
          if p.Placed? {
            var first := PlaceShows(widths, rows, row, w);
            PlaceFits(widths, rows, row, w);
            var more := [];
            if p.at.left == [] { more := WrapShows(widths, p.at.rows, p.at.row, rest); }
            shown := [first] + more;
            assert (AllWords(rows) + first.pieces) + AllPieces(more) == AllWords(rows) + (first.pieces + AllPieces(more));
            assert WordsOf(toks) == [w] + WordsOf(rest);
          }
      }
    }
  }

  /** Every text, every grid: the words on the rows are the text's, in order, up to where
      it is cut off. Each shows in one piece unless it is wider than a row and the next;
      of those that are split only the last can lack its end. */
  lemma WordsShowInOrder(text: string, widths: seq<nat>) returns (shown: seq<Shown>)
    ensures var words := WordsOf(Tokens(NormalBreaks(text)));
      && AllWords(Wrapping(text, widths).rows) == AllPieces(shown)
      && |shown| <= |words|
      && (forall k :: 0 <= k < |shown| ==> shown[k].word == words[k] && SplitForCause(widths, shown[k]))
      && (forall k :: 0 <= k < |shown| ==> Concat(shown[k].pieces) <= shown[k].word)
      && (forall k :: 0 <= k < |shown| - 1 ==> Concat(shown[k].pieces) == shown[k].word)
  {
    var toks, blank := Tokens(NormalBreaks(text)), BlankRows(|widths|);
    TokensAreProper(NormalBreaks(text));
    shown := WrapShows(widths, blank, 0, toks);
    NoWordsOnBlank(blank);
    assert [] + AllPieces(shown) == AllPieces(shown);
  }

  // ---- greedy is optimal ---------------------------------------------------------------------

  /** Another way to lay the tokens out: `a[k]` is the row word k stands in, or the
      row a break leads to. Rows only go down, a break leaves its row, and the words
      of a row, joined by single spaces, fit it. */
  ghost predicate LaysOut(widths: seq<nat>, toks: seq<Token>, a: seq<nat>, row: nat, pos: nat)
    decreases |toks|
  {
    |a| == |toks| && (toks != [] ==>
      match toks[0]
      case Break => a[0] > row && LaysOut(widths, toks[1..], a[1..], a[0], 0)
      case Word(w) =>
        var used := if a[0] == row then Need(pos, |w|) else |w|;
        && row <= a[0] < |widths| && used <= widths[a[0]]
        && LaysOut(widths, toks[1..], a[1..], a[0], used))
  }

  ghost function LastRow(a: seq<nat>, row: nat): nat {
    if a == [] then row else LastRow(a[1..], a[0])
  }

  ghost predicate NoWords(toks: seq<Token>) {
    forall k :: 0 <= k < |toks| ==> toks[k].Break?
  }

  lemma {:induction false} BelowTheGrid(widths: seq<nat>, toks: seq<Token>, a: seq<nat>, row: nat, pos: nat)
    requires LaysOut(widths, toks, a, row, pos)
    ensures LastRow(a, row) >= row
    ensures row >= |widths| ==> NoWords(toks)
    decreases |toks|
  {
    if toks != [] {
      match toks[0] {
        case Break =>
          BelowTheGrid(widths, toks[1..], a[1..], a[0], 0);
        case Word(w) =>
          BelowTheGrid(widths, toks[1..], a[1..], a[0], if a[0] == row then Need(pos, |w|) else |w|);
      }
      assert forall k :: 1 <= k < |toks| ==> toks[k] == toks[1..][k - 1];
    }
  }

  function Pos(rows: seq<string>, row: nat): nat {
    if row < |rows| then |rows[row]| else 0
  }

  /** Stays ahead: the greedy place is never behind the other layout's. */
  lemma {:induction false} GreedyStaysAhead(widths: seq<nat>, rows: seq<string>, row: nat, toks: seq<Token>,
                                            a: seq<nat>, otherRow: nat, otherPos: nat)
    requires |rows| == |widths| && Fitting(widths, rows, row) && Proper(toks) && AllFit(widths, toks)
    requires LaysOut(widths, toks, a, otherRow, otherPos)
    requires row < otherRow || (row == otherRow && Pos(rows, row) <= otherPos)
    ensures var out := Wrap(widths, rows, row, toks);
            NoWords(out.left) && out.row <= LastRow(a, otherRow)
    decreases |toks|
  {
    BelowTheGrid(widths, toks, a, otherRow, otherPos);
    if toks != [] && row < |widths| {
      var rest := toks[1..];
      match toks[0] {
        case Break =>
          FittingBelow(widths, rows, row);
          GreedyStaysAhead(widths, rows, row + 1, rest, a[1..], a[0], 0);
        case Word(w) =>
          var p := Place(widths, rows, row, w);
          PlaceFits(widths, rows, row, w) by { WordFindsRoom(widths, rows, row, w, a[0], otherRow, otherPos); }
          WordFindsRoom(widths, rows, row, w, a[0], otherRow, otherPos);
          GreedyStaysAhead(widths, p.at.rows, p.at.row, rest, a[1..], a[0],
                           if a[0] == otherRow then Need(otherPos, |w|) else |w|);
      }
    }
  }

  lemma WordFindsRoom(widths: seq<nat>, rows: seq<string>, row: nat, w: string, theirs: nat, otherRow: nat, otherPos: nat)
    requires |rows| == |widths| && Fitting(widths, rows, row) && row < |widths| && Solid(w) && w != []
    requires forall r :: 0 <= r < |widths| ==> |w| <= widths[r]
    requires row < otherRow || (row == otherRow && Pos(rows, row) <= otherPos)
    requires otherRow <= theirs < |widths|
    requires (if theirs == otherRow then Need(otherPos, |w|) else |w|) <= widths[theirs]
    ensures var p := Place(widths, rows, row, w);
            && p.Placed? && p.at.left == []
            && (p.at.row < theirs
                || (p.at.row == theirs
                    && Pos(p.at.rows, p.at.row) <= if theirs == otherRow then Need(otherPos, |w|) else |w|))
  {
    assert |Joined(rows[row], w)| == Need(|rows[row]|, |w|);
  }

  /** Greedy wrapping is optimal. If no word is wider than any row, rows of any
      widths, and the words can be laid out on the grid at all, the loop places every
      word, each of them whole, and reaches no further down than that layout does. */
  lemma GreedyIsOptimal(text: string, widths: seq<nat>, a: seq<nat>)
    requires AllFit(widths, Tokens(NormalBreaks(text)))
    requires LaysOut(widths, Tokens(NormalBreaks(text)), a, 0, 0)
    ensures var out := Wrapping(text, widths);
            && NoWords(out.left)
            && out.row <= LastRow(a, 0)
            && AllWords(out.rows) == WordsOf(Tokens(NormalBreaks(text)))
  {
    var s := NormalBreaks(text);
    var blank := BlankRows(|widths|);
    TokensAreProper(s);
    GreedyStaysAhead(widths, blank, 0, Tokens(s), a, 0, 0);
    WrapKeepsWords(widths, blank, 0, Tokens(s));
    NoWordsOnBlank(blank);
    NoWordsLeft(Wrapping(text, widths).left);
    var seen := AllWords(Wrapping(text, widths).rows);
    assert seen + [] == seen;
  }

  lemma {:induction false} NoWordsLeft(toks: seq<Token>)
    requires NoWords(toks)
    ensures WordsOf(toks) == []
  {
    if toks != [] {
      NoWordsLeft(toks[1..]);
    }
  }

  /** The hypothesis on the rows is needed: past a row too narrow for it, a word that
      the row below would take is given up. */
  lemma NarrowRowStopsTheText()
    ensures var widths, toks := [3, 1, 3], [Word("abc"), Word("de")];
            && LaysOut(widths, toks, [0, 2], 0, 0)
            && Wrap(widths, BlankRows(3), 0, toks).left == [Word("de")]
  {
    var widths, toks := [3, 1, 3], [Word("abc"), Word("de")];
    assert toks[1..] == [Word("de")];
    assert LaysOut(widths, toks[1..], [2], 0, 3);
    assert BlankRows(3)[0] == [];
  }
}
