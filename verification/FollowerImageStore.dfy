/** FollowerImagePolicy.h: when a chunk fits and when an image is held. */
module FollowerImagePolicy {

  predicate ChunkOk(index: nat, accumulated: nat, len: nat, cap: nat) {
    index == accumulated && accumulated + len <= cap
  }

  /** Waiting for a master rev other than the one running. */
  predicate Held(heldFor: string, runningRev: string) {
    heldFor != "" && heldFor != runningRev
  }

  /** The awaited master rev is the one running. */
  predicate HoldSpent(heldFor: string, runningRev: string) {
    heldFor != "" && heldFor == runningRev
  }

  /** Whether a release puts its own row image in place of what is stored. */
  predicate ReleaseStores(storedRev: string, heldFor: string, runningRev: string, rowRev: string, masterRev: string) {
    storedRev != rowRev || (Held(heldFor, runningRev) && heldFor != masterRev)
  }

  /** A release skips its store exactly when the image it would store is on offer
      already, or will be the moment the release's own master runs. */
  lemma SkippedStoreIsOnOfferThen(storedRev: string, heldFor: string, runningRev: string, rowRev: string, masterRev: string)
    requires masterRev != ""
    ensures !ReleaseStores(storedRev, heldFor, runningRev, rowRev, masterRev)
       <==> storedRev == rowRev && (!Held(heldFor, runningRev) || HoldSpent(heldFor, masterRev))
  {
  }
}

/** FollowerImageStore.cpp: one stored row image, written by the network task while
    readers and an uploader run beside it. A step is what one task does under the
    lock, or one file operation; a run is any interleaving of steps, with the board
    stopping anywhere. */
module FollowerImageStore {
  import opened Wrappers
  import opened FollowerImagePolicy

  const MAX_BYTES: nat := 640 * 1024

  /** An image on flash. `boundTo` is the master rev it waits for, "" for none: it was
      uploaded, or the rev has run; `rev` and `data` are its own. */
  datatype Image = Image(boundTo: string, rev: string, data: seq<bv8>)

  datatype Files = Files(image: Option<Image>, rev: Option<string>, hold: Option<string>)

  /** Where the network task is in its tick. */
  datatype Tick = Reclaiming | SpentCheck | SpentRemove | FlushStart
                | WriteHold | WriteImage | RemoveHold | WriteRev | RemoveRev
                | FailImage | FailRev | FailHold | Finish(ok: bool, revOk: bool)

  datatype Uploader = Idle | Allocating | Allocated(buf: nat) | NoBuffer

  datatype State = State(
    files: Files, running: string,
    storedPresent: bool, storedRev: string, storedHeldFor: string, holdSpent: bool,
    relayClaims: nat,
    accumulating: bool, accBuf: Option<nat>, accData: seq<bv8>, accRev: string, accHeldFor: string,
    flushPending: bool, flushBuf: Option<nat>, flushData: seq<bv8>, flushRev: string, flushHeldFor: string,
    uploader: Uploader, tick: Tick, flushing: Option<nat>,
    live: set<nat>, nextBuf: nat)

  datatype Event =
    | Claim | Release
    | Begin(rev: string, heldFor: string, accepted: bool) | Alloc(ok: bool) | TakeBuffer
    | Chunk(index: nat, data: seq<bv8>) | End(matches: bool) | AbortUpload
    | TickStep(stalled: bool, ok: bool)
    | Restart(running: string)

  // ---- the steps ----------------------------------------------------------------------

  /** free(): the buffer must be live, and is not any more. */
  function Free(s: State, buf: nat): State
    requires buf in s.live
  {
    s.(live := s.live - {buf})
  }

  function AccFree(s: State): State
    requires s.accBuf.Some? ==> s.accBuf.value in s.live
  {
    var s1 := if s.accBuf.Some? then Free(s, s.accBuf.value) else s;
    s1.(accBuf := None, accData := [], accumulating := false)
  }

  predicate Writing(t: Tick) {
    (t.WriteHold? || t.WriteImage? || t.RemoveHold? || t.WriteRev? || t.RemoveRev? || t.FailImage? || t.FailRev? || t.FailHold?) || t.Finish?
  }

  /** Which steps the tasks can take: one uploader, busy while its begin allocates. */
  predicate Enabled(s: State, e: Event) {
    match e
    case Release => true
    case Begin(_, _, _) => s.uploader.Idle?
    case Alloc(_) => s.uploader.Allocating?
    case TakeBuffer => s.uploader.Allocated? || s.uploader.NoBuffer?
    case Chunk(_, _) => s.uploader.Idle?
    case End(_) => s.uploader.Idle?
    case AbortUpload => s.uploader.Idle?
    case Claim => true
    case TickStep(_, _) => true
    case Restart(_) => true
  }

  function Step(s: State, e: Event): State
    requires Inv(s) && Enabled(s, e)
  {
    match e
    case Claim => if s.accumulating || s.flushPending then s else s.(relayClaims := s.relayClaims + 1)
    case Release => if s.relayClaims > 0 then s.(relayClaims := s.relayClaims - 1) else s
    case Begin(rev, heldFor, accepted) =>
      if s.accumulating || s.flushPending || !accepted then s
      else s.(accumulating := true, accRev := rev, accHeldFor := heldFor, accData := [], uploader := Allocating)
    case Alloc(ok) =>
      if !ok then s.(uploader := NoBuffer)
      else s.(uploader := Allocated(s.nextBuf), live := s.live + {s.nextBuf}, nextBuf := s.nextBuf + 1)
    case TakeBuffer =>
      if s.uploader.NoBuffer? then s.(accumulating := false, uploader := Idle)
      else if !s.accumulating then Free(s, s.uploader.buf).(uploader := Idle)
      else s.(accBuf := Some(s.uploader.buf), uploader := Idle)
    case Chunk(index, data) =>
      if !s.accumulating || s.accBuf.None? then s
      else if !ChunkOk(index, |s.accData|, |data|, MAX_BYTES) then AccFree(s)
      else s.(accData := s.accData + data)
    case End(matches) =>
      if !s.accumulating || s.accBuf.None? then s
      else if s.accData == [] || !matches then AccFree(s)
      else s.(flushBuf := s.accBuf, flushData := s.accData, flushRev := s.accRev, flushHeldFor := s.accHeldFor,
              flushPending := true, accBuf := None, accData := [], accumulating := false)
    case AbortUpload => if s.accumulating then AccFree(s) else s
    case TickStep(stalled, ok) => TickOnce(s, stalled, ok)
    case Restart(running) => Start(s.files, running, s.nextBuf)
  }

  /** The image a store puts on flash: it waits for its release, if that does not run. */
  function Stored(s: State): Image {
    Image(if s.flushHeldFor == s.running then "" else s.flushHeldFor, s.flushRev, s.flushData)
  }

  /** The network task's next step. `ok` says whether the file write succeeds; one
      that fails changes nothing. */
  function TickOnce(s: State, stalled: bool, ok: bool): State
    requires Inv(s)
  {
    var f := s.files;
    match s.tick
    case Reclaiming => (if s.accumulating && stalled then AccFree(s) else s).(tick := SpentCheck)
    case SpentCheck => s.(holdSpent := false, tick := if s.holdSpent && !s.flushPending then SpentRemove else FlushStart)
    case SpentRemove => s.(files := f.(hold := None), tick := FlushStart)
    case FlushStart =>
      if !s.flushPending || s.relayClaims > 0 then s.(tick := Reclaiming)
      else s.(flushing := s.flushBuf, tick := if s.flushHeldFor != "" then WriteHold else WriteImage)
    case WriteHold =>
      if !ok then s.(tick := FailImage)
      else s.(files := f.(hold := Some(s.flushHeldFor)), tick := WriteImage)
    case WriteImage =>
      if !ok then s.(tick := FailImage)
      else
        s.(files := f.(image := Some(Stored(s))), tick := if s.flushHeldFor == "" then RemoveHold else WriteRev)
    case RemoveHold => s.(files := f.(hold := None), tick := WriteRev)
    case WriteRev =>
      if ok then s.(files := f.(rev := Some(s.flushRev)), tick := Finish(true, true)) else s.(tick := RemoveRev)
    case RemoveRev => s.(files := f.(rev := None), tick := Finish(true, false))
    case FailImage => s.(files := f.(image := None), tick := FailRev)
    case FailRev => s.(files := f.(rev := None), tick := FailHold)
    case FailHold => s.(files := f.(hold := None), tick := Finish(false, false))
    case Finish(stored, revOk) =>
      Free(s, s.flushBuf.value).(flushBuf := None, flushPending := false, flushing := None,
        storedPresent := stored, storedRev := if stored && revOk then s.flushRev else "",
        storedHeldFor := if stored then s.flushHeldFor else "", tick := Reclaiming)
  }

  /** What a start makes of the files: RAM is new, the hold judged against the rev
      that runs now; an image that waited for that rev waits no more. */
  function Start(f: Files, running: string, nextBuf: nat): State {
    var present := f.image.Some?;
    var heldFor := if present && f.hold.Some? then f.hold.value else "";
    var spent := HoldSpent(heldFor, running);
    var image := if present && f.image.value.boundTo == running then Some(f.image.value.(boundTo := "")) else f.image;
    State(f.(image := image), running,
          present, if present && f.rev.Some? then f.rev.value else "", if spent then "" else heldFor, spent,
          0, false, None, [], "", "", false, None, [], "", "", Idle, Reclaiming, None, {}, nextBuf)
  }

  /** Rows can be offered the stored image. */
  predicate Offers(s: State) {
    s.storedPresent && !Held(s.storedHeldFor, s.running)
  }

  // ---- what every interleaving keeps ------------------------------------------------------

  function BufferOf(u: Uploader): set<nat> { if u.Allocated? then {u.buf} else {} }

  function OptSet(b: Option<nat>): set<nat> { if b.Some? then {b.value} else {} }

  /** Every live buffer has exactly one owner, and every owner a live buffer. */
  ghost predicate Owned(s: State) {
    && s.live == OptSet(s.accBuf) + OptSet(s.flushBuf) + BufferOf(s.uploader)
    && OptSet(s.accBuf) !! OptSet(s.flushBuf) !! BufferOf(s.uploader)
    && (forall b :: b in s.live ==> b < s.nextBuf)
  }

  /** While the flush rewrites the files its buffer is the staged one, and no
      reader holds a claim. */
  ghost predicate Exclusive(s: State) {
    && (s.accBuf.Some? ==> s.accumulating && s.uploader.Idle?)
    && (s.accumulating && s.uploader.Idle? ==> s.accBuf.Some?)
    && (s.flushBuf.Some? <==> s.flushPending)
    && !(s.accumulating && s.flushPending)
    && (Writing(s.tick) <==> s.flushing.Some?)
    && (Writing(s.tick) ==> s.flushPending && s.flushing == s.flushBuf && s.relayClaims == 0)
  }

  /** A hold names a rev. */
  ghost predicate HoldNamed(f: Files) {
    f.hold.Some? ==> f.hold.value != ""
  }

  predicate Bound(f: Files) {
    f.image.Some? && f.image.value.boundTo != ""
  }

  /** What RAM knows of the files, outside a store. */
  ghost predicate Remembers(s: State) {
    && HoldNamed(s.files)
    && (Bound(s.files) ==> s.files.image.value.boundTo != s.running)
    && (s.holdSpent ==> (s.tick.Reclaiming? || s.tick.SpentCheck?))
    && (s.holdSpent || s.tick.SpentRemove? ==> s.files.hold == Some(s.running))
    && (!Writing(s.tick) ==>
          && s.storedPresent == s.files.image.Some?
          && (s.storedPresent ==>
                && (Held(s.storedHeldFor, s.running) <==> s.files.hold.Some? && s.files.hold.value != s.running)
                && s.storedRev == if s.files.rev.Some? then s.files.rev.value else ""))
  }

  /** How far the store under way has got. */
  ghost predicate Underway(s: State) {
    && (s.tick.WriteHold? ==> s.flushHeldFor != "")
    && (s.tick.WriteImage? && s.flushHeldFor != "" ==> s.files.hold == Some(s.flushHeldFor))
    && (s.tick.RemoveHold? ==> s.flushHeldFor == "")
    && ((s.tick.RemoveHold? || s.tick.WriteRev? || s.tick.RemoveRev?) || (s.tick.Finish? && s.tick.ok) ==>
          s.files.image == Some(Stored(s)))
    && ((s.tick.WriteRev? || s.tick.RemoveRev?) || (s.tick.Finish? && s.tick.ok) ==>
          s.files.hold == if s.flushHeldFor == "" then None else Some(s.flushHeldFor))
    && (s.tick.Finish? && s.tick.ok ==> s.files.rev == if s.tick.revOk then Some(s.flushRev) else None)
    && ((s.tick.FailRev? || s.tick.FailHold?) || (s.tick.Finish? && !s.tick.ok) ==> s.files.image.None?)
    && (s.tick.FailHold? ==> s.files.rev.None?)
    && (s.tick.Finish? && !s.tick.ok ==> s.files == Files(None, None, None))
  }

  ghost predicate Inv(s: State) {
    Owned(s) && Exclusive(s) && Remembers(s) && Underway(s)
  }

  lemma StartKeepsInv(f: Files, running: string, nextBuf: nat)
    requires HoldNamed(f)
    ensures Inv(Start(f, running, nextBuf))
  {
  }

  /** An upload given up frees its buffer and leaves the rest alone. */
  lemma AccFreeKeeps(s: State)
    requires Inv(s) && s.accumulating && s.uploader.Idle?
    ensures (s.accBuf.Some? ==> s.accBuf.value in s.live) && Inv(AccFree(s))
  {
  }

  lemma BeginKeeps(s: State, e: Event)
    requires Inv(s) && Enabled(s, e) && (e.Begin? || e.Alloc?)
    ensures Inv(Step(s, e))
  {
    hide TickOnce, Start, AccFree;
    var t := Step(s, e);
    assert Remembers(t) && Underway(t) by {
      hide Owned, Exclusive;
      assert t == s.(accumulating := t.accumulating, accRev := t.accRev, accHeldFor := t.accHeldFor, accData := t.accData,
                     uploader := t.uploader, live := t.live, nextBuf := t.nextBuf);
      hide Step;
    }
    assert Owned(t) && Exclusive(t) by { hide Remembers, Underway; }
    hide Owned, Exclusive, Remembers, Underway;
  }

  lemma TakeBufferKeeps(s: State)
    requires Inv(s) && Enabled(s, TakeBuffer)
    ensures Inv(Step(s, TakeBuffer))
  {
    hide TickOnce, Start, AccFree;
    var t := Step(s, TakeBuffer);
    assert Remembers(t) && Underway(t) by {
      hide Owned, Exclusive;
      assert t == s.(accumulating := t.accumulating, accBuf := t.accBuf, uploader := Idle, live := t.live);
      hide Step;
    }
    assert Owned(t) && Exclusive(t) by { hide Remembers, Underway; }
    hide Owned, Exclusive, Remembers, Underway;
  }

  lemma EndKeeps(s: State, matches: bool)
    requires Inv(s) && Enabled(s, End(matches))
    ensures Inv(Step(s, End(matches)))
  {
    if s.accumulating && s.accBuf.Some? { AccFreeKeeps(s); }
    hide TickOnce, Start, AccFree;
  }

  lemma StepKeepsInv(s: State, e: Event)
    requires Inv(s) && Enabled(s, e)
    ensures Inv(Step(s, e))
  {
    match e
    case Restart(running) => hide TickOnce, AccFree, Free; StartKeepsInv(s.files, running, s.nextBuf);
    case TickStep(stalled, ok) => hide TickOnce, AccFree, Start; TickKeepsInv(s, stalled, ok);
    case Claim => hide TickOnce, AccFree, Start;
    case Release => hide TickOnce, AccFree, Start;
    case Begin(_, _, _) => hide Step, Inv; BeginKeeps(s, e);
    case Alloc(_) => hide Step, Inv; BeginKeeps(s, e);
    case TakeBuffer => hide Step, Inv; TakeBufferKeeps(s);
    case End(matches) => hide Step, Inv; EndKeeps(s, matches);
    case Chunk(_, _) =>
      if s.accumulating { AccFreeKeeps(s); }
      hide TickOnce, AccFree, Start;
    case AbortUpload =>
      if s.accumulating { AccFreeKeeps(s); }
      hide TickOnce, AccFree, Start;
  }

  lemma TickKeepsInv(s: State, stalled: bool, ok: bool)
    requires Inv(s)
    ensures Inv(TickOnce(s, stalled, ok))
  {
    if Writing(s.tick) {
      WritingKeepsOwners(s, stalled, ok);
      WritingRemembers(s, stalled, ok);
      WritingIsUnderway(s, stalled, ok);
    } else {
      WaitingKeepsOwners(s, stalled, ok);
      WaitingRemembers(s, stalled, ok);
      WaitingIsUnderway(s, stalled, ok);
    }
    hide TickOnce, Owned, Exclusive, Remembers, Underway;
  }

  lemma WritingKeepsOwners(s: State, stalled: bool, ok: bool)
    requires Inv(s) && Writing(s.tick)
    ensures Owned(TickOnce(s, stalled, ok)) && Exclusive(TickOnce(s, stalled, ok))
  {
    TickCanFree(s);
    hide Remembers, Underway, AccFree, Stored, Held;
  }

  lemma WritingRemembers(s: State, stalled: bool, ok: bool)
    requires Inv(s) && Writing(s.tick)
    ensures Remembers(TickOnce(s, stalled, ok))
  {
    TickCanFree(s);
    hide Owned, Exclusive, AccFree, Free;
  }

  lemma WritingIsUnderway(s: State, stalled: bool, ok: bool)
    requires Inv(s) && Writing(s.tick)
    ensures Underway(TickOnce(s, stalled, ok))
  {
    TickCanFree(s);
    hide Owned, Exclusive, Remembers, AccFree, Free;
  }

  lemma WaitingKeepsOwners(s: State, stalled: bool, ok: bool)
    requires Inv(s) && !Writing(s.tick)
    ensures Owned(TickOnce(s, stalled, ok)) && Exclusive(TickOnce(s, stalled, ok))
  {
    TickCanFree(s);
    hide Remembers, Underway, Stored, Held;
  }

  lemma WaitingRemembers(s: State, stalled: bool, ok: bool)
    requires Inv(s) && !Writing(s.tick)
    ensures Remembers(TickOnce(s, stalled, ok))
  {
    TickCanFree(s);
    hide Owned, Stored, Underway, Held;
  }

  lemma WaitingIsUnderway(s: State, stalled: bool, ok: bool)
    requires Inv(s) && !Writing(s.tick)
    ensures Underway(TickOnce(s, stalled, ok))
  {
    TickCanFree(s);
    hide Owned, Remembers, Stored;
  }

  lemma TickCanFree(s: State)
    requires Inv(s)
    ensures s.tick.Finish? ==> s.flushBuf.Some? && s.flushBuf.value in s.live
    ensures s.accBuf.Some? ==> s.accBuf.value in s.live
  {
  }

  ghost predicate CanRun(s: State, es: seq<Event>)
    requires Inv(s)
    decreases |es|
  {
    es != [] ==> Enabled(s, es[0]) && (StepKeepsInv(s, es[0]); CanRun(Step(s, es[0]), es[1..]))
  }

  ghost function Run(s: State, es: seq<Event>): (t: State)
    requires Inv(s) && CanRun(s, es)
    ensures Inv(t)
    decreases |es|
  {
    if es == [] then s
    else
      StepKeepsInv(s, es[0]);
      Run(Step(s, es[0]), es[1..])
  }

  /** Exclusion over every interleaving: whenever the file is being rewritten no
      reader holds a claim, and every buffer has exactly one owner, so each is freed
      once and none is lost. */
  lemma ExclusionAlways(f: Files, running: string, es: seq<Event>)
    requires HoldNamed(f) && (StartKeepsInv(f, running, 0); CanRun(Start(f, running, 0), es))
    ensures var s := (StartKeepsInv(f, running, 0); Run(Start(f, running, 0), es));
      && (Writing(s.tick) ==> s.relayClaims == 0 && s.flushPending && s.flushBuf == s.flushing)
      && s.live == OptSet(s.accBuf) + OptSet(s.flushBuf) + BufferOf(s.uploader)
      && |s.live| == |OptSet(s.accBuf)| + |OptSet(s.flushBuf)| + |BufferOf(s.uploader)|
  {
    StartKeepsInv(f, running, 0);
    var s := Run(Start(f, running, 0), es);
    var a, b, c := OptSet(s.accBuf), OptSet(s.flushBuf), BufferOf(s.uploader);
    assert |a + b| == |a| + |b| && |(a + b) + c| == |a + b| + |c|;
  }

  /** Once a flush is pending no new claim is granted: until it has run, the claims
      only fall. */
  lemma {:induction false} ClaimsOnlyFall(s: State, es: seq<Event>)
    requires Inv(s) && CanRun(s, es)
    requires forall n :: 0 <= n < |es| ==> RunsPending(s, es, n)
    ensures Run(s, es).relayClaims <= s.relayClaims
    decreases |es|
  {
    hide Step, Inv, Enabled;
    if es != [] {
      StepKeepsInv(s, es[0]);
      assert RunsPending(s, es, 0);
      NoClaimGranted(s, es[0]);
      forall n | 0 <= n < |es| - 1
        ensures RunsPending(Step(s, es[0]), es[1..], n)
      {
        assert RunsPending(s, es, n + 1);
      }
      ClaimsOnlyFall(Step(s, es[0]), es[1..]);
    }
  }

  lemma NoClaimGranted(s: State, e: Event)
    requires Inv(s) && Enabled(s, e) && s.flushPending
    ensures Step(s, e).relayClaims <= s.relayClaims
  {
    if e.TickStep? { TickGrantsNone(s, e.stalled, e.ok); }
    hide Inv, TickOnce;
  }

  lemma TickGrantsNone(s: State, stalled: bool, ok: bool)
    requires Inv(s)
    ensures TickOnce(s, stalled, ok).relayClaims == s.relayClaims
  {
    TickCanFree(s);
    hide Remembers, Owned, Underway, Exclusive;
  }

  /** After the first `n` events of the run the flush is (still) pending. */
  ghost predicate RunsPending(s: State, es: seq<Event>, n: nat)
    requires Inv(s) && CanRun(s, es)
    decreases |es|
  {
    if n == 0 || es == [] then s.flushPending
    else
      StepKeepsInv(s, es[0]);
      RunsPending(Step(s, es[0]), es[1..], n - 1)
  }

  // ---- what is stored was uploaded ---------------------------------------------------------

  /** A claim is granted if and only if the file is not about to change. */
  lemma ClaimedExactly(s: State)
    requires Inv(s)
    ensures Step(s, Claim).relayClaims == s.relayClaims + (if s.accumulating || s.flushPending then 0 else 1)
  {
  }

  /** Each release takes back one claim, if there is one. */
  lemma ReleasedExactly(s: State)
    requires Inv(s)
    ensures Step(s, Release).relayClaims == (if s.relayClaims == 0 then 0 else s.relayClaims - 1)
    ensures Step(s, Release) == s.(relayClaims := Step(s, Release).relayClaims)
  {
  }

  /** Besides its own end an upload ends by being given up, or by the network task when it
      has stalled, and in no other way; its buffer is then no longer live. */
  lemma UploadEndsExactly(s: State, stalled: bool, ok: bool)
    requires Inv(s) && s.accumulating
    ensures var t := TickOnce(s, stalled, ok);
      && (t.accumulating <==> !(s.tick.Reclaiming? && stalled))
      && (t.accumulating ==> t.accBuf == s.accBuf && t.accData == s.accData)
      && (!t.accumulating ==> t.accBuf.None? && t.live == s.live - OptSet(s.accBuf))
    ensures s.uploader.Idle? ==>
      var t := Step(s, AbortUpload);
      !t.accumulating && t.accBuf.None? && t.live == s.live - OptSet(s.accBuf) && t.flushPending == s.flushPending
  {
    TickCanFree(s);
    hide Remembers, Underway;
  }

  /** A chunk is taken if and only if an upload runs, the chunk goes on where that has got to,
      and fits; one that is out of place ends the upload. */
  lemma ChunkTakenExactly(s: State, index: nat, data: seq<bv8>)
    requires Inv(s) && s.uploader.Idle?
    ensures var t := Step(s, Chunk(index, data)); var open := s.accumulating && s.accBuf.Some?;
      if open && index == |s.accData| && |s.accData| + |data| <= 655_360 then t == s.(accData := s.accData + data)
      else if open then !t.accumulating && t.accBuf.None? && t.flushPending == s.flushPending
      else t == s
  {
  }

  /** An upload is handed over to be stored if and only if one runs, holds something, and
      its checksum is the promised one; either way it is over. */
  lemma HandedOverExactly(s: State, matches: bool)
    requires Inv(s) && s.uploader.Idle? && s.accumulating
    ensures var t := Step(s, End(matches));
      && (s.accBuf.Some? ==> !t.accumulating)
      && (t.flushPending <==> s.flushPending || (s.accBuf.Some? && s.accData != [] && matches))
  {
  }

  /** When a store is over, the files hold its image, its hold if it is a release's, and its
      label if that could be written, or nothing at all if it failed; and RAM says so. */
  lemma StoreEndsWith(s: State, stalled: bool, ok: bool)
    requires Inv(s) && s.tick.Finish?
    ensures var t, stored := TickOnce(s, stalled, ok), s.tick.ok;
      && t.files == (if !stored then Files(None, None, None)
                     else Files(Some(Stored(s)), if s.tick.revOk then Some(s.flushRev) else None,
                                if s.flushHeldFor == "" then None else Some(s.flushHeldFor)))
      && t.storedPresent == stored
      && t.storedHeldFor == (if stored then s.flushHeldFor else "")
      && t.storedRev == (if stored && s.tick.revOk then s.flushRev else "")
      && !t.flushPending && t.flushBuf.None? && t.live == s.live - OptSet(s.flushBuf) && t.tick.Reclaiming?
  {
    TickCanFree(s);
  }

  /** After a start the hold of a release that runs is removed by the first tick; any other
      stays. */
  lemma SpentHoldIsRemoved(f: Files, running: string)
    requires HoldNamed(f)
    ensures var s := Start(f, running, 0);
      && Inv(s) && Inv(TickOnce(s, false, true)) && Inv(TickOnce(TickOnce(s, false, true), false, true))
      && var t := TickOnce(TickOnce(TickOnce(s, false, true), false, true), false, true);
      && t.files.hold == (if f.image.Some? && f.hold == Some(running) then None else f.hold)
      && t.files.image == s.files.image && t.files.rev == f.rev
  {
    StartKeepsInv(f, running, 0);
    var s := Start(f, running, 0);
    TickKeepsInv(s, false, true);
    TickKeepsInv(TickOnce(s, false, true), false, true);
    hide Inv;
  }

  /** A store that is due starts once no reader holds a claim, and not before; while readers
      hold on it waits. */
  lemma StoreStartsExactly(s: State, stalled: bool, ok: bool)
    requires Inv(s) && s.tick.FlushStart?
    ensures var t := TickOnce(s, stalled, ok);
      if s.flushPending && s.relayClaims == 0
      then t == s.(flushing := s.flushBuf, tick := if s.flushHeldFor == "" then WriteImage else WriteHold)
      else t == s.(tick := Reclaiming)
  {
  }

  /** The upload that runs, as its requests tell it, and the images ever handed over with a
      matching checksum, besides the one found at the start. */
  datatype Trace = Trace(rev: string, data: seq<bv8>, checked: set<(string, seq<bv8>)>)

  function TraceAfter(s: State, e: Event, was: Trace): Trace {
    match e
    case Begin(rev, _, accepted) =>
      if accepted && !s.accumulating && !s.flushPending then was.(rev := rev, data := []) else was
    case Chunk(index, data) => if index == |was.data| then was.(data := was.data + data) else was
    case End(matches) =>
      if matches && was.data != [] then was.(checked := was.checked + {(was.rev, was.data)}) else was
    case _ => was
  }

  ghost function TraceAfterAll(s: State, es: seq<Event>, was: Trace): Trace
    requires Inv(s) && CanRun(s, es)
    decreases |es|
  {
    if es == [] then was
    else
      StepKeepsInv(s, es[0]);
      TraceAfterAll(Step(s, es[0]), es[1..], TraceAfter(s, es[0], was))
  }

  /** The state holds nothing but what the requests have brought. */
  ghost predicate Traced(s: State, t: Trace) {
    && (s.accumulating ==> s.accRev == t.rev && s.accData == t.data)
    && (s.flushPending ==> (s.flushRev, s.flushData) in t.checked)
    && (s.files.image.Some? ==> (s.files.image.value.rev, s.files.image.value.data) in t.checked)
  }

  lemma StepIsTraced(s: State, e: Event, was: Trace)
    requires Inv(s) && Enabled(s, e) && Traced(s, was)
    ensures Traced(Step(s, e), TraceAfter(s, e, was))
  {
    match e
    case TickStep(stalled, ok) => TickIsTraced(s, stalled, ok, was);
    case Restart(running) => RestartIsTraced(s, running, was);
    case _ => RequestIsTraced(s, e, was);
    hide Step, TickOnce, Traced, Inv;
  }

  lemma RestartIsTraced(s: State, running: string, was: Trace)
    requires Inv(s) && Traced(s, was)
    ensures Traced(Start(s.files, running, s.nextBuf), was)
  {
    hide Inv;
  }

  lemma RequestIsTraced(s: State, e: Event, was: Trace)
    requires Inv(s) && Enabled(s, e) && Traced(s, was) && !e.TickStep? && !e.Restart?
    ensures Traced(Step(s, e), TraceAfter(s, e, was))
  {
    if s.accumulating && s.uploader.Idle? { UploadHasBuffer(s); }
    hide Inv, TickOnce, Start;
    if e.Chunk? { ChunkTakenExactly(s, e.index, e.data); hide Step; }
    if e.End? { EndIsTraced(s, e.matches, was); hide Step; }
  }

  lemma UploadHasBuffer(s: State)
    requires Inv(s) && s.accumulating && s.uploader.Idle?
    ensures s.accBuf.Some? && !s.flushPending
  {
  }

  lemma EndIsTraced(s: State, matches: bool, was: Trace)
    requires Inv(s) && s.uploader.Idle? && Traced(s, was)
    ensures Traced(Step(s, End(matches)), TraceAfter(s, End(matches), was))
  {
    if s.accumulating { UploadHasBuffer(s); }
    hide Inv, TickOnce, Start;
  }

  lemma TickIsTraced(s: State, stalled: bool, ok: bool, was: Trace)
    requires Inv(s) && Traced(s, was)
    ensures Traced(TickOnce(s, stalled, ok), was)
  {
    TickCanFree(s);
    hide Owned, Remembers, Underway;
  }

  /** Over every interleaving, stops and starts included: the image on flash is, byte for
      byte and under its rev, the one found at the start or one whose chunks came end to
      end from its beginning and whose end brought a matching checksum. */
  lemma {:induction false} StoredIsUploaded(s: State, es: seq<Event>, was: Trace)
    requires Inv(s) && CanRun(s, es) && Traced(s, was)
    ensures Traced(Run(s, es), TraceAfterAll(s, es, was))
    decreases |es|
  {
    hide Inv, Step, Enabled, Traced, TraceAfter;
    if es != [] {
      StepKeepsInv(s, es[0]);
      StepIsTraced(s, es[0], was);
      StoredIsUploaded(Step(s, es[0]), es[1..], TraceAfter(s, es[0], was));
    }
  }

  lemma StartIsTraced(f: Files, running: string)
    requires HoldNamed(f)
    ensures Traced(Start(f, running, 0),
                   Trace("", [], if f.image.Some? then {(f.image.value.rev, f.image.value.data)} else {}))
  {
  }

  // ---- an image on offer before its release runs -----------------------------------------

  /** Rows are offered an image that waits for another master rev than the one running. */
  predicate TooEarly(s: State) {
    Offers(s) && Bound(s.files)
  }

  /** An image that waits for nothing is not offered all the same. */
  predicate Withheld(s: State) {
    s.storedPresent && !Offers(s) && !Bound(s.files)
  }

  /** The hold an image lies under. One that waits for a release: its own, or that of a
      release whose own image never came, or none any more. One that waits for nothing:
      none, or a stray one, left by another image or by a release that has run. */
  datatype Hold = Right | Foreign(rev: string) | Gone | Stray(rev: string)

  function HoldOf(f: Files): Hold {
    if f.image.None? then Right
    else if !Bound(f) then (if f.hold.Some? then Stray(f.hold.value) else Right)
    else if f.hold == Some(f.image.value.boundTo) then Right
    else if f.hold.Some? then Foreign(f.hold.value)
    else Gone
  }

  /** The same told from the events, step by step: a store's hold written over another
      image's, its image written, a hold removed, the release of an image starting. */
  function HoldAfter(s: State, e: Event, was: Hold): Hold {
    match e
    case TickStep(_, ok) =>
      if s.tick.WriteHold? && ok then HoldWritten(s)
      else if s.tick.WriteImage? && ok then
        (if Stored(s).boundTo == "" && s.files.hold.Some? then Stray(s.files.hold.value) else Right)
      else if s.tick.FailImage? || s.tick.RemoveHold? then Right
      else if s.tick.SpentRemove? then (match was case Foreign(_) => Gone case Stray(_) => Right case _ => was)
      else was
    case Restart(running) =>
      if Bound(s.files) && s.files.image.value.boundTo == running then
        (match was case Right => Stray(running) case Foreign(rev) => Stray(rev) case _ => Right)
      else was
    case _ => was
  }

  /** A release's store has written its hold over whatever image there is. */
  function HoldWritten(s: State): Hold {
    if s.files.image.None? then Right
    else if !Bound(s.files) then Stray(s.flushHeldFor)
    else if s.files.image.value.boundTo != s.flushHeldFor then Foreign(s.flushHeldFor)
    else Right
  }

  ghost function HoldAfterAll(s: State, es: seq<Event>, was: Hold): Hold
    requires Inv(s) && CanRun(s, es)
    decreases |es|
  {
    if es == [] then was
    else
      StepKeepsInv(s, es[0]);
      HoldAfterAll(Step(s, es[0]), es[1..], HoldAfter(s, es[0], was))
  }

  lemma TickMovesHold(s: State, stalled: bool, ok: bool)
    requires Inv(s)
    ensures HoldOf(TickOnce(s, stalled, ok).files) == HoldAfter(s, TickStep(stalled, ok), HoldOf(s.files))
  {
    TickCanFree(s);
    hide Owned, Exclusive, AccFree, Free;
    if Writing(s.tick) { hide Writing; }
  }

  lemma TickMovesLabel(s: State, stalled: bool, ok: bool)
    requires Inv(s)
    ensures Mislabelled(TickOnce(s, stalled, ok).files) == MislabelledAfter(s, TickStep(stalled, ok), Mislabelled(s.files))
  {
    TickCanFree(s);
    hide Owned, Exclusive, Remembers, AccFree, Free, Writing;
  }

  lemma StepMovesBoth(s: State, e: Event)
    requires Inv(s) && Enabled(s, e)
    ensures HoldOf(Step(s, e).files) == HoldAfter(s, e, HoldOf(s.files))
    ensures Mislabelled(Step(s, e).files) == MislabelledAfter(s, e, Mislabelled(s.files))
  {
    if e.TickStep? {
      TickMovesHold(s, e.stalled, e.ok);
      TickMovesLabel(s, e.stalled, e.ok);
    }
    if !e.Restart? && !e.TickStep? { assert Step(s, e).files == s.files by { hide HoldOf, Mislabelled; } }
    hide Owned, Exclusive, TickOnce, Underway;
  }

  lemma {:induction false} HoldIsTheHistorys(s: State, es: seq<Event>, was: Hold)
    requires Inv(s) && CanRun(s, es) && was == HoldOf(s.files)
    ensures HoldOf(Run(s, es).files) == HoldAfterAll(s, es, was)
    decreases |es|
  {
    hide Inv, Step, Enabled, HoldAfter, HoldOf;
    if es != [] {
      StepKeepsInv(s, es[0]);
      StepMovesBoth(s, es[0]);
      HoldIsTheHistorys(Step(s, es[0]), es[1..], HoldAfter(s, es[0], was));
    }
  }

  lemma OfferByHold(s: State)
    requires Inv(s) && !Writing(s.tick)
    ensures TooEarly(s) <==> HoldOf(s.files) in {Foreign(s.running), Gone}
    ensures Withheld(s) <==> HoldOf(s.files).Stray? && HoldOf(s.files).rev != s.running
  {
    hide Owned, Exclusive;
  }

  /** Over every run, stops and starts included, from any files: outside a store rows are
      offered an image before its release runs if and only if a release's store wrote its
      hold over that image's and never came to its own image, and that release runs, or
      has run since. */
  lemma OfferedTooEarlyExactly(f: Files, running: string, es: seq<Event>)
    requires HoldNamed(f) && (StartKeepsInv(f, running, 0); CanRun(Start(f, running, 0), es))
    ensures var s0 := Start(f, running, 0); var s := (StartKeepsInv(f, running, 0); Run(s0, es));
      !Writing(s.tick) ==>
        (TooEarly(s) <==> HoldAfterAll(s0, es, HoldOf(s0.files)) in {Foreign(s.running), Gone})
  {
    StartKeepsInv(f, running, 0);
    hide Inv, Step, HoldOf, TooEarly, HoldAfterAll, Withheld;
    var s0 := Start(f, running, 0);
    HoldIsTheHistorys(s0, es, HoldOf(s0.files));
    if !Writing(Run(s0, es).tick) { OfferByHold(Run(s0, es)); }
  }

  /** And it is withheld although it waits for nothing, as an upload does, if and only if a
      hold was left over it: by the image before it when its own store was stopped, by a
      release's store stopped before its image, or by a release that had run when it was
      stored; and that rev does not run. */
  lemma WithheldExactly(f: Files, running: string, es: seq<Event>)
    requires HoldNamed(f) && (StartKeepsInv(f, running, 0); CanRun(Start(f, running, 0), es))
    ensures var s0 := Start(f, running, 0); var s := (StartKeepsInv(f, running, 0); Run(s0, es));
      var hold := HoldAfterAll(s0, es, HoldOf(s0.files));
      !Writing(s.tick) ==> (Withheld(s) <==> hold.Stray? && hold.rev != s.running)
  {
    StartKeepsInv(f, running, 0);
    hide Inv, Step, HoldOf, TooEarly, HoldAfterAll, Withheld;
    var s0 := Start(f, running, 0);
    HoldIsTheHistorys(s0, es, HoldOf(s0.files));
    if !Writing(Run(s0, es).tick) { OfferByHold(Run(s0, es)); }
  }

  // ---- an image under another's label ----------------------------------------------------

  /** The rev file names another image than the one there is. */
  predicate Mislabelled(f: Files) {
    f.image.Some? && f.rev.Some? && f.rev.value !in {"", f.image.value.rev}
  }

  /** Told from the events: an image is written under the label of another, and its own
      label not written, nor the old one removed, since. */
  function MislabelledAfter(s: State, e: Event, was: bool): bool {
    if !e.TickStep? then was
    else if s.tick.WriteImage? && e.ok then s.files.rev.Some? && s.files.rev.value !in {"", s.flushRev}
    else if (s.tick.WriteRev? && e.ok) || s.tick.RemoveRev? || s.tick.FailImage? then false
    else was
  }

  ghost function MislabelledAfterAll(s: State, es: seq<Event>, was: bool): bool
    requires Inv(s) && CanRun(s, es)
    decreases |es|
  {
    if es == [] then was
    else
      StepKeepsInv(s, es[0]);
      MislabelledAfterAll(Step(s, es[0]), es[1..], MislabelledAfter(s, es[0], was))
  }

  lemma {:induction false} LabelIsTheHistorys(s: State, es: seq<Event>, was: bool)
    requires Inv(s) && CanRun(s, es) && was == Mislabelled(s.files)
    ensures Mislabelled(Run(s, es).files) == MislabelledAfterAll(s, es, was)
    decreases |es|
  {
    hide Inv, Step, Enabled, MislabelledAfter, Mislabelled;
    if es != [] {
      StepKeepsInv(s, es[0]);
      StepMovesBoth(s, es[0]);
      LabelIsTheHistorys(Step(s, es[0]), es[1..], MislabelledAfter(s, es[0], was));
    }
  }

  lemma LabelShown(s: State)
    requires Inv(s) && !Writing(s.tick) && s.storedPresent
    ensures s.files.image.Some?
    ensures s.storedRev !in {"", s.files.image.value.rev} <==> Mislabelled(s.files)
  {
    hide Owned, Exclusive;
  }

  /** Over every run: outside a store the rev shown is the stored image's own, or none,
      except exactly after a store that was stopped between its image and its label
      while the label of another image was there. */
  lemma LabelIsTheImages(f: Files, running: string, es: seq<Event>)
    requires HoldNamed(f) && (StartKeepsInv(f, running, 0); CanRun(Start(f, running, 0), es))
    ensures var s0 := Start(f, running, 0); var s := (StartKeepsInv(f, running, 0); Run(s0, es));
      !Writing(s.tick) && s.storedPresent ==>
        && s.files.image.Some?
        && (s.storedRev !in {"", s.files.image.value.rev}
            <==> MislabelledAfterAll(s0, es, Mislabelled(s0.files)))
  {
    StartKeepsInv(f, running, 0);
    hide Inv, Step, Mislabelled, MislabelledAfterAll;
    var s0 := Start(f, running, 0);
    LabelIsTheHistorys(s0, es, Mislabelled(s0.files));
    var s := Run(s0, es);
    if !Writing(s.tick) && s.storedPresent { LabelShown(s); }
  }

  /** And a release whose row rev such a label names does not store its own image. */
  lemma StaleLabelSkipsAStore(s: State, masterRev: string)
    requires Inv(s) && !Writing(s.tick) && s.storedPresent && Mislabelled(s.files) && Offers(s)
    ensures !ReleaseStores(s.storedRev, s.storedHeldFor, s.running, s.files.rev.value, masterRev)
    ensures s.files.rev.value != s.files.image.value.rev
  {
  }

  // ---- these things happen -------------------------------------------------------------------

  lemma {:induction false} OneMore(s: State, es: seq<Event>, e: Event) returns (all: seq<Event>)
    requires Inv(s) && CanRun(s, es) && Enabled(Run(s, es), e)
    ensures all == es + [e] && CanRun(s, all) && Run(s, all) == Step(Run(s, es), e)
    decreases |es|
  {
    hide Inv, Step, Enabled;
    all := es + [e];
    if es == [] {
      StepKeepsInv(s, e);
      assert all[0] == e && all[1..] == [];
    } else {
      StepKeepsInv(s, es[0]);
      var rest := OneMore(Step(s, es[0]), es[1..], e);
      assert all[0] == es[0] && all[1..] == rest;
    }
  }

  /** An upload or a release's image handed over for the network task to store. */
  lemma HandedOver(s: State, rev: string, heldFor: string) returns (es: seq<Event>)
    requires Inv(s) && s.tick.Reclaiming? && s.uploader.Idle? && !s.accumulating && !s.flushPending
    ensures CanRun(s, es)
    ensures var t := Run(s, es);
      t == s.(accData := [], accRev := rev, accHeldFor := heldFor, live := s.live + {s.nextBuf}, nextBuf := s.nextBuf + 1,
              flushBuf := Some(s.nextBuf), flushData := [0xE9], flushRev := rev, flushHeldFor := heldFor, flushPending := true)
  {
    es := OneMore(s, [], Begin(rev, heldFor, true));
    es := OneMore(s, es, Alloc(true));
    es := OneMore(s, es, TakeBuffer);
    es := OneMore(s, es, Chunk(0, [0xE9]));
    es := OneMore(s, es, End(true));
  }

  /** The tick up to its first write. */
  lemma TakenUp(s: State, es0: seq<Event>) returns (es: seq<Event>)
    requires Inv(s) && CanRun(s, es0)
    requires var t := Run(s, es0);
      t.tick.Reclaiming? && !t.accumulating && t.flushPending && t.relayClaims == 0 && !t.holdSpent
    ensures CanRun(s, es)
    ensures var t := Run(s, es0);
      Run(s, es) == t.(flushing := t.flushBuf, tick := if t.flushHeldFor != "" then WriteHold else WriteImage)
  {
    es := OneMore(s, es0, TickStep(false, true));
    es := OneMore(s, es, TickStep(false, true));
    es := OneMore(s, es, TickStep(false, true));
  }

  /** An image waits for A. The store of release B is cut off after its hold; B runs, and
      the image for A is offered. */
  lemma TooEarlyHappens() returns (f: Files, es: seq<Event>)
    ensures HoldNamed(f) && Inv(Start(f, "N", 0)) && HoldOf(Start(f, "N", 0).files) == Right && !TooEarly(Start(f, "N", 0))
    ensures CanRun(Start(f, "N", 0), es) && TooEarly(Run(Start(f, "N", 0), es))
  {
    f := Files(Some(Image("A", "r", [0x00])), Some("r"), Some("A"));
    StartKeepsInv(f, "N", 0);
    var s := Start(f, "N", 0);
    es := HandedOver(s, "u", "B");
    es := TakenUp(s, es);
    es := OneMore(s, es, TickStep(false, true));
    es := OneMore(s, es, Restart("B"));
  }

  /** An upload over another one is cut off after its image and shows the old label. */
  lemma MislabelledHappens() returns (f: Files, es: seq<Event>)
    ensures HoldNamed(f) && Inv(Start(f, "N", 0)) && !Mislabelled(f) && CanRun(Start(f, "N", 0), es)
    ensures var s := Run(Start(f, "N", 0), es);
      s.storedPresent && s.storedRev == "r" && s.files.image == Some(Image("", "u", [0xE9])) && Offers(s)
  {
    f := Files(Some(Image("", "r", [0x00])), Some("r"), None);
    StartKeepsInv(f, "N", 0);
    var s := Start(f, "N", 0);
    es := HandedOver(s, "u", "");
    es := TakenUp(s, es);
    es := OneMore(s, es, TickStep(false, true));
    es := OneMore(s, es, Restart("N"));
  }

  /** An upload over an image that waits for A is cut off before it removes that image's
      hold, and is withheld. */
  lemma WithheldHappens() returns (f: Files, es: seq<Event>)
    ensures HoldNamed(f) && Inv(Start(f, "N", 0)) && !Withheld(Start(f, "N", 0)) && CanRun(Start(f, "N", 0), es)
    ensures var s := Run(Start(f, "N", 0), es); Withheld(s) && s.files.image == Some(Image("", "u", [0xE9]))
  {
    f := Files(Some(Image("A", "r", [0x00])), Some("r"), Some("A"));
    StartKeepsInv(f, "N", 0);
    var s := Start(f, "N", 0);
    es := HandedOver(s, "u", "");
    es := TakenUp(s, es);
    es := OneMore(s, es, TickStep(false, true));
    es := OneMore(s, es, Restart("N"));
  }

  // ---- where a store stops -----------------------------------------------------------------

  /** Wherever a store for a release stops, the image on flash is the old one, or the
      new one under its own hold, or none. */
  lemma InterruptedStoreLeavesOldOrHeld(s: State, oks: seq<bool>)
    requires Inv(s) && s.tick.WriteHold?
    ensures var t := Ticks(s, oks);
      && Inv(t)
      && (Writing(t.tick) ==>
            && t.flushHeldFor == s.flushHeldFor && t.flushRev == s.flushRev && t.flushData == s.flushData && t.running == s.running
            && (t.files.image == s.files.image || t.files.image.None?
                || (t.files.image == Some(Stored(s)) && t.files.hold == Some(s.flushHeldFor))))
  {
    StoreTrace(s, oks);
  }

  function Ticks(s: State, oks: seq<bool>): (t: State)
    requires Inv(s)
    ensures Inv(t)
    decreases |oks|
  {
    if oks == [] then s
    else
      var before := Ticks(s, oks[..|oks| - 1]);
      TickKeepsInv(before, false, oks[|oks| - 1]);
      if Writing(before.tick) then TickOnce(before, false, oks[|oks| - 1]) else before
  }

  /** Where a store that began in `s` has got to in `t`. */
  ghost predicate OnTheWay(s: State, t: State) {
    var stored := t.files.image == Some(Stored(s)) && t.files.hold == Some(s.flushHeldFor);
    && t.flushHeldFor == s.flushHeldFor != "" && t.flushRev == s.flushRev && t.flushData == s.flushData && t.running == s.running
    && match t.tick
       case WriteHold => t.files.image == s.files.image
       case WriteImage => t.files.image == s.files.image && t.files.hold == Some(s.flushHeldFor)
       case WriteRev => stored
       case RemoveRev => stored
       case FailImage => t.files.image == s.files.image
       case FailRev => t.files.image.None?
       case FailHold => t.files.image.None?
       case Finish(ok, _) => if ok then stored else t.files.image.None?
       case _ => false
  }

  lemma {:induction false} StoreTrace(s: State, oks: seq<bool>)
    requires Inv(s) && s.tick.WriteHold? && s.flushHeldFor != ""
    ensures Writing(Ticks(s, oks).tick) ==> OnTheWay(s, Ticks(s, oks))
    decreases |oks|
  {
    hide Inv, TickOnce;
    if oks != [] {
      var before := Ticks(s, oks[..|oks| - 1]);
      StoreTrace(s, oks[..|oks| - 1]);
      if Writing(before.tick) { StaysOnTheWay(s, before, oks[|oks| - 1]); }
    }
  }

  lemma StaysOnTheWay(s: State, t: State, ok: bool)
    requires Inv(t) && Writing(t.tick) && OnTheWay(s, t)
    ensures var t' := TickOnce(t, false, ok); Writing(t'.tick) ==> OnTheWay(s, t')
  {
    TickCanFree(t);
    hide Inv, AccFree;
  }
}
