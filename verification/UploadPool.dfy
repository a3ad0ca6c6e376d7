/** Uploading a batch of files with bounded concurrency
    (ui/src/features/services/detail/browser/useObjectUpload.ts). Workers share a cursor and
    give way to each other only while an upload is under way. */
module UploadPool {

  const MAX_CONCURRENT := 3

  datatype Worker = Ready | Uploading(file: nat) | Stopped

  /** The end of a file's upload. */
  datatype End = End(file: nat, ok: bool)

  /** A batch: what the workers share, and where each stands. `attempts` is every upload
      started so far, `ended` every one that has ended, in order. */
  datatype Batch = Batch(
    files: seq<string>, next: nat, done: nat, failed: nat, failures: seq<string>,
    workers: seq<Worker>, attempts: seq<nat>, ended: seq<End>)

  function Min(a: nat, b: nat): nat {
    if a < b then a else b
  }

  function Begin(files: seq<string>): Batch {
    Batch(files, 0, 0, 0, [], seq(Min(MAX_CONCURRENT, |files|), _ => Ready), [], [])
  }

  /** A worker at the head of its loop: it takes the next file, or stops. */
  predicate CanTake(b: Batch, w: nat) {
    w < |b.workers| && b.workers[w].Ready?
  }

  function Take(b: Batch, w: nat): Batch
    requires CanTake(b, w)
  {
    if b.next < |b.files|
    then b.(next := b.next + 1, workers := b.workers[w := Uploading(b.next)], attempts := b.attempts + [b.next])
    else b.(workers := b.workers[w := Stopped])
  }

  predicate CanSettle(b: Batch, w: nat) {
    w < |b.workers| && b.workers[w].Uploading? && b.workers[w].file < |b.files|
  }

  /** A worker's upload has ended. */
  function Settle(b: Batch, w: nat, ok: bool): Batch
    requires CanSettle(b, w)
  {
    var file := b.workers[w].file;
    var c := b.(workers := b.workers[w := Ready], ended := b.ended + [End(file, ok)]);
    if ok then c.(done := b.done + 1)
    else c.(failed := b.failed + 1, failures := b.failures + [b.files[file]])
  }

  predicate AllStopped(b: Batch) {
    forall w :: 0 <= w < |b.workers| ==> b.workers[w].Stopped?
  }

  // ------------------------------------------------------------------ what batches keep

  function InFlight(workers: seq<Worker>): nat {
    if workers == [] then 0
    else InFlight(workers[..|workers| - 1]) + if workers[|workers| - 1].Uploading? then 1 else 0
  }

  lemma {:induction false} InFlightBounds(workers: seq<Worker>)
    ensures InFlight(workers) <= |workers|
    ensures (forall w :: 0 <= w < |workers| ==> !workers[w].Uploading?) ==> InFlight(workers) == 0
  {
    if workers == [] {
    } else {
      InFlightBounds(workers[..|workers| - 1]);
    }
  }

  lemma {:induction false} InFlightUpdate(workers: seq<Worker>, w: nat, x: Worker)
    requires w < |workers|
    ensures InFlight(workers[w := x])
      == InFlight(workers) + (if x.Uploading? then 1 else 0) - (if workers[w].Uploading? then 1 else 0)
  {
    var front := workers[..|workers| - 1];
    if w == |front| {
      assert workers[w := x][..|workers| - 1] == front;
    } else {
      assert workers[w := x][..|workers| - 1] == front[w := x];
      InFlightUpdate(front, w, x);
    }
  }

  /** The ends that went one way. */
  function EndsWith(ended: seq<End>, ok: bool): seq<nat> {
    if ended == [] then []
    else
      var last := ended[|ended| - 1];
      EndsWith(ended[..|ended| - 1], ok) + if last.ok == ok then [last.file] else []
  }

  lemma EndsSnoc(ended: seq<End>, last: End, ok: bool)
    ensures EndsWith(ended + [last], ok) == EndsWith(ended, ok) + if last.ok == ok then [last.file] else []
  {
    assert (ended + [last])[..|ended + [last]| - 1] == ended;
  }

  function UpTo(n: nat): seq<nat> {
    seq(n, i => i)
  }

  /** The failures are the names of the files whose upload ended badly, in order. */
  ghost predicate FailuresListed(b: Batch) {
    && |b.failures| == |EndsWith(b.ended, false)|
    && forall i :: 0 <= i < |b.failures| ==>
         EndsWith(b.ended, false)[i] < |b.files| && b.failures[i] == b.files[EndsWith(b.ended, false)[i]]
  }

  /** A file's upload ends once, and not while it is in flight. */
  ghost predicate EndedOnce(b: Batch) {
    && (forall i :: 0 <= i < |b.ended| ==> b.ended[i].file < b.next)
    && (forall i, j :: 0 <= i < j < |b.ended| ==> b.ended[i].file != b.ended[j].file)
    && (forall i, w :: 0 <= i < |b.ended| && 0 <= w < |b.workers| ==> b.workers[w] != Uploading(b.ended[i].file))
  }

  /** The files taken are the first `next`, each attempted once; what was taken is done,
      failed or in flight, each file with one worker; and a worker stops only when all files
      are taken. */
  ghost predicate BatchOk(b: Batch) {
    && b.next <= |b.files| && b.attempts == UpTo(b.next)
    && |b.workers| == Min(MAX_CONCURRENT, |b.files|)
    && b.done + b.failed + InFlight(b.workers) == b.next
    && b.done == |EndsWith(b.ended, true)| && b.failed == |EndsWith(b.ended, false)|
    && FailuresListed(b) && EndedOnce(b)
    && (forall w :: 0 <= w < |b.workers| && b.workers[w].Uploading? ==> b.workers[w].file < b.next)
    && (forall v, w :: 0 <= v < w < |b.workers| && b.workers[v].Uploading? && b.workers[w].Uploading? ==> b.workers[v] != b.workers[w])
    && (forall w :: 0 <= w < |b.workers| && b.workers[w].Stopped? ==> b.next == |b.files|)
  }

  lemma BeginOk(files: seq<string>)
    ensures BatchOk(Begin(files))
  {
    InFlightBounds(Begin(files).workers);
  }

  lemma TakeOk(b: Batch, w: nat)
    requires BatchOk(b) && CanTake(b, w)
    ensures BatchOk(Take(b, w))
  {
    InFlightUpdate(b.workers, w, if b.next < |b.files| then Uploading(b.next) else Stopped);
    assert UpTo(b.next + 1) == UpTo(b.next) + [b.next];
  }

  lemma SettleEndedOnce(b: Batch, w: nat, ok: bool)
    requires BatchOk(b) && CanSettle(b, w)
    ensures EndedOnce(Settle(b, w, ok))
  {
    hide FailuresListed, InFlight, EndsWith, UpTo;
  }

  lemma SettleFailures(b: Batch, w: nat, ok: bool)
    requires BatchOk(b) && CanSettle(b, w)
    ensures FailuresListed(Settle(b, w, ok))
  {
    EndsSnoc(b.ended, End(b.workers[w].file, ok), false);
    hide EndedOnce, InFlight, EndsWith, UpTo;
  }

  lemma SettleOk(b: Batch, w: nat, ok: bool)
    requires BatchOk(b) && CanSettle(b, w)
    ensures BatchOk(Settle(b, w, ok))
  {
    var last := End(b.workers[w].file, ok);
    InFlightUpdate(b.workers, w, Ready);
    EndsSnoc(b.ended, last, true);
    EndsSnoc(b.ended, last, false);
    SettleEndedOnce(b, w, ok);
    SettleFailures(b, w, ok);
    hide EndedOnce, FailuresListed, InFlight, EndsWith, UpTo;
  }

  // ----------------------------------------------------------------------------- the hook

  /** The hook: a batch under way, or none; and the batches finished so far. */
  datatype Hook = Hook(running: bool, batch: Batch, finished: seq<Batch>)

  datatype Event =
    | Start(files: seq<string>)
    | TakeNext(w: nat)
    | Ended(w: nat, ok: bool)
    | Finish

  const IDLE := Hook(false, Batch([], 0, 0, 0, [], [], [], []), [])

  /** A start with no file, or while a batch runs, does nothing. An event that cannot happen
      does not either. */
  function Next(h: Hook, e: Event): Hook {
    match e
    case Start(files) => if files == [] || h.running then h else h.(running := true, batch := Begin(files))
    case TakeNext(w) => if h.running && CanTake(h.batch, w) then h.(batch := Take(h.batch, w)) else h
    case Ended(w, ok) => if h.running && CanSettle(h.batch, w) then h.(batch := Settle(h.batch, w, ok)) else h
    case Finish => if h.running && AllStopped(h.batch) then h.(running := false, finished := h.finished + [h.batch]) else h
  }

  function After(events: seq<Event>): Hook {
    if events == [] then IDLE else Next(After(events[..|events| - 1]), events[|events| - 1])
  }

  /** A batch that has run its course. */
  ghost predicate Complete(b: Batch) {
    b.files != [] && BatchOk(b) && AllStopped(b)
  }

  ghost predicate HookOk(h: Hook) {
    && (h.running ==> BatchOk(h.batch) && h.batch.files != [])
    && forall i :: 0 <= i < |h.finished| ==> Complete(h.finished[i])
  }

  lemma NextOk(h: Hook, e: Event)
    requires HookOk(h)
    ensures HookOk(Next(h, e))
  {
    hide BatchOk;
    match e
    case Start(files) => BeginOk(files);
    case TakeNext(w) =>
      if h.running && CanTake(h.batch, w) {
        TakeOk(h.batch, w);
      }
    case Ended(w, ok) =>
      if h.running && CanSettle(h.batch, w) {
        SettleOk(h.batch, w, ok);
      }
    case Finish =>
  }

  lemma {:induction false} AllOk(events: seq<Event>)
    ensures HookOk(After(events))
  {
    if events == [] {
    } else {
      AllOk(events[..|events| - 1]);
      NextOk(After(events[..|events| - 1]), events[|events| - 1]);
    }
  }

  /** In every interleaving: at most three uploads are in flight, no two of one file, and what
      is done, failed or in flight is what was taken, each file at most once. */
  lemma WhileRunning(events: seq<Event>)
    requires After(events).running
    ensures var b := After(events).batch;
      && InFlight(b.workers) <= 3
      && b.done + b.failed + InFlight(b.workers) == b.next <= |b.files|
      && (forall i, j :: 0 <= i < j < |b.attempts| ==> b.attempts[i] != b.attempts[j])
  {
    AllOk(events);
    InFlightBounds(After(events).batch.workers);
  }

  /** When all workers have stopped every file has been attempted exactly once, in order, and
      has ended exactly once; done and failed count the ends, and the failures are the names
      of the files that failed. */
  lemma WhenFinished(events: seq<Event>, i: nat)
    requires i < |After(events).finished|
    ensures var b := After(events).finished[i];
      && b.attempts == UpTo(|b.files|)
      && b.done + b.failed == |b.files| && EndedOnce(b) && FailuresListed(b)
      && b.done == |EndsWith(b.ended, true)| && b.failed == |EndsWith(b.ended, false)|
  {
    AllOk(events);
    var b := After(events).finished[i];
    assert Complete(b);
    InFlightBounds(b.workers);
    assert b.workers[0].Stopped?;
  }

  /** Until then there is always a step to take: no worker waits for another. */
  lemma NeverStuck(events: seq<Event>)
    requires After(events).running
    ensures var b := After(events).batch;
      AllStopped(b) || exists w :: CanTake(b, w) || CanSettle(b, w)
  {
    AllOk(events);
    var b := After(events).batch;
    if !AllStopped(b) {
      var w :| 0 <= w < |b.workers| && !b.workers[w].Stopped?;
      assert CanTake(b, w) || CanSettle(b, w);
    }
  }

  function Unstopped(workers: seq<Worker>): nat {
    if workers == [] then 0
    else Unstopped(workers[..|workers| - 1]) + if workers[|workers| - 1].Stopped? then 0 else 1
  }

  /** What is left to do: each step does some of it, so a batch ends. */
  function Remaining(b: Batch): int {
    3 * (|b.files| - b.next) + 2 * InFlight(b.workers) + Unstopped(b.workers)
  }

  lemma {:induction false} UnstoppedUpdate(workers: seq<Worker>, w: nat, x: Worker)
    requires w < |workers|
    ensures Unstopped(workers[w := x])
      == Unstopped(workers) + (if x.Stopped? then 0 else 1) - (if workers[w].Stopped? then 0 else 1)
  {
    var front := workers[..|workers| - 1];
    if w == |front| {
      assert workers[w := x][..|workers| - 1] == front;
    } else {
      assert workers[w := x][..|workers| - 1] == front[w := x];
      UnstoppedUpdate(front, w, x);
    }
  }

  lemma EveryStepProgresses(b: Batch, w: nat, ok: bool)
    requires BatchOk(b)
    ensures Remaining(b) >= 0
    ensures CanTake(b, w) ==> Remaining(Take(b, w)) < Remaining(b)
    ensures CanSettle(b, w) ==> Remaining(Settle(b, w, ok)) < Remaining(b)
  {
    if CanTake(b, w) {
      var x := if b.next < |b.files| then Uploading(b.next) else Stopped;
      InFlightUpdate(b.workers, w, x);
      UnstoppedUpdate(b.workers, w, x);
    } else if CanSettle(b, w) {
      InFlightUpdate(b.workers, w, Ready);
      UnstoppedUpdate(b.workers, w, Ready);
    }
  }

  // -------------------------------------------------------------------- the shared state

  /** The variables that the workers of a batch share, updated between their waits. */
  class Pool {
    const files: seq<string>
    var next: nat
    var done: nat
    var failed: nat
    var failures: seq<string>
    var workers: seq<Worker>
    ghost var attempts: seq<nat>
    ghost var ended: seq<End>

    ghost function Now(): Batch
      reads this
    {
      Batch(files, next, done, failed, failures, workers, attempts, ended)
    }

    constructor (files: seq<string>)
      ensures Now() == Begin(files)
    {
      this.files := files;
      next, done, failed, failures, attempts, ended := 0, 0, 0, [], [], [];
      workers := seq(Min(MAX_CONCURRENT, |files|), _ => Ready);
    }

    /** The head of a worker's loop, up to the upload it waits for. */
    method TakeNext(w: nat)
      requires CanTake(Now(), w)
      modifies this
      ensures Now() == Take(old(Now()), w)
    {
      if next < |files| {
        workers := workers[w := Uploading(next)];
        attempts := attempts + [next];
        next := next + 1;
      } else {
        workers := workers[w := Stopped];
      }
    }

    /** The rest of the loop's body, once the upload has ended. */
    method Ended(w: nat, ok: bool)
      requires CanSettle(Now(), w)
      modifies this
      ensures Now() == Settle(old(Now()), w, ok)
    {
      if ok {
        done := done + 1;
      } else {
        failed := failed + 1;
        failures := failures + [files[workers[w].file]];
      }
      ended := ended + [End(workers[w].file, ok)];
      workers := workers[w := Ready];
    }
  }
}
