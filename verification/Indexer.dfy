/**
 The asynchronous indexer of `internal/infrastructure/elasticsearch/indexer.go`: a bounded channel,
 workers that take documents from it, and a dead-letter path.
 */
module Indexer {
  const CHANNEL_CAP: nat := 1000

  type Doc = string

  /** A worker serves until it is told to stop, then drains, then is gone. `holding` is the document in its hand. */
  datatype Phase = Serving | Draining | Gone
  datatype Hand = Empty | Holding(doc: Doc)
  datatype Worker = Worker(phase: Phase, hand: Hand)

  /**
   `submitted` and `stranded` are history: all documents given to `Index`, and those it put into the
   channel after the last worker had gone.
   */
  datatype State = State(
    channel: seq<Doc>,
    workers: seq<Worker>,
    closed: bool,
    indexed: seq<Doc>,
    dead: seq<Doc>,
    submitted: seq<Doc>,
    stranded: seq<Doc>)

  datatype Step =
    | Index(doc: Doc)
    | Take(w: nat)                    // receive from the channel, serving or draining
    | Finish(w: nat, success: bool)   // indexDoc returns
    | NoticeStop(w: nat, contextDone: bool) // the `closed` or the `ctx.Done()` case of the select
    | Leave(w: nat)                   // drain finds the channel empty
    | Close

  predicate AllGone(s: State) {
    forall w :: 0 <= w < |s.workers| ==> s.workers[w].phase.Gone?
  }

  function Apply(s: State, step: Step): State {
    match step
    case Index(doc) =>
      var t := s.(submitted := s.submitted + [doc]);
      if |s.channel| < CHANNEL_CAP then
        t.(channel := s.channel + [doc], stranded := if AllGone(s) then s.stranded + [doc] else s.stranded)
      else t.(dead := s.dead + [doc])
    case Take(w) =>
      if w < |s.workers| && !s.workers[w].phase.Gone? && s.workers[w].hand.Empty? && s.channel != [] then
        s.(channel := s.channel[1..], workers := s.workers[w := s.workers[w].(hand := Holding(s.channel[0]))])
      else s
    case Finish(w, success) =>
      if w < |s.workers| && s.workers[w].hand.Holding? then
        var doc := s.workers[w].hand.doc;
        var t := s.(workers := s.workers[w := s.workers[w].(hand := Empty)]);
        if success then t.(indexed := s.indexed + [doc]) else t.(dead := s.dead + [doc])
      else s
    case NoticeStop(w, contextDone) =>
      if w < |s.workers| && s.workers[w] == Worker(Serving, Empty) && (s.closed || contextDone) then
        s.(workers := s.workers[w := Worker(Draining, Empty)])
      else s
    case Leave(w) =>
      if w < |s.workers| && s.workers[w] == Worker(Draining, Empty) && s.channel == [] then
        s.(workers := s.workers[w := Worker(Gone, Empty)])
      else s
    case Close => s.(closed := true)
  }

  function Run(s: State, steps: seq<Step>): State {
    if steps == [] then s else Apply(Run(s, steps[..|steps| - 1]), steps[|steps| - 1])
  }

  /** `NewIndexer` and `Start`. */
  function Start(workers: nat): State {
    State([], seq(workers, _ => Worker(Serving, Empty)), false, [], [], [], [])
  }

  // ----- conservation -----

  /** How often `d` occurs among `docs`. */
  function Times(docs: seq<Doc>, d: Doc): nat {
    if docs == [] then 0 else Times(docs[..|docs| - 1], d) + if docs[|docs| - 1] == d then 1 else 0
  }

  lemma TimesAppend(docs: seq<Doc>, x: Doc, d: Doc)
    ensures Times(docs + [x], d) == Times(docs, d) + if x == d then 1 else 0
  {
    assert (docs + [x])[..|docs|] == docs;
  }

  lemma {:induction false} TimesTail(docs: seq<Doc>, d: Doc)
    requires docs != []
    ensures Times(docs, d) == (if docs[0] == d then 1 else 0) + Times(docs[1..], d)
  {
    if |docs| > 1 {
      TimesTail(docs[..|docs| - 1], d);
      assert docs[..|docs| - 1][1..] == docs[1..][..|docs| - 2];
    }
  }

  function InHand(h: Hand, d: Doc): nat {
    if h == Holding(d) then 1 else 0
  }

  /** How many workers hold `d`. */
  function InHands(workers: seq<Worker>, d: Doc): nat {
    if workers == [] then 0
    else InHands(workers[..|workers| - 1], d) + InHand(workers[|workers| - 1].hand, d)
  }

  lemma {:induction false} InHandsUpdate(workers: seq<Worker>, w: nat, worker: Worker, d: Doc)
    requires w < |workers|
    ensures InHands(workers[w := worker], d) + InHand(workers[w].hand, d) == InHands(workers, d) + InHand(worker.hand, d)
  {
    var n := |workers| - 1;
    var changed := workers[w := worker];
    if w < n {
      InHandsUpdate(workers[..n], w, worker, d);
      assert changed[..n] == workers[..n][w := worker];
    } else {
      assert changed[..n] == workers[..n];
    }
  }

  /** All occurrences of `d`, wherever they are. */
  function Accounted(s: State, d: Doc): nat {
    Times(s.channel, d) + InHands(s.workers, d) + Times(s.indexed, d) + Times(s.dead, d)
  }

  lemma IndexAccounts(s: State, doc: Doc, d: Doc)
    ensures Accounted(Apply(s, Index(doc)), d) - Times(Apply(s, Index(doc)).submitted, d)
         == Accounted(s, d) - Times(s.submitted, d)
  {
    var t := Apply(s, Index(doc));
    TimesAppend(s.submitted, doc, d);
    if |s.channel| < CHANNEL_CAP {
      TimesAppend(s.channel, doc, d);
      assert t.channel == s.channel + [doc] && t.dead == s.dead;
    } else {
      TimesAppend(s.dead, doc, d);
      assert t.channel == s.channel && t.dead == s.dead + [doc];
    }
    assert t.submitted == s.submitted + [doc] && t.workers == s.workers && t.indexed == s.indexed;
  }

  lemma TakeAccounts(s: State, w: nat, d: Doc)
    ensures Accounted(Apply(s, Take(w)), d) == Accounted(s, d)
  {
    if w < |s.workers| && s.channel != [] {
      InHandsUpdate(s.workers, w, s.workers[w].(hand := Holding(s.channel[0])), d);
      TimesTail(s.channel, d);
    }
  }

  lemma FinishAccounts(s: State, w: nat, success: bool, d: Doc)
    ensures Accounted(Apply(s, Finish(w, success)), d) == Accounted(s, d)
  {
    if w < |s.workers| && s.workers[w].hand.Holding? {
      InHandsUpdate(s.workers, w, s.workers[w].(hand := Empty), d);
      TimesAppend(s.indexed, s.workers[w].hand.doc, d);
      TimesAppend(s.dead, s.workers[w].hand.doc, d);
    }
  }

  lemma StepAccounts(s: State, step: Step, d: Doc)
    ensures Accounted(Apply(s, step), d) - Times(Apply(s, step).submitted, d) == Accounted(s, d) - Times(s.submitted, d)
  {
    match step
    case Index(doc) => IndexAccounts(s, doc, d);
    case Take(w) => TakeAccounts(s, w, d);
    case Finish(w, success) => FinishAccounts(s, w, success, d);
    case NoticeStop(w, _) =>
      if w < |s.workers| {
        InHandsUpdate(s.workers, w, Worker(Draining, Empty), d);
      }
    case Leave(w) =>
      if w < |s.workers| {
        InHandsUpdate(s.workers, w, Worker(Gone, Empty), d);
      }
    case Close =>
  }

  lemma StepKeepsCapacity(s: State, step: Step)
    requires |s.channel| <= CHANNEL_CAP
    ensures |Apply(s, step).channel| <= CHANNEL_CAP
  {
  }

  lemma StartIsEmpty(n: nat, d: Doc)
    ensures InHands(Start(n).workers, d) == 0
  {
    EmptyHands(Start(n).workers, d);
  }

  lemma {:induction false} EmptyHands(workers: seq<Worker>, d: Doc)
    requires forall w :: 0 <= w < |workers| ==> workers[w].hand.Empty?
    ensures InHands(workers, d) == 0
  {
    if workers != [] {
      EmptyHands(workers[..|workers| - 1], d);
    }
  }

  /**
   In every interleaving each submitted document is in exactly one place: the channel, a worker's
   hand, the index, or the dead letters. The channel never holds more than its capacity.
   */
  lemma {:induction false} NothingLost(n: nat, steps: seq<Step>, d: Doc)
    ensures Times(Run(Start(n), steps).submitted, d) == Accounted(Run(Start(n), steps), d)
    ensures |Run(Start(n), steps).channel| <= CHANNEL_CAP
  {
    if steps == [] {
      StartIsEmpty(n, d);
    } else {
      NothingLost(n, steps[..|steps| - 1], d);
      var s, step := Run(Start(n), steps[..|steps| - 1]), steps[|steps| - 1];
      StepAccounts(s, step, d);
      StepKeepsCapacity(s, step);
    }
  }

  // ----- which way, and in which order -----

  /** Worker `w` finishes a document equal to `d` with that answer. */
  predicate FinishesDoc(s: State, step: Step, d: Doc, success: bool) {
    && step.Finish? && step.success == success
    && step.w < |s.workers| && s.workers[step.w].hand == Holding(d)
  }

  /** How many times the server accepted (or refused) `d` from a worker that held it. */
  function Answers(n: nat, steps: seq<Step>, d: Doc, success: bool): nat {
    if steps == [] then 0
    else
      var init, last := steps[..|steps| - 1], steps[|steps| - 1];
      Answers(n, init, d, success) + if FinishesDoc(Run(Start(n), init), last, d, success) then 1 else 0
  }

  /** How many times `d` was submitted to a full channel. */
  function Overflows(n: nat, steps: seq<Step>, d: Doc): nat {
    if steps == [] then 0
    else
      var init, last := steps[..|steps| - 1], steps[|steps| - 1];
      Overflows(n, init, d) + if last == Index(d) && CHANNEL_CAP <= |Run(Start(n), init).channel| then 1 else 0
  }

  lemma AnswerStep(s: State, step: Step, d: Doc)
    requires |s.channel| <= CHANNEL_CAP
    ensures Times(Apply(s, step).indexed, d) == Times(s.indexed, d) + if FinishesDoc(s, step, d, true) then 1 else 0
    ensures Times(Apply(s, step).dead, d)
         == Times(s.dead, d) + (if FinishesDoc(s, step, d, false) then 1 else 0)
            + if step == Index(d) && CHANNEL_CAP <= |s.channel| then 1 else 0
  {
    match step
    case Index(doc) => TimesAppend(s.dead, doc, d);
    case Finish(w, _) =>
      if w < |s.workers| && s.workers[w].hand.Holding? {
        TimesAppend(s.indexed, s.workers[w].hand.doc, d);
        TimesAppend(s.dead, s.workers[w].hand.doc, d);
      }
    case _ =>
  }

  /**
   In every run a document is in the index once for each time a worker holding it was told that the
   server took it, and in the dead letters once for each refusal and each submission to a full channel.
   */
  lemma {:induction false} AnswersDecide(n: nat, steps: seq<Step>, d: Doc)
    ensures Times(Run(Start(n), steps).indexed, d) == Answers(n, steps, d, true)
    ensures Times(Run(Start(n), steps).dead, d) == Answers(n, steps, d, false) + Overflows(n, steps, d)
  {
    if steps != [] {
      var init, last := steps[..|steps| - 1], steps[|steps| - 1];
      AnswersDecide(n, init, d);
      NothingLost(n, init, d);
      AnswerStep(Run(Start(n), init), last, d);
    }
  }

  /** The documents that found room in the channel, in the order of submission. */
  function Entered(n: nat, steps: seq<Step>): seq<Doc> {
    if steps == [] then []
    else
      var init, last := steps[..|steps| - 1], steps[|steps| - 1];
      Entered(n, init) + if last.Index? && |Run(Start(n), init).channel| < CHANNEL_CAP then [last.doc] else []
  }

  /** The document a worker with empty hands receives in this step. */
  function Received(s: State, step: Step): seq<Doc> {
    if step.Take? && step.w < |s.workers| && s.workers[step.w].hand.Empty? then
      var hand := Apply(s, step).workers[step.w].hand;
      if hand.Holding? then [hand.doc] else []
    else []
  }

  function Handed(n: nat, steps: seq<Step>): seq<Doc> {
    if steps == [] then []
    else
      var init, last := steps[..|steps| - 1], steps[|steps| - 1];
      Handed(n, init) + Received(Run(Start(n), init), last)
  }

  /** The channel is first in, first out: what the workers received, then what still waits, is what entered, in that order. */
  lemma {:induction false} FirstInFirstOut(n: nat, steps: seq<Step>)
    ensures Entered(n, steps) == Handed(n, steps) + Run(Start(n), steps).channel
  {
    if steps != [] {
      var init, last := steps[..|steps| - 1], steps[|steps| - 1];
      FirstInFirstOut(n, init);
      var s := Run(Start(n), init);
      ChannelStep(s, last);
      Regroup(Handed(n, init), s.channel, if last.Index? && |s.channel| < CHANNEL_CAP then [last.doc] else [],
              Received(s, last), Apply(s, last).channel);
    }
  }

  lemma Regroup(a: seq<Doc>, b: seq<Doc>, c: seq<Doc>, d: seq<Doc>, e: seq<Doc>)
    requires b + c == d + e
    ensures a + b + c == a + d + e
  {
    assert a + b + c == a + (b + c) && a + d + e == a + (d + e);
  }

  lemma ChannelStep(s: State, step: Step)
    ensures s.channel + (if step.Index? && |s.channel| < CHANNEL_CAP then [step.doc] else [])
         == Received(s, step) + Apply(s, step).channel
  {
  }

  // ----- shutting down -----

  predicate GoneEmptyHanded(s: State) {
    forall w :: 0 <= w < |s.workers| && s.workers[w].phase.Gone? ==> s.workers[w].hand.Empty?
  }

  /** What is left in the channel once all workers are gone came after the last of them had looked. */
  predicate StrandedOnly(s: State) {
    if AllGone(s) then s.channel == s.stranded else s.stranded == []
  }

  /** A step that changes worker `w` from one living phase to another keeps somebody alive. */
  lemma StillAlive(s: State, t: State, w: nat)
    requires w < |s.workers| == |t.workers| && !t.workers[w].phase.Gone?
    ensures !AllGone(t)
  {
  }

  lemma ApplyKeepsStranded(s: State, step: Step)
    requires GoneEmptyHanded(s) && StrandedOnly(s)
    ensures GoneEmptyHanded(Apply(s, step)) && StrandedOnly(Apply(s, step))
  {
    var t := Apply(s, step);
    match step
    case Index(_) => assert AllGone(t) == AllGone(s);
    case Take(w) => if t != s { StillAlive(s, s, w); StillAlive(s, t, w); }
    case Finish(w, _) => if t != s { StillAlive(s, s, w); StillAlive(s, t, w); }
    case NoticeStop(w, _) => if t != s { StillAlive(s, s, w); StillAlive(s, t, w); }
    case Leave(w) => if t != s { StillAlive(s, s, w); }
    case Close => assert AllGone(t) == AllGone(s);
  }

  lemma {:induction false} RunKeepsStranded(s: State, steps: seq<Step>)
    requires GoneEmptyHanded(s) && StrandedOnly(s)
    ensures GoneEmptyHanded(Run(s, steps)) && StrandedOnly(Run(s, steps))
  {
    if steps != [] {
      RunKeepsStranded(s, steps[..|steps| - 1]);
      ApplyKeepsStranded(Run(s, steps[..|steps| - 1]), steps[|steps| - 1]);
    }
  }

  /** With all workers gone the hands are empty and the channel holds just what arrived since. */
  lemma AllGoneMeansStranded(n: nat, steps: seq<Step>, d: Doc)
    requires AllGone(Run(Start(n), steps))
    ensures var s := Run(Start(n), steps);
            && s.channel == s.stranded
            && Times(s.submitted, d) == Times(s.stranded, d) + Times(s.indexed, d) + Times(s.dead, d)
  {
    RunKeepsStranded(Start(n), steps);
    NothingLost(n, steps, d);
    EmptyHands(Run(Start(n), steps).workers, d);
  }

  /** Step `k` is an `Index` call made after the last worker has gone. */
  predicate LateIndex(n: nat, steps: seq<Step>, k: int)
    requires 0 <= k < |steps|
  {
    steps[k].Index? && AllGone(Run(Start(n), steps[..k]))
  }

  predicate NoLateIndex(n: nat, steps: seq<Step>) {
    forall k :: 0 <= k < |steps| ==> !LateIndex(n, steps, k)
  }

  lemma NoLateIndexStep(n: nat, steps: seq<Step>, step: Step)
    ensures NoLateIndex(n, steps + [step]) <==> NoLateIndex(n, steps) && !(step.Index? && AllGone(Run(Start(n), steps)))
  {
    var all := steps + [step];
    assert all[..|steps|] == steps;
    forall k | 0 <= k < |steps|
      ensures LateIndex(n, all, k) <==> LateIndex(n, steps, k)
    {
      assert all[..k] == steps[..k];
    }
    assert LateIndex(n, all, |steps|) <==> step.Index? && AllGone(Run(Start(n), steps));
  }

  /** Nothing is stranded exactly if no `Index` call came too late: the first late one finds the channel empty. */
  lemma {:induction false} StrandedIff(n: nat, steps: seq<Step>)
    ensures Run(Start(n), steps).stranded == [] <==> NoLateIndex(n, steps)
  {
    if steps != [] {
      var init, last := steps[..|steps| - 1], steps[|steps| - 1];
      assert steps == init + [last];
      StrandedIff(n, init);
      NoLateIndexStep(n, init, last);
      RunKeepsStranded(Start(n), init);
    }
  }

  /**
   `Stop` returns once all workers have gone. In every run whatever, with `Index` calls before, during
   and after, the channel is then empty exactly if no call came after the last worker had gone.
   */
  lemma StopDrainsIff(n: nat, steps: seq<Step>)
    requires AllGone(Run(Start(n), steps))
    ensures Run(Start(n), steps).channel == [] <==> NoLateIndex(n, steps)
  {
    RunKeepsStranded(Start(n), steps);
    StrandedIff(n, steps);
  }

  /** The steps that end worker `w` when it may stop: finish what it holds, notice, empty the channel, leave. */
  function EndWorker(s: State, w: nat, contextDone: bool): seq<Step> {
    [Finish(w, true)] + ([NoticeStop(w, contextDone)] + DrainSteps(w, s.channel, AcceptAll))
  }

  const AcceptAll: Doc -> bool := d => true

  lemma ReachesDrain(s: State, w: nat, contextDone: bool)
    requires w < |s.workers| && !s.workers[w].phase.Gone? && (s.closed || contextDone)
    ensures var t := Apply(Apply(s, Finish(w, true)), NoticeStop(w, contextDone));
            && t.workers == s.workers[w := Worker(Draining, Empty)]
            && t.channel == s.channel && t.closed == s.closed && t.submitted == s.submitted
  {
  }

  lemma WorkerCanEnd(s: State, w: nat, contextDone: bool)
    requires w < |s.workers| && !s.workers[w].phase.Gone? && (s.closed || contextDone)
    ensures var t := Run(s, EndWorker(s, w, contextDone));
            && t.workers == s.workers[w := Worker(Gone, Empty)]
            && t.channel == [] && t.closed == s.closed && t.submitted == s.submitted
  {
    var drain := DrainSteps(w, s.channel, AcceptAll);
    var finished := Apply(s, Finish(w, true));
    var draining := Apply(finished, NoticeStop(w, contextDone));
    ReachesDrain(s, w, contextDone);
    RunFirst(s, Finish(w, true), [NoticeStop(w, contextDone)] + drain);
    RunFirst(finished, NoticeStop(w, contextDone), drain);
    DrainEffect(draining, w, AcceptAll);
    assert s.workers[w := Worker(Draining, Empty)][w := Worker(Gone, Empty)] == s.workers[w := Worker(Gone, Empty)];
  }

  lemma {:induction false} RunConcat(s: State, xs: seq<Step>, ys: seq<Step>)
    ensures Run(s, xs + ys) == Run(Run(s, xs), ys)
  {
    if ys == [] {
      assert xs + ys == xs;
    } else {
      var init, last := ys[..|ys| - 1], ys[|ys| - 1];
      RunConcat(s, xs, init);
      assert (xs + ys)[..|xs + ys| - 1] == xs + init;
      assert (xs + ys)[|xs + ys| - 1] == last;
    }
  }

  /**
   `Stop` never waits for ever for want of a way to go on: whatever has happened before, once the
   indexer is closed or the context has ended the workers can all leave, without any further `Index`
   call, and then the channel is empty if a worker was left to empty it.
   */
  lemma {:induction false} StopCanReturn(s: State, w: nat, contextDone: bool) returns (steps: seq<Step>)
    requires (s.closed || contextDone) && w <= |s.workers|
    requires forall v :: 0 <= v < w ==> s.workers[v].phase.Gone?
    ensures AllGone(Run(s, steps)) && Run(s, steps).submitted == s.submitted
    ensures Run(s, steps).channel == if AllGone(s) then s.channel else []
    decreases |s.workers| - w
  {
    if w == |s.workers| {
      steps := [];
    } else if s.workers[w].phase.Gone? {
      steps := StopCanReturn(s, w + 1, contextDone);
    } else {
      var first := EndWorker(s, w, contextDone);
      WorkerCanEnd(s, w, contextDone);
      var rest := StopCanReturn(Run(s, first), w + 1, contextDone);
      RunConcat(s, first, rest);
      steps := first + rest;
    }
  }

  /** Neither `Close` nor the end of the context has happened. */
  predicate Undisturbed(steps: seq<Step>) {
    forall k :: 0 <= k < |steps| ==> !steps[k].Close? && !(steps[k].NoticeStop? && steps[k].contextDone)
  }

  predicate AllServing(s: State, n: nat) {
    |s.workers| == n && !s.closed && forall w :: 0 <= w < n ==> s.workers[w].phase.Serving?
  }

  lemma {:induction false} WorkersServeUntilStopped(n: nat, steps: seq<Step>)
    requires Undisturbed(steps)
    ensures AllServing(Run(Start(n), steps), n)
  {
    if steps != [] {
      WorkersServeUntilStopped(n, steps[..|steps| - 1]);
      ServingStep(Run(Start(n), steps[..|steps| - 1]), n, steps[|steps| - 1]);
    }
  }

  lemma ServingStep(s: State, n: nat, step: Step)
    requires AllServing(s, n) && !step.Close? && !(step.NoticeStop? && step.contextDone)
    ensures AllServing(Apply(s, step), n)
  {
  }

  lemma StrandedStep(s: State, step: Step, d: Doc)
    ensures Times(Apply(s, step).stranded, d) - Times(s.stranded, d) <= Times(Apply(s, step).submitted, d) - Times(s.submitted, d)
  {
    if step.Index? {
      TimesAppend(s.submitted, step.doc, d);
      TimesAppend(s.stranded, step.doc, d);
    }
  }

  /** What is stranded after the first `b` steps was submitted after them. */
  lemma {:induction false} StrandedSince(n: nat, steps: seq<Step>, b: nat, d: Doc)
    requires b <= |steps|
    ensures Times(Run(Start(n), steps).stranded, d) - Times(Run(Start(n), steps[..b]).stranded, d)
         <= Times(Run(Start(n), steps).submitted, d) - Times(Run(Start(n), steps[..b]).submitted, d)
    decreases |steps|
  {
    if b == |steps| {
      assert steps[..b] == steps;
    } else {
      var init := steps[..|steps| - 1];
      StrandedSince(n, init, b, d);
      assert init[..b] == steps[..b];
      StrandedStep(Run(Start(n), init), steps[|steps| - 1], d);
    }
  }

  /**
   Let the first `b` steps be those before `Stop` was called or the context ended. When `Stop` returns,
   every document submitted in them has been indexed or handed to the dead letters, whatever other
   `Index` calls came in the meantime or later.
   */
  lemma StopDrains(n: nat, steps: seq<Step>, b: nat, d: Doc)
    requires n > 0 && b <= |steps| && Undisturbed(steps[..b])
    requires AllGone(Run(Start(n), steps))
    ensures Times(Run(Start(n), steps[..b]).submitted, d)
         <= Times(Run(Start(n), steps).indexed, d) + Times(Run(Start(n), steps).dead, d)
    ensures NoLateIndex(n, steps) ==>
              (Times(Run(Start(n), steps).submitted, d)
              == Times(Run(Start(n), steps).indexed, d) + Times(Run(Start(n), steps).dead, d))
  {
    WorkersServeUntilStopped(n, steps[..b]);
    assert Run(Start(n), steps[..b]).workers[0].phase.Serving?;
    RunKeepsStranded(Start(n), steps[..b]);
    StrandedSince(n, steps, b, d);
    AllGoneMeansStranded(n, steps, d);
    StrandedIff(n, steps);
  }

  /**
   `app.go` closes the message connection only after `Stop` has returned, so an event handler may still
   call `Index`: with one worker and a context that never ends, such a document stays behind for ever.
   */
  lemma IndexDuringStop(d: Doc, more: seq<Step>)
    requires forall k :: 0 <= k < |more| ==> !more[k].Index?
    ensures Run(Run(Start(1), [Close, NoticeStop(0, false), Leave(0), Index(d)]), more).channel == [d]
  {
    LateRun(d);
    GoneLeavesChannel(State([d], [Worker(Gone, Empty)], true, [], [], [d], [d]), more);
  }

  lemma LateRun(d: Doc)
    ensures Run(Start(1), [Close, NoticeStop(0, false), Leave(0), Index(d)])
         == State([d], [Worker(Gone, Empty)], true, [], [], [d], [d])
  {
    var serving := State([], [Worker(Serving, Empty)], false, [], [], [], []);
    assert Start(1) == serving;
    var closed := serving.(closed := true);
    var draining := closed.(workers := [Worker(Draining, Empty)]);
    var gone := closed.(workers := [Worker(Gone, Empty)]);
    assert Run(serving, []) == serving;
    assert Run(serving, [Close]) == closed by {
      RunStep(serving, [], Close);
    }
    assert Run(serving, [Close, NoticeStop(0, false)]) == draining by {
      RunStep(serving, [Close], NoticeStop(0, false));
      assert [Close] + [NoticeStop(0, false)] == [Close, NoticeStop(0, false)];
    }
    assert Run(serving, [Close, NoticeStop(0, false), Leave(0)]) == gone by {
      RunStep(serving, [Close, NoticeStop(0, false)], Leave(0));
      assert [Close, NoticeStop(0, false)] + [Leave(0)] == [Close, NoticeStop(0, false), Leave(0)];
    }
    RunStep(serving, [Close, NoticeStop(0, false), Leave(0)], Index(d));
    assert [Close, NoticeStop(0, false), Leave(0)] + [Index(d)] == [Close, NoticeStop(0, false), Leave(0), Index(d)];
  }

  lemma RunStep(s: State, steps: seq<Step>, step: Step)
    ensures Run(s, steps + [step]) == Apply(Run(s, steps), step)
  {
    assert (steps + [step])[..|steps|] == steps;
  }

  /** Without workers and without `Index` calls the channel does not change. */
  lemma {:induction false} GoneLeavesChannel(s: State, more: seq<Step>)
    requires AllGone(s) && GoneEmptyHanded(s)
    requires forall k :: 0 <= k < |more| ==> !more[k].Index?
    ensures AllGone(Run(s, more)) && GoneEmptyHanded(Run(s, more)) && Run(s, more).channel == s.channel
  {
    if more != [] {
      GoneLeavesChannel(s, more[..|more| - 1]);
    }
  }

  // ----- the object -----

  /** The documents on which the server's answer is `answer`, in order. */
  function Kept(docs: seq<Doc>, accepts: Doc -> bool, answer: bool): seq<Doc> {
    if docs == [] then []
    else (if accepts(docs[0]) == answer then [docs[0]] else []) + Kept(docs[1..], accepts, answer)
  }

  /** Nothing is dropped by a drain: the two parts together are the channel's content. */
  lemma {:induction false} KeptPartition(docs: seq<Doc>, accepts: Doc -> bool)
    ensures multiset(Kept(docs, accepts, true)) + multiset(Kept(docs, accepts, false)) == multiset(docs)
  {
    if docs != [] {
      KeptPartition(docs[1..], accepts);
      assert docs == [docs[0]] + docs[1..];
    }
  }

  /** The steps of one undisturbed drain: worker `w` takes and finishes each document, then leaves. */
  function DrainSteps(w: nat, docs: seq<Doc>, accepts: Doc -> bool): seq<Step> {
    if docs == [] then [Leave(w)]
    else [Take(w)] + ([Finish(w, accepts(docs[0]))] + DrainSteps(w, docs[1..], accepts))
  }

  lemma {:induction false} RunFirst(s: State, step: Step, rest: seq<Step>)
    ensures Run(s, [step] + rest) == Run(Apply(s, step), rest)
  {
    var all := [step] + rest;
    var n := |all| - 1;
    if rest == [] {
      assert all[..n] == [] && all[n] == step;
    } else {
      RunFirst(s, step, rest[..|rest| - 1]);
      assert all[..n] == [step] + rest[..|rest| - 1] && all[n] == rest[|rest| - 1];
    }
  }

  /** A drain empties the channel in order, indexes what the server accepts, buries the rest, and ends the worker. */
  lemma {:induction false} DrainEffect(s: State, w: nat, accepts: Doc -> bool)
    requires w < |s.workers| && s.workers[w] == Worker(Draining, Empty)
    ensures Run(s, DrainSteps(w, s.channel, accepts))
         == s.(channel := [], workers := s.workers[w := Worker(Gone, Empty)],
               indexed := s.indexed + Kept(s.channel, accepts, true), dead := s.dead + Kept(s.channel, accepts, false))
    decreases |s.channel|
  {
    if s.channel == [] {
      RunFirst(s, Leave(w), []);
      assert [Leave(w)] + [] == DrainSteps(w, s.channel, accepts);
    } else {
      var doc, docs := s.channel[0], s.channel[1..];
      var taken := Apply(s, Take(w));
      var finished := Apply(taken, Finish(w, accepts(doc)));
      RunFirst(s, Take(w), [Finish(w, accepts(doc))] + DrainSteps(w, docs, accepts));
      RunFirst(taken, Finish(w, accepts(doc)), DrainSteps(w, docs, accepts));
      DrainEffect(finished, w, accepts);
      assert finished.workers == s.workers;
      KeptStep(s.indexed, s.channel, accepts, true);
      KeptStep(s.dead, s.channel, accepts, false);
    }
  }

  lemma KeptStep(done: seq<Doc>, docs: seq<Doc>, accepts: Doc -> bool, answer: bool)
    requires docs != []
    ensures done + Kept(docs, accepts, answer)
         == (if accepts(docs[0]) == answer then done + [docs[0]] else done) + Kept(docs[1..], accepts, answer)
  {
  }

  class AsyncIndexer {
    var channel: seq<Doc>
    var workers: seq<Worker>
    var closed: bool
    var indexed: seq<Doc>
    var deadLetters: seq<Doc>
    ghost var submitted: seq<Doc>
    ghost var stranded: seq<Doc>

    ghost function Abs(): State
      reads this
    {
      State(channel, workers, closed, indexed, deadLetters, submitted, stranded)
    }

    constructor (n: nat)
      ensures Abs() == Start(n)
    {
      channel, workers, closed := [], seq(n, _ => Worker(Serving, Empty)), false;
      indexed, deadLetters, submitted, stranded := [], [], [], [];
    }

    /** A send that does not wait; a full channel sends the document to the dead letters. */
    method Submit(doc: Doc)
      modifies this
      ensures Abs() == Apply(old(Abs()), Index(doc))
    {
      if |channel| < CHANNEL_CAP {
        channel := channel + [doc];
        stranded := if AllGone(old(Abs())) then stranded + [doc] else stranded;
      } else {
        deadLetters := deadLetters + [doc];
      }
      submitted := submitted + [doc];
    }

    method Stop()
      modifies this
      ensures Abs() == Apply(old(Abs()), Close)
    {
      closed := true;
    }

    /** `drain` of worker `w` with nobody else at work: the loop is the run of its single steps. */
    method Drain(w: nat, accepts: Doc -> bool)
      requires w < |workers| && workers[w] == Worker(Draining, Empty)
      modifies this
      ensures Abs() == Run(old(Abs()), DrainSteps(w, old(channel), accepts))
      ensures channel == [] && workers == old(workers)[w := Worker(Gone, Empty)]
      ensures indexed == old(indexed) + Kept(old(channel), accepts, true)
      ensures deadLetters == old(deadLetters) + Kept(old(channel), accepts, false)
    {
      DrainEffect(Abs(), w, accepts);
      while |channel| > 0
        invariant workers == old(workers) && closed == old(closed) && submitted == old(submitted) && stranded == old(stranded)
        invariant indexed + Kept(channel, accepts, true) == old(indexed) + Kept(old(channel), accepts, true)
        invariant deadLetters + Kept(channel, accepts, false) == old(deadLetters) + Kept(old(channel), accepts, false)
        decreases |channel|
      {
        var doc := channel[0];
        KeptStep(indexed, channel, accepts, true);
        KeptStep(deadLetters, channel, accepts, false);
        channel := channel[1..];
        if accepts(doc) {
          indexed := indexed + [doc];
        } else {
          deadLetters := deadLetters + [doc];
        }
      }
      workers := workers[w := Worker(Gone, Empty)];
    }
  }
}
