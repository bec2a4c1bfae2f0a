/** The driver that runs suspended walk tasks on a stack of its own, against the
    ordinary recursive calls it replaces. */
module WalkDriver {
  import opened Wire

  // ---------------------------------------------------------------------
  // Tasks
  // ---------------------------------------------------------------------

  /** A walk step: it returns, writes an event to the shared walker state, looks at
      that state, puts a request for a task above it on the channel, or suspends
      until its request is answered and goes on from the result. */
  datatype Task<!E(==), !R(==)> =
    | Return(result: R)
    | Emit(event: E, next: Task<E, R>)
    | Observe(seen: imap<seq<E>, Task<E, R>>)
    | Request(child: Task<E, R>, after: Task<E, R>)
    | Await(resume: imap<R, Task<E, R>>)

  /** Tasks that go on from whatever they are handed and await only a request of
      their own, `held` telling whether there is one: what the types of
      `run_above` enforce. They may still request twice, or return without
      awaiting. */
  ghost predicate Sound<E(!new), R(!new)>(t: Task<E, R>, held: bool)
    decreases t
  {
    match t
    case Return(_) => true
    case Emit(_, next) => Sound(next, held)
    case Observe(seen) => forall log: seq<E> :: log in seen && Sound(seen[log], held)
    case Request(child, after) => Sound(child, false) && Sound(after, true)
    case Await(resume) => held && forall r: R :: r in resume && Sound(resume[r], false)
  }

  ghost predicate SoundResume<E(!new), R(!new)>(resume: imap<R, Task<E, R>>) {
    forall r: R :: r in resume && Sound(resume[r], false)
  }

  /** What a waiting task goes on as once it gets `r`. */
  ghost function Handed<E(!new), R(!new)>(resume: imap<R, Task<E, R>>, r: R): (t: Task<E, R>)
    requires SoundResume(resume)
    ensures r in resume && t == resume[r] && Sound(t, false)
  {
    resume[r]
  }

  /** The request a task holds: it was made above `t`. */
  ghost predicate Holds<E(!new), R(!new)>(req: Option<Task<E, R>>, t: Task<E, R>) {
    req.Some? ==> req.value.Request? && t < req.value && Sound(req.value.child, false)
  }

  // ---------------------------------------------------------------------
  // Ordinary calls
  // ---------------------------------------------------------------------

  datatype Outcome<E, R> = Outcome(log: seq<E>, result: R)

  /** The task as an ordinary recursive call, from the shared state `log`: awaiting
      is calling what was requested last. */
  ghost function Call<E(!new), R(!new)>(t: Task<E, R>, log: seq<E>, req: Option<Task<E, R>>): (o: Outcome<E, R>)
    requires Sound(t, req.Some?) && Holds(req, t)
    decreases if req.Some? then req.value else t, if req.Some? then 0 else 1, t
  {
    match t
    case Return(r) => Outcome(log, r)
    case Emit(event, next) => Call(next, log + [event], req)
    case Observe(seen) => Call(seen[log], log, req)
    case Request(_, after) => Call(after, log, Some(t))
    case Await(resume) =>
      var inner := Call(req.value.child, log, None);
      assert Handed(resume, inner.result) == resume[inner.result];
      Call(resume[inner.result], inner.log, None)
  }

  /** Along that call, every request is awaited before the next one is made and
      before its task returns. */
  ghost predicate Disciplined<E(!new), R(!new)>(t: Task<E, R>, log: seq<E>, req: Option<Task<E, R>>)
    requires Sound(t, req.Some?) && Holds(req, t)
    decreases if req.Some? then req.value else t, if req.Some? then 0 else 1, t
  {
    match t
    case Return(_) => req.None?
    case Emit(event, next) => Disciplined(next, log + [event], req)
    case Observe(seen) => Disciplined(seen[log], log, req)
    case Request(_, after) => req.None? && Disciplined(after, log, Some(t))
    case Await(resume) =>
      && Disciplined(req.value.child, log, None)
      && var inner := Call(req.value.child, log, None);
      assert Handed(resume, inner.result) == resume[inner.result];
      Disciplined(resume[inner.result], inner.log, None)
  }

  // ---------------------------------------------------------------------
  // Calls through the channel
  // ---------------------------------------------------------------------

  /** The channel: empty, holding this task's own request, or one that a task
      above it made and never awaited. */
  datatype Channel<!E(==), !R(==)> = Empty | Own(req: Task<E, R>) | Stale

  function Left<E, R>(stale: bool): (ch: Channel<E, R>) {
    if stale then Stale else Empty
  }

  /** A run ends with a result and perhaps a request nobody awaits, or at the
      assertion that the channel is empty when a request is made. */
  datatype Ending<E, R> = Ended(log: seq<E>, result: R, left: bool) | Asserted

  ghost function HeldIn<E, R>(ch: Channel<E, R>): (req: Option<Task<E, R>>) {
    if ch.Own? then Some(ch.req) else None
  }

  ghost function Exec<E(!new), R(!new)>(t: Task<E, R>, log: seq<E>, ch: Channel<E, R>): (e: Ending<E, R>)
    requires Sound(t, ch.Own?) && Holds(HeldIn(ch), t)
    decreases if ch.Own? then ch.req else t, if ch.Own? then 0 else 1, t
  {
    match t
    case Return(r) => Ended(log, r, !ch.Empty?)
    case Emit(event, next) => Exec(next, log + [event], ch)
    case Observe(seen) => Exec(seen[log], log, ch)
    case Request(_, after) => if ch.Empty? then Exec(after, log, Own(t)) else Asserted
    case Await(resume) =>
      match Exec(ch.req.child, log, Empty)
      case Asserted => Asserted
      case Ended(l, r, left) =>
        assert Handed(resume, r) == resume[r];
        Exec(resume[r], l, Left(left))
  }

  /** A request left on the channel stays there or meets the assertion. */
  lemma {:induction false} StaleStays<E(!new), R(!new)>(t: Task<E, R>, log: seq<E>)
    requires Sound(t, false)
    ensures var e := Exec(t, log, Stale); e.Ended? ==> e.left
    decreases t
  {
    match t
    case Return(_) =>
    case Emit(event, next) => StaleStays(next, log + [event]);
    case Observe(seen) => StaleStays(seen[log], log);
    case Request(_, _) =>
    case Await(_) =>
  }

  /** A run neither meets the assertion nor leaves a request behind exactly when
      the task is disciplined, and then it ends as the ordinary call does. */
  lemma {:induction false} DisciplinedExactly<E(!new), R(!new)>(t: Task<E, R>, log: seq<E>, ch: Channel<E, R>)
    requires !ch.Stale? && Sound(t, ch.Own?) && Holds(HeldIn(ch), t)
    ensures var e := Exec(t, log, ch);
            && (e.Ended? && !e.left <==> Disciplined(t, log, HeldIn(ch)))
            && (Disciplined(t, log, HeldIn(ch)) ==>
                  Outcome(e.log, e.result) == Call(t, log, HeldIn(ch)))
    decreases if ch.Own? then ch.req else t, if ch.Own? then 0 else 1, t
  {
    match t
    case Return(_) =>
    case Emit(event, next) => DisciplinedExactly(next, log + [event], ch);
    case Observe(seen) => DisciplinedExactly(seen[log], log, ch);
    case Request(_, after) =>
      if ch.Empty? {
        DisciplinedExactly(after, log, Own(t));
      }
    case Await(resume) =>
      DisciplinedExactly(ch.req.child, log, Empty);
      var inner := Exec(ch.req.child, log, Empty);
      if inner.Ended? {
        var next := Handed(resume, inner.result);
        if inner.left {
          StaleStays(next, inner.log);
        } else {
          DisciplinedExactly(next, inner.log, Empty);
        }
      }
  }

  /** The task that shows the assertion can be met: it requests twice. */
  lemma TwoRequests<E(!new), R(!new)>(first: Task<E, R>, second: Task<E, R>, log: seq<E>, r: R)
    requires Sound(first, false) && Sound(second, false)
    ensures var t := Request(first, Request(second, Return(r)));
            Sound(t, false) && Exec(t, log, Empty) == Asserted
  {
  }

  // ---------------------------------------------------------------------
  // Disciplined whatever the log
  // ---------------------------------------------------------------------

  /** On no branch is a request made, or the task over, while a request is held, and
      the same goes for every task requested. No run is looked at. */
  ghost predicate Orderly<E(!new), R(!new)>(t: Task<E, R>, held: bool)
    decreases t
  {
    match t
    case Return(_) => !held
    case Emit(_, next) => Orderly(next, held)
    case Observe(seen) => forall log: seq<E> :: log in seen && Orderly(seen[log], held)
    case Request(child, after) => !held && Orderly(child, false) && Orderly(after, true)
    case Await(resume) => held && forall r: R :: r in resume && Orderly(resume[r], false)
  }

  lemma {:induction false} OrderlyIsSound<E(!new), R(!new)>(t: Task<E, R>, held: bool)
    requires Orderly(t, held)
    ensures Sound(t, held)
    decreases t
  {
    match t
    case Return(_) =>
    case Emit(_, next) => OrderlyIsSound(next, held);
    case Observe(seen) =>
      forall log: seq<E> ensures log in seen && Sound(seen[log], held) {
        OrderlyIsSound(seen[log], held);
      }
    case Request(child, after) =>
      OrderlyIsSound(child, false);
      OrderlyIsSound(after, true);
    case Await(resume) =>
      forall r: R ensures r in resume && Sound(resume[r], false) {
        OrderlyIsSound(resume[r], false);
      }
  }

  /** An orderly task is disciplined from every log. */
  lemma {:induction false} OrderlyIsDisciplined<E(!new), R(!new)>(t: Task<E, R>, log: seq<E>, req: Option<Task<E, R>>)
    requires Orderly(t, req.Some?) && Sound(t, req.Some?) && Holds(req, t)
    requires req.Some? ==> Orderly(req.value.child, false)
    ensures Disciplined(t, log, req)
    decreases if req.Some? then req.value else t, if req.Some? then 0 else 1, t
  {
    match t
    case Return(_) =>
    case Emit(event, next) => OrderlyIsDisciplined(next, log + [event], req);
    case Observe(seen) => OrderlyIsDisciplined(seen[log], log, req);
    case Request(_, after) => OrderlyIsDisciplined(after, log, Some(t));
    case Await(resume) =>
      OrderlyIsDisciplined(req.value.child, log, None);
      var inner := Call(req.value.child, log, None);
      var next := Handed(resume, inner.result);
      OrderlyIsDisciplined(next, inner.log, None);
  }

  /** Orderly tasks run clean, each as the ordinary call. */
  lemma OrderlyRunsClean<E(!new), R(!new)>(t: Task<E, R>, log: seq<E>)
    requires Orderly(t, false)
    ensures Sound(t, false)
    ensures var o := Call(t, log, None); Exec(t, log, Empty) == Ended(o.log, o.result, false)
  {
    hide Orderly, Sound, Exec, Call, Disciplined;
    OrderlyIsSound(t, false);
    OrderlyIsDisciplined(t, log, None);
    DisciplinedExactly(t, log, Empty);
  }

  /** Returns, on the empty log with a request held. */
  ghost function Forgetful<E(!new), R(!new)>(log: seq<E>, r: R): (t: Task<E, R>) {
    if log == [] then Request(Return(r), Return(r)) else Return(r)
  }

  /** The converse fails where a branch cannot be reached: this task is forgetful only
      on a log that its own event rules out. */
  lemma DisciplinedNotOrderly<E(!new), R(!new)>(event: E, r: R)
    ensures var t: Task<E, R> := Emit(event, Observe(imap log: seq<E> :: Forgetful(log, r)));
            Sound(t, false) && !Orderly(t, false) && forall log: seq<E> :: Disciplined(t, log, None)
  {
    var seen: imap<seq<E>, Task<E, R>> := imap log: seq<E> :: Forgetful(log, r);
    var empty: seq<E> := [];
    assert seen[empty] == Request(Return(r), Return(r)) && !Orderly(seen[empty], false);
    assert !Orderly(Observe(seen), false);
    forall log: seq<E> ensures log in seen && Sound(seen[log], false) {
      assert seen[log] == Forgetful(log, r);
    }
    assert Sound(Observe(seen), false);
    forall log: seq<E> ensures Disciplined(Emit(event, Observe(seen)), log, None) {
      assert log + [event] != [] && seen[log + [event]] == Return(r);
      assert Disciplined(Observe(seen), log + [event], None);
    }
  }

  // ---------------------------------------------------------------------
  // One poll
  // ---------------------------------------------------------------------

  /** How far a task runs by itself: to its end, to where it waits for its request,
      or to the assertion. */
  datatype Pause<!E(==), !R(==)> =
    | Ready(log: seq<E>, result: R, channel: Channel<E, R>)
    | Suspended(log: seq<E>, req: Task<E, R>, resume: imap<R, Task<E, R>>)
    | Failed(log: seq<E>)

  ghost function Inline<E(!new), R(!new)>(t: Task<E, R>, log: seq<E>, ch: Channel<E, R>): (p: Pause<E, R>)
    requires Sound(t, ch.Own?) && Holds(HeldIn(ch), t)
    decreases t
  {
    match t
    case Return(r) => Ready(log, r, ch)
    case Emit(event, next) => Inline(next, log + [event], ch)
    case Observe(seen) => Inline(seen[log], log, ch)
    case Request(_, after) => if ch.Empty? then Inline(after, log, Own(t)) else Failed(log)
    case Await(resume) => Suspended(log, ch.req, resume)
  }

  /** How often a task is polled until it is done, the tasks it awaits included. */
  ghost function Polls<E(!new), R(!new)>(t: Task<E, R>, log: seq<E>, ch: Channel<E, R>): (n: nat)
    requires Sound(t, ch.Own?) && Holds(HeldIn(ch), t)
    ensures n >= 1
    decreases if ch.Own? then ch.req else t, if ch.Own? then 0 else 1, t
  {
    match t
    case Return(_) => 1
    case Emit(event, next) => Polls(next, log + [event], ch)
    case Observe(seen) => Polls(seen[log], log, ch)
    case Request(_, after) => if ch.Empty? then Polls(after, log, Own(t)) else 1
    case Await(resume) =>
      1 + Polls(ch.req.child, log, Empty)
      + match Exec(ch.req.child, log, Empty)
        case Asserted => 0
        case Ended(l, r, left) =>
          assert Handed(resume, r) == resume[r];
          Polls(resume[r], l, Left(left))
  }

  /** What is left of a waiting task once the one above it ended. */
  ghost function Resumed<E(!new), R(!new)>(resume: imap<R, Task<E, R>>, e: Ending<E, R>): (r: Ending<E, R>)
    requires SoundResume(resume)
  {
    if e.Asserted? then Asserted else Exec(Handed(resume, e.result), e.log, Left(e.left))
  }

  ghost function PollsResumed<E(!new), R(!new)>(resume: imap<R, Task<E, R>>, e: Ending<E, R>): (n: nat)
    requires SoundResume(resume)
  {
    if e.Asserted? then 0 else Polls(Handed(resume, e.result), e.log, Left(e.left))
  }

  /** A run is the stretch to its first suspension, the requested task's run and
      what is left. */
  lemma {:induction false} ExecIsInline<E(!new), R(!new)>(t: Task<E, R>, log: seq<E>, ch: Channel<E, R>)
    requires Sound(t, ch.Own?) && Holds(HeldIn(ch), t)
    ensures match Inline(t, log, ch)
            case Ready(l, r, left) => Exec(t, log, ch) == Ended(l, r, !left.Empty?) && Polls(t, log, ch) == 1
            case Failed(_) => Exec(t, log, ch) == Asserted && Polls(t, log, ch) == 1
            case Suspended(l, req, resume) =>
              && req.Request? && Sound(req.child, false) && SoundResume(resume)
              && var inner := Exec(req.child, l, Empty);
              && Exec(t, log, ch) == Resumed(resume, inner)
              && Polls(t, log, ch) == 1 + Polls(req.child, l, Empty) + PollsResumed(resume, inner)
    decreases t
  {
    match t
    case Return(_) =>
    case Emit(event, next) => ExecIsInline(next, log + [event], ch);
    case Observe(seen) => ExecIsInline(seen[log], log, ch);
    case Request(_, after) =>
      if ch.Empty? {
        ExecIsInline(after, log, Own(t));
      }
    case Await(_) =>
  }

  // ---------------------------------------------------------------------
  // The stack of waiting tasks
  // ---------------------------------------------------------------------

  ghost predicate Waits<E(!new), R(!new)>(below: seq<imap<R, Task<E, R>>>) {
    forall k | 0 <= k < |below| :: SoundResume(below[k])
  }

  /** What the waiting tasks come to once the innermost one gets `e`. */
  ghost function After<E(!new), R(!new)>(below: seq<imap<R, Task<E, R>>>, e: Ending<E, R>): (r: Ending<E, R>)
    requires Waits(below)
    decreases |below|
  {
    if below == [] then e else After(below[..|below| - 1], Resumed(below[|below| - 1], e))
  }

  ghost function PollsAfter<E(!new), R(!new)>(below: seq<imap<R, Task<E, R>>>, e: Ending<E, R>): (n: nat)
    requires Waits(below)
    decreases |below|
  {
    if below == [] then 0
    else
      PollsResumed(below[|below| - 1], e) + PollsAfter(below[..|below| - 1], Resumed(below[|below| - 1], e))
  }

  lemma Push<E(!new), R(!new)>(below: seq<imap<R, Task<E, R>>>, resume: imap<R, Task<E, R>>, e: Ending<E, R>)
    requires Waits(below) && SoundResume(resume)
    ensures Waits(below + [resume])
    ensures After(below + [resume], e) == After(below, Resumed(resume, e))
    ensures PollsAfter(below + [resume], e) == PollsResumed(resume, e) + PollsAfter(below, Resumed(resume, e))
  {
    assert (below + [resume])[..|below|] == below;
  }

  lemma {:induction false} AssertedStays<E(!new), R(!new)>(below: seq<imap<R, Task<E, R>>>)
    requires Waits(below)
    ensures After(below, Ending<E, R>.Asserted) == Asserted
    decreases |below|
  {
    if below != [] {
      AssertedStays(below[..|below| - 1]);
    }
  }

  /** The innermost waiting task goes on; with none left, the result is out. */
  lemma Pop<E(!new), R(!new)>(below: seq<imap<R, Task<E, R>>>, e: Ending<E, R>)
    requires Waits(below) && e.Ended?
    ensures below == [] ==> After(below, e) == e && PollsAfter(below, e) == 0
    ensures below != [] ==>
              var n := |below| - 1;
              var t := Handed(below[n], e.result);
              && After(below, e) == After(below[..n], Exec(t, e.log, Left(e.left)))
              && PollsAfter(below, e)
                 == Polls(t, e.log, Left(e.left)) + PollsAfter(below[..n], Exec(t, e.log, Left(e.left)))
  {
  }

  /** A task on the stack: not polled yet, or suspended, with the slot that the one
      it asked for writes its result to. */
  datatype Frame<!E(==), !R(==)> =
    | Fresh(task: Task<E, R>)
    | Waiting(resume: imap<R, Task<E, R>>, slot: Option<R>)

  /** The innermost task can be polled: it is fresh, or its slot is filled; the
      tasks below it wait with empty slots. */
  ghost predicate Runnable<E(!new), R(!new)>(tasks: seq<Frame<E, R>>) {
    && tasks != []
    && (forall k | 0 <= k < |tasks| - 1 :: tasks[k].Waiting? && tasks[k].slot.None? && SoundResume(tasks[k].resume))
    && match tasks[|tasks| - 1]
       case Fresh(t) => Sound(t, false)
       case Waiting(resume, slot) => slot.Some? && SoundResume(resume)
  }

  /** What the innermost task goes on as. */
  ghost function Current<E(!new), R(!new)>(tasks: seq<Frame<E, R>>): (t: Task<E, R>)
    requires Runnable(tasks)
    ensures Sound(t, false)
  {
    match tasks[|tasks| - 1]
    case Fresh(t) => t
    case Waiting(resume, slot) => Handed(resume, slot.value)
  }

  ghost function Below<E(!new), R(!new)>(tasks: seq<Frame<E, R>>): (b: seq<imap<R, Task<E, R>>>)
    requires Runnable(tasks)
    ensures Waits(b) && |b| == |tasks| - 1
    ensures forall k | 0 <= k < |b| :: b[k] == tasks[k].resume
  {
    seq(|tasks| - 1, k requires 0 <= k < |tasks| - 1 && Runnable(tasks) => tasks[k].resume)
  }

  lemma RootOnly<E(!new), R(!new)>(root: Task<E, R>, e: Ending<E, R>)
    requires Sound(root, false)
    ensures Runnable([Fresh(root)]) && Current([Fresh(root)]) == root && Below([Fresh(root)]) == []
    ensures After(Below([Fresh(root)]), e) == e && PollsAfter(Below([Fresh(root)]), e) == 0
  {
  }

  /** The stack once its innermost task is gone and has left `r` below. */
  lemma Finished<E(!new), R(!new)>(was: seq<Frame<E, R>>, tasks: seq<Frame<E, R>>, r: R)
    requires Runnable(was) && |tasks| == |was| - 1 > 0
    requires tasks[..|tasks| - 1] == was[..|tasks| - 1]
    requires tasks[|tasks| - 1] == Waiting(was[|tasks| - 1].resume, Some(r))
    ensures Runnable(tasks) && Below(tasks) == Below(was)[..|tasks| - 1]
    ensures Current(tasks) == Handed(Below(was)[|tasks| - 1], r)
  {
    hide Sound, SoundResume;
    forall k | 0 <= k < |tasks| - 1 ensures tasks[k] == was[k] {
      assert tasks[k] == tasks[..|tasks| - 1][k] == was[..|tasks| - 1][k];
    }
  }

  /** The stack once its innermost task waits for `child` above it. */
  lemma Requested<E(!new), R(!new)>(was: seq<Frame<E, R>>, tasks: seq<Frame<E, R>>, child: Task<E, R>,
                                    resume: imap<R, Task<E, R>>)
    requires Runnable(was) && Sound(child, false) && SoundResume(resume)
    requires tasks == was[..|was| - 1] + [Waiting(resume, None)] + [Fresh(child)]
    ensures Runnable(tasks) && Below(tasks) == Below(was) + [resume] && Current(tasks) == child
  {
    hide Sound, SoundResume;
  }

  // ---------------------------------------------------------------------
  // The driver
  // ---------------------------------------------------------------------

  datatype Poll = PollReady | PollPending | PollFailed

  class Driver<E(==, !new), R(==, !new)> {
    var tasks: seq<Frame<E, R>>
    /** The channel for one request. */
    var request: Option<Task<E, R>>
    /** Where the root task leaves its result. */
    var produced: Option<R>
    var log: seq<E>

    constructor ()
      ensures tasks == [] && request.None? && produced.None? && log == []
    {
      tasks, request, produced, log := [], None, None, [];
    }

    /** The channel holds what `ch` says. */
    ghost predicate OnChannel(ch: Channel<E, R>)
      reads this
    {
      match ch
      case Empty => request.None?
      case Own(req) => req.Request? && request == Some(req.child)
      case Stale => request.Some?
    }

    method Take() returns (task: Option<Task<E, R>>)
      modifies this`request
      ensures task == old(request) && request.None?
    {
      task := request;
      request := None;
    }

    /** Resumes the innermost task until it is done, waits, or makes a request while
        there is one on the channel; a finished task leaves its result where the
        one below waits for it. */
    method PollInnermost() returns (poll: Poll)
      requires Runnable(tasks)
      modifies this
      ensures match Inline(Current(old(tasks)), old(log), Left(old(request).Some?))
              case Ready(l, r, ch) =>
                && poll == PollReady && log == l && OnChannel(ch) && |tasks| == |old(tasks)|
                && (if |tasks| == 1 then produced == Some(r)
                    else tasks[..|tasks| - 2] == old(tasks)[..|tasks| - 2] && produced == old(produced)
                         && tasks[|tasks| - 2] == Waiting(old(tasks)[|tasks| - 2].resume, Some(r)))
              case Suspended(l, req, resume) =>
                && poll == PollPending && log == l && OnChannel(Own(req)) && produced == old(produced)
                && tasks == old(tasks)[..|old(tasks)| - 1] + [Waiting(resume, None)]
              case Failed(l) => poll == PollFailed && log == l
    {
      var n := |tasks| - 1;
      var t: Task<E, R>;
      match tasks[n] {
        case Fresh(task) => t := task;
        case Waiting(resume, slot) => t := resume[slot.value];
      }
      ghost var ch: Channel<E, R> := Left(request.Some?);
      while t.Emit? || t.Observe? || t.Request?
        invariant Sound(t, ch.Own?) && Holds(HeldIn(ch), t) && OnChannel(ch)
        invariant Inline(t, log, ch) == Inline(Current(old(tasks)), old(log), Left(old(request).Some?))
        invariant tasks == old(tasks) && produced == old(produced)
        decreases t
      {
        if t.Emit? {
          log := log + [t.event];
          t := t.next;
        } else if t.Observe? {
          t := t.seen[log];
        } else {
          if request.Some? {
            return PollFailed;
          }
          request := Some(t.child);
          ch := Own(t);
          t := t.after;
        }
      }
      if t.Await? {
        tasks := tasks[..n] + [Waiting(t.resume, None)];
        return PollPending;
      }
      if n == 0 {
        produced := Some(t.result);
      } else {
        tasks := tasks[n - 1 := Waiting(tasks[n - 1].resume, Some(t.result))];
      }
      return PollReady;
    }

    /** Runs the root and every task requested above it until the stack is empty or
        a request meets a full channel. A suspended task always has a request to
        run, and the loop ends. */
    method Drive(root: Task<E, R>) returns (ok: bool)
      requires Sound(root, false) && request.None?
      modifies this
      ensures match Exec(root, old(log), Empty)
              case Asserted => !ok
              case Ended(l, r, left) =>
                ok && tasks == [] && log == l && produced == Some(r) && request.Some? == left
    {
      hide Exec, Polls, Sound, SoundResume, Inline, After, PollsAfter, Runnable, Below, Current;
      ghost var goal := Exec(root, log, Empty);
      tasks := [Fresh(root)];
      ghost var left := Polls(root, log, Empty);
      RootOnly(root, goal);
      while tasks != []
        invariant tasks != [] ==>
                    && Runnable(tasks)
                    && var ch := Left(request.Some?);
                    && goal == After(Below(tasks), Exec(Current(tasks), log, ch))
                    && left == Polls(Current(tasks), log, ch) + PollsAfter(Below(tasks), Exec(Current(tasks), log, ch))
        invariant tasks == [] ==> goal.Ended? && produced == Some(goal.result) && log == goal.log
                                  && request.Some? == goal.left
        decreases left
      {
        ghost var t, below, was, ch := Current(tasks), Below(tasks), tasks, Left(request.Some?);
        ExecIsInline(t, log, ch);
        ghost var pause := Inline(t, log, ch);
        if pause.Ready? {
          Pop(below, Exec(t, log, ch));
        }
        var poll := PollInnermost();
        match poll
        case PollFailed =>
          AssertedStays(below);
          return false;
        case PollReady =>
          tasks := tasks[..|tasks| - 1];
          if tasks != [] {
            Finished(was, tasks, pause.result);
          }
          left := left - 1;
        case PollPending =>
          var task := Take();
          match task {
            case Some(above) =>
              tasks := tasks + [Fresh(above)];
              Requested(was, tasks, above, pause.resume);
              Push(below, pause.resume, Exec(above, log, Empty));
            case None =>
              assert false;
          }
          left := left - 1;
      }
      return true;
    }

    /** Runs `task` as a root of its own. The run is clean -- no request is made on
        a full channel and none is left behind -- exactly when every request of
        the walk is awaited before the next one; then the result and the shared
        state are those of an ordinary call. */
    method RunRoot(task: Task<E, R>) returns (clean: bool, result: Option<R>)
      requires Sound(task, false) && request.None?
      modifies this
      ensures clean <==> Disciplined(task, old(log), None)
      ensures clean ==> result.Some? && Outcome(log, result.value) == Call(task, old(log), None)
      ensures clean ==> tasks == [] && request.None?
    {
      DisciplinedExactly(task, log, Empty);
      var ok := Drive(task);
      if !ok || request.Some? {
        return false, None;
      }
      result := produced;
      produced := None;
      clean := true;
    }
  }
}
