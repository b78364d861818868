/**
 Pending calls of the RPC client: senders, the read loop and shutdown act on the shared map of futures in
 any interleaving. Each event below is one atomic action of one of them.
 */
module RpcFutures {
  import opened Basics

  /** What a future is completed with: a reply or an error, both opaque. */
  datatype Outcome = Reply(body: int) | Error(err: int)

  datatype Fut = Fut(complete: bool, outcome: Option<Outcome>, onComplete: Option<nat>, closed: bool)

  const NEW: Fut := Fut(false, None, None, false)

  /** How far a send has come. */
  datatype Pc = Numbered | Stored | MustTake | Ready | Returned | Unwritten | Refused

  /** Where the read loop or the sweep is in handing an outcome to a future. */
  datatype Actor = Idle | Loaded(id: nat, out: Outcome) | Calling(id: nat, cb: Option<nat>) | Closing(id: nat) | Deleting(id: nat)

  /** Shutdown: not begun, closed, going over the map with the keys it must visit, or over. */
  datatype Sweep = Open | Begun | Ranging(must: set<nat>) | Ended

  datatype Client = Client(
    passed: nat,
    next: nat,
    pending: set<nat>,
    futs: map<nat, Fut>,
    pcs: map<nat, Pc>,
    reader: Actor,
    sweeper: Actor,
    sweep: Sweep,
    visited: set<nat>,
    shutdownErr: int,
    callbacks: nat,
    owner: map<nat, nat>,
    dropped: set<nat>,
    late: set<nat>,
    ran: seq<nat>,
    completed: seq<nat>)

  const START: Client := Client(0, 0, {}, map[], map[], Idle, Idle, Open, {}, 0, 0, map[], {}, {}, [], [])

  predicate Closed(s: Client) { s.sweep != Open }

  datatype Event =
    | Check                            // a sender reads the closed flag
    | Number                           // it draws a sequence number and makes its future
    | Store(id: nat)                  // it stores the future
    | Recheck(id: nat)                // it reads the closed flag again
    | Take(id: nat)                   // closed: it takes its future back if it is still there
    | Write(id: nat, ok: bool)        // it writes the request
    | DropPending(id: nat)            // the write failed: it deletes its future
    | Receive(id: nat, out: Outcome)  // the read loop takes the future of a reply
    | Shutdown(err: int)               // anyone sets the closed flag, at most once
    | Range                            // shutdown starts to go over the map
    | Visit(id: nat)                  // it comes to a future
    | Lock(reader: bool)               // the locked part of Done
    | Call(reader: bool)               // Done runs the callback
    | CloseDone(reader: bool)          // Done closes the channel
    | Delete                           // the sweep deletes the future it has completed
    | EndRange                         // the sweep has been over every key that stayed in the map
    | OnComplete(id: nat, given: bool) // a caller registers a callback, or nil
    | CallLate                         // a callback registered after completion runs

  // ---------------------------------------------------------------- steps

  function Complete(f: Fut, out: Outcome): Fut {
    if f.complete then f else f.(complete := true, outcome := Some(out))
  }

  function ActorOf(s: Client, reader: bool): Actor { if reader then s.reader else s.sweeper }

  function WithActor(s: Client, reader: bool, a: Actor): Client {
    if reader then s.(reader := a) else s.(sweeper := a)
  }

  /** What an actor does after Done has returned. */
  function After(reader: bool, id: nat): Actor { if reader then Idle else Deleting(id) }

  function LockDone(s: Client, reader: bool, id: nat, out: Outcome): Client
    requires id in s.futs
  {
    var f := s.futs[id];
    if f.complete then WithActor(s, reader, After(reader, id))
    else WithActor(s.(futs := s.futs[id := Complete(f, out)], completed := s.completed + [id]),
                   reader, Calling(id, f.onComplete))
  }

  /** A registration before completion replaces what was registered, even by nil. */
  function Register(s: Client, id: nat, given: bool): Client
    requires id in s.futs
  {
    var f, cb := s.futs[id], s.callbacks;
    var t := if given then s.(callbacks := cb + 1, owner := s.owner[cb := id]) else s;
    if f.complete then t.(late := if given then t.late + {cb} else t.late)
    else t.(futs := t.futs[id := f.(onComplete := if given then Some(cb) else None)],
            dropped := if f.onComplete.Some? then t.dropped + {f.onComplete.value} else t.dropped)
  }

  function SenderStep(s: Client, e: Event): Client {
    match e
    case Check => if Closed(s) then s else s.(passed := s.passed + 1)
    case Number =>
      if s.passed == 0 then s
      else s.(passed := s.passed - 1, next := s.next + 1, futs := s.futs[s.next := NEW], pcs := s.pcs[s.next := Numbered])
    case Store(q) =>
      if q in s.pcs && s.pcs[q] == Numbered then s.(pending := s.pending + {q}, pcs := s.pcs[q := Stored]) else s
    case Recheck(q) =>
      if q in s.pcs && s.pcs[q] == Stored then s.(pcs := s.pcs[q := if Closed(s) then MustTake else Ready]) else s
    case Take(q) =>
      if q in s.pcs && s.pcs[q] == MustTake then
        if q in s.pending then s.(pending := s.pending - {q}, pcs := s.pcs[q := Refused]) else s.(pcs := s.pcs[q := Ready])
      else s
    case Write(q, ok) =>
      if q in s.pcs && s.pcs[q] == Ready then s.(pcs := s.pcs[q := if ok then Returned else Unwritten]) else s
    case DropPending(q) =>
      if q in s.pcs && s.pcs[q] == Unwritten then s.(pending := s.pending - {q}, pcs := s.pcs[q := Refused]) else s
    case _ => s
  }

  function SweepStep(s: Client, e: Event): Client {
    match e
    case Shutdown(err) => if s.sweep == Open then s.(sweep := Begun, shutdownErr := err) else s
    case Range => if s.sweep == Begun then s.(sweep := Ranging(s.pending)) else s
    case Visit(q) =>
      if s.sweep.Ranging? && s.sweeper == Idle && q in s.pending then
        s.(sweeper := Loaded(q, Error(s.shutdownErr)), visited := s.visited + {q})
      else s
    case Delete =>
      if s.sweeper.Deleting? then s.(pending := s.pending - {s.sweeper.id}, sweeper := Idle) else s
    case EndRange =>
      if s.sweep.Ranging? && s.sweeper == Idle && s.sweep.must !! s.pending then s.(sweep := Ended) else s
    case _ => s
  }

  function DoneStep(s: Client, e: Event): Client {
    match e
    case Receive(q, out) =>
      if s.reader == Idle && q in s.pending then s.(pending := s.pending - {q}, reader := Loaded(q, out)) else s
    case Lock(r) =>
      var a := ActorOf(s, r);
      if a.Loaded? && a.id in s.futs then LockDone(s, r, a.id, a.out) else s
    case Call(r) =>
      var a := ActorOf(s, r);
      if a.Calling? then
        WithActor(if a.cb.Some? then s.(ran := s.ran + [a.cb.value]) else s, r, Closing(a.id))
      else s
    case CloseDone(r) =>
      var a := ActorOf(s, r);
      if a.Closing? && a.id in s.futs then
        WithActor(s.(futs := s.futs[a.id := s.futs[a.id].(closed := true)]), r, After(r, a.id))
      else s
    case _ => s
  }

  function CallerStep(s: Client, e: Event, pick: nat): Client {
    match e
    case OnComplete(q, given) => if q in s.futs then Register(s, q, given) else s
    case CallLate => if pick in s.late then s.(late := s.late - {pick}, ran := s.ran + [pick]) else s
    case _ => s
  }

  /** One atomic action; `pick` chooses among callbacks that wait to run. */
  function Step(s: Client, e: Event, pick: nat): Client {
    match e
    case Check => SenderStep(s, e)
    case Number => SenderStep(s, e)
    case Store(_) => SenderStep(s, e)
    case Recheck(_) => SenderStep(s, e)
    case Take(_) => SenderStep(s, e)
    case Write(_, _) => SenderStep(s, e)
    case DropPending(_) => SenderStep(s, e)
    case Shutdown(_) => SweepStep(s, e)
    case Range => SweepStep(s, e)
    case Visit(_) => SweepStep(s, e)
    case Delete => SweepStep(s, e)
    case EndRange => SweepStep(s, e)
    case Receive(_, _) => DoneStep(s, e)
    case Lock(_) => DoneStep(s, e)
    case Call(_) => DoneStep(s, e)
    case CloseDone(_) => DoneStep(s, e)
    case OnComplete(_, _) => CallerStep(s, e, pick)
    case CallLate => CallerStep(s, e, pick)
  }

  /** The state after a run of events from the start. */
  function Run(es: seq<(Event, nat)>): Client {
    if es == [] then START else Step(Run(es[..|es| - 1]), es[|es| - 1].0, es[|es| - 1].1)
  }

  // ---------------------------------------------------------------- no future is lost

  /** Someone will complete the future, or has done so. */
  ghost predicate InHand(s: Client, q: nat) {
    || (q in s.futs && s.futs[q].complete)
    || (s.reader.Loaded? && s.reader.id == q)
    || (s.sweeper.Loaded? && s.sweeper.id == q)
  }

  /** A stored future that waits in the map will be met by the sweep. */
  ghost predicate WillBeMet(s: Client, q: nat) {
    && q in s.pending
    && match s.sweep
       case Open => true
       case Begun => true
       case Ranging(must) => q in must
       case Ended => false
  }

  ghost predicate SendOk(s: Client, q: nat)
    requires q in s.pcs
  {
    match s.pcs[q]
    case Numbered => q !in s.pending
    case Stored => q in s.pending || InHand(s, q)
    case MustTake => q in s.pending || InHand(s, q)
    case Ready => InHand(s, q) || WillBeMet(s, q)
    case Returned => InHand(s, q) || WillBeMet(s, q)
    case Unwritten => true
    case Refused => q !in s.pending
  }

  ghost predicate ActorOk(s: Client, a: Actor) {
    match a
    case Idle => true
    case Loaded(q, _) => q in s.futs
    case Calling(q, cb) => q in s.futs && s.futs[q].complete
    case Closing(q) => q in s.futs && s.futs[q].complete
    case Deleting(q) => q in s.futs && s.futs[q].complete
  }

  ghost predicate Sound(s: Client) {
    && s.pcs.Keys == s.futs.Keys
    && (forall q :: q in s.pcs ==> q < s.next)
    && s.pending <= s.pcs.Keys
    && ActorOk(s, s.reader) && ActorOk(s, s.sweeper) && !s.reader.Deleting?
    && (s.sweep.Open? || s.sweep.Begun? || s.sweep.Ended? ==> s.sweeper == Idle)
    && (forall q {:trigger SendOk(s, q)} :: q in s.pcs ==> SendOk(s, q))
  }

  /** A step that leaves a send, its entry and the sweep alone leaves it accounted for. */
  lemma SendKept(s: Client, t: Client, q: nat)
    requires q in s.pcs && SendOk(s, q) && q in t.pcs && t.pcs[q] == s.pcs[q]
    requires (q in t.pending <==> q in s.pending) && t.sweep == s.sweep && (InHand(s, q) ==> InHand(t, q))
    ensures SendOk(t, q)
  {
  }

  lemma NumberSound(s: Client, e: Event)
    requires Sound(s) && (e.Check? || e.Number?)
    ensures Sound(SenderStep(s, e))
  {
    var t := SenderStep(s, e);
    forall q | q in t.pcs ensures SendOk(t, q) {
      if q in s.pcs {
        assert SendOk(s, q);
        SendKept(s, t, q);
      }
    }
  }

  lemma SenderSound(s: Client, e: Event)
    requires Sound(s)
    ensures Sound(SenderStep(s, e))
  {
    if e.Check? || e.Number? {
      NumberSound(s, e);
    } else if e.Store? || e.Recheck? || e.Take? || e.Write? || e.DropPending? {
      var t := SenderStep(s, e);
      if e.id in s.pcs { assert SendOk(s, e.id) && SendOk(t, e.id); }
      forall q | q in t.pcs && q != e.id ensures SendOk(t, q) {
        assert SendOk(s, q);
        SendKept(s, t, q);
      }
    }
  }

  lemma SweepSound(s: Client, e: Event)
    requires Sound(s)
    ensures Sound(SweepStep(s, e))
  {
    var t := SweepStep(s, e);
    forall q | q in t.pcs ensures SendOk(t, q) { assert SendOk(s, q); }
  }

  lemma ReceiveSound(s: Client, e: Event)
    requires Sound(s) && e.Receive?
    ensures Sound(DoneStep(s, e))
  {
    var t := DoneStep(s, e);
    forall q | q in t.pcs ensures SendOk(t, q) {
      assert SendOk(s, q);
      if q != e.id { SendKept(s, t, q); }
    }
  }

  /** A step of Done: nobody loses what it holds but by completing it. */
  ghost predicate OnlyCompletes(s: Client, t: Client) {
    && t.pcs == s.pcs && t.pending == s.pending && t.sweep == s.sweep && t.next == s.next && t.futs.Keys == s.futs.Keys
    && (forall q :: q in s.futs && s.futs[q].complete ==> t.futs[q].complete)
    && (s.reader.Loaded? ==> t.reader == s.reader || (s.reader.id in t.futs && t.futs[s.reader.id].complete))
    && (s.sweeper.Loaded? ==> t.sweeper == s.sweeper || (s.sweeper.id in t.futs && t.futs[s.sweeper.id].complete))
  }

  lemma AllKept(s: Client, t: Client)
    requires Sound(s) && OnlyCompletes(s, t)
    ensures forall q {:trigger SendOk(t, q)} :: q in t.pcs ==> SendOk(t, q)
  {
    forall q | q in t.pcs ensures SendOk(t, q) {
      assert SendOk(s, q);
      SendKept(s, t, q);
    }
  }

  lemma LockSound(s: Client, e: Event)
    requires Sound(s) && e.Lock?
    ensures Sound(DoneStep(s, e))
  {
    hide SendOk;
    AllKept(s, DoneStep(s, e));
  }

  lemma CallSound(s: Client, e: Event)
    requires Sound(s) && e.Call?
    ensures Sound(DoneStep(s, e))
  {
    hide SendOk;
    AllKept(s, DoneStep(s, e));
  }

  lemma CloseDoneSound(s: Client, e: Event)
    requires Sound(s) && e.CloseDone?
    ensures Sound(DoneStep(s, e))
  {
    hide SendOk;
    AllKept(s, DoneStep(s, e));
  }

  lemma DoneSound(s: Client, e: Event)
    requires Sound(s)
    ensures Sound(DoneStep(s, e))
  {
    hide Sound, DoneStep;
    if e.Receive? { ReceiveSound(s, e); }
    else if e.Lock? { LockSound(s, e); }
    else if e.Call? { CallSound(s, e); }
    else if e.CloseDone? { CloseDoneSound(s, e); }
    else { DoneIdle(s, e); }
  }

  lemma DoneIdle(s: Client, e: Event)
    requires !e.Receive? && !e.Lock? && !e.Call? && !e.CloseDone?
    ensures DoneStep(s, e) == s
  {
  }

  lemma CallerSound(s: Client, e: Event, pick: nat)
    requires Sound(s)
    ensures Sound(CallerStep(s, e, pick))
  {
    hide SendOk;
    AllKept(s, CallerStep(s, e, pick));
  }

  lemma StepSound(s: Client, e: Event, pick: nat)
    requires Sound(s)
    ensures Sound(Step(s, e, pick))
  {
    hide Sound, SenderStep, SweepStep, DoneStep, CallerStep;
    SenderSound(s, e);
    SweepSound(s, e);
    DoneSound(s, e);
    CallerSound(s, e, pick);
  }

  lemma {:induction false} RunSound(es: seq<(Event, nat)>)
    ensures Sound(Run(es))
    decreases |es|
  {
    if es != [] {
      RunSound(es[..|es| - 1]);
      StepSound(Run(es[..|es| - 1]), es[|es| - 1].0, es[|es| - 1].1);
    }
  }

  // ---------------------------------------------------------------- what the sweep leaves behind

  /** A future that the sweep has not come to is completed by the read loop only. */
  ghost predicate NotYet(s: Client, q: nat)
    requires q in s.futs && q in s.pcs
  {
    && (q in s.visited ==> s.futs[q].complete || (s.sweeper.Loaded? && s.sweeper.id == q))
    && (s.sweeper.Loaded? && s.sweeper.id == q ==> q in s.visited)
    && (s.reader.Loaded? && s.reader.id == q ==> q !in s.pending && s.pcs[q] != Numbered)
    && (s.futs[q].complete && q !in s.visited ==> q !in s.pending && s.pcs[q] != Numbered && !(s.reader.Loaded? && s.reader.id == q))
  }

  ghost predicate Swept(s: Client) {
    && s.pcs.Keys == s.futs.Keys && s.visited <= s.futs.Keys
    && forall q {:trigger NotYet(s, q)} :: q in s.futs ==> NotYet(s, q)
  }

  lemma StepSwept(s: Client, e: Event, pick: nat)
    requires Sound(s) && Swept(s)
    ensures Swept(Step(s, e, pick))
  {
    hide Sound, Swept, SenderStep, SweepStep, DoneStep, CallerStep;
    SenderSwept(s, e);
    SweepSwept(s, e);
    DoneSwept(s, e);
    CallerSwept(s, e, pick);
  }

  lemma SenderSwept(s: Client, e: Event)
    requires Sound(s) && Swept(s)
    ensures Swept(SenderStep(s, e))
  {
    if e.Check? || e.Number? {
      hide SendOk, InHand;
      var t := SenderStep(s, e);
      forall q | q in t.futs ensures NotYet(t, q) {
        if q in s.futs { assert NotYet(s, q); }
      }
    } else {
      StoredSwept(s, e);
    }
  }

  lemma StoredSwept(s: Client, e: Event)
    requires Sound(s) && Swept(s) && !e.Check? && !e.Number?
    ensures Swept(SenderStep(s, e))
  {
    hide Sound;
    var t := SenderStep(s, e);
    forall q | q in t.futs ensures NotYet(t, q) {
      assert NotYet(s, q);
      NotStored(s, q);
    }
  }

  lemma NotStored(s: Client, q: nat)
    requires Sound(s) && q in s.pcs
    ensures s.pcs[q] == Numbered ==> q !in s.pending
  {
    assert SendOk(s, q);
  }

  lemma SweepSwept(s: Client, e: Event)
    requires Sound(s) && Swept(s)
    ensures Swept(SweepStep(s, e))
  {
    hide SendOk;
    var t := SweepStep(s, e);
    forall q | q in t.futs ensures NotYet(t, q) { assert NotYet(s, q); }
  }

  lemma DoneSwept(s: Client, e: Event)
    requires Sound(s) && Swept(s)
    ensures Swept(DoneStep(s, e))
  {
    hide Sound, Swept, DoneStep;
    if e.Lock? { LockSwept(s, e); } else if e.Receive? { ReceiveSwept(s, e); } else { OtherSwept(s, e); }
  }

  lemma LockSwept(s: Client, e: Event)
    requires Sound(s) && Swept(s) && e.Lock?
    ensures Swept(DoneStep(s, e))
  {
    hide Sound;
    var t := DoneStep(s, e);
    forall q | q in t.futs ensures NotYet(t, q) { assert NotYet(s, q); }
  }

  lemma ReceiveSwept(s: Client, e: Event)
    requires Sound(s) && Swept(s) && e.Receive?
    ensures Swept(DoneStep(s, e))
  {
    hide Sound;
    var t := DoneStep(s, e);
    forall q | q in t.futs ensures NotYet(t, q) {
      assert NotYet(s, q);
      NotStored(s, q);
    }
  }

  lemma OtherSwept(s: Client, e: Event)
    requires Swept(s) && !e.Lock? && !e.Receive?
    ensures Swept(DoneStep(s, e))
  {
    var t := DoneStep(s, e);
    forall q | q in t.futs ensures NotYet(t, q) { assert NotYet(s, q); }
  }

  lemma CallerSwept(s: Client, e: Event, pick: nat)
    requires Sound(s) && Swept(s)
    ensures Swept(CallerStep(s, e, pick))
  {
    hide SendOk;
    var t := CallerStep(s, e, pick);
    forall q | q in t.futs ensures NotYet(t, q) { assert NotYet(s, q); }
  }

  lemma {:induction false} RunSwept(es: seq<(Event, nat)>)
    ensures Swept(Run(es))
    decreases |es|
  {
    if es != [] {
      RunSound(es[..|es| - 1]);
      RunSwept(es[..|es| - 1]);
      hide Sound, Swept, Step;
      StepSwept(Run(es[..|es| - 1]), es[|es| - 1].0, es[|es| - 1].1);
    }
  }

  /**
   Once the shutdown sweep has ended, a future that was returned to a caller is incomplete exactly if the
   read loop has taken it before the sweep came to it; the read loop's next action completes it.
   */
  lemma NoneLeftIncomplete(es: seq<(Event, nat)>, q: nat)
    requires var s := Run(es); s.sweep == Ended && q in s.pcs && s.pcs[q] == Returned
    ensures var s := Run(es);
            && q in s.futs
            && (!s.futs[q].complete <==> s.reader.Loaded? && s.reader.id == q && q !in s.visited)
            && (!s.futs[q].complete ==>
                  var f := Step(s, Lock(true), 0).futs[q]; f.complete && f.outcome == Some(s.reader.out))
  {
    RunSound(es);
    RunSwept(es);
    assert SendOk(Run(es), q) && NotYet(Run(es), q);
  }

  lemma RunMore(es: seq<(Event, nat)>, e: Event)
    ensures Run(es + [(e, 0)]) == Step(Run(es), e, 0)
  {
  }

  const SENT: Client := START.(next := 1, futs := map[0 := NEW], pcs := map[0 := Returned])

  lemma Storing() returns (es: seq<(Event, nat)>)
    ensures Run(es) == SENT.(pcs := map[0 := Stored], pending := {0})
  {
    es := [];
    RunMore(es, Check);
    es := es + [(Check, 0)];
    assert Run(es) == START.(passed := 1);
    RunMore(es, Number);
    es := es + [(Number, 0)];
    assert Run(es) == SENT.(pcs := map[0 := Numbered]);
    RunMore(es, Store(0));
    es := es + [(Store(0), 0)];
  }

  /** A send is done and its reply is being delivered. */
  lemma Delivering() returns (es: seq<(Event, nat)>)
    ensures Run(es) == SENT.(reader := Loaded(0, Reply(1)))
  {
    es := Storing();
    RunMore(es, Recheck(0));
    es := es + [(Recheck(0), 0)];
    assert Run(es) == SENT.(pcs := map[0 := Ready], pending := {0});
    RunMore(es, Write(0, true));
    es := es + [(Write(0, true), 0)];
    assert Run(es) == SENT.(pending := {0});
    RunMore(es, Receive(0, Reply(1)));
    es := es + [(Receive(0, Reply(1)), 0)];
  }

  /** The exception is real: shutdown can be over while the read loop still holds a returned future. */
  lemma ReaderMayStillHoldOne()
    ensures exists es :: var s := Run(es);
              s.sweep == Ended && 0 in s.pcs && s.pcs[0] == Returned && 0 in s.futs && !s.futs[0].complete
  {
    var es := Delivering();
    RunMore(es, Shutdown(7));
    es := es + [(Shutdown(7), 0)];
    RunMore(es, Range);
    es := es + [(Range, 0)];
    RunMore(es, EndRange);
    es := es + [(EndRange, 0)];
    assert Run(es) == SENT.(reader := Loaded(0, Reply(1)), sweep := Ended, shutdownErr := 7);
  }

  // ---------------------------------------------------------------- completion and callbacks, once

  lemma DistinctMore(l: seq<nat>, x: nat)
    requires Distinct(l) && x !in l
    ensures Distinct(l + [x])
  {
  }

  /** A future is in the log of completions once if it is complete, and not at all otherwise. */
  ghost predicate CompletedOnce(s: Client) {
    && Distinct(s.completed)
    && (forall q :: q in s.completed ==> q in s.futs)
    && (forall q :: q in s.futs ==> (q in s.completed <==> s.futs[q].complete) && (s.futs[q].complete <==> s.futs[q].outcome.Some?))
  }

  predicate IsCalling(a: Actor, q: nat) { a.Calling? && a.id == q }

  predicate IsFinishing(a: Actor, q: nat) { (a.Calling? || a.Closing?) && a.id == q }

  /** The registered callback is the future's own, and if it is to run, someone is about to run it. */
  ghost predicate FutOk(s: Client, q: nat)
    requires q in s.futs
  {
    var f := s.futs[q];
    && (f.onComplete.Some? ==>
          var c := f.onComplete.value;
          && c in s.owner && s.owner[c] == q && c !in s.late && c !in s.dropped
          && (c in s.ran <==> f.complete && !IsCalling(s.reader, q) && !IsCalling(s.sweeper, q)))
    && (IsFinishing(s.reader, q) || IsFinishing(s.sweeper, q) ==> f.complete && !f.closed)
    && !(IsFinishing(s.reader, q) && IsFinishing(s.sweeper, q))
    && (f.closed ==> f.complete)
  }

  /** Every registered callback is current, replaced, waiting to run late, or has run. */
  ghost predicate CallbackOk(s: Client, c: nat)
    requires c in s.owner
  {
    && c < s.callbacks && s.owner[c] in s.futs
    && (c in s.ran || c in s.late ==> s.futs[s.owner[c]].complete && c !in s.dropped)
    && !(c in s.ran && c in s.late)
    && (c in s.ran || c in s.late || c in s.dropped || s.futs[s.owner[c]].onComplete == Some(c))
  }

  ghost predicate Calls(s: Client) {
    && Distinct(s.ran) && (forall c :: c in s.ran || c in s.late || c in s.dropped ==> c in s.owner)
    && (s.reader.Calling? ==> s.reader.id in s.futs && s.futs[s.reader.id].onComplete == s.reader.cb)
    && (s.sweeper.Calling? ==> s.sweeper.id in s.futs && s.futs[s.sweeper.id].onComplete == s.sweeper.cb)
    && (forall q {:trigger FutOk(s, q)} :: q in s.futs ==> FutOk(s, q))
    && (forall c {:trigger CallbackOk(s, c)} :: c in s.owner ==> CallbackOk(s, c))
  }

  /** Steps that have nothing to do with completing or callbacks. */
  ghost predicate Elsewhere(s: Client, t: Client) {
    && t.callbacks == s.callbacks && t.owner == s.owner && t.dropped == s.dropped && t.late == s.late && t.ran == s.ran
    && t.completed == s.completed
    && s.futs.Keys <= t.futs.Keys && (forall q :: q in s.futs ==> t.futs[q] == s.futs[q])
    && (forall q :: q in t.futs && q !in s.futs ==> t.futs[q] == NEW)
    && (t.reader == s.reader || (!s.reader.Calling? && !s.reader.Closing? && !t.reader.Calling? && !t.reader.Closing?))
    && (t.sweeper == s.sweeper || (!s.sweeper.Calling? && !s.sweeper.Closing? && !t.sweeper.Calling? && !t.sweeper.Closing?))
  }

  lemma ElsewhereCalls(s: Client, t: Client)
    requires Sound(s) && Calls(s) && Elsewhere(s, t)
    ensures Calls(t) && (CompletedOnce(s) ==> CompletedOnce(t))
  {
    forall q | q in t.futs ensures FutOk(t, q) {
      if q in s.futs { assert FutOk(s, q); }
    }
    forall c | c in t.owner ensures CallbackOk(t, c) { assert CallbackOk(s, c); }
  }

  lemma SenderElsewhere(s: Client, e: Event)
    requires Sound(s)
    ensures Elsewhere(s, SenderStep(s, e))
  {
  }

  lemma SweepElsewhere(s: Client, e: Event)
    ensures Elsewhere(s, SweepStep(s, e))
  {
  }

  /** Callbacks do not notice that futures complete or close. */
  lemma CallbacksKept(s: Client, t: Client)
    requires Calls(s) && t.owner == s.owner && t.callbacks == s.callbacks && t.dropped == s.dropped
    requires t.late == s.late && t.ran == s.ran && t.futs.Keys == s.futs.Keys
    requires forall q :: q in s.futs ==>
               t.futs[q].onComplete == s.futs[q].onComplete && (s.futs[q].complete ==> t.futs[q].complete)
    ensures forall c {:trigger CallbackOk(t, c)} :: c in t.owner ==> CallbackOk(t, c)
  {
    forall c | c in t.owner ensures CallbackOk(t, c) { assert CallbackOk(s, c); }
  }

  lemma FutKept(s: Client, t: Client, q: nat)
    requires q in s.futs && q in t.futs && t.futs[q] == s.futs[q] && FutOk(s, q)
    requires t.owner == s.owner && t.dropped == s.dropped && t.late == s.late
    requires forall c :: c in s.owner && s.owner[c] == q ==> (c in t.ran <==> c in s.ran)
    requires IsCalling(t.reader, q) == IsCalling(s.reader, q) && IsCalling(t.sweeper, q) == IsCalling(s.sweeper, q)
    requires IsFinishing(t.reader, q) == IsFinishing(s.reader, q) && IsFinishing(t.sweeper, q) == IsFinishing(s.sweeper, q)
    ensures FutOk(t, q)
  {
  }

  lemma LockCalls(s: Client, e: Event)
    requires Sound(s) && Calls(s) && e.Lock?
    ensures Calls(DoneStep(s, e))
  {
    hide SendOk, Distinct, CallbackOk;
    var t, a := DoneStep(s, e), ActorOf(s, e.reader);
    if a.Loaded? {
      assert FutOk(s, a.id);
      if s.futs[a.id].complete {
        ElsewhereCalls(s, t);
      } else {
        CallbacksKept(s, t);
        assert FutOk(t, a.id);
        forall q | q in t.futs && q != a.id ensures FutOk(t, q) {
          assert FutOk(s, q);
          FutKept(s, t, q);
        }
      }
    }
  }

  lemma DoneOnce(s: Client, e: Event)
    requires CompletedOnce(s) && (e.Lock? || e.Call? || e.CloseDone?)
    ensures CompletedOnce(DoneStep(s, e))
  {
    hide Distinct;
    var a := if e.Lock? then ActorOf(s, e.reader) else Idle;
    if a.Loaded? && a.id in s.futs && !s.futs[a.id].complete { DistinctMore(s.completed, a.id); }
  }

  lemma CallCalls(s: Client, e: Event)
    requires Sound(s) && Calls(s) && e.Call?
    ensures Calls(DoneStep(s, e))
  {
    hide SendOk, Distinct;
    var t, a := DoneStep(s, e), ActorOf(s, e.reader);
    if a.Calling? {
      assert FutOk(s, a.id);
      if a.cb.Some? {
        DistinctMore(s.ran, a.cb.value);
        assert CallbackOk(s, a.cb.value);
      }
      forall q | q in t.futs ensures FutOk(t, q) {
        assert FutOk(s, q);
        if q != a.id { FutKept(s, t, q); }
      }
      forall c | c in t.owner ensures CallbackOk(t, c) { assert CallbackOk(s, c); }
    }
  }

  lemma CloseDoneCalls(s: Client, e: Event)
    requires Sound(s) && Calls(s) && e.CloseDone?
    ensures Calls(DoneStep(s, e))
  {
    hide SendOk, Distinct, CallbackOk;
    var t, a := DoneStep(s, e), ActorOf(s, e.reader);
    if a.Closing? {
      CallbacksKept(s, t);
      CloseDoneFuts(s, e);
    }
  }

  lemma CloseDoneFuts(s: Client, e: Event)
    requires Sound(s) && Calls(s) && e.CloseDone? && ActorOf(s, e.reader).Closing?
    ensures var t := DoneStep(s, e); forall q {:trigger FutOk(t, q)} :: q in t.futs ==> FutOk(t, q)
  {
    hide SendOk, Distinct, CallbackOk;
    var t, id := DoneStep(s, e), ActorOf(s, e.reader).id;
    assert FutOk(s, id) && FutOk(t, id);
    forall q | q in t.futs && q != id ensures FutOk(t, q) {
      assert FutOk(s, q);
      FutKept(s, t, q);
    }
  }

  lemma RegisterCalls(s: Client, q: nat, given: bool)
    requires Sound(s) && Calls(s) && CompletedOnce(s) && q in s.futs
    ensures Calls(Register(s, q, given)) && CompletedOnce(Register(s, q, given))
  {
    hide Sound, Distinct, FutOk, CallbackOk;
    RegisterFuts(s, q, given);
    RegisterCallbacks(s, q, given);
  }

  lemma RegisterFuts(s: Client, q: nat, given: bool)
    requires Calls(s) && q in s.futs
    ensures var t := Register(s, q, given); forall x {:trigger FutOk(t, x)} :: x in t.futs ==> FutOk(t, x)
    ensures var t := Register(s, q, given);
            && (t.reader.Calling? ==> t.futs[t.reader.id].onComplete == t.reader.cb)
            && (t.sweeper.Calling? ==> t.futs[t.sweeper.id].onComplete == t.sweeper.cb)
  {
    hide Distinct;
    var t, cb := Register(s, q, given), s.callbacks;
    assert FutOk(s, q);
    assert cb in s.owner ==> CallbackOk(s, cb);
    forall x | x in t.futs ensures FutOk(t, x) { assert FutOk(s, x); }
  }

  lemma RegisterCallbacks(s: Client, q: nat, given: bool)
    requires Calls(s) && q in s.futs
    ensures var t := Register(s, q, given);
            && (forall c {:trigger CallbackOk(t, c)} :: c in t.owner ==> CallbackOk(t, c))
            && (forall c :: c in t.ran || c in t.late || c in t.dropped ==> c in t.owner)
  {
    hide Distinct;
    var t, cb := Register(s, q, given), s.callbacks;
    assert FutOk(s, q);
    assert cb in s.owner ==> CallbackOk(s, cb);
    forall c | c in t.owner ensures CallbackOk(t, c) {
      if c in s.owner { assert CallbackOk(s, c); }
    }
  }

  lemma LateCalls(s: Client, pick: nat)
    requires Sound(s) && Calls(s) && CompletedOnce(s) && pick in s.late
    ensures var t := s.(late := s.late - {pick}, ran := s.ran + [pick]); Calls(t) && CompletedOnce(t)
  {
    var t := s.(late := s.late - {pick}, ran := s.ran + [pick]);
    assert CallbackOk(s, pick);
    DistinctMore(s.ran, pick);
    forall x | x in t.futs ensures FutOk(t, x) { assert FutOk(s, x); }
    forall c | c in t.owner ensures CallbackOk(t, c) { assert CallbackOk(s, c); }
  }

  lemma StepCalls(s: Client, e: Event, pick: nat)
    requires Sound(s) && Calls(s) && CompletedOnce(s)
    ensures Calls(Step(s, e, pick)) && CompletedOnce(Step(s, e, pick))
  {
    hide Sound, Calls, CompletedOnce, SenderStep, SweepStep, Elsewhere;
    match e {
      case Lock(_) => { LockCalls(s, e); DoneOnce(s, e); }
      case Call(_) => { CallCalls(s, e); DoneOnce(s, e); }
      case CloseDone(_) => { CloseDoneCalls(s, e); DoneOnce(s, e); }
      case Receive(_, _) => { ReceiveElsewhere(s, e); ElsewhereCalls(s, DoneStep(s, e)); }
      case OnComplete(q, given) => { if q in s.futs { RegisterCalls(s, q, given); } }
      case CallLate => { if pick in s.late { LateCalls(s, pick); } }
      case _ => {
        SenderElsewhere(s, e);
        SweepElsewhere(s, e);
        ElsewhereCalls(s, SenderStep(s, e));
        ElsewhereCalls(s, SweepStep(s, e));
      }
    }
  }

  lemma ReceiveElsewhere(s: Client, e: Event)
    requires e.Receive?
    ensures Elsewhere(s, DoneStep(s, e))
  {
  }

  lemma {:induction false} RunCalls(es: seq<(Event, nat)>)
    ensures Calls(Run(es)) && CompletedOnce(Run(es))
    decreases |es|
  {
    if es != [] {
      RunSound(es[..|es| - 1]);
      RunCalls(es[..|es| - 1]);
      hide Calls, CompletedOnce, Sound, Step;
      StepCalls(Run(es[..|es| - 1]), es[|es| - 1].0, es[|es| - 1].1);
    }
  }

  /** In every run, each future completes at most once, and no callback runs twice. */
  lemma AtMostOnce(es: seq<(Event, nat)>)
    ensures Distinct(Run(es).completed) && Distinct(Run(es).ran)
  {
    RunCalls(es);
  }

  /** The event at j registers a callback or nil on the future of c, which is not complete then. */
  ghost predicate Overrides(es: seq<(Event, nat)>, j: nat, c: nat)
    requires j < |es|
  {
    var s, e := Run(es[..j]), es[j].0;
    e.OnComplete? && e.id in s.futs && !s.futs[e.id].complete && c in s.owner && s.owner[c] == e.id
  }

  /** After c, something was registered on the same future before it was complete. */
  ghost predicate Silenced(es: seq<(Event, nat)>, c: nat) {
    exists j :: 0 <= j < |es| && Overrides(es, j, c)
  }

  lemma SilencedStep(es: seq<(Event, nat)>, c: nat)
    requires es != []
    ensures Silenced(es, c) <==> Silenced(es[..|es| - 1], c) || Overrides(es, |es| - 1, c)
  {
    hide Run;
    var before := es[..|es| - 1];
    forall j | 0 <= j < |before| ensures Overrides(before, j, c) <==> Overrides(es, j, c) {
      assert before[..j] == es[..j];
    }
    if j :| 0 <= j < |es| && Overrides(es, j, c) {
      assert j < |before| ==> Overrides(before, j, c);
    }
  }

  lemma DroppedStep(s: Client, e: Event, pick: nat, c: nat)
    requires Sound(s) && Calls(s)
    ensures c in Step(s, e, pick).dropped <==>
            c in s.dropped || (e.OnComplete? && e.id in s.futs && !s.futs[e.id].complete && c in s.owner && s.owner[c] == e.id)
  {
    hide Sound, SenderStep, SweepStep, DoneStep;
    if e.OnComplete? {
      if e.id in s.futs { assert FutOk(s, e.id); }
      if c in s.owner { assert CallbackOk(s, c); }
    } else {
      DroppedElsewhere(s, e);
    }
  }

  lemma DroppedElsewhere(s: Client, e: Event)
    ensures SenderStep(s, e).dropped == s.dropped && SweepStep(s, e).dropped == s.dropped && DoneStep(s, e).dropped == s.dropped
  {
  }

  lemma {:induction false} DroppedIsSilenced(es: seq<(Event, nat)>, c: nat)
    ensures c in Run(es).dropped <==> Silenced(es, c)
    decreases |es|
  {
    if es != [] {
      var s := Run(es[..|es| - 1]);
      RunSound(es[..|es| - 1]);
      RunCalls(es[..|es| - 1]);
      DroppedIsSilenced(es[..|es| - 1], c);
      hide Sound, Calls, CompletedOnce, Step, Silenced;
      SilencedStep(es, c);
      DroppedStep(s, es[|es| - 1].0, es[|es| - 1].1, c);
    }
  }

  /** Done has completed the future and is about to run c. */
  predicate AboutToRun(s: Client, c: nat) {
    (s.reader.Calling? && s.reader.cb == Some(c)) || (s.sweeper.Calling? && s.sweeper.cb == Some(c))
  }

  /**
   A callback has run or waits to run late exactly if its future is complete, nothing was registered after it
   before that, and the completer is not just about to run it. When the channel is closed, it has.
   */
  lemma CallbacksRun(es: seq<(Event, nat)>, c: nat)
    requires c in Run(es).owner
    ensures var s := Run(es); var q := s.owner[c];
            && q in s.futs
            && (c in s.ran || c in s.late <==> s.futs[q].complete && !Silenced(es, c) && !AboutToRun(s, c))
            && !(c in s.ran && c in s.late)
            && (s.futs[q].closed ==> !AboutToRun(s, c))
  {
    var s := Run(es);
    RunCalls(es);
    DroppedIsSilenced(es, c);
    hide Run, Silenced, Distinct;
    assert CallbackOk(s, c);
    assert FutOk(s, s.owner[c]);
    if s.reader.Calling? { assert FutOk(s, s.reader.id); }
    if s.sweeper.Calling? { assert FutOk(s, s.sweeper.id); }
  }

  /** A send with two registrations, the second a callback or nil. */
  function Twice(given: bool): Client {
    var f := NEW.(onComplete := if given then Some(1) else None);
    SENT.(pcs := map[0 := Stored], pending := {0}, futs := map[0 := f], dropped := {0},
          callbacks := if given then 2 else 1, owner := if given then map[0 := 0, 1 := 0] else map[0 := 0])
  }

  lemma Registering(given: bool) returns (es: seq<(Event, nat)>)
    ensures Run(es) == Twice(given)
  {
    es := Storing();
    RunMore(es, OnComplete(0, true));
    es := es + [(OnComplete(0, true), 0)];
    assert Run(es) == SENT.(pcs := map[0 := Stored], pending := {0}, futs := map[0 := NEW.(onComplete := Some(0))],
                            callbacks := 1, owner := map[0 := 0]);
    RunMore(es, OnComplete(0, given));
    es := es + [(OnComplete(0, given), 0)];
  }

  /** The same send when the read loop has completed it. */
  function TwiceDone(given: bool): Client {
    var s := Twice(given);
    s.(pending := {}, completed := [0], futs := map[0 := s.futs[0].(complete := true, outcome := Some(Reply(1)))])
  }

  lemma Completing(given: bool) returns (es: seq<(Event, nat)>)
    ensures Run(es) == TwiceDone(given).(reader := Calling(0, if given then Some(1) else None))
  {
    hide Run;
    es := Registering(given);
    RunMore(es, Receive(0, Reply(1)));
    es := es + [(Receive(0, Reply(1)), 0)];
    assert Run(es) == Twice(given).(pending := {}, reader := Loaded(0, Reply(1)));
    RunMore(es, Lock(true));
    es := es + [(Lock(true), 0)];
  }

  /** The first of two registrations is silenced by the second, whether that is a callback or nil. */
  lemma FirstIsSilenced(given: bool)
    ensures exists es :: var s := Run(es);
              && 0 in s.owner && s.owner[0] == 0 && 0 in s.futs && s.futs[0].closed
              && s.ran == (if given then [1] else []) && s.late == {}
  {
    hide Run;
    var es := Completing(given);
    RunMore(es, Call(true));
    es := es + [(Call(true), 0)];
    assert Run(es) == TwiceDone(given).(reader := Closing(0), ran := if given then [1] else []);
    RunMore(es, CloseDone(true));
    es := es + [(CloseDone(true), 0)];
  }

  // ---------------------------------------------------------------- what a future is completed with

  /** The run has this reply for the call. */
  ghost predicate Received(es: seq<(Event, nat)>, q: nat, out: Outcome) {
    exists j :: 0 <= j < |es| && es[j].0 == Receive(q, out)
  }

  ghost predicate FirstAt(es: seq<(Event, nat)>, err: int, j: nat) {
    j < |es| && es[j].0 == Shutdown(err) && forall i :: 0 <= i < j ==> !es[i].0.Shutdown?
  }

  /** The first shutdown of the run is with this error. */
  ghost predicate ShutDownWith(es: seq<(Event, nat)>, err: int) { exists j: nat :: FirstAt(es, err, j) }

  ghost predicate OutcomeOk(es: seq<(Event, nat)>, s: Client, q: nat)
    requires q in s.futs
  {
    s.futs[q].complete ==>
      && s.futs[q].outcome.Some?
      && (Received(es, q, s.futs[q].outcome.value) || (Closed(s) && s.futs[q].outcome == Some(Error(s.shutdownErr))))
  }

  /** Whoever holds an outcome has it from a reply or from the shutdown. */
  ghost predicate Sources(es: seq<(Event, nat)>, s: Client) {
    && (if Closed(s) then ShutDownWith(es, s.shutdownErr) else forall j :: 0 <= j < |es| ==> !es[j].0.Shutdown?)
    && (s.reader.Loaded? ==> Received(es, s.reader.id, s.reader.out))
    && (s.sweeper.Loaded? ==> Closed(s) && s.sweeper.out == Error(s.shutdownErr))
    && (forall q {:trigger OutcomeOk(es, s, q)} :: q in s.futs ==> OutcomeOk(es, s, q))
  }

  lemma ReceivedMore(es: seq<(Event, nat)>, e: (Event, nat), q: nat, out: Outcome)
    ensures Received(es + [e], q, out) <==> Received(es, q, out) || e.0 == Receive(q, out)
  {
    if Received(es, q, out) {
      var j :| 0 <= j < |es| && es[j].0 == Receive(q, out);
      assert (es + [e])[j] == es[j];
    }
    assert (es + [e])[|es|] == e;
  }

  lemma ShutDownMore(es: seq<(Event, nat)>, e: (Event, nat), err: int)
    ensures ShutDownWith(es, err) ==> ShutDownWith(es + [e], err)
    ensures (forall j :: 0 <= j < |es| ==> !es[j].0.Shutdown?) && e.0 == Shutdown(err) ==> ShutDownWith(es + [e], err)
    ensures (forall j :: 0 <= j < |es| ==> !es[j].0.Shutdown?) && !e.0.Shutdown? ==>
              forall j :: 0 <= j < |es + [e]| ==> !(es + [e])[j].0.Shutdown?
  {
    var all := es + [e];
    assert forall j :: 0 <= j < |es| ==> all[j] == es[j];
    if ShutDownWith(es, err) {
      var j: nat :| FirstAt(es, err, j);
      assert FirstAt(all, err, j);
    }
    if (forall j :: 0 <= j < |es| ==> !es[j].0.Shutdown?) && e.0 == Shutdown(err) { assert FirstAt(all, err, |es|); }
  }

  /** An action that completes nothing leaves the outcomes as they are. */
  lemma OutcomesStay(es: seq<(Event, nat)>, e: (Event, nat), s: Client, t: Client)
    requires Sources(es, s) && (Closed(s) ==> Closed(t) && t.shutdownErr == s.shutdownErr)
    requires forall q :: q in t.futs && t.futs[q].complete ==> q in s.futs && s.futs[q].complete && t.futs[q].outcome == s.futs[q].outcome
    ensures forall q {:trigger OutcomeOk(es + [e], t, q)} :: q in t.futs ==> OutcomeOk(es + [e], t, q)
  {
    hide Received, ShutDownWith;
    forall q | q in t.futs ensures OutcomeOk(es + [e], t, q) {
      if t.futs[q].complete {
        assert OutcomeOk(es, s, q);
        ReceivedMore(es, e, q, s.futs[q].outcome.value);
      }
    }
  }

  lemma SenderSources(es: seq<(Event, nat)>, e: (Event, nat), s: Client)
    requires Sources(es, s) && !e.0.Shutdown?
    ensures Sources(es + [e], SenderStep(s, e.0))
  {
    hide Received, ShutDownWith;
    ShutDownMore(es, e, s.shutdownErr);
    if s.reader.Loaded? { ReceivedMore(es, e, s.reader.id, s.reader.out); }
    OutcomesStay(es, e, s, SenderStep(s, e.0));
  }

  lemma SweepSources(es: seq<(Event, nat)>, e: (Event, nat), s: Client)
    requires Sources(es, s)
    ensures Sources(es + [e], SweepStep(s, e.0))
  {
    hide Received, ShutDownWith;
    ShutDownMore(es, e, s.shutdownErr);
    if e.0.Shutdown? { ShutDownMore(es, e, e.0.err); }
    if s.reader.Loaded? { ReceivedMore(es, e, s.reader.id, s.reader.out); }
    OutcomesStay(es, e, s, SweepStep(s, e.0));
  }

  lemma CallerSources(es: seq<(Event, nat)>, e: (Event, nat), s: Client)
    requires Sources(es, s) && !e.0.Shutdown?
    ensures Sources(es + [e], CallerStep(s, e.0, e.1))
  {
    hide Received, ShutDownWith;
    ShutDownMore(es, e, s.shutdownErr);
    if s.reader.Loaded? { ReceivedMore(es, e, s.reader.id, s.reader.out); }
    OutcomesStay(es, e, s, CallerStep(s, e.0, e.1));
  }

  lemma DoneSources(es: seq<(Event, nat)>, e: (Event, nat), s: Client)
    requires Sources(es, s) && !e.0.Shutdown?
    ensures Sources(es + [e], DoneStep(s, e.0))
  {
    hide Received, ShutDownWith, OutcomeOk, DoneStep;
    var t := DoneStep(s, e.0);
    ShutDownMore(es, e, s.shutdownErr);
    DoneHolds(s, e.0);
    if t.reader.Loaded? { ReceivedMore(es, e, t.reader.id, t.reader.out); }
    if e.0.Lock? {
      LockSources(es, e, s);
    } else {
      DoneCompletesNone(s, e.0);
      OutcomesStay(es, e, s, t);
    }
  }

  /** Done does not touch the shutdown, and the reader takes outcomes from replies only. */
  lemma DoneHolds(s: Client, e: Event)
    ensures var t := DoneStep(s, e);
            && t.sweep == s.sweep && t.shutdownErr == s.shutdownErr
            && (t.sweeper.Loaded? ==> t.sweeper == s.sweeper)
            && (t.reader.Loaded? ==> t.reader == s.reader || e == Receive(t.reader.id, t.reader.out))
  {
  }

  lemma DoneCompletesNone(s: Client, e: Event)
    requires !e.Lock?
    ensures var t := DoneStep(s, e);
            forall q :: q in t.futs && t.futs[q].complete ==> q in s.futs && s.futs[q].complete && t.futs[q].outcome == s.futs[q].outcome
  {
  }

  lemma LockSources(es: seq<(Event, nat)>, e: (Event, nat), s: Client)
    requires Sources(es, s) && e.0.Lock?
    ensures var t := DoneStep(s, e.0); forall q {:trigger OutcomeOk(es + [e], t, q)} :: q in t.futs ==> OutcomeOk(es + [e], t, q)
  {
    hide Received, ShutDownWith;
    var t, a := DoneStep(s, e.0), ActorOf(s, e.0.reader);
    forall q | q in t.futs ensures OutcomeOk(es + [e], t, q) {
      assert OutcomeOk(es, s, q);
      if t.futs[q].complete && t.futs[q].outcome.Some? { ReceivedMore(es, e, q, t.futs[q].outcome.value); }
    }
  }

  lemma {:induction false} RunSources(es: seq<(Event, nat)>)
    ensures Sources(es, Run(es))
    decreases |es|
  {
    if es != [] {
      var before, e := es[..|es| - 1], es[|es| - 1];
      var s := Run(before);
      RunSources(before);
      assert es == before + [e];
      hide Sources, SenderStep, SweepStep, DoneStep, CallerStep;
      SweepSources(before, e, s);
      if !e.0.Shutdown? {
        SenderSources(before, e, s);
        DoneSources(before, e, s);
        CallerSources(before, e, s);
      }
    }
  }

  /**
   In every run a complete future has the reply of one of the run's replies to it, or the error of the run's
   first shutdown; without a reply it has the latter.
   */
  lemma OutcomeIsFrom(es: seq<(Event, nat)>, q: nat)
    requires q in Run(es).futs && Run(es).futs[q].complete
    ensures Run(es).futs[q].outcome.Some?
    ensures var out := Run(es).futs[q].outcome.value;
            || (exists j :: 0 <= j < |es| && es[j].0 == Receive(q, out))
            || exists j :: 0 <= j < |es| && es[j].0.Shutdown? && out == Error(es[j].0.err) && forall i :: 0 <= i < j ==> !es[i].0.Shutdown?
  {
    RunSources(es);
    var s := Run(es);
    assert OutcomeOk(es, s, q);
    if !Received(es, q, s.futs[q].outcome.value) {
      var j: nat :| FirstAt(es, s.shutdownErr, j);
      assert es[j].0.Shutdown? && s.futs[q].outcome.value == Error(es[j].0.err);
    }
  }

  /** What a future was completed with is final. */
  lemma OutcomeIsFinal(es: seq<(Event, nat)>, e: Event, pick: nat, q: nat)
    requires q in Run(es).futs && Run(es).futs[q].complete
    ensures var t := Run(es + [(e, pick)]); q in t.futs && t.futs[q].complete && t.futs[q].outcome == Run(es).futs[q].outcome
  {
    RunSound(es);
    assert (es + [(e, pick)])[..|es|] == es;
    StepKeepsOutcome(Run(es), e, pick, q);
  }

  lemma StepKeepsOutcome(s: Client, e: Event, pick: nat, q: nat)
    requires Sound(s) && q in s.futs && s.futs[q].complete
    ensures var t := Step(s, e, pick); q in t.futs && t.futs[q].complete && t.futs[q].outcome == s.futs[q].outcome
  {
    hide Sound, SenderStep, SweepStep, DoneStep, CallerStep;
    SenderKeeps(s, e, q);
    SweepKeeps(s, e);
    DoneKeeps(s, e, q);
    CallerKeeps(s, e, pick, q);
  }

  lemma SenderKeeps(s: Client, e: Event, q: nat)
    requires Sound(s) && q in s.futs
    ensures q in SenderStep(s, e).futs && SenderStep(s, e).futs[q] == s.futs[q]
  {
    hide SendOk;
  }

  lemma SweepKeeps(s: Client, e: Event)
    ensures SweepStep(s, e).futs == s.futs
  {
  }

  lemma DoneKeeps(s: Client, e: Event, q: nat)
    requires q in s.futs && s.futs[q].complete
    ensures var t := DoneStep(s, e); q in t.futs && t.futs[q].complete && t.futs[q].outcome == s.futs[q].outcome
  {
  }

  lemma CallerKeeps(s: Client, e: Event, pick: nat, q: nat)
    requires q in s.futs && s.futs[q].complete
    ensures var t := CallerStep(s, e, pick); q in t.futs && t.futs[q].complete && t.futs[q].outcome == s.futs[q].outcome
  {
  }
}
