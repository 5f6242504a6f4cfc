/**
  The handoff between the reading thread (src/threads/thread_readstream.c, the loop) and the
  dispatching thread (src/xmpp/get/xmpp_starttls.c, called when the server offers TLS and when it
  answers): one mutex, one condition variable, and the session state.

  One step is one statement of one thread, a message sent by the server, or a spurious wake-up. An
  assignment to the state and the signal behind it, both under the mutex, are one step. The server
  answers `proceed` only to a `starttls` it has received; otherwise it sends what it likes.
 */
module StartTls {
  import opened CStrings

  datatype Session = DEAD | INIT | POLL | TLS_INIT | RUN

  /** The messages that matter here; everything else is handled without touching the handoff. */
  datatype Msg = Features | Proceed | Other

  datatype Thread = Reader | Dispatcher

  /** Where the reader stands: the statement it is about to execute. */
  datatype RPc =
    | RLoop | RBranch
    | RLock1 | RCheck | RWaiting | RWoken | RPoll | RUnlock1
    | RRead | RLock2 | RBack | RUnlock2
    | RReadFree
    | RPost | RExit

  /** Where the dispatcher stands; DTls is tls_init at work, DAbort a failed assertion. */
  datatype DPc =
    | DIdle
    | DRegister | DLock1 | DCheck | DWaiting | DWoken | DSetTls | DUnlock1 | DSend
    | DLockCb | DAssert | DTls | DStream | DSetRun | DUnlockCb
    | DAbort | DExit

  /** `rmsg` is the message the reader holds after a read. */
  datatype Threads = Threads(rpc: RPc, rmsg: Msg, dpc: DPc, owner: Option<Thread>, state: Session)

  /** The handlers of the query table, the receive queue, what is on its way, and what the server got. */
  datatype Mail = Mail(wire: seq<Msg>, inbox: seq<Msg>, featuresArmed: bool, proceedArmed: bool,
                       starttls: nat, proceeds: nat)

  /**
    What happened, not in the program: how often the state became TLS_INIT, how often it left it, and
    since it last became TLS_INIT how many messages were read and which was the last.
   */
  datatype Log = Log(started: nat, done: nat, readCount: nat, lastRead: Msg)

  datatype State = State(th: Threads, mail: Mail, log: Log)

  datatype Action = Server(m: Msg) | Read | Dispatch(tlsOk: bool) | Spurious(t: Thread)

  const RECV_MSG_MAX: nat := 16

  function Init(): State
  {
    State(Threads(RLoop, Other, DIdle, None, INIT), Mail([], [], true, false, 0, 0), Log(0, 0, 0, Other))
  }

  /** pthread_cond_signal: one waiting thread, if any, is woken; at most one ever waits (see below). */
  function Signal(th: Threads): Threads
  {
    if th.rpc == RWaiting then th.(rpc := RWoken)
    else if th.dpc == DWaiting then th.(dpc := DWoken)
    else th
  }

  /** What the server may send. */
  function ServerSends(s: State, m: Msg): Option<State>
  {
    if m == Proceed && s.mail.proceeds >= s.mail.starttls then None
    else
      Some(s.(mail := s.mail.(wire := s.mail.wire + [m],
                              proceeds := s.mail.proceeds + (if m == Proceed then 1 else 0))))
  }

  /** A read takes the oldest message off the wire. */
  function Taken(s: State, next: RPc): Option<State>
  {
    if s.mail.wire == [] then None
    else
      var m := s.mail.wire[0];
      Some(State(s.th.(rpc := next, rmsg := m), s.mail.(wire := s.mail.wire[1..]),
                 s.log.(readCount := s.log.readCount + 1, lastRead := m)))
  }

  /** The next step of the reader on its own variables and the shared ones; None if it blocks. */
  function ReaderStep(th: Threads): Option<Threads>
  {
    match th.rpc
    case RLoop => Some(th.(rpc := if th.state == DEAD then RExit else RBranch))
    case RBranch => Some(th.(rpc := if th.state != RUN then RLock1 else RReadFree))
    case RLock1 => if th.owner.Some? then None else Some(th.(rpc := RCheck, owner := Some(Reader)))
    case RCheck =>
      if th.state == TLS_INIT then Some(th.(rpc := RWaiting, owner := None)) else Some(th.(rpc := RPoll))
    case RWaiting => None
    case RWoken => if th.owner.Some? then None else Some(th.(rpc := RCheck, owner := Some(Reader)))
    case RPoll =>
      var next := th.(rpc := RUnlock1);
      Some(if th.state == INIT then Signal(next.(state := POLL)) else next)
    case RUnlock1 => Some(th.(rpc := RRead, owner := None))
    case RLock2 => if th.owner.Some? then None else Some(th.(rpc := RBack, owner := Some(Reader)))
    case RBack =>
      var next := th.(rpc := RUnlock2);
      Some(if th.state == POLL then Signal(next.(state := INIT)) else next)
    case RUnlock2 => Some(th.(rpc := RPost, owner := None))
    case _ => None
  }

  function StepReader(s: State): Option<State>
  {
    match s.th.rpc
    case RRead => Taken(s, RLock2)
    case RReadFree => Taken(s, RPost)
    case RPost =>
      if |s.mail.inbox| >= RECV_MSG_MAX then None
      else Some(s.(th := s.th.(rpc := RLoop), mail := s.mail.(inbox := s.mail.inbox + [s.th.rmsg])))
    case _ =>
      match ReaderStep(s.th)
      case None => None
      case Some(th) => Some(s.(th := th))
  }

  /** The dispatcher takes a message and calls the handler that waits for it; both are one-shot. */
  function Dispatched(s: State): Option<State>
  {
    if s.th.state == DEAD then Some(s.(th := s.th.(dpc := DExit)))
    else if s.mail.inbox == [] then None
    else
      var m := s.mail.inbox[0];
      var mail := s.mail.(inbox := s.mail.inbox[1..]);
      if m == Features && mail.featuresArmed then
        Some(s.(th := s.th.(dpc := DRegister), mail := mail.(featuresArmed := false)))
      else if m == Proceed && mail.proceedArmed then
        Some(s.(th := s.th.(dpc := DLockCb), mail := mail.(proceedArmed := false)))
      else Some(s.(mail := mail))
  }

  function StepDispatcher(s: State, tlsOk: bool): Option<State>
  {
    var th := s.th;
    match th.dpc
    case DIdle => Dispatched(s)
    case DRegister => Some(s.(th := th.(dpc := DLock1), mail := s.mail.(proceedArmed := true)))
    case DLock1 => if th.owner.Some? then None else Some(s.(th := th.(dpc := DCheck, owner := Some(Dispatcher))))
    case DCheck =>
      if th.state == INIT then Some(s.(th := th.(dpc := DWaiting, owner := None)))
      else Some(s.(th := th.(dpc := DSetTls)))
    case DWaiting => None
    case DWoken => if th.owner.Some? then None else Some(s.(th := th.(dpc := DCheck, owner := Some(Dispatcher))))
    case DSetTls =>
      Some(s.(th := Signal(th.(dpc := DUnlock1, state := TLS_INIT)),
              log := s.log.(started := s.log.started + 1, readCount := 0, lastRead := Other)))
    case DUnlock1 => Some(s.(th := th.(dpc := DSend, owner := None)))
    case DSend => Some(s.(th := th.(dpc := DIdle), mail := s.mail.(starttls := s.mail.starttls + 1)))
    case DLockCb => if th.owner.Some? then None else Some(s.(th := th.(dpc := DAssert, owner := Some(Dispatcher))))
    case DAssert => Some(s.(th := th.(dpc := if th.state == TLS_INIT then DTls else DAbort)))
    case DTls =>
      if tlsOk then Some(s.(th := th.(dpc := DStream)))
      else Some(s.(th := Signal(th.(dpc := DUnlockCb, state := DEAD)), log := s.log.(done := s.log.done + 1)))
    case DStream => Some(s.(th := th.(dpc := DSetRun), mail := s.mail.(featuresArmed := true)))
    case DSetRun => Some(s.(th := Signal(th.(dpc := DUnlockCb, state := RUN)), log := s.log.(done := s.log.done + 1)))
    case DUnlockCb => Some(s.(th := th.(dpc := DIdle, owner := None)))
    case DAbort => None
    case DExit => None
  }

  function Spuriously(s: State, t: Thread): Option<State>
  {
    if t == Reader && s.th.rpc == RWaiting then Some(s.(th := s.th.(rpc := RWoken)))
    else if t == Dispatcher && s.th.dpc == DWaiting then Some(s.(th := s.th.(dpc := DWoken)))
    else None
  }

  function Step(s: State, a: Action): Option<State>
  {
    match a
    case Server(m) => ServerSends(s, m)
    case Read => StepReader(s)
    case Dispatch(ok) => StepDispatcher(s, ok)
    case Spurious(t) => Spuriously(s, t)
  }

  /** Any interleaving; a step that blocks does not happen. */
  function Run(s: State, actions: seq<Action>): State
    decreases |actions|
  {
    if actions == [] then s
    else match Step(s, actions[0])
      case None => Run(s, actions[1..])
      case Some(s') => Run(s', actions[1..])
  }

  // ---------------------------------------------------------------------------------------------
  // The invariant
  // ---------------------------------------------------------------------------------------------

  predicate RInside(pc: RPc) { pc == RCheck || pc == RPoll || pc == RUnlock1 || pc == RBack || pc == RUnlock2 }

  predicate DInside(pc: DPc)
  {
    pc == DCheck || pc == DSetTls || pc == DUnlock1
    || pc == DAssert || pc == DTls || pc == DStream || pc == DSetRun || pc == DUnlockCb || pc == DAbort
  }

  /** Inside stream_read. */
  predicate Reading(pc: RPc) { pc == RRead || pc == RReadFree }

  /** Inside stream_read or sure to enter it next. */
  predicate Committed(pc: RPc) { pc == RPoll || pc == RUnlock1 || Reading(pc) }

  /** In xmpp_starttls before the state is set. */
  predicate Offering(pc: DPc)
  {
    pc == DRegister || pc == DLock1 || pc == DCheck || pc == DWaiting || pc == DWoken || pc == DSetTls
  }

  /** In the callback of `proceed`, before the state is set. */
  predicate Answering(pc: DPc)
  {
    pc == DLockCb || pc == DAssert || pc == DTls || pc == DStream || pc == DSetRun
  }

  function Bit(b: bool): nat { if b then 1 else 0 }

  predicate Mutex(th: Threads)
  {
    (RInside(th.rpc) <==> th.owner == Some(Reader)) && (DInside(th.dpc) <==> th.owner == Some(Dispatcher))
  }

  /** A waiting thread waits for something that is still to happen, and what was tested stays true. */
  predicate Tested(th: Threads)
  {
    && (th.rpc == RWaiting ==> th.state == TLS_INIT)
    && (th.dpc == DWaiting ==> th.state == INIT)
    && (th.rpc == RPoll || th.rpc == RUnlock1 ==> th.state != TLS_INIT)
    && (th.rpc == RUnlock1 || th.rpc == RRead || th.rpc == RLock2 || th.rpc == RBack ==> th.state != INIT)
    && (th.rpc == RReadFree ==> th.state == RUN || th.state == TLS_INIT || th.state == DEAD)
    && (th.dpc == DSetTls ==> th.state != INIT)
    && (Offering(th.dpc) ==> th.state != TLS_INIT)
    && (th.dpc == DUnlock1 || th.dpc == DSend || Answering(th.dpc) ==> th.state == TLS_INIT)
    && (th.state == DEAD ==> th.dpc == DUnlockCb || th.dpc == DIdle || th.dpc == DExit)
    && (th.rpc == RExit || th.dpc == DExit ==> th.state == DEAD)
    && th.dpc != DAbort
  }

  /** The message the reader has taken off the wire and not posted yet. */
  predicate InHand(pc: RPc) { pc == RLock2 || pc == RBack || pc == RUnlock2 || pc == RPost }

  /** `proceed` messages that were read and whose callback has not finished. */
  function Arrived(th: Threads, inbox: seq<Msg>): nat
  {
    Bit(InHand(th.rpc) && th.rmsg == Proceed) + multiset(inbox)[Proceed] + Bit(Answering(th.dpc))
  }

  /** Every `proceed` was asked for, and one is asked for at a time. */
  predicate Counts(s: State)
  {
    && s.log.started == s.log.done + Bit(s.th.state == TLS_INIT)
    && s.mail.starttls + Bit(s.th.dpc == DUnlock1 || s.th.dpc == DSend) == s.log.started
    && s.mail.proceeds <= s.mail.starttls
    && multiset(s.mail.wire)[Proceed] + Arrived(s.th, s.mail.inbox) + s.log.done == s.mail.proceeds
  }

  predicate Armed(s: State)
  {
    && (Offering(s.th.dpc) ==> !s.mail.featuresArmed)
    && (s.th.state == TLS_INIT && s.th.dpc != DSetRun ==> !s.mail.featuresArmed)
    && (s.th.state == TLS_INIT && !Answering(s.th.dpc) ==> s.mail.proceedArmed)
    && (Offering(s.th.dpc) && s.th.dpc != DRegister ==> s.mail.proceedArmed)
  }

  /** While the state is TLS_INIT at most one message is read, and only that one can be the answer. */
  predicate OneRead(s: State)
  {
    s.th.state == TLS_INIT ==>
      && s.log.readCount + Bit(Committed(s.th.rpc)) <= 1
      && (Arrived(s.th, s.mail.inbox) > 0 <==> s.log.readCount == 1 && s.log.lastRead == Proceed)
  }

  predicate Inv(s: State)
  {
    Mutex(s.th) && Tested(s.th) && Counts(s) && Armed(s) && OneRead(s)
  }

  lemma InitInv()
    ensures Inv(Init())
  {
  }

  // ---------------------------------------------------------------------------------------------
  // Every step keeps the invariant
  // ---------------------------------------------------------------------------------------------

  lemma HeadAndTail(ms: seq<Msg>)
    requires ms != []
    ensures multiset(ms)[Proceed] == Bit(ms[0] == Proceed) + multiset(ms[1..])[Proceed]
  {
    assert ms == [ms[0]] + ms[1..];
  }

  lemma OneMore(ms: seq<Msg>, m: Msg)
    ensures multiset(ms + [m])[Proceed] == multiset(ms)[Proceed] + Bit(m == Proceed)
  {
  }

  lemma ServerKeeps(s: State, m: Msg)
    requires Inv(s) && ServerSends(s, m).Some?
    ensures Inv(ServerSends(s, m).value)
  {
    OneMore(s.mail.wire, m);
  }

  lemma TakenKeepsThreads(s: State)
    requires Mutex(s.th) && Tested(s.th) && Reading(s.th.rpc) && StepReader(s).Some?
    ensures var s' := StepReader(s).value;
      Mutex(s'.th) && Tested(s'.th) && s'.th.state == s.th.state && s'.th.dpc == s.th.dpc && InHand(s'.th.rpc)
  {
  }

  lemma TakenKeeps(s: State)
    requires Inv(s) && Reading(s.th.rpc) && StepReader(s).Some?
    ensures Inv(StepReader(s).value)
  {
    HeadAndTail(s.mail.wire);
    TakenKeepsThreads(s);
  }

  lemma PostKeeps(s: State)
    requires Inv(s) && s.th.rpc == RPost && StepReader(s).Some?
    ensures Inv(StepReader(s).value)
  {
    OneMore(s.mail.inbox, s.th.rmsg);
    var s' := StepReader(s).value;
    assert Arrived(s'.th, s'.mail.inbox) == Arrived(s.th, s.mail.inbox);
  }

  lemma ReaderThreads(th: Threads)
    requires Mutex(th) && Tested(th) && ReaderStep(th).Some?
    ensures var th' := ReaderStep(th).value; Mutex(th') && Tested(th')
  {
  }

  /** The reader's own steps: they neither make nor end TLS_INIT, and in it start no read. */
  lemma ReaderFrame(th: Threads)
    requires Tested(th) && ReaderStep(th).Some?
    ensures var th' := ReaderStep(th).value;
      && (th'.state == TLS_INIT <==> th.state == TLS_INIT)
      && (th'.dpc == th.dpc || (th.state == INIT && th.dpc == DWaiting && th'.dpc == DWoken))
      && th'.rmsg == th.rmsg && InHand(th'.rpc) == InHand(th.rpc)
      && (th.state == TLS_INIT && Committed(th'.rpc) ==> Committed(th.rpc))
  {
  }

  lemma ReaderOwnKeeps(s: State)
    requires Inv(s) && !Reading(s.th.rpc) && s.th.rpc != RPost && ReaderStep(s.th).Some?
    ensures Inv(s.(th := ReaderStep(s.th).value))
  {
    ReaderThreads(s.th);
    ReaderFrame(s.th);
  }

  lemma ReaderKeeps(s: State)
    requires Inv(s) && StepReader(s).Some?
    ensures Inv(StepReader(s).value)
  {
    if Reading(s.th.rpc) {
      TakenKeeps(s);
    } else if s.th.rpc == RPost {
      PostKeeps(s);
    } else {
      ReaderOwnKeeps(s);
    }
  }

  lemma HandledKeeps(s: State)
    requires Inv(s) && s.th.dpc == DIdle && s.th.state != DEAD && s.mail.inbox != []
    ensures Inv(Dispatched(s).value)
  {
    HeadAndTail(s.mail.inbox);
    assert s.mail.inbox[0] == Proceed ==> s.th.state == TLS_INIT;
  }

  lemma DispatchedKeeps(s: State)
    requires Inv(s) && s.th.dpc == DIdle && Dispatched(s).Some?
    ensures Inv(Dispatched(s).value)
  {
    if s.th.state != DEAD {
      HandledKeeps(s);
    } else {
      ExitKeeps(s);
    }
  }

  lemma ExitKeeps(s: State)
    requires Inv(s) && s.th.dpc == DIdle && s.th.state == DEAD
    ensures Inv(s.(th := s.th.(dpc := DExit)))
  {
  }

  lemma OfferKeeps(s: State, ok: bool)
    requires Inv(s) && Offering(s.th.dpc) && s.th.dpc != DSetTls && StepDispatcher(s, ok).Some?
    ensures Inv(StepDispatcher(s, ok).value)
  {
  }

  /** The state becomes TLS_INIT: nothing has been asked for, so no answer is anywhere. */
  lemma SetTlsKeeps(s: State, ok: bool)
    requires Inv(s) && s.th.dpc == DSetTls
    ensures Inv(StepDispatcher(s, ok).value)
  {
    assert Arrived(s.th, s.mail.inbox) == 0;
  }

  lemma SentKeeps(s: State, ok: bool)
    requires Inv(s) && (s.th.dpc == DUnlock1 || s.th.dpc == DSend)
    ensures Inv(StepDispatcher(s, ok).value)
  {
  }

  lemma AnswerKeeps(s: State, ok: bool)
    requires Inv(s) && (s.th.dpc == DLockCb || s.th.dpc == DAssert)
    requires StepDispatcher(s, ok).Some?
    ensures Inv(StepDispatcher(s, ok).value)
  {
  }

  lemma LeaveKeeps(s: State, ok: bool)
    requires Inv(s) && (s.th.dpc == DStream || s.th.dpc == DUnlockCb)
    ensures Inv(StepDispatcher(s, ok).value)
  {
  }

  lemma FinishKeeps(s: State, ok: bool)
    requires Inv(s) && (s.th.dpc == DTls || s.th.dpc == DSetRun)
    ensures Inv(StepDispatcher(s, ok).value)
  {
  }

  lemma DispatcherKeeps(s: State, ok: bool)
    requires Inv(s) && StepDispatcher(s, ok).Some?
    ensures Inv(StepDispatcher(s, ok).value)
  {
    match s.th.dpc {
      case DIdle => DispatchedKeeps(s);
      case DUnlock1 => SentKeeps(s, ok);
      case DSend => SentKeeps(s, ok);
      case DSetTls => SetTlsKeeps(s, ok);
      case DTls => FinishKeeps(s, ok);
      case DSetRun => FinishKeeps(s, ok);
      case DRegister => OfferKeeps(s, ok);
      case DLock1 => OfferKeeps(s, ok);
      case DCheck => OfferKeeps(s, ok);
      case DWoken => OfferKeeps(s, ok);
      case DStream => LeaveKeeps(s, ok);
      case DUnlockCb => LeaveKeeps(s, ok);
      case _ => AnswerKeeps(s, ok);
    }
  }

  lemma SpuriousKeeps(s: State, t: Thread)
    requires Inv(s) && Spuriously(s, t).Some?
    ensures Inv(Spuriously(s, t).value)
  {
  }

  lemma StepKeeps(s: State, a: Action)
    requires Inv(s) && Step(s, a).Some?
    ensures Inv(Step(s, a).value)
  {
    match a {
      case Server(m) => ServerKeeps(s, m);
      case Read => ReaderKeeps(s);
      case Dispatch(ok) => DispatcherKeeps(s, ok);
      case Spurious(t) => SpuriousKeeps(s, t);
    }
  }

  lemma {:induction false} RunKeeps(s: State, actions: seq<Action>)
    requires Inv(s)
    ensures Inv(Run(s, actions))
    decreases |actions|
  {
    if actions != [] {
      match Step(s, actions[0]) {
        case None => RunKeeps(s, actions[1..]);
        case Some(s') =>
          StepKeeps(s, actions[0]);
          RunKeeps(s', actions[1..]);
      }
    }
  }

  // ---------------------------------------------------------------------------------------------
  // Safety over all runs
  // ---------------------------------------------------------------------------------------------

  /**
    While tls_init is at work the state is TLS_INIT, and the reader is neither inside stream_read nor
    on a path that enters it; the assertion before it never fails.
   */
  lemma TlsInitAlone(actions: seq<Action>)
    ensures var th := Run(Init(), actions).th;
      && th.dpc != DAbort
      && (th.dpc == DTls ==> th.state == TLS_INIT && !Committed(th.rpc))
  {
    InitInv();
    RunKeeps(Init(), actions);
  }

  /** From the moment the state is TLS_INIT until it is RUN or DEAD, at most one message is read. */
  lemma OneReadPerHandoff(actions: seq<Action>)
    ensures var s := Run(Init(), actions);
      s.th.state == TLS_INIT ==> s.log.readCount + Bit(Reading(s.th.rpc)) <= 1
  {
    InitInv();
    RunKeeps(Init(), actions);
  }

  lemma ReaderStartsNoRead(s: State)
    requires Inv(s) && s.th.state == TLS_INIT && !Committed(s.th.rpc) && StepReader(s).Some?
    ensures var s' := StepReader(s).value; !Committed(s'.th.rpc) && s'.th.state == TLS_INIT && s'.th.dpc == s.th.dpc
  {
    if s.th.rpc != RPost {
      ReaderFrame(s.th);
    }
  }

  /**
    In every run, a reader that is not on its way into a read starts none while the state is TLS_INIT,
    and only the end of the callback changes the state.
   */
  lemma NoNewRead(actions: seq<Action>, a: Action)
    requires var s := Run(Init(), actions);
      s.th.state == TLS_INIT && !Committed(s.th.rpc) && Step(s, a).Some?
    ensures var s := Run(Init(), actions);
      var s' := Step(s, a).value;
      !Committed(s'.th.rpc) && (s'.th.state != TLS_INIT ==> s.th.dpc == DTls || s.th.dpc == DSetRun)
  {
    InitInv();
    RunKeeps(Init(), actions);
    if a.Read? {
      ReaderStartsNoRead(Run(Init(), actions));
    }
  }

  /** The two threads never wait for each other, and what a waiting thread waits for has not happened. */
  lemma NeverBothWait(actions: seq<Action>)
    ensures var th := Run(Init(), actions).th;
      && (th.rpc == RWaiting ==> th.state == TLS_INIT)
      && (th.dpc == DWaiting ==> th.state == INIT)
      && !(th.rpc == RWaiting && th.dpc == DWaiting)
  {
    InitInv();
    RunKeeps(Init(), actions);
  }

  // ---------------------------------------------------------------------------------------------
  // When the handoff goes on
  // ---------------------------------------------------------------------------------------------

  /** No read is under way or due, and the answer has not been read. */
  predicate Missed(s: State)
  {
    s.th.state == TLS_INIT && !Committed(s.th.rpc) && Arrived(s.th, s.mail.inbox) == 0
  }

  /** What missing means in every run: the reader reads no more, and `proceed` is not the one message it read. */
  lemma MissedMeans(actions: seq<Action>)
    ensures var s := Run(Init(), actions);
      s.th.state == TLS_INIT ==>
        (Missed(s) <==> !Committed(s.th.rpc) && !(s.log.readCount == 1 && s.log.lastRead == Proceed))
  {
    InitInv();
    RunKeeps(Init(), actions);
  }

  /** The step to TLS_INIT decides first: it is a miss unless the reader is inside a read at that moment. */
  lemma SetTlsDecides(actions: seq<Action>, ok: bool)
    requires Run(Init(), actions).th.dpc == DSetTls
    ensures var s := Run(Init(), actions);
      Missed(StepDispatcher(s, ok).value) <==> !Reading(s.th.rpc)
  {
    InitInv();
    RunKeeps(Init(), actions);
    SetTlsKeeps(Run(Init(), actions), ok);
  }

  // ---- the ordinary case

  /** The state is POLL only from the start of a read to the step that takes it back to INIT. */
  predicate Polls(th: Threads)
  {
    th.state == POLL ==> th.rpc == RUnlock1 || th.rpc == RRead || th.rpc == RLock2 || th.rpc == RBack
  }

  lemma PollsReader(th: Threads)
    requires Polls(th) && ReaderStep(th).Some?
    ensures Polls(ReaderStep(th).value)
  {
  }

  lemma PollsStep(s: State, a: Action)
    requires Inv(s) && Polls(s.th) && Step(s, a).Some?
    ensures Polls(Step(s, a).value.th)
  {
    if a.Read? && !Reading(s.th.rpc) && s.th.rpc != RPost {
      PollsReader(s.th);
    }
  }

  lemma {:induction false} RunPolls(s: State, actions: seq<Action>)
    requires Inv(s) && Polls(s.th)
    ensures Polls(Run(s, actions).th)
    decreases |actions|
  {
    if actions != [] {
      match Step(s, actions[0]) {
        case None => RunPolls(s, actions[1..]);
        case Some(s') =>
          StepKeeps(s, actions[0]);
          PollsStep(s, actions[0]);
          RunPolls(s', actions[1..]);
      }
    }
  }

  /** Every message but those the dispatcher has taken. */
  function Around(s: State): nat { |s.mail.wire| + |s.mail.inbox| + Bit(InHand(s.th.rpc)) }

  /** The step to TLS_INIT of a session that was not encrypted before, with no message behind the offer. */
  lemma NothingBehind(actions: seq<Action>, ok: bool)
    requires var s := Run(Init(), actions); s.th.dpc == DSetTls && s.th.state != RUN && Around(s) == 0
    ensures var s := Run(Init(), actions);
      !Missed(StepDispatcher(s, ok).value) && Hopeful(StepDispatcher(s, ok).value)
  {
    InitInv();
    RunKeeps(Init(), actions);
    RunPolls(Init(), actions);
    SetTlsKeeps(Run(Init(), actions), ok);
  }

  /** How many messages the server sends in a run. */
  function SentIn(s: State, actions: seq<Action>): nat
    decreases |actions|
  {
    if actions == [] then 0
    else match Step(s, actions[0])
      case None => SentIn(s, actions[1..])
      case Some(s') => Bit(actions[0].Server?) + SentIn(s', actions[1..])
  }

  /** Only the server's own steps count. */
  lemma OnlyServerSends(s: State, actions: seq<Action>, m: Msg)
    requires m != Proceed && forall i :: 0 <= i < |actions| ==> !actions[i].Server?
    ensures SentIn(s, actions) == 0 && SentIn(s, [Server(m)] + actions) == 1
  {
    QuietSends(s, actions);
    QuietSends(Step(s, Server(m)).value, actions);
    assert ([Server(m)] + actions)[1..] == actions;
  }

  lemma {:induction false} QuietSends(s: State, actions: seq<Action>)
    requires forall i :: 0 <= i < |actions| ==> !actions[i].Server?
    ensures SentIn(s, actions) == 0
    decreases |actions|
  {
    if actions != [] {
      match Step(s, actions[0]) {
        case None => QuietSends(s, actions[1..]);
        case Some(s') => QuietSends(s', actions[1..]);
      }
    }
  }

  /** All that is around was sent, and so was the offer when its handler has been called. */
  predicate Accounted(s: State, sent: nat) { Around(s) + Bit(!s.mail.featuresArmed) <= sent }

  lemma AccountedStep(s: State, a: Action, sent: nat)
    requires Accounted(s, sent) && Step(s, a).Some?
    ensures Accounted(Step(s, a).value, sent + Bit(a.Server?))
  {
  }

  lemma {:induction false} RunAccounted(s: State, actions: seq<Action>, sent: nat)
    requires Accounted(s, sent)
    ensures Accounted(Run(s, actions), sent + SentIn(s, actions))
    decreases |actions|
  {
    if actions != [] {
      match Step(s, actions[0]) {
        case None => RunAccounted(s, actions[1..], sent);
        case Some(s') =>
          AccountedStep(s, actions[0], sent);
          RunAccounted(s', actions[1..], sent + Bit(actions[0].Server?));
      }
    }
  }

  /** In every run in which the server sends its offer and waits, the step to TLS_INIT is not a miss. */
  lemma OfferAlone(actions: seq<Action>, ok: bool)
    requires var s := Run(Init(), actions); s.th.dpc == DSetTls && s.th.state != RUN
    requires SentIn(Init(), actions) == 1
    ensures var s := Run(Init(), actions);
      !Missed(StepDispatcher(s, ok).value) && Hopeful(StepDispatcher(s, ok).value)
  {
    InitInv();
    RunKeeps(Init(), actions);
    RunAccounted(Init(), actions, 0);
    NothingBehind(actions, ok);
  }

  /** Then the read that is under way decides: anything but `proceed` makes it a miss. */
  lemma ReadDecides(actions: seq<Action>)
    requires var s := Run(Init(), actions);
      s.th.state == TLS_INIT && Reading(s.th.rpc) && s.mail.wire != []
    ensures var s := Run(Init(), actions);
      StepReader(s).Some? && (Missed(StepReader(s).value) <==> s.mail.wire[0] != Proceed)
  {
    InitInv();
    RunKeeps(Init(), actions);
    ReadMisses(Run(Init(), actions));
  }

  lemma ReadMisses(s: State)
    requires Inv(s) && s.th.state == TLS_INIT && Reading(s.th.rpc) && s.mail.wire != []
    ensures StepReader(s).Some? && (Missed(StepReader(s).value) <==> s.mail.wire[0] != Proceed)
  {
    TakenKeeps(s);
    TakenKeepsThreads(s);
  }

  // ---- no way on

  /** The answer has not been read, and no read is left or the one that is left brings something else. */
  predicate Doomed(s: State)
  {
    && s.th.state == TLS_INIT && Arrived(s.th, s.mail.inbox) == 0
    && (!Committed(s.th.rpc) || (s.mail.wire != [] && s.mail.wire[0] != Proceed))
  }

  lemma DoomedReader(s: State)
    requires Inv(s) && Doomed(s) && StepReader(s).Some?
    ensures Doomed(StepReader(s).value)
  {
    if Reading(s.th.rpc) {
      ReadMisses(s);
    } else if s.th.rpc == RPost {
      OneMore(s.mail.inbox, s.th.rmsg);
    } else {
      ReaderFrame(s.th);
    }
  }

  lemma DoomedDispatcher(s: State, ok: bool)
    requires Inv(s) && Doomed(s) && StepDispatcher(s, ok).Some?
    ensures Doomed(StepDispatcher(s, ok).value)
  {
    if s.th.dpc == DIdle {
      HeadAndTail(s.mail.inbox);
    }
  }

  lemma DoomedStays(s: State, a: Action)
    requires Inv(s) && Doomed(s) && Step(s, a).Some?
    ensures Doomed(Step(s, a).value)
  {
    match a {
      case Read => DoomedReader(s);
      case Dispatch(ok) => DoomedDispatcher(s, ok);
      case _ =>
    }
  }

  lemma {:induction false} DoomedForever(s: State, actions: seq<Action>)
    requires Inv(s) && Doomed(s)
    ensures Doomed(Run(s, actions))
    decreases |actions|
  {
    if actions != [] {
      match Step(s, actions[0]) {
        case None => DoomedForever(s, actions[1..]);
        case Some(s') =>
          StepKeeps(s, actions[0]);
          DoomedStays(s, actions[0]);
          DoomedForever(s', actions[1..]);
      }
    }
  }

  /** A missed answer is missed for good: in no continuation of a run does the state ever leave TLS_INIT. */
  lemma HandoffHangs(actions: seq<Action>, more: seq<Action>)
    requires Missed(Run(Init(), actions))
    ensures Run(Run(Init(), actions), more).th.state == TLS_INIT
  {
    InitInv();
    RunKeeps(Init(), actions);
    DoomedForever(Run(Init(), actions), more);
  }

  // ---- a way on

  /** The answer is the one message read, or the read that is left can bring it. */
  predicate Hopeful(s: State)
  {
    && s.th.state == TLS_INIT
    && ((s.log.readCount == 1 && s.log.lastRead == Proceed)
        || (Committed(s.th.rpc) && (s.mail.wire == [] || s.mail.wire[0] == Proceed)))
  }

  /** How far the answer is: to be sent, on the wire, or read. */
  function Stage(s: State): nat
  {
    if Arrived(s.th, s.mail.inbox) > 0 then 0 else if s.mail.wire == [] then 2 else 1
  }

  function Unhandled(s: State): nat { |s.mail.inbox| + 2 * Bit(InHand(s.th.rpc)) }

  function ReaderSteps(pc: RPc): nat
  {
    match pc
    case RLock2 => 4
    case RBack => 3
    case RUnlock2 => 2
    case RPost => 1
    case RCheck => 1
    case _ => 0
  }

  function DispatcherSteps(pc: DPc): nat
  {
    match pc
    case DUnlock1 => 2
    case DSend => 1
    case DLockCb => 5
    case DAssert => 4
    case DTls => 3
    case DStream => 2
    case DSetRun => 1
    case DUnlockCb => 1
    case _ => 0
  }

  function StepsLeft(th: Threads): nat { ReaderSteps(th.rpc) + DispatcherSteps(th.dpc) }

  /** One step nearer, or there. */
  predicate Nearer(s: State, s': State)
  {
    || s'.th.state == RUN
    || (Hopeful(s') &&
        (Stage(s') < Stage(s) ||
         (Stage(s') == Stage(s) &&
          (Unhandled(s') < Unhandled(s) || (Unhandled(s') == Unhandled(s) && StepsLeft(s'.th) < StepsLeft(s.th))))))
  }

  /** The reader gives the mutex back. */
  lemma ReaderLetsGo(s: State)
    requires Inv(s) && Hopeful(s) && s.th.owner == Some(Reader)
    ensures StepReader(s).Some? && Nearer(s, StepReader(s).value)
  {
    assert RInside(s.th.rpc);
  }

  lemma OwnerIs(th: Threads)
    ensures th.owner == None || th.owner == Some(Reader) || th.owner == Some(Dispatcher)
  {
    if th.owner.Some? {
      match th.owner.value {
        case Reader =>
        case Dispatcher =>
      }
    }
  }

  lemma AnswerHelps(s: State)
    requires Inv(s) && Hopeful(s) && s.th.owner != Some(Reader) && Answering(s.th.dpc)
    ensures StepDispatcher(s, true).Some? && Nearer(s, StepDispatcher(s, true).value)
  {
    OwnerIs(s.th);
  }

  lemma SendHelps(s: State)
    requires Inv(s) && Hopeful(s) && (s.th.dpc == DUnlock1 || s.th.dpc == DSend || s.th.dpc == DUnlockCb)
    ensures StepDispatcher(s, true).Some? && Nearer(s, StepDispatcher(s, true).value)
  {
  }

  /** The dispatcher finishes what it is doing. */
  lemma DispatcherFinishes(s: State)
    requires Inv(s) && Hopeful(s) && s.th.owner != Some(Reader) && s.th.dpc != DIdle
    ensures StepDispatcher(s, true).Some? && Nearer(s, StepDispatcher(s, true).value)
  {
    if Answering(s.th.dpc) {
      AnswerHelps(s);
    } else {
      BusyUnderTls(s.th);
      SendHelps(s);
    }
  }

  lemma BusyUnderTls(th: Threads)
    requires Tested(th) && th.state == TLS_INIT && th.dpc != DIdle && !Answering(th.dpc)
    ensures th.dpc == DUnlock1 || th.dpc == DSend || th.dpc == DUnlockCb
  {
  }

  lemma DispatcherTakes(s: State)
    requires Inv(s) && Hopeful(s) && s.th.dpc == DIdle && s.mail.inbox != []
    ensures StepDispatcher(s, true).Some? && Nearer(s, StepDispatcher(s, true).value)
  {
    HeadAndTail(s.mail.inbox);
  }

  /** The reader brings the answer to the queue. */
  lemma ReaderBrings(s: State)
    requires Inv(s) && Hopeful(s) && s.th.owner == None && s.th.dpc == DIdle && s.mail.inbox == [] && InHand(s.th.rpc)
    ensures StepReader(s).Some? && Nearer(s, StepReader(s).value)
  {
    OneMore(s.mail.inbox, s.th.rmsg);
  }

  lemma ServerAnswers(s: State)
    requires Inv(s) && Hopeful(s) && s.th.dpc == DIdle && s.mail.inbox == [] && !InHand(s.th.rpc) && s.mail.wire == []
    ensures ServerSends(s, Proceed).Some? && Nearer(s, ServerSends(s, Proceed).value)
  {
  }

  lemma ReaderReads(s: State)
    requires Inv(s) && Hopeful(s) && s.th.dpc == DIdle && s.mail.inbox == [] && !InHand(s.th.rpc) && s.mail.wire != []
    ensures StepReader(s).Some? && Nearer(s, StepReader(s).value)
  {
    ReadMisses(s);
    HeadAndTail(s.mail.wire);
  }

  /** With the dispatcher idle and nothing queued, the answer is in hand, on the wire, or to be sent. */
  lemma IdleStepHelps(s: State) returns (a: Action)
    requires Inv(s) && Hopeful(s) && s.th.owner == None && s.th.dpc == DIdle && s.mail.inbox == []
    ensures Step(s, a).Some? && Nearer(s, Step(s, a).value)
  {
    if InHand(s.th.rpc) {
      ReaderBrings(s);
      a := Read;
    } else if s.mail.wire == [] {
      ServerAnswers(s);
      a := Server(Proceed);
    } else {
      ReaderReads(s);
      a := Read;
    }
  }

  /** In a hopeful state some step leads nearer to RUN. */
  lemma SomeStepHelps(s: State) returns (a: Action)
    requires Inv(s) && Hopeful(s)
    ensures Step(s, a).Some? && Nearer(s, Step(s, a).value)
  {
    OwnerIs(s.th);
    if s.th.owner == Some(Reader) {
      ReaderLetsGo(s);
      a := Read;
    } else if s.th.dpc != DIdle {
      DispatcherFinishes(s);
      a := Dispatch(true);
    } else if s.mail.inbox != [] {
      DispatcherTakes(s);
      a := Dispatch(true);
    } else {
      a := IdleStepHelps(s);
    }
  }

  lemma {:induction false} RunIsReachable(s: State) returns (more: seq<Action>)
    requires Inv(s) && Hopeful(s)
    ensures Run(s, more).th.state == RUN
    decreases Stage(s), Unhandled(s), StepsLeft(s.th)
  {
    var a := SomeStepHelps(s);
    var s' := Step(s, a).value;
    if s'.th.state == RUN {
      more := [a];
      assert [a][1..] == [];
    } else {
      StepKeeps(s, a);
      var rest := RunIsReachable(s');
      more := [a] + rest;
      assert more[1..] == rest;
    }
  }

  /**
    When the handoff goes on, exactly: from a state TLS_INIT of any run, some continuation reaches RUN
    if and only if `proceed` is the one message read, or a read is under way and nothing else comes first.
   */
  lemma HandoffFate(actions: seq<Action>)
    requires Run(Init(), actions).th.state == TLS_INIT
    ensures (exists more :: Run(Run(Init(), actions), more).th.state == RUN) <==> Hopeful(Run(Init(), actions))
  {
    var s := Run(Init(), actions);
    InitInv();
    RunKeeps(Init(), actions);
    if Hopeful(s) {
      var more := RunIsReachable(s);
    } else {
      forall more ensures Run(s, more).th.state != RUN {
        DoomedForever(s, more);
      }
    }
  }

  predicate Blocked(s: State) { StepReader(s) == None && StepDispatcher(s, true) == None }

  /** Both threads are idle: the next step is the server's. */
  predicate AwaitsServer(s: State)
  {
    Reading(s.th.rpc) && s.mail.wire == [] && s.th.dpc == DIdle && s.mail.inbox == []
  }

  /** The dispatcher waits for the reader, which waits for room in the queue the dispatcher empties. */
  predicate Flooded(s: State)
  {
    s.th.dpc == DWaiting && s.th.rpc == RPost && |s.mail.inbox| >= RECV_MSG_MAX
  }

  lemma OwnerMoves(s: State)
    requires Inv(s) && s.th.owner.Some?
    ensures !Blocked(s)
  {
    match s.th.owner.value {
      case Reader => ReaderOwnerMoves(s);
      case Dispatcher => DispatcherOwnerMoves(s);
    }
  }

  lemma ReaderOwnerMoves(s: State)
    requires RInside(s.th.rpc)
    ensures StepReader(s).Some?
  {
  }

  lemma DispatcherOwnerMoves(s: State)
    requires DInside(s.th.dpc) && s.th.dpc != DAbort
    ensures StepDispatcher(s, true).Some?
  {
  }

  /** Without the mutex held, what can block the reader, and what the dispatcher. */
  lemma ReaderBlocks(s: State)
    requires Inv(s) && s.th.owner == None && StepReader(s) == None
    ensures s.th.rpc == RWaiting || s.th.rpc == RExit || (Reading(s.th.rpc) && s.mail.wire == [])
         || (s.th.rpc == RPost && |s.mail.inbox| >= RECV_MSG_MAX)
  {
  }

  lemma DispatcherBlocks(s: State)
    requires Inv(s) && s.th.owner == None && StepDispatcher(s, true) == None
    ensures s.th.dpc == DWaiting || s.th.dpc == DExit || (s.th.dpc == DIdle && s.mail.inbox == [])
  {
  }

  /**
    When both threads are stopped, that is for one of four reasons: it is the server's turn, the answer
    was missed, the server sent more than the queue holds while its offer was being taken up, or the
    session is over.
   */
  lemma StoppedMeans(actions: seq<Action>)
    requires Blocked(Run(Init(), actions))
    ensures var s := Run(Init(), actions);
      AwaitsServer(s) || Missed(s) || Flooded(s) || s.th.state == DEAD
  {
    InitInv();
    RunKeeps(Init(), actions);
    var s := Run(Init(), actions);
    if s.th.owner.Some? {
      OwnerMoves(s);
    }
    ReaderBlocks(s);
    DispatcherBlocks(s);
  }

  lemma {:induction false} RunFits(s: State, actions: seq<Action>)
    requires |s.mail.inbox| <= 16
    ensures |Run(s, actions).mail.inbox| <= 16
    decreases |actions|
  {
    if actions != [] {
      match Step(s, actions[0]) {
        case None => RunFits(s, actions[1..]);
        case Some(s') => RunFits(s', actions[1..]);
      }
    }
  }

  /** In every run the queue holds at most 16 messages, and the reader is held up by it only at 16. */
  lemma QueueHolds(actions: seq<Action>)
    ensures var s := Run(Init(), actions);
      |s.mail.inbox| <= 16 && (s.th.rpc == RPost ==> (StepReader(s).None? <==> |s.mail.inbox| == 16))
  {
    RunFits(Init(), actions);
  }

  /** A spurious wake-up wakes the thread it happens to, if that waits, and changes nothing else. */
  lemma WakesItself(s: State, t: Thread)
    requires Spuriously(s, t).Some?
    ensures var s' := Spuriously(s, t).value;
      && s'.mail == s.mail && s'.log == s.log && s'.th.state == s.th.state && s'.th.owner == s.th.owner
      && (t == Reader ==> s.th.rpc == RWaiting && s'.th.rpc == RWoken && s'.th.dpc == s.th.dpc)
      && (t == Dispatcher ==> s.th.dpc == DWaiting && s'.th.dpc == DWoken && s'.th.rpc == s.th.rpc)
  {
  }

  // ---------------------------------------------------------------------------------------------
  // A run that hangs
  // ---------------------------------------------------------------------------------------------

  lemma {:induction false} RunOneMore(s: State, actions: seq<Action>, a: Action)
    ensures Run(s, actions + [a]) == match Step(Run(s, actions), a) { case None => Run(s, actions) case Some(s') => s' }
    decreases |actions|
  {
    if actions == [] {
      assert actions + [a] == [a] && [a][1..] == [];
    } else {
      assert (actions + [a])[0] == actions[0] && (actions + [a])[1..] == actions[1..] + [a];
      match Step(s, actions[0]) {
        case None => RunOneMore(s, actions[1..], a);
        case Some(s') => RunOneMore(s', actions[1..], a);
      }
    }
  }

  ghost predicate Reaches(actions: seq<Action>, s: State) { Run(Init(), actions) == s }

  lemma Next(actions: seq<Action>, a: Action, s: State, s': State)
    requires Reaches(actions, s) && Step(s, a) == Some(s')
    ensures Reaches(actions + [a], s')
  {
    RunOneMore(Init(), actions, a);
  }

  /** The reader, with nothing in its way, goes from the top of its loop into stream_read. */
  lemma GoesReading(actions: seq<Action>, s: State) returns (more: seq<Action>, s': State)
    requires Reaches(actions, s) && s.th.(rmsg := Other) == Threads(RLoop, Other, DIdle, None, INIT)
    ensures Reaches(more, s') && s' == s.(th := s.th.(rpc := RRead, state := POLL))
  {
    more, s' := actions, s;
    var pcs := [RBranch, RLock1, RCheck, RPoll, RUnlock1, RRead];
    var i := 0;
    while i < 6
      invariant 0 <= i <= 6 && Reaches(more, s')
      invariant s' == s.(th := s.th.(rpc := if i == 0 then RLoop else pcs[i - 1],
                                     owner := if i == 3 || i == 4 || i == 5 then Some(Reader) else None,
                                     state := if i < 5 then INIT else POLL))
    {
      var next := Step(s', Read).value;
      Next(more, Read, s', next);
      more, s' := more + [Read], next;
      i := i + 1;
    }
  }

  /** It takes the oldest message, posts it, and is back at the top of its loop. */
  lemma Posts(actions: seq<Action>, s: State, m: Msg, wire: seq<Msg>) returns (more: seq<Action>, s': State)
    requires Reaches(actions, s) && s.th == Threads(RRead, s.th.rmsg, DIdle, None, POLL)
    requires s.mail.wire == [m] + wire && s.mail.inbox == []
    ensures Reaches(more, s') && s'.th == Threads(RLoop, m, DIdle, None, INIT)
    ensures s'.mail == s.mail.(wire := wire, inbox := [m])
  {
    var s1 := Step(s, Read).value;
    Next(actions, Read, s, s1);
    assert s.mail.wire[1..] == wire;
    more, s' := PostsHeld(actions + [Read], s1);
  }

  /** The steps behind the read. */
  lemma PostsHeld(actions: seq<Action>, s: State) returns (more: seq<Action>, s': State)
    requires Reaches(actions, s) && s.th == Threads(RLock2, s.th.rmsg, DIdle, None, POLL) && s.mail.inbox == []
    ensures Reaches(more, s') && s'.th == Threads(RLoop, s.th.rmsg, DIdle, None, INIT)
    ensures s'.mail == s.mail.(inbox := [s.th.rmsg])
  {
    var s2 := Step(s, Read).value;
    Next(actions, Read, s, s2);
    var s3 := Step(s2, Read).value;
    Next(actions + [Read], Read, s2, s3);
    var s4 := Step(s3, Read).value;
    Next(actions + [Read] + [Read], Read, s3, s4);
    s' := Step(s4, Read).value;
    more := actions + [Read] + [Read] + [Read] + [Read];
    Next(actions + [Read] + [Read] + [Read], Read, s4, s');
  }

  /** The dispatcher takes up an offer while the reader is inside a read or has just finished one. */
  lemma TakesUp(actions: seq<Action>, s: State) returns (more: seq<Action>, s': State)
    requires Reaches(actions, s) && (s.th.rpc == RRead || s.th.rpc == RLock2)
    requires s.th == Threads(s.th.rpc, s.th.rmsg, DIdle, None, POLL)
    requires s.mail.inbox == [Features] && s.mail.featuresArmed
    ensures Reaches(more, s') && s'.th == Threads(s.th.rpc, s.th.rmsg, DUnlock1, Some(Dispatcher), TLS_INIT)
    ensures s'.mail == s.mail.(inbox := [], featuresArmed := false, proceedArmed := true) && s'.log.readCount == 0
  {
    var d := Dispatch(true);
    assert s.mail.inbox[1..] == [];
    var s1 := Step(s, d).value;
    Next(actions, d, s, s1);
    var s2 := Step(s1, d).value;
    Next(actions + [d], d, s1, s2);
    var s3 := Step(s2, d).value;
    Next(actions + [d] + [d], d, s2, s3);
    var s4 := Step(s3, d).value;
    Next(actions + [d] + [d] + [d], d, s3, s4);
    s' := Step(s4, d).value;
    more := actions + [d] + [d] + [d] + [d] + [d];
    Next(actions + [d] + [d] + [d] + [d], d, s4, s');
  }

  /** The server sends its offer and one more message, and the reader is about to read the second. */
  lemma OfferAndMore() returns (actions: seq<Action>, s: State)
    ensures Reaches(actions, s) && s.th == Threads(RRead, Features, DIdle, None, POLL)
    ensures s.mail == Mail([Other], [Features], true, false, 0, 0)
  {
    var s1 := Step(Init(), Server(Features)).value;
    var s2 := Step(s1, Server(Other)).value;
    assert Reaches([], Init());
    Next([], Server(Features), Init(), s1);
    Next([] + [Server(Features)], Server(Other), s1, s2);
    var a3, s3 := GoesReading([] + [Server(Features)] + [Server(Other)], s2);
    var a4, s4 := Posts(a3, s3, Features, [Other]);
    actions, s := GoesReading(a4, s4);
  }

  /** One message between the offer and the answer, read under TLS_INIT: the answer is missed. */
  lemma OneMessageTooMany() returns (actions: seq<Action>)
    ensures Missed(Run(Init(), actions)) && Run(Init(), actions).log.readCount == 1
  {
    var a5, s5 := OfferAndMore();
    var a6, s6 := TakesUp(a5, s5);
    var s7 := Step(s6, Read).value;
    Next(a6, Read, s6, s7);
    actions := a6 + [Read];
  }

  /**
    The same message read a moment earlier, before the state is set: the answer is missed without any
    read under TLS_INIT, and stays on the wire.
   */
  lemma MissedUnread() returns (actions: seq<Action>)
    ensures var s := Run(Init(), actions);
      Missed(s) && s.log.readCount == 0 && s.mail.wire == [Proceed]
  {
    var a5, s5 := OfferAndMore();
    var s6 := Step(s5, Read).value;
    Next(a5, Read, s5, s6);
    var a7, s7 := TakesUp(a5 + [Read], s6);
    var d := Dispatch(true);
    var s8 := Step(s7, d).value;
    Next(a7, d, s7, s8);
    var s9 := Step(s8, d).value;
    Next(a7 + [d], d, s8, s9);
    var s10 := Step(s9, Server(Proceed)).value;
    Next(a7 + [d] + [d], Server(Proceed), s9, s10);
    actions := a7 + [d] + [d] + [Server(Proceed)];
  }

  /** The server sends its offer and waits: a run in which the state becomes RUN. */
  lemma HandoffWorks() returns (actions: seq<Action>, more: seq<Action>)
    ensures Run(Run(Init(), actions), more).th.state == RUN
  {
    var s1 := Step(Init(), Server(Features)).value;
    assert Reaches([], Init());
    Next([], Server(Features), Init(), s1);
    var a2, s2 := GoesReading([] + [Server(Features)], s1);
    var a3, s3 := Posts(a2, s2, Features, []);
    var a4, s4 := GoesReading(a3, s3);
    var a5, s5 := TakesUp(a4, s4);
    InitInv();
    RunKeeps(Init(), a5);
    actions := a5;
    more := RunIsReachable(s5);
  }
}
