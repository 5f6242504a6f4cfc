/**
  The two message queues: 16 slots, two counting semaphores, and a mutex on the side that has several
  threads. Sending (src/threads/thread_sendstream.c) has many producers and one consumer; receiving
  (src/threads/thread_readstream.c) has one producer and a mutex for its consumers.

  One step of the model is one statement of one thread; a run is any interleaving of such steps. The
  logs (`posted`, `taken`, `calls`, `returned`) are not in the program, they record what happened.
 */
module Rings {
  import opened CStrings

  type Tid = nat

  const SLOTS: nat := 16

  /** Which side takes its mutex; a side without one has a single thread. */
  datatype Config = Config(lockProducers: bool, lockConsumers: bool)

  const SEND_RING: Config := Config(true, false)
  const RECV_RING: Config := Config(false, true)

  /**
    Where a producer stands: outside; before sem_wait(empty); before the lock; before the write; before
    ++pos; before the wrap; before the unlock; before sem_post(full).
   */
  datatype PPhase = POut | PWait | PCredit | PLocked | PWritten | PBumped | PWrapped | PUnlocked

  /** A consumer in the same manner, with a read and a clear where the producer has its write. */
  datatype CPhase = COut | CWait | CCredit | CLocked | CRead | CCleared | CBumped | CWrapped | CUnlocked | CPosted

  datatype Producer = Producer(phase: PPhase, msg: string, calls: seq<string>)
  datatype Consumer = Consumer(phase: CPhase, msg: Option<string>, returned: seq<Option<string>>)

  /** A log entry: the thread and the message. */
  datatype Entry = Entry(tid: Tid, msg: string)

  /** `prodIn` and `consIn` say who is between lock and unlock: on the side with a mutex, its holder. */
  datatype State = State(
    slots: seq<Option<string>>, empty: nat, full: nat,
    prodIn: Option<Tid>, consIn: Option<Tid>, prodPos: nat, consPos: nat,
    prods: map<Tid, Producer>, cons: map<Tid, Consumer>,
    posted: seq<Entry>, taken: seq<Entry>)

  datatype Action = Post(t: Tid, m: string) | Produce(t: Tid) | Get(t: Tid) | Consume(t: Tid)

  function Wrap(pos: nat): nat { if pos >= SLOTS then 0 else pos }

  /** The next statement of a producer; None if it blocks. */
  function StepProducer(c: Config, s: State, t: Tid): Option<State>
    requires t in s.prods
  {
    var p := s.prods[t];
    match p.phase
    case POut => None
    case PWait => if s.empty == 0 then None
      else Some(s.(empty := s.empty - 1, prods := s.prods[t := p.(phase := PCredit)]))
    case PCredit => if c.lockProducers && s.prodIn.Some? then None
      else Some(s.(prodIn := Some(t), prods := s.prods[t := p.(phase := PLocked)]))
    case PLocked => if s.prodPos >= |s.slots| then None
      else Some(s.(slots := s.slots[s.prodPos := Some(p.msg)], posted := s.posted + [Entry(t, p.msg)],
                   prods := s.prods[t := p.(phase := PWritten)]))
    case PWritten => Some(s.(prodPos := s.prodPos + 1, prods := s.prods[t := p.(phase := PBumped)]))
    case PBumped => Some(s.(prodPos := Wrap(s.prodPos), prods := s.prods[t := p.(phase := PWrapped)]))
    case PWrapped => Some(s.(prodIn := None, prods := s.prods[t := p.(phase := PUnlocked)]))
    case PUnlocked => Some(s.(full := s.full + 1, prods := s.prods[t := p.(phase := POut)]))
  }

  /** The next statement of a consumer; None if it blocks. The read and the clear are two statements. */
  function StepConsumer(c: Config, s: State, t: Tid): Option<State>
    requires t in s.cons
  {
    var p := s.cons[t];
    match p.phase
    case COut => None
    case CWait => if s.full == 0 then None
      else Some(s.(full := s.full - 1, cons := s.cons[t := p.(phase := CCredit)]))
    case CCredit => if c.lockConsumers && s.consIn.Some? then None
      else Some(s.(consIn := Some(t), cons := s.cons[t := p.(phase := CLocked)]))
    case CLocked => if s.consPos >= |s.slots| then None
      else Some(s.(cons := s.cons[t := p.(phase := CRead, msg := s.slots[s.consPos])]))
    case CRead => if s.consPos >= |s.slots| then None
      else Some(s.(slots := s.slots[s.consPos := None],
                   taken := s.taken + [Entry(t, if p.msg.Some? then p.msg.value else "")],
                   cons := s.cons[t := p.(phase := CCleared)]))
    case CCleared => Some(s.(consPos := s.consPos + 1, cons := s.cons[t := p.(phase := CBumped)]))
    case CBumped => Some(s.(consPos := Wrap(s.consPos), cons := s.cons[t := p.(phase := CWrapped)]))
    case CWrapped => Some(s.(consIn := None, cons := s.cons[t := p.(phase := CUnlocked)]))
    case CUnlocked => Some(s.(empty := s.empty + 1, cons := s.cons[t := p.(phase := CPosted)]))
    case CPosted => Some(s.(cons := s.cons[t := p.(phase := COut, returned := p.returned + [p.msg])]))
  }

  function StepAction(c: Config, s: State, a: Action): Option<State>
  {
    match a
    case Post(t, m) =>
      if t in s.prods && s.prods[t].phase == POut
      then Some(s.(prods := s.prods[t := Producer(PWait, m, s.prods[t].calls + [m])])) else None
    case Produce(t) => if t in s.prods then StepProducer(c, s, t) else None
    case Get(t) =>
      if t in s.cons && s.cons[t].phase == COut
      then Some(s.(cons := s.cons[t := s.cons[t].(phase := CWait, msg := None)])) else None
    case Consume(t) => if t in s.cons then StepConsumer(c, s, t) else None
  }

  /** Any interleaving; an action of a thread that is blocked does not happen. */
  function Run(c: Config, s: State, actions: seq<Action>): State
    decreases |actions|
  {
    if actions == [] then s
    else match StepAction(c, s, actions[0])
      case None => Run(c, s, actions[1..])
      case Some(s') => Run(c, s', actions[1..])
  }

  /** The threads of a side: any number with a mutex, one without. */
  ghost predicate Threads(locked: bool, tids: set<Tid>)
  {
    !locked ==> forall t, u :: t in tids && u in tids ==> t == u
  }

  function Init(producers: set<Tid>, consumers: set<Tid>): State
  {
    State(seq(SLOTS, i => None), SLOTS, 0, None, None, 0, 0,
          map t | t in producers :: Producer(POut, "", []),
          map t | t in consumers :: Consumer(COut, None, []), [], [])
  }

  // ---------------------------------------------------------------------------------------------
  // Counting threads
  // ---------------------------------------------------------------------------------------------

  ghost function Those<X>(m: map<Tid, X>, f: X -> bool): set<Tid> { set t | t in m && f(m[t]) }

  ghost function Count<X>(m: map<Tid, X>, f: X -> bool): nat { |Those(m, f)| }

  function Bit(b: bool): nat { if b then 1 else 0 }

  lemma CountUpdate<X>(m: map<Tid, X>, f: X -> bool, t: Tid, x: X)
    requires t in m
    ensures Count(m[t := x], f) + Bit(f(m[t])) == Count(m, f) + Bit(f(x))
  {
    var rest := Those(m, f) - {t};
    assert Those(m, f) == if f(m[t]) then rest + {t} else rest;
    assert Those(m[t := x], f) == if f(x) then rest + {t} else rest;
  }

  lemma CountPositive<X>(m: map<Tid, X>, f: X -> bool, t: Tid)
    requires t in m && f(m[t])
    ensures Count(m, f) >= 1
  {
    assert t in Those(m, f);
  }

  lemma CountNone<X>(m: map<Tid, X>, f: X -> bool)
    requires forall t :: t in m ==> !f(m[t])
    ensures Count(m, f) == 0
  {
    assert Those(m, f) == {};
  }

  // ---------------------------------------------------------------------------------------------
  // The invariant
  // ---------------------------------------------------------------------------------------------

  /** A producer holding a credit for a slot it has not written. */
  predicate Reserving(p: Producer) { p.phase == PCredit || p.phase == PLocked }

  /** A producer that has written and not yet announced it. */
  predicate Announcing(p: Producer)
  {
    p.phase == PWritten || p.phase == PBumped || p.phase == PWrapped || p.phase == PUnlocked
  }

  /** A consumer holding a credit for a message it has not taken. */
  predicate Claiming(p: Consumer) { p.phase == CCredit || p.phase == CLocked || p.phase == CRead }

  /** A consumer that has taken a message and not yet given the slot back. */
  predicate Releasing(p: Consumer)
  {
    p.phase == CCleared || p.phase == CBumped || p.phase == CWrapped || p.phase == CUnlocked
  }

  predicate PInside(p: Producer)
  {
    p.phase == PLocked || p.phase == PWritten || p.phase == PBumped || p.phase == PWrapped
  }

  predicate CInside(p: Consumer)
  {
    p.phase == CLocked || p.phase == CRead || p.phase == CCleared || p.phase == CBumped || p.phase == CWrapped
  }

  /** Credits: every message in the ring is announced or on its way, every free slot too. */
  ghost predicate Credits(s: State)
  {
    && |s.taken| <= |s.posted| <= |s.taken| + SLOTS
    && s.full + Count(s.cons, Claiming) + Count(s.prods, Announcing) == |s.posted| - |s.taken|
    && s.empty + Count(s.prods, Reserving) + Count(s.cons, Releasing) == SLOTS - (|s.posted| - |s.taken|)
  }

  /** The ring holds exactly the messages posted and not taken, in order from number r on. */
  ghost predicate Content(slots: seq<Option<string>>, posted: seq<Entry>, r: nat)
  {
    && |slots| == SLOTS && r <= |posted| <= r + SLOTS
    && (forall j: nat {:trigger posted[j]} :: r <= j < |posted| ==> slots[j % SLOTS] == Some(posted[j].msg))
    && (forall k: nat {:trigger slots[k]} :: k < SLOTS && slots[k].Some? ==> InRing(k, r, |posted|))
  }

  /** The number k modulo 16 lies between r and w. */
  predicate InRing(k: nat, r: nat, w: nat)
  {
    (k + SLOTS - r % SLOTS) % SLOTS < w - r
  }

  ghost predicate ProdMutex(c: Config, prods: map<Tid, Producer>, prodIn: Option<Tid>)
  {
    && Threads(c.lockProducers, prods.Keys)
    && (forall t :: t in prods ==> (PInside(prods[t]) <==> prodIn == Some(t)))
    && (prodIn.Some? ==> prodIn.value in prods)
  }

  ghost predicate ConsMutex(c: Config, cons: map<Tid, Consumer>, consIn: Option<Tid>)
  {
    && Threads(c.lockConsumers, cons.Keys)
    && (forall t :: t in cons ==> (CInside(cons[t]) <==> consIn == Some(t)))
    && (consIn.Some? ==> consIn.value in cons)
  }

  /** At most one thread of each side is inside. */
  ghost predicate Mutex(c: Config, s: State)
  {
    ProdMutex(c, s.prods, s.prodIn) && ConsMutex(c, s.cons, s.consIn)
  }

  /** The position, seen from a thread: behind by one between the write and the wrap. */
  predicate ProdPosFits(p: Producer, pos: nat, w: nat)
  {
    && (p.phase == PLocked || p.phase == PWrapped ==> pos == w % SLOTS)
    && (p.phase == PWritten ==> w > 0 && pos == (w - 1) % SLOTS)
    && (p.phase == PBumped ==> w > 0 && pos == (w - 1) % SLOTS + 1)
  }

  predicate ConsPosFits(p: Consumer, pos: nat, r: nat)
  {
    && (p.phase == CLocked || p.phase == CRead || p.phase == CWrapped ==> pos == r % SLOTS)
    && (p.phase == CCleared ==> r > 0 && pos == (r - 1) % SLOTS)
    && (p.phase == CBumped ==> r > 0 && pos == (r - 1) % SLOTS + 1)
  }

  predicate ProdPos(prodIn: Option<Tid>, prods: map<Tid, Producer>, pos: nat, w: nat)
  {
    match prodIn
    case None => pos == w % SLOTS
    case Some(t) => t in prods && ProdPosFits(prods[t], pos, w)
  }

  predicate ConsPos(consIn: Option<Tid>, cons: map<Tid, Consumer>, pos: nat, r: nat)
  {
    match consIn
    case None => pos == r % SLOTS
    case Some(t) => t in cons && ConsPosFits(cons[t], pos, r)
  }

  predicate Positions(s: State)
  {
    && ProdPos(s.prodIn, s.prods, s.prodPos, |s.posted|)
    && ConsPos(s.consIn, s.cons, s.consPos, |s.taken|)
  }

  /** The messages of one thread in a log, in order. */
  function Of(log: seq<Entry>, t: Tid): seq<string>
  {
    if log == [] then []
    else
      var e := log[|log| - 1];
      Of(log[..|log| - 1], t) + (if e.tid == t then [e.msg] else [])
  }

  function AllSome(ms: seq<string>): (r: seq<Option<string>>)
    ensures |r| == |ms|
  {
    seq(|ms|, i requires 0 <= i < |ms| => Some(ms[i]))
  }

  /** The message a producer was called with and has not written yet. */
  function PPending(p: Producer): seq<string>
  {
    if p.phase == PWait || p.phase == PCredit || p.phase == PLocked then [p.msg] else []
  }

  /** The message a consumer has taken and not returned yet. */
  function CHeld(p: Consumer): seq<Option<string>>
  {
    if Releasing(p) || p.phase == CPosted then [p.msg] else []
  }

  /** What a producer was called with is what it posted and what is pending. */
  predicate PLog(p: Producer, posted: seq<Entry>, t: Tid) { p.calls == Of(posted, t) + PPending(p) }

  /** What a consumer returned and holds is what it took. */
  predicate CLog(p: Consumer, taken: seq<Entry>, t: Tid) { p.returned + CHeld(p) == AllSome(Of(taken, t)) }

  ghost predicate PLogs(prods: map<Tid, Producer>, posted: seq<Entry>)
  {
    && (forall t :: t in prods ==> PLog(prods[t], posted, t))
    && (forall j :: 0 <= j < |posted| ==> posted[j].tid in prods)
  }

  ghost predicate CLogs(cons: map<Tid, Consumer>, taken: seq<Entry>)
  {
    && (forall t :: t in cons ==> CLog(cons[t], taken, t))
    && (forall j :: 0 <= j < |taken| ==> taken[j].tid in cons)
  }

  ghost predicate Logs(s: State) { PLogs(s.prods, s.posted) && CLogs(s.cons, s.taken) }

  ghost predicate MsgsOf(taken: seq<Entry>, posted: seq<Entry>)
  {
    |taken| <= |posted| && forall j :: 0 <= j < |taken| ==> taken[j].msg == posted[j].msg
  }

  /** What a consumer has read and not yet cleared is the oldest message in the ring. */
  ghost predicate Reads(s: State)
  {
    && MsgsOf(s.taken, s.posted)
    && match s.consIn
       case None => true
       case Some(t) => t in s.cons && (s.cons[t].phase == CRead ==>
         |s.taken| < |s.posted| && s.cons[t].msg == Some(s.posted[|s.taken|].msg))
  }

  ghost predicate Inv(c: Config, s: State)
  {
    && Mutex(c, s) && Credits(s) && Content(s.slots, s.posted, |s.taken|) && Positions(s) && Reads(s) && Logs(s)
  }

  // ---------------------------------------------------------------------------------------------
  // The ring itself
  // ---------------------------------------------------------------------------------------------

  lemma NumberInRing(j: nat, r: nat, w: nat)
    requires r <= j < w <= r + SLOTS
    ensures InRing(j % SLOTS, r, w)
  {
  }

  lemma NextIsFree(r: nat, w: nat)
    requires r <= w < r + SLOTS
    ensures !InRing(w % SLOTS, r, w)
  {
  }

  lemma InRingWider(k: nat, r: nat, w: nat)
    requires k < SLOTS && InRing(k, r, w)
    ensures InRing(k, r, w + 1)
  {
  }

  lemma InRingNarrower(k: nat, r: nat, w: nat)
    requires k < SLOTS && InRing(k, r, w) && k != r % SLOTS && r < w <= r + SLOTS
    ensures InRing(k, r + 1, w)
  {
  }

  lemma DistinctSlots(j: nat, k: nat)
    requires j < k < j + SLOTS
    ensures j % SLOTS != k % SLOTS
  {
  }

  /** A write at the producers' position fills a free slot and keeps the rest. */
  lemma PutKeepsContent(slots: seq<Option<string>>, posted: seq<Entry>, r: nat, e: Entry)
    requires Content(slots, posted, r) && |posted| < r + SLOTS
    ensures slots[|posted| % SLOTS] == None
    ensures Content(slots[|posted| % SLOTS := Some(e.msg)], posted + [e], r)
  {
    var w := |posted|;
    var after := slots[w % SLOTS := Some(e.msg)];
    var posted' := posted + [e];
    NextIsFree(r, w);
    forall j: nat | r <= j < w + 1 ensures after[j % SLOTS] == Some(posted'[j].msg) {
      if j < w {
        DistinctSlots(j, w);
        assert posted'[j] == posted[j];
      }
    }
    forall k: nat | k < SLOTS && after[k].Some? ensures InRing(k, r, w + 1) {
      if k == w % SLOTS {
        NumberInRing(w, r, w + 1);
      } else {
        assert slots[k].Some?;
        InRingWider(k, r, w);
      }
    }
  }

  /** The slot at the consumers' position holds the oldest message; clearing it removes only that one. */
  lemma TakeKeepsContent(slots: seq<Option<string>>, posted: seq<Entry>, r: nat)
    requires Content(slots, posted, r) && r < |posted|
    ensures slots[r % SLOTS] == Some(posted[r].msg)
    ensures Content(slots[r % SLOTS := None], posted, r + 1)
  {
    var after := slots[r % SLOTS := None];
    forall j: nat | r + 1 <= j < |posted| ensures after[j % SLOTS] == Some(posted[j].msg) {
      DistinctSlots(r, j);
    }
    forall k: nat | k < SLOTS && after[k].Some? ensures InRing(k, r + 1, |posted|) {
      assert slots[k].Some?;
      InRingNarrower(k, r, |posted|);
    }
  }

  // ---------------------------------------------------------------------------------------------
  // Every statement keeps the invariant
  // ---------------------------------------------------------------------------------------------

  lemma OfNext(log: seq<Entry>, e: Entry, t: Tid)
    ensures Of(log + [e], t) == Of(log, t) + (if e.tid == t then [e.msg] else [])
  {
    assert (log + [e])[..|log|] == log;
  }

  /** A producer changes nothing of the consumers and of other producers, and posts at most its message. */
  lemma ProducerFrame(c: Config, s: State, t: Tid)
    requires t in s.prods && StepProducer(c, s, t).Some?
    ensures var s' := StepProducer(c, s, t).value;
      && t in s'.prods && s'.prods == s.prods[t := s'.prods[t]] && s'.prods.Keys == s.prods.Keys
      && s'.cons == s.cons && s'.consIn == s.consIn && s'.consPos == s.consPos && s'.taken == s.taken
      && (s'.posted == s.posted || s'.posted == s.posted + [Entry(t, s.prods[t].msg)])
  {
  }

  lemma ConsumerFrame(c: Config, s: State, t: Tid)
    requires t in s.cons && StepConsumer(c, s, t).Some?
    ensures var s' := StepConsumer(c, s, t).value;
      && t in s'.cons && s'.cons == s.cons[t := s'.cons[t]] && s'.cons.Keys == s.cons.Keys
      && s'.prods == s.prods && s'.prodIn == s.prodIn && s'.prodPos == s.prodPos && s'.posted == s.posted
      && (s'.taken == s.taken || exists m :: s'.taken == s.taken + [Entry(t, m)])
  {
  }

  lemma ProducerMutex(c: Config, s: State, t: Tid)
    requires ProdMutex(c, s.prods, s.prodIn) && t in s.prods && StepProducer(c, s, t).Some?
    ensures var s' := StepProducer(c, s, t).value; ProdMutex(c, s'.prods, s'.prodIn)
  {
    var s' := StepProducer(c, s, t).value;
    assert s'.prods.Keys == s.prods.Keys;
    assert s.prods[t].phase == PCredit ==> s.prodIn == None;
  }

  lemma ConsumerMutex(c: Config, s: State, t: Tid)
    requires ConsMutex(c, s.cons, s.consIn) && t in s.cons && StepConsumer(c, s, t).Some?
    ensures var s' := StepConsumer(c, s, t).value; ConsMutex(c, s'.cons, s'.consIn)
  {
    var s' := StepConsumer(c, s, t).value;
    assert s'.cons.Keys == s.cons.Keys;
    assert s.cons[t].phase == CCredit ==> s.consIn == None;
  }

  /** What a producer's statement does to the tokens and to what it holds. */
  lemma ProducerTokens(c: Config, s: State, t: Tid)
    requires t in s.prods && StepProducer(c, s, t).Some?
    ensures var s' := StepProducer(c, s, t).value;
      var p, p' := s.prods[t], s'.prods[t];
      && s'.full + Bit(Announcing(p')) - s.full - Bit(Announcing(p)) == |s'.posted| - |s.posted|
      && s'.empty + Bit(Reserving(p')) - s.empty - Bit(Reserving(p)) == |s.posted| - |s'.posted|
  {
  }

  lemma ConsumerTokens(c: Config, s: State, t: Tid)
    requires t in s.cons && StepConsumer(c, s, t).Some?
    ensures var s' := StepConsumer(c, s, t).value;
      var p, p' := s.cons[t], s'.cons[t];
      && s'.full + Bit(Claiming(p')) - s.full - Bit(Claiming(p)) == |s.taken| - |s'.taken|
      && s'.empty + Bit(Releasing(p')) - s.empty - Bit(Releasing(p)) == |s'.taken| - |s.taken|
  {
  }

  /** The counts of a side, when one of its threads has changed. */
  lemma CreditsMove(s: State, s': State)
    requires Credits(s) && s.full + Count(s.cons, Claiming) + Count(s.prods, Announcing) + (|s'.posted| - |s'.taken|) ==
             s'.full + Count(s'.cons, Claiming) + Count(s'.prods, Announcing) + (|s.posted| - |s.taken|)
    requires s.empty + Count(s.prods, Reserving) + Count(s.cons, Releasing) - (|s'.posted| - |s'.taken|) ==
             s'.empty + Count(s'.prods, Reserving) + Count(s'.cons, Releasing) - (|s.posted| - |s.taken|)
    ensures Credits(s')
  {
  }

  lemma ProducerCredits(c: Config, s: State, t: Tid)
    requires Credits(s) && t in s.prods && StepProducer(c, s, t).Some?
    ensures Credits(StepProducer(c, s, t).value)
  {
    var s' := StepProducer(c, s, t).value;
    ProducerFrame(c, s, t);
    ProducerTokens(c, s, t);
    CountUpdate(s.prods, Announcing, t, s'.prods[t]);
    CountUpdate(s.prods, Reserving, t, s'.prods[t]);
    CreditsMove(s, s');
  }

  lemma ConsumerCredits(c: Config, s: State, t: Tid)
    requires Credits(s) && t in s.cons && StepConsumer(c, s, t).Some?
    ensures Credits(StepConsumer(c, s, t).value)
  {
    var s' := StepConsumer(c, s, t).value;
    ConsumerFrame(c, s, t);
    ConsumerTokens(c, s, t);
    CountUpdate(s.cons, Claiming, t, s'.cons[t]);
    CountUpdate(s.cons, Releasing, t, s'.cons[t]);
    CreditsMove(s, s');
  }

  /** A producer about to write finds its slot free. */
  lemma WriteRoom(c: Config, s: State, t: Tid)
    requires Inv(c, s) && t in s.prods && s.prods[t].phase == PLocked
    ensures s.prodPos == |s.posted| % SLOTS && |s.posted| < |s.taken| + SLOTS && s.slots[s.prodPos] == None
  {
    CountPositive(s.prods, Reserving, t);
    PutKeepsContent(s.slots, s.posted, |s.taken|, Entry(t, ""));
  }

  /** A consumer about to read or clear finds the oldest message. */
  lemma ReadReady(c: Config, s: State, t: Tid)
    requires Inv(c, s) && t in s.cons && (s.cons[t].phase == CLocked || s.cons[t].phase == CRead)
    ensures s.consPos == |s.taken| % SLOTS && |s.taken| < |s.posted|
    ensures s.slots[s.consPos] == Some(s.posted[|s.taken|].msg)
  {
    CountPositive(s.cons, Claiming, t);
    TakeKeepsContent(s.slots, s.posted, |s.taken|);
  }

  lemma ProducerContent(c: Config, s: State, t: Tid)
    requires Content(s.slots, s.posted, |s.taken|) && t in s.prods && StepProducer(c, s, t).Some?
    requires s.prods[t].phase == PLocked ==> s.prodPos == |s.posted| % SLOTS && |s.posted| < |s.taken| + SLOTS
    ensures var s' := StepProducer(c, s, t).value; Content(s'.slots, s'.posted, |s'.taken|)
  {
    if s.prods[t].phase == PLocked {
      PutKeepsContent(s.slots, s.posted, |s.taken|, Entry(t, s.prods[t].msg));
    }
  }

  lemma ConsumerContent(c: Config, s: State, t: Tid)
    requires Content(s.slots, s.posted, |s.taken|) && t in s.cons && StepConsumer(c, s, t).Some?
    requires s.cons[t].phase == CRead ==> s.consPos == |s.taken| % SLOTS && |s.taken| < |s.posted|
    ensures var s' := StepConsumer(c, s, t).value; Content(s'.slots, s'.posted, |s'.taken|)
  {
    if s.cons[t].phase == CRead {
      TakeKeepsContent(s.slots, s.posted, |s.taken|);
    }
  }

  lemma ProducerPositions(c: Config, s: State, t: Tid)
    requires ProdMutex(c, s.prods, s.prodIn) && ProdPos(s.prodIn, s.prods, s.prodPos, |s.posted|)
    requires t in s.prods && StepProducer(c, s, t).Some?
    ensures var s' := StepProducer(c, s, t).value; ProdPos(s'.prodIn, s'.prods, s'.prodPos, |s'.posted|)
  {
    assert s.prods[t].phase == PCredit ==> s.prodIn == None;
    assert PInside(s.prods[t]) <==> s.prodIn == Some(t);
  }

  lemma ConsumerPositions(c: Config, s: State, t: Tid)
    requires ConsMutex(c, s.cons, s.consIn) && ConsPos(s.consIn, s.cons, s.consPos, |s.taken|)
    requires t in s.cons && StepConsumer(c, s, t).Some?
    ensures var s' := StepConsumer(c, s, t).value; ConsPos(s'.consIn, s'.cons, s'.consPos, |s'.taken|)
  {
    assert s.cons[t].phase == CCredit ==> s.consIn == None;
    assert CInside(s.cons[t]) <==> s.consIn == Some(t);
  }

  lemma ReadsFrame(s: State, s': State)
    requires Reads(s) && s'.consIn == s.consIn && s'.cons == s.cons && s'.taken == s.taken && s.posted <= s'.posted
    ensures Reads(s')
  {
  }

  lemma ConsumerReads(c: Config, s: State, t: Tid)
    requires ConsMutex(c, s.cons, s.consIn) && Reads(s) && t in s.cons && StepConsumer(c, s, t).Some?
    requires s.cons[t].phase == CLocked ==>
      s.consPos < |s.slots| && |s.taken| < |s.posted| && s.slots[s.consPos] == Some(s.posted[|s.taken|].msg)
    ensures Reads(StepConsumer(c, s, t).value)
  {
    assert s.cons[t].phase == CCredit ==> s.consIn == None;
    assert CInside(s.cons[t]) <==> s.consIn == Some(t);
  }

  lemma ProducerLog(c: Config, s: State, t: Tid)
    requires t in s.prods && PLog(s.prods[t], s.posted, t) && StepProducer(c, s, t).Some?
    ensures var s' := StepProducer(c, s, t).value; PLog(s'.prods[t], s'.posted, t)
  {
    OfNext(s.posted, Entry(t, s.prods[t].msg), t);
  }

  lemma PLogOfOther(p: Producer, posted: seq<Entry>, posted': seq<Entry>, t: Tid, m: string, u: Tid)
    requires PLog(p, posted, u) && u != t && (posted' == posted || posted' == posted + [Entry(t, m)])
    ensures PLog(p, posted', u)
  {
    OfNext(posted, Entry(t, m), u);
  }

  lemma CLogOfOther(p: Consumer, taken: seq<Entry>, taken': seq<Entry>, t: Tid, m: string, u: Tid)
    requires CLog(p, taken, u) && u != t && (taken' == taken || taken' == taken + [Entry(t, m)])
    ensures CLog(p, taken', u)
  {
    OfNext(taken, Entry(t, m), u);
  }

  lemma PLogsFrame(prods: map<Tid, Producer>, posted: seq<Entry>, t: Tid, p: Producer, posted': seq<Entry>, m: string)
    requires PLogs(prods, posted) && t in prods && PLog(p, posted', t)
    requires posted' == posted || posted' == posted + [Entry(t, m)]
    ensures PLogs(prods[t := p], posted')
  {
    forall u | u in prods && u != t ensures PLog(prods[u], posted', u) {
      PLogOfOther(prods[u], posted, posted', t, m, u);
    }
  }

  lemma CLogsFrame(cons: map<Tid, Consumer>, taken: seq<Entry>, t: Tid, p: Consumer, taken': seq<Entry>, m: string)
    requires CLogs(cons, taken) && t in cons && CLog(p, taken', t)
    requires taken' == taken || taken' == taken + [Entry(t, m)]
    ensures CLogs(cons[t := p], taken')
  {
    forall u | u in cons && u != t ensures CLog(cons[u], taken', u) {
      CLogOfOther(cons[u], taken, taken', t, m, u);
    }
  }

  lemma AllSomeConcat(a: seq<string>, b: seq<string>)
    ensures AllSome(a + b) == AllSome(a) + AllSome(b)
  {
  }

  lemma ConsumerLog(c: Config, s: State, t: Tid)
    requires t in s.cons && CLog(s.cons[t], s.taken, t) && StepConsumer(c, s, t).Some?
    requires s.cons[t].phase == CRead ==> s.cons[t].msg.Some?
    ensures var s' := StepConsumer(c, s, t).value; CLog(s'.cons[t], s'.taken, t)
  {
    var p := s.cons[t];
    if p.phase == CRead {
      TakenLog(p, s.taken, t, p.msg.value);
    } else if p.phase == CPosted {
      assert p.returned + [p.msg] + [] == p.returned + [p.msg];
    } else {
      SameHeld(c, s, t);
    }
  }

  lemma SameHeld(c: Config, s: State, t: Tid)
    requires t in s.cons && StepConsumer(c, s, t).Some? && s.cons[t].phase != CRead && s.cons[t].phase != CPosted
    ensures var s' := StepConsumer(c, s, t).value;
      s'.taken == s.taken && s'.cons[t].returned == s.cons[t].returned && CHeld(s'.cons[t]) == CHeld(s.cons[t])
  {
  }

  lemma TakenLog(p: Consumer, taken: seq<Entry>, t: Tid, m: string)
    requires p.phase == CRead && p.msg == Some(m) && CLog(p, taken, t)
    ensures CLog(p.(phase := CCleared), taken + [Entry(t, m)], t)
  {
    OfNext(taken, Entry(t, m), t);
    AllSomeConcat(Of(taken, t), [m]);
    assert AllSome([m]) == [Some(m)];
  }

  lemma ProducerStep(c: Config, s: State, t: Tid)
    requires Inv(c, s) && t in s.prods && StepProducer(c, s, t).Some?
    ensures Inv(c, StepProducer(c, s, t).value)
  {
    var s' := StepProducer(c, s, t).value;
    ProducerFrame(c, s, t);
    ProducerMutex(c, s, t);
    ProducerCredits(c, s, t);
    if s.prods[t].phase == PLocked {
      WriteRoom(c, s, t);
    }
    ProducerContent(c, s, t);
    ProducerPositions(c, s, t);
    ReadsFrame(s, s');
    ProducerLog(c, s, t);
    PLogsFrame(s.prods, s.posted, t, s'.prods[t], s'.posted, s.prods[t].msg);
  }

  lemma ConsumerStep(c: Config, s: State, t: Tid)
    requires Inv(c, s) && t in s.cons && StepConsumer(c, s, t).Some?
    ensures Inv(c, StepConsumer(c, s, t).value)
  {
    var s' := StepConsumer(c, s, t).value;
    ConsumerFrame(c, s, t);
    ConsumerMutex(c, s, t);
    ConsumerCredits(c, s, t);
    if s.cons[t].phase == CLocked || s.cons[t].phase == CRead {
      ReadReady(c, s, t);
    }
    ConsumerContent(c, s, t);
    ConsumerPositions(c, s, t);
    ConsumerReads(c, s, t);
    ConsumerLog(c, s, t);
    var m :| s'.taken == s.taken || s'.taken == s.taken + [Entry(t, m)];
    CLogsFrame(s.cons, s.taken, t, s'.cons[t], s'.taken, m);
  }

  lemma ActionKeepsInv(c: Config, s: State, a: Action)
    requires Inv(c, s) && StepAction(c, s, a).Some?
    ensures Inv(c, StepAction(c, s, a).value)
  {
    match a {
      case Post(t, m) => PostKeepsInv(c, s, t, m);
      case Produce(t) => ProducerStep(c, s, t);
      case Get(t) => GetKeepsInv(c, s, t);
      case Consume(t) => ConsumerStep(c, s, t);
    }
  }

  /** A producer that holds neither a credit nor the mutex. */
  predicate PIdle(p: Producer) { !PInside(p) && !Reserving(p) && !Announcing(p) }

  predicate CIdle(p: Consumer) { !CInside(p) && !Claiming(p) && !Releasing(p) }

  lemma SameCount<X>(m: map<Tid, X>, f: X -> bool, t: Tid, x: X)
    requires t in m && f(x) == f(m[t])
    ensures Count(m[t := x], f) == Count(m, f)
  {
    CountUpdate(m, f, t, x);
  }

  lemma IdleProducerMutex(c: Config, prods: map<Tid, Producer>, prodIn: Option<Tid>, pos: nat, w: nat,
      t: Tid, p: Producer)
    requires ProdMutex(c, prods, prodIn) && ProdPos(prodIn, prods, pos, w)
    requires t in prods && !PInside(prods[t]) && !PInside(p)
    ensures ProdMutex(c, prods[t := p], prodIn) && ProdPos(prodIn, prods[t := p], pos, w)
  {
    assert prods[t := p].Keys == prods.Keys;
    assert prodIn != Some(t);
  }

  lemma IdleConsumerMutex(c: Config, cons: map<Tid, Consumer>, consIn: Option<Tid>, pos: nat, r: nat,
      t: Tid, p: Consumer)
    requires ConsMutex(c, cons, consIn) && ConsPos(consIn, cons, pos, r)
    requires t in cons && !CInside(cons[t]) && !CInside(p)
    ensures ConsMutex(c, cons[t := p], consIn) && ConsPos(consIn, cons[t := p], pos, r)
    ensures consIn != Some(t)
  {
    assert cons[t := p].Keys == cons.Keys;
    assert consIn != Some(t);
  }

  /** An idle producer may change into another idle one that keeps its log. */
  lemma IdleProducer(c: Config, s: State, t: Tid, p: Producer)
    requires Inv(c, s) && t in s.prods && PIdle(s.prods[t]) && PIdle(p) && PLog(p, s.posted, t)
    ensures Inv(c, s.(prods := s.prods[t := p]))
  {
    var s' := s.(prods := s.prods[t := p]);
    SameCount(s.prods, Announcing, t, p);
    SameCount(s.prods, Reserving, t, p);
    CreditsMove(s, s');
    IdleProducerMutex(c, s.prods, s.prodIn, s.prodPos, |s.posted|, t, p);
    ReadsFrame(s, s');
    PLogsFrame(s.prods, s.posted, t, p, s.posted, "");
  }

  lemma IdleReads(s: State, t: Tid, p: Consumer)
    requires Reads(s) && t in s.cons && s.consIn != Some(t)
    ensures Reads(s.(cons := s.cons[t := p]))
  {
  }

  lemma IdleConsumer(c: Config, s: State, t: Tid, p: Consumer)
    requires Inv(c, s) && t in s.cons && CIdle(s.cons[t]) && CIdle(p) && CLog(p, s.taken, t)
    ensures Inv(c, s.(cons := s.cons[t := p]))
  {
    var s' := s.(cons := s.cons[t := p]);
    SameCount(s.cons, Claiming, t, p);
    SameCount(s.cons, Releasing, t, p);
    CreditsMove(s, s');
    IdleConsumerMutex(c, s.cons, s.consIn, s.consPos, |s.taken|, t, p);
    IdleReads(s, t, p);
    CLogsFrame(s.cons, s.taken, t, p, s.taken, "");
  }

  lemma CalledLog(p: Producer, posted: seq<Entry>, t: Tid, m: string)
    requires p.phase == POut && PLog(p, posted, t)
    ensures PLog(Producer(PWait, m, p.calls + [m]), posted, t)
  {
  }

  lemma AskedLog(p: Consumer, taken: seq<Entry>, t: Tid)
    requires p.phase == COut && CLog(p, taken, t)
    ensures CLog(p.(phase := CWait, msg := None), taken, t)
  {
  }

  lemma PostKeepsInv(c: Config, s: State, t: Tid, m: string)
    requires Inv(c, s) && StepAction(c, s, Post(t, m)).Some?
    ensures Inv(c, StepAction(c, s, Post(t, m)).value)
  {
    CalledLog(s.prods[t], s.posted, t, m);
    IdleProducer(c, s, t, Producer(PWait, m, s.prods[t].calls + [m]));
  }

  lemma GetKeepsInv(c: Config, s: State, t: Tid)
    requires Inv(c, s) && StepAction(c, s, Get(t)).Some?
    ensures Inv(c, StepAction(c, s, Get(t)).value)
  {
    AskedLog(s.cons[t], s.taken, t);
    IdleConsumer(c, s, t, s.cons[t].(phase := CWait, msg := None));
  }

  lemma InitInv(c: Config, producers: set<Tid>, consumers: set<Tid>)
    requires Threads(c.lockProducers, producers) && Threads(c.lockConsumers, consumers)
    ensures Inv(c, Init(producers, consumers))
  {
    var s := Init(producers, consumers);
    CountNone(s.prods, Announcing);
    CountNone(s.prods, Reserving);
    CountNone(s.cons, Claiming);
    CountNone(s.cons, Releasing);
    assert s.prods.Keys == producers && s.cons.Keys == consumers;
  }

  lemma {:induction false} RunKeepsInv(c: Config, s: State, actions: seq<Action>)
    requires Inv(c, s)
    ensures Inv(c, Run(c, s, actions))
    decreases |actions|
  {
    if actions != [] {
      var next := StepAction(c, s, actions[0]);
      if next.Some? {
        ActionKeepsInv(c, s, actions[0]);
        RunKeepsInv(c, next.value, actions[1..]);
      } else {
        RunKeepsInv(c, s, actions[1..]);
      }
    }
  }

  // ---------------------------------------------------------------------------------------------
  // What holds in every reachable state
  // ---------------------------------------------------------------------------------------------

  /** A write never overwrites a message: the slot it goes to is empty. */
  lemma NoOverwrite(c: Config, producers: set<Tid>, consumers: set<Tid>, actions: seq<Action>, t: Tid)
    requires Threads(c.lockProducers, producers) && Threads(c.lockConsumers, consumers)
    requires var s := Run(c, Init(producers, consumers), actions);
      t in s.prods && s.prods[t].phase == PLocked
    ensures var s := Run(c, Init(producers, consumers), actions);
      s.prodPos < |s.slots| && s.slots[s.prodPos] == None
  {
    InitInv(c, producers, consumers);
    RunKeepsInv(c, Init(producers, consumers), actions);
    WriteRoom(c, Run(c, Init(producers, consumers), actions), t);
  }

  /**
    Order and loss, for every interleaving: the messages taken out are, in order, the first ones put
    in; what each producer put in is what it was called with, except a message still on its way; what
    each consumer returned is what it took, except the message in its hands. No message is NULL.
   */
  lemma DeliveredInOrder(c: Config, producers: set<Tid>, consumers: set<Tid>, actions: seq<Action>)
    requires Threads(c.lockProducers, producers) && Threads(c.lockConsumers, consumers)
    ensures var s := Run(c, Init(producers, consumers), actions);
      && MsgsOf(s.taken, s.posted) && |s.posted| <= |s.taken| + 16
      && (forall t :: t in s.prods ==> s.prods[t].calls == Of(s.posted, t) + PPending(s.prods[t]))
      && (forall t :: t in s.cons ==> s.cons[t].returned + CHeld(s.cons[t]) == AllSome(Of(s.taken, t)))
  {
    InitInv(c, producers, consumers);
    RunKeepsInv(c, Init(producers, consumers), actions);
    var s := Run(c, Init(producers, consumers), actions);
    assert forall t :: t in s.prods ==> PLog(s.prods[t], s.posted, t);
    assert forall t :: t in s.cons ==> CLog(s.cons[t], s.taken, t);
  }

  lemma HeldIsSome(p: Consumer, taken: seq<Entry>, t: Tid)
    requires p.phase == CPosted && CLog(p, taken, t)
    ensures p.msg.Some?
  {
    assert (p.returned + CHeld(p))[|p.returned|] == p.msg;
  }

  /** The assertion after the read: in every run, what a consumer is about to return is a message. */
  lemma NeverReturnsNull(c: Config, producers: set<Tid>, consumers: set<Tid>, actions: seq<Action>, t: Tid)
    requires Threads(c.lockProducers, producers) && Threads(c.lockConsumers, consumers)
    requires var s := Run(c, Init(producers, consumers), actions);
      t in s.cons && s.cons[t].phase == CPosted
    ensures Run(c, Init(producers, consumers), actions).cons[t].msg.Some?
  {
    var s := Run(c, Init(producers, consumers), actions);
    InitInv(c, producers, consumers);
    RunKeepsInv(c, Init(producers, consumers), actions);
    HeldIsSome(s.cons[t], s.taken, t);
  }

  lemma {:induction false} OfOnly(log: seq<Entry>, t: Tid)
    requires forall j :: 0 <= j < |log| ==> log[j].tid == t
    ensures |Of(log, t)| == |log| && forall j :: 0 <= j < |log| ==> Of(log, t)[j] == log[j].msg
  {
    if log != [] {
      OfOnly(log[..|log| - 1], t);
    }
  }

  lemma {:induction false} RunKeepsThreads(c: Config, s: State, actions: seq<Action>)
    ensures Run(c, s, actions).prods.Keys == s.prods.Keys && Run(c, s, actions).cons.Keys == s.cons.Keys
    decreases |actions|
  {
    if actions != [] {
      match StepAction(c, s, actions[0]) {
        case None => RunKeepsThreads(c, s, actions[1..]);
        case Some(s') =>
          match actions[0] {
            case Post(t, m) => assert s'.prods.Keys == s.prods.Keys;
            case Produce(t) => ProducerFrame(c, s, t);
            case Get(t) => assert s'.cons.Keys == s.cons.Keys;
            case Consume(t) => ConsumerFrame(c, s, t);
          }
          RunKeepsThreads(c, s', actions[1..]);
      }
    }
  }

  /** What the two queue theorems need of a reachable state. */
  lemma Reached(c: Config, producers: set<Tid>, consumers: set<Tid>, actions: seq<Action>)
    requires Threads(c.lockProducers, producers) && Threads(c.lockConsumers, consumers)
    ensures var s := Run(c, Init(producers, consumers), actions);
      && s.prods.Keys == producers && s.cons.Keys == consumers
      && Logs(s) && MsgsOf(s.taken, s.posted) && |s.posted| <= |s.taken| + SLOTS
  {
    var s0 := Init(producers, consumers);
    InitInv(c, producers, consumers);
    RunKeepsInv(c, s0, actions);
    RunKeepsThreads(c, s0, actions);
    assert s0.prods.Keys == producers && s0.cons.Keys == consumers;
  }

  /**
    The send queue: whatever the producers do, the sending thread gets the messages in the order in
    which the mutex was taken, each once, and never NULL.
   */
  lemma SendQueueIsFifo(producers: set<Tid>, sender: Tid, actions: seq<Action>)
    ensures var s := Run(SEND_RING, Init(producers, {sender}), actions);
      && sender in s.cons
      && |s.cons[sender].returned| <= |s.posted| <= |s.cons[sender].returned| + 17
      && forall j :: 0 <= j < |s.cons[sender].returned| ==> s.cons[sender].returned[j] == Some(s.posted[j].msg)
  {
    Reached(SEND_RING, producers, {sender}, actions);
    var s := Run(SEND_RING, Init(producers, {sender}), actions);
    assert sender in s.cons.Keys;
    OfOnly(s.taken, sender);
    var p := s.cons[sender];
    assert CLog(p, s.taken, sender);
    forall j | 0 <= j < |p.returned| ensures p.returned[j] == Some(s.posted[j].msg) {
      assert p.returned[j] == (p.returned + CHeld(p))[j] == AllSome(Of(s.taken, sender))[j];
    }
  }

  /**
    The receive queue: what the consumers take, in the order of their mutex, is what the reading thread
    posted, in the order in which it posted; each of them returns what it took.
   */
  lemma ReceiveQueueIsFifo(reader: Tid, consumers: set<Tid>, actions: seq<Action>)
    ensures var s := Run(RECV_RING, Init({reader}, consumers), actions);
      && reader in s.prods
      && |s.taken| <= |s.prods[reader].calls|
      && (forall j :: 0 <= j < |s.taken| ==> s.taken[j].msg == s.prods[reader].calls[j])
      && (forall t :: t in s.cons ==> s.cons[t].returned + CHeld(s.cons[t]) == AllSome(Of(s.taken, t)))
  {
    Reached(RECV_RING, {reader}, consumers, actions);
    var s := Run(RECV_RING, Init({reader}, consumers), actions);
    assert reader in s.prods.Keys;
    OfOnly(s.posted, reader);
    assert PLog(s.prods[reader], s.posted, reader);
    assert forall t :: t in s.cons ==> CLog(s.cons[t], s.taken, t);
  }

  /** The tokens of both semaphores, the threads holding one, and the ring add up to 16 at every step. */
  lemma SixteenCredits(c: Config, producers: set<Tid>, consumers: set<Tid>, actions: seq<Action>)
    requires Threads(c.lockProducers, producers) && Threads(c.lockConsumers, consumers)
    ensures var s := Run(c, Init(producers, consumers), actions);
      s.empty + s.full + Count(s.prods, Reserving) + Count(s.prods, Announcing)
      + Count(s.cons, Claiming) + Count(s.cons, Releasing) == 16
  {
    InitInv(c, producers, consumers);
    RunKeepsInv(c, Init(producers, consumers), actions);
  }

  // ---------------------------------------------------------------------------------------------
  // No deadlock
  // ---------------------------------------------------------------------------------------------

  /** No thread inside a call can do its next statement. */
  ghost predicate Stuck(c: Config, s: State)
  {
    && (forall t :: t in s.prods ==> StepAction(c, s, Produce(t)) == None)
    && (forall t :: t in s.cons ==> StepAction(c, s, Consume(t)) == None)
  }

  lemma ProducerInsideMoves(c: Config, s: State, t: Tid)
    requires t in s.prods && PInside(s.prods[t])
    requires s.prods[t].phase == PLocked ==> s.prodPos < |s.slots|
    ensures StepAction(c, s, Produce(t)).Some?
  {
  }

  lemma ConsumerInsideMoves(c: Config, s: State, t: Tid)
    requires t in s.cons && CInside(s.cons[t])
    requires s.cons[t].phase == CLocked || s.cons[t].phase == CRead ==> s.consPos < |s.slots|
    ensures StepAction(c, s, Consume(t)).Some?
  {
  }

  lemma ProducerHolder(c: Config, s: State, t: Tid)
    requires Inv(c, s) && t in s.prods && PInside(s.prods[t])
    ensures StepAction(c, s, Produce(t)).Some?
  {
    if s.prods[t].phase == PLocked {
      WriteRoom(c, s, t);
    }
    ProducerInsideMoves(c, s, t);
  }

  /** Past its semaphore and not inside, a producer moves or finds the mutex held. */
  lemma ProducerOutsideMoves(c: Config, s: State, t: Tid)
    requires t in s.prods && !PInside(s.prods[t]) && s.prods[t].phase != POut && s.prods[t].phase != PWait
    ensures StepAction(c, s, Produce(t)).Some? || s.prodIn.Some?
  {
  }

  /** A producer that is past its semaphore moves, or the holder of the mutex does. */
  lemma ProducerMoves(c: Config, s: State, t: Tid) returns (u: Tid)
    requires Inv(c, s) && t in s.prods && s.prods[t].phase != POut && s.prods[t].phase != PWait
    ensures u in s.prods && StepAction(c, s, Produce(u)).Some?
  {
    u := t;
    if PInside(s.prods[t]) {
      ProducerHolder(c, s, t);
    } else {
      ProducerOutsideMoves(c, s, t);
      if StepAction(c, s, Produce(t)) == None {
        u := s.prodIn.value;
        ProducerHolder(c, s, u);
      }
    }
  }

  lemma ConsumerHolder(c: Config, s: State, t: Tid)
    requires Inv(c, s) && t in s.cons && CInside(s.cons[t])
    ensures StepAction(c, s, Consume(t)).Some?
  {
    if s.cons[t].phase == CLocked || s.cons[t].phase == CRead {
      ReadReady(c, s, t);
    }
    ConsumerInsideMoves(c, s, t);
  }

  /** Past its semaphore and not inside, a consumer moves or finds the mutex held. */
  lemma ConsumerOutsideMoves(c: Config, s: State, t: Tid)
    requires t in s.cons && !CInside(s.cons[t]) && s.cons[t].phase != COut && s.cons[t].phase != CWait
    ensures StepAction(c, s, Consume(t)).Some? || s.consIn.Some?
  {
  }

  /** A consumer that is past its semaphore moves, or the holder of the mutex does. */
  lemma ConsumerMoves(c: Config, s: State, t: Tid) returns (u: Tid)
    requires Inv(c, s) && t in s.cons && s.cons[t].phase != COut && s.cons[t].phase != CWait
    ensures u in s.cons && StepAction(c, s, Consume(u)).Some?
  {
    u := t;
    if CInside(s.cons[t]) {
      ConsumerHolder(c, s, t);
    } else {
      ConsumerOutsideMoves(c, s, t);
      if StepAction(c, s, Consume(t)) == None {
        u := s.consIn.value;
        ConsumerHolder(c, s, u);
      }
    }
  }

  ghost predicate AllWait(s: State)
  {
    && (forall t :: t in s.prods ==> s.prods[t].phase == POut || (s.prods[t].phase == PWait && s.empty == 0))
    && (forall t :: t in s.cons ==> s.cons[t].phase == COut || (s.cons[t].phase == CWait && s.full == 0))
  }

  lemma StuckWaits(c: Config, s: State)
    requires Inv(c, s) && Stuck(c, s)
    ensures AllWait(s)
  {
    forall t | t in s.prods ensures s.prods[t].phase == POut || (s.prods[t].phase == PWait && s.empty == 0) {
      assert StepAction(c, s, Produce(t)) == None;
      if s.prods[t].phase != POut && s.prods[t].phase != PWait {
        var u := ProducerMoves(c, s, t);
      }
    }
    forall t | t in s.cons ensures s.cons[t].phase == COut || (s.cons[t].phase == CWait && s.full == 0) {
      assert StepAction(c, s, Consume(t)) == None;
      if s.cons[t].phase != COut && s.cons[t].phase != CWait {
        var u := ConsumerMoves(c, s, t);
      }
    }
  }

  lemma WaitersAgree(s: State)
    requires Credits(s) && AllWait(s)
    ensures forall t :: t in s.prods && s.prods[t].phase != POut ==> |s.posted| - |s.taken| == SLOTS
    ensures forall t :: t in s.cons && s.cons[t].phase != COut ==> |s.posted| == |s.taken|
  {
    CountNone(s.prods, Announcing);
    CountNone(s.prods, Reserving);
    CountNone(s.cons, Claiming);
    CountNone(s.cons, Releasing);
  }

  /**
    When no thread can go on, the only reasons are the intended ones: producers wait only on a ring of
    16 untaken messages, consumers only on an empty ring, so the two sides never wait for each other.
   */
  lemma WaitsOnlyForRoomOrMessages(c: Config, producers: set<Tid>, consumers: set<Tid>, actions: seq<Action>)
    requires Threads(c.lockProducers, producers) && Threads(c.lockConsumers, consumers)
    requires Stuck(c, Run(c, Init(producers, consumers), actions))
    ensures var s := Run(c, Init(producers, consumers), actions);
      && (forall t :: t in s.prods && s.prods[t].phase != POut ==> |s.posted| - |s.taken| == 16)
      && (forall t :: t in s.cons && s.cons[t].phase != COut ==> |s.posted| == |s.taken|)
  {
    InitInv(c, producers, consumers);
    RunKeepsInv(c, Init(producers, consumers), actions);
    StuckWaits(c, Run(c, Init(producers, consumers), actions));
    WaitersAgree(Run(c, Init(producers, consumers), actions));
  }
}
