/**
  The table of callbacks waiting for the answer to a query (src/xmpp/id_handler.c): an array of 64
  entries that doubles when no place is free, and the counter that makes the identifiers.
 */
module IdHandler {
  import opened CStrings
  import opened CallbackTable

  /** `t_uid` holds 12 characters. */
  const ID_TABLE: Config := Config(12, true)

  /** An entry without callback is never registered; an absent message id is not looked up. */
  function Registered(t: Table, id: string, permanent: bool, callback: Option<nat>, args: nat, now: int): Table
    requires |t.slots| > 0
  {
    match callback
    case None => t
    case Some(f) => DoRegister(ID_TABLE, t, Reg(id, permanent, now, f, args))
  }

  function Handled(t: Table, msgId: Option<string>, now: int, burst: nat -> seq<Op>): (bool, Table)
    requires |t.slots| > 0 && FreshBursts(burst, now)
  {
    match msgId
    case None => (false, t)
    case Some(key) => Scan(ID_TABLE, t, 0, key, now, burst)
  }

  /** The callbacks that run during a scan: here they only register. */
  ghost predicate Registers(burst: nat -> seq<Op>, now: int) { FreshBursts(burst, now) && NoRemovals(burst) }

  lemma BurstAt(burst: nat -> seq<Op>, now: int, s: nat)
    requires Registers(burst, now)
    ensures forall k :: 0 <= k < |burst(s)| ==> burst(s)[k].Register?
  {
    forall k | 0 <= k < |burst(s)| ensures burst(s)[k].Register? {
      var n: nat := k;
      assert burst(s)[n].Register?;
    }
  }

  class IdHandlers {
    var handlers: array<Slot>
    /** Not in the program: everything registered and every callback called so far. */
    var registered: seq<Reg>
    var called: seq<Fire>

    constructor ()
      ensures Valid() && fresh(handlers) && State() == Empty(64)
    {
      handlers := new Slot[64](i => FREE);
      registered := [];
      called := [];
      new;
      assert handlers[..] == FreeSlots(64);
    }

    ghost predicate Valid()
      reads this
    {
      handlers.Length > 0
    }

    ghost function State(): (t: Table)
      reads this, handlers
      requires Valid()
      ensures |t.slots| > 0
    {
      Table(handlers[..], registered, called, {}, false)
    }

    /** Twice the room, the old entries in their old places, zeroes behind them. */
    method Double()
      requires Valid()
      modifies this`handlers
      ensures Valid() && fresh(handlers) && handlers.Length == 2 * old(handlers.Length)
      ensures handlers[..] == old(handlers[..]) + FreeSlots(old(handlers.Length))
    {
      var n := handlers.Length;
      var was := handlers;
      var bigger := new Slot[2 * n](i => FREE);
      for k := 0 to n
        invariant forall j :: 0 <= j < k ==> bigger[j] == was[j]
        invariant forall j :: k <= j < 2 * n ==> bigger[j] == FREE
        invariant fresh(bigger) && was[..] == old(handlers[..])
      {
        bigger[k] := was[k];
      }
      handlers := bigger;
      assert handlers[..] == was[..] + FreeSlots(n);
    }

    method FindFree() returns (i: nat)
      requires Valid()
      ensures i == FirstFree(handlers[..])
    {
      i := 0;
      while i < handlers.Length && handlers[i].key != ""
        invariant i <= handlers.Length
        invariant forall j :: 0 <= j < i ==> Live(handlers[j])
      {
        i := i + 1;
      }
      FirstFreeIs(handlers[..], i);
    }

    method Register(id: string, permanent: bool, callback: Option<nat>, args: nat, now: int)
      requires Valid()
      modifies this, handlers
      ensures Valid() && (handlers == old(handlers) || fresh(handlers))
      ensures State() == Registered(old(State()), id, permanent, callback, args, now)
    {
      if callback == None {
        return;
      }
      ghost var was := handlers[..];
      var i := FindFree();
      if i >= handlers.Length {
        Double();
      }
      var r := Reg(id, permanent, now, callback.value, args);
      handlers[i] := SlotOf(ID_TABLE, r, |registered|);
      registered := registered + [r];
      PlacedByWrite(was, handlers[..], i, SlotOf(ID_TABLE, r, |registered| - 1));
    }

    /** What a callback does to the table while the lock is free. */
    method Apply(ops: seq<Op>)
      requires Valid() && forall k :: 0 <= k < |ops| ==> ops[k].Register?
      modifies this, handlers
      ensures Valid() && (handlers == old(handlers) || fresh(handlers))
      ensures State() == DoOps(ID_TABLE, old(State()), ops)
    {
      ghost var start := State();
      for k := 0 to |ops|
        invariant Valid() && (handlers == old(handlers) || fresh(handlers))
        invariant DoOps(ID_TABLE, State(), ops[k..]) == DoOps(ID_TABLE, start, ops)
      {
        var r := ops[k].reg;
        Register(r.key, r.permanent, Some(r.callback), r.args, r.timestamp);
        assert ops[k..][0] == ops[k] && ops[k..][1..] == ops[k + 1..];
      }
      assert ops[|ops|..] == [];
    }

    /** Frees the entry unless it is permanent, then calls its callback. */
    method Call(i: nat, timeout: bool, ops: seq<Op>)
      requires Valid() && i < handlers.Length
      requires forall k :: 0 <= k < |ops| ==> ops[k].Register?
      modifies this, handlers
      ensures Valid() && (handlers == old(handlers) || fresh(handlers))
      ensures State() == DoOps(ID_TABLE, DoFire(old(State()), i, timeout), ops)
    {
      ghost var t := State();
      var s := handlers[i];
      if !s.permanent {
        handlers[i] := s.(key := "");
      }
      called := called + [Fire(s.serial, timeout, s.callback, s.args)];
      assert State().slots == DoFire(t, i, timeout).slots;
      Apply(ops);
    }

    method Handle(msgId: Option<string>, now: int, burst: nat -> seq<Op>) returns (handled: bool)
      requires Valid() && Registers(burst, now)
      modifies this, handlers
      ensures Valid() && (handlers == old(handlers) || fresh(handlers))
      ensures (handled, State()) == Handled(old(State()), msgId, now, burst)
    {
      if msgId == None {
        return false;
      }
      var key := msgId.value;
      ghost var start := State();
      var i := 0;
      while i < handlers.Length
        invariant Valid() && (handlers == old(handlers) || fresh(handlers))
        invariant i <= handlers.Length
        invariant Scan(ID_TABLE, State(), i, key, now, burst) == Scan(ID_TABLE, start, 0, key, now, burst)
        decreases Pending(handlers[..], i, now), handlers.Length - i
      {
        var s := handlers[i];
        BurstAt(burst, now, s.serial);
        if key != "" && Clip(s.key, 12) == Clip(key, 12) {
          Call(i, false, burst(s.serial));
          return true;
        }
        if s.key != "" && s.timestamp + TIMEOUT < now && !s.permanent {
          TimeoutProgress(ID_TABLE, State(), i, now, burst);
          Call(i, true, burst(s.serial));
        }
        i := i + 1;
      }
      return false;
    }
  }

  lemma PlacedByWrite(was: seq<Slot>, now: seq<Slot>, i: nat, s: Slot)
    requires |was| > 0 && i == FirstFree(was)
    requires i < |was| ==> now == was[i := s]
    requires i == |was| ==> now == (was + FreeSlots(|was|))[i := s]
    ensures now == Placed(was, s)
  {
    if i == |was| {
      assert now == was + [s] + FreeSlots(|was| - 1);
    }
  }

  // ---------------------------------------------------------------------------------------------
  // Identifiers
  // ---------------------------------------------------------------------------------------------

  const UINT_MAX: nat := 0xFFFF_FFFF

  function Zeros(n: int): (s: string)
    ensures |s| == (if n > 0 then n else 0) && forall i :: 0 <= i < |s| ==> s[i] == '0'
  {
    if n <= 0 then "" else "0" + Zeros(n - 1)
  }

  /** printf("%0<width>d") of a number that is not negative. */
  function ZeroPadded(n: nat, width: nat): (s: string)
    ensures |s| >= width && |s| >= |Dec(n)| && (|s| == width || |s| == |Dec(n)|)
    ensures forall i :: 0 <= i < |s| ==> IsDigit(s[i])
  {
    Zeros(width - |Dec(n)|) + Dec(n)
  }

  /** printf("%08d"): the counter is unsigned, the conversion signed; the sign takes one place. */
  function Signed8(v: int): string
  {
    if v >= 0 then ZeroPadded(v, 8) else "-" + ZeroPadded(-v, 7)
  }

  /** What idh_generate_unique_id prints for a counter value. */
  function IdText(n: nat): string { "uid" + Signed8(ToInt32(n)) }

  class Counter {
    var id: nat

    constructor ()
      ensures id == 0
    {
      id := 0;
    }

    method GenerateUniqueId() returns (uid: string)
      requires id <= UINT_MAX
      modifies this
      ensures id == (old(id) + 1) % 0x1_0000_0000
      ensures uid == IdText(id)
    {
      id := (id + 1) % 0x1_0000_0000;
      uid := IdText(id);
    }
  }

  lemma {:induction false} ZerosValue(z: nat, n: nat)
    ensures forall i :: 0 <= i < |Zeros(z) + Dec(n)| ==> IsDigit((Zeros(z) + Dec(n))[i])
    ensures DigitsValue(Zeros(z) + Dec(n)) == n
    decreases n
  {
    var s := Zeros(z) + Dec(n);
    if n >= 10 {
      ZerosValue(z, n / 10);
      assert s[..|s| - 1] == Zeros(z) + Dec(n / 10);
    } else {
      assert s[..|s| - 1] == Zeros(z);
      ZerosOnly(Zeros(z));
    }
  }

  lemma {:induction false} ZerosOnly(s: string)
    requires forall i :: 0 <= i < |s| ==> s[i] == '0'
    ensures DigitsValue(s) == 0
  {
    if s != "" {
      ZerosOnly(s[..|s| - 1]);
    }
  }

  lemma ZeroPaddedInjective(m: nat, n: nat, width: nat)
    requires ZeroPadded(m, width) == ZeroPadded(n, width)
    ensures m == n
  {
    var zm: nat := if width > |Dec(m)| then width - |Dec(m)| else 0;
    var zn: nat := if width > |Dec(n)| then width - |Dec(n)| else 0;
    assert Zeros(zm) == Zeros(width - |Dec(m)|) && Zeros(zn) == Zeros(width - |Dec(n)|);
    ZerosValue(zm, m);
    ZerosValue(zn, n);
  }

  lemma SignShown(v: int)
    ensures |Signed8(v)| > 0 && (Signed8(v)[0] == '-' <==> v < 0)
    ensures v < 0 ==> Signed8(v)[1..] == ZeroPadded(-v, 7)
  {
  }

  lemma Signed8Injective(v: int, w: int)
    requires Signed8(v) == Signed8(w)
    ensures v == w
  {
    SignShown(v);
    SignShown(w);
    if v >= 0 {
      ZeroPaddedInjective(v, w, 8);
    } else {
      ZeroPaddedInjective(-v, -w, 7);
    }
  }

  lemma ToInt32Injective(m: nat, n: nat)
    requires m <= UINT_MAX && n <= UINT_MAX && ToInt32(m) == ToInt32(n)
    ensures m == n
  {
  }

  function Pow10(k: nat): (p: nat)
    ensures p > 0
  {
    if k == 0 then 1 else 10 * Pow10(k - 1)
  }

  lemma {:induction false} DecLength(n: nat, k: nat)
    requires k > 0
    ensures |Dec(n)| <= k <==> n < Pow10(k)
    decreases k
  {
    if k == 1 {
      assert Pow10(1) == 10;
      assert n >= 10 ==> |Dec(n)| == |Dec(n / 10)| + 1;
    } else if n >= 10 {
      DecLength(n / 10, k - 1);
    }
  }

  lemma Powers()
    ensures Pow10(7) == 10_000_000 && Pow10(8) == 100_000_000
  {
    assert Pow10(1) == 10;
    assert Pow10(3) == 1000;
    assert Pow10(5) == 100_000;
  }

  /** The text and its terminator fit the 12 characters of `t_uid` exactly for these counter values. */
  lemma IdFits(n: nat)
    requires n <= UINT_MAX
    ensures |IdText(n)| + 1 <= 12 <==> n < 100_000_000 || n > UINT_MAX - 9_999_999
  {
    var v := ToInt32(n);
    Powers();
    if v >= 0 {
      DecLength(v, 8);
    } else {
      DecLength(-v, 7);
    }
  }

  /** Two different counter values never print the same identifier. */
  lemma IdsDistinct(m: nat, n: nat)
    requires m <= UINT_MAX && n <= UINT_MAX && IdText(m) == IdText(n)
    ensures m == n
  {
    SameRest("uid", Signed8(ToInt32(m)), Signed8(ToInt32(n)));
    Signed8Injective(ToInt32(m), ToInt32(n));
    ToInt32Injective(m, n);
  }

  /** An entry registered under one identifier is not taken for another, as long as both fit. */
  lemma IdsDoNotCollide(m: nat, n: nat, s: Slot)
    requires m < 100_000_000 && n < 100_000_000
    requires s.key == Clip(IdText(m), ID_TABLE.width)
    ensures Matches(s, IdText(n), ID_TABLE.width) <==> m == n
  {
    IdFits(m);
    IdFits(n);
    if IdText(m) == IdText(n) {
      IdsDistinct(m, n);
    }
  }

  /** Below 10^8 an identifier is "uid" and the eight digits of its number. */
  lemma IdTextIs(n: nat)
    requires n < 100_000_000
    ensures var id := IdText(n);
      && |id| == 11 && id[..3] == "uid" && (forall i :: 3 <= i < 11 ==> IsDigit(id[i]))
      && DigitsValue(id[3..]) == n
  {
    Powers();
    DecLength(n, 8);
    FitsInt32(n);
    ZerosValue(8 - |Dec(n)|, n);
    assert IdText(n)[3..] == Zeros(8 - |Dec(n)|) + Dec(n);
  }

  /** An entry waits for every identifier that has the same first twelve characters as its own. */
  lemma MatchesTwelve(own: string, id: string, s: Slot)
    requires s.key == Clip(own, ID_TABLE.width) && id != ""
    ensures Matches(s, id, ID_TABLE.width) <==> own == id || (|own| >= 12 && |id| >= 12 && own[..12] == id[..12])
  {
  }

  /** A message is handled if an entry waits for its id; one without id is not looked up. */
  lemma WaitingIsHandled(t: Table, id: string, now: int, burst: nat -> seq<Op>, j: nat)
    requires |t.slots| > 0 && !t.aborted && Registers(burst, now)
    requires j < |t.slots| && id != "" && Clip(t.slots[j].key, 12) == Clip(id, 12)
    ensures Handled(t, Some(id), now, burst).0
    ensures Handled(t, None, now, burst) == (false, t)
  {
    WaitingIsAnswered(ID_TABLE, t, 0, j, id, now, burst);
  }
}
