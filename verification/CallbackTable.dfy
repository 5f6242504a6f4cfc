/**
  What the two callback tables have in common: src/xmpp/id_handler.c (keys of 12 characters, a table
  that doubles when full) and src/xmpp/query_handler.c (keys of 32 characters, 64 entries, an
  assertion when full).

  A callback runs outside the lock and is modelled by what it does to the table: a finite list of
  registrations and removals, chosen arbitrarily for every registration.
 */
module CallbackTable {

  /** An entry whose key is empty is free; the other fields then keep their old values. */
  datatype Slot = Slot(key: string, permanent: bool, timestamp: int, callback: nat, args: nat, serial: nat)

  datatype Reg = Reg(key: string, permanent: bool, timestamp: int, callback: nat, args: nat)

  datatype Op = Register(reg: Reg) | Remove(key: string)

  /** A call of a callback: with the message it waited for, or with nothing after a timeout. */
  datatype Fire = Fire(serial: nat, timeout: bool, callback: nat, args: nat)

  datatype Config = Config(width: nat, growing: bool)

  /**
    The slots, everything registered so far (the serial number is the rank), everything fired or
    removed so far, and whether the overflow assertion failed.
   */
  datatype Table = Table(slots: seq<Slot>, regs: seq<Reg>, fired: seq<Fire>, removed: set<nat>, aborted: bool)

  const TIMEOUT: int := 120

  const FREE: Slot := Slot("", false, 0, 0, 0, 0)

  function FreeSlots(n: nat): (s: seq<Slot>)
    ensures |s| == n && forall i :: 0 <= i < n ==> s[i] == FREE
  {
    seq(n, i => FREE)
  }

  function Empty(n: nat): Table { Table(FreeSlots(n), [], [], {}, false) }

  predicate Live(s: Slot) { s.key != "" }

  /** The part of a key that strncpy and strncmp look at. */
  function Clip(key: string, width: nat): string
  {
    if |key| <= width then key else key[..width]
  }

  predicate Matches(s: Slot, key: string, width: nat)
  {
    key != "" && width > 0 && Clip(s.key, width) == Clip(key, width)
  }

  predicate Expired(s: Slot, now: int) { Live(s) && s.timestamp + TIMEOUT < now && !s.permanent }

  function FirstFree(slots: seq<Slot>): (i: nat)
    ensures i <= |slots| && (i < |slots| ==> !Live(slots[i]))
    ensures forall j :: 0 <= j < i ==> Live(slots[j])
  {
    if slots == [] || !Live(slots[0]) then 0 else 1 + FirstFree(slots[1..])
  }

  lemma FirstFreeIs(slots: seq<Slot>, i: nat)
    requires i <= |slots| && (i < |slots| ==> !Live(slots[i]))
    requires forall j :: 0 <= j < i ==> Live(slots[j])
    ensures FirstFree(slots) == i
  {
  }

  function SlotOf(c: Config, r: Reg, serial: nat): Slot
  {
    Slot(Clip(r.key, c.width), r.permanent, r.timestamp, r.callback, r.args, serial)
  }

  /** The slots after writing one at the first free place, doubling the table when there is none. */
  function Placed(slots: seq<Slot>, s: Slot): (r: seq<Slot>)
    requires |slots| > 0
    ensures |r| == |slots| || |r| == 2 * |slots|
  {
    var i := FirstFree(slots);
    if i < |slots| then slots[i := s] else slots + [s] + FreeSlots(|slots| - 1)
  }

  predicate Full(slots: seq<Slot>) { FirstFree(slots) == |slots| }

  function DoRegister(c: Config, t: Table, r: Reg): Table
    requires |t.slots| > 0
  {
    if t.aborted then t
    else if Full(t.slots) && !c.growing then t.(aborted := true)
    else t.(slots := Placed(t.slots, SlotOf(c, r, |t.regs|)), regs := t.regs + [r])
  }

  /** Frees every entry with the key. */
  function Cleared(slots: seq<Slot>, key: string, width: nat): (r: seq<Slot>)
    ensures |r| == |slots|
  {
    seq(|slots|, i requires 0 <= i < |slots| =>
      if Matches(slots[i], key, width) then slots[i].(key := "") else slots[i])
  }

  function DoRemove(c: Config, t: Table, key: string): Table
  {
    if t.aborted then t
    else
      t.(slots := Cleared(t.slots, key, c.width),
         removed := t.removed + set i | 0 <= i < |t.slots| && Matches(t.slots[i], key, c.width) :: t.slots[i].serial)
  }

  function DoOp(c: Config, t: Table, op: Op): (r: Table)
    requires |t.slots| > 0
    ensures |r.slots| > 0
  {
    match op
    case Register(r) => DoRegister(c, t, r)
    case Remove(key) => DoRemove(c, t, key)
  }

  function DoOps(c: Config, t: Table, ops: seq<Op>): (r: Table)
    requires |t.slots| > 0
    ensures |r.slots| > 0
    decreases |ops|
  {
    if ops == [] then t else DoOps(c, DoOp(c, t, ops[0]), ops[1..])
  }

  /** The callback of slot i is called; a one-shot entry is freed before. */
  function DoFire(t: Table, i: nat, timeout: bool): Table
    requires i < |t.slots|
  {
    var s := t.slots[i];
    t.(slots := if s.permanent then t.slots else t.slots[i := s.(key := "")],
       fired := t.fired + [Fire(s.serial, timeout, s.callback, s.args)])
  }

  /** The callbacks of a scan at time `now` see a clock that does not run backwards. */
  ghost predicate FreshBursts(burst: nat -> seq<Op>, now: int)
  {
    forall s: nat, i: nat {:trigger burst(s)[i]} ::
      i < |burst(s)| && burst(s)[i].Register? ==> burst(s)[i].reg.timestamp >= now
  }

  /** Entries from place i on that are expired. */
  function Pending(slots: seq<Slot>, i: nat, now: int): nat
    requires i <= |slots|
    decreases |slots| - i
  {
    if i == |slots| then 0 else (if Expired(slots[i], now) then 1 else 0) + Pending(slots, i + 1, now)
  }

  /** The slots before and after a callback that registers only fresh entries. */
  ghost predicate NoNewExpired(before: seq<Slot>, after: seq<Slot>, now: int)
  {
    && |before| <= |after|
    && forall i :: 0 <= i < |after| && Expired(after[i], now) ==> i < |before| && after[i] == before[i]
  }

  lemma {:induction false} PendingShrinks(before: seq<Slot>, after: seq<Slot>, i: nat, now: int)
    requires NoNewExpired(before, after, now) && i <= |before|
    ensures Pending(after, i, now) <= Pending(before, i, now)
    decreases |after| - i
  {
    if i == |before| {
      NothingPending(after, i, now);
    } else {
      PendingShrinks(before, after, i + 1, now);
    }
  }

  lemma {:induction false} NothingPending(slots: seq<Slot>, i: nat, now: int)
    requires i <= |slots| && forall j :: i <= j < |slots| ==> !Expired(slots[j], now)
    ensures Pending(slots, i, now) == 0
    decreases |slots| - i
  {
    if i < |slots| {
      NothingPending(slots, i + 1, now);
    }
  }

  lemma RegisterFresh(c: Config, t: Table, r: Reg, now: int)
    requires |t.slots| > 0 && r.timestamp >= now
    ensures NoNewExpired(t.slots, DoRegister(c, t, r).slots, now)
  {
  }

  lemma RemoveFresh(c: Config, t: Table, key: string, now: int)
    ensures NoNewExpired(t.slots, DoRemove(c, t, key).slots, now)
  {
  }

  lemma {:induction false} OpsFresh(c: Config, t: Table, ops: seq<Op>, now: int)
    requires |t.slots| > 0
    requires forall i :: 0 <= i < |ops| && ops[i].Register? ==> ops[i].reg.timestamp >= now
    ensures NoNewExpired(t.slots, DoOps(c, t, ops).slots, now)
    decreases |ops|
  {
    if ops != [] {
      match ops[0] {
        case Register(r) => RegisterFresh(c, t, r, now);
        case Remove(key) => RemoveFresh(c, t, key, now);
      }
      OpsFresh(c, DoOp(c, t, ops[0]), ops[1..], now);
    }
  }

  /** A timeout at place i followed by its callback leaves fewer expired entries ahead. */
  lemma TimeoutProgress(c: Config, t: Table, i: nat, now: int, burst: nat -> seq<Op>)
    requires i < |t.slots| && Expired(t.slots[i], now) && FreshBursts(burst, now)
    ensures var after := DoOps(c, DoFire(t, i, true), burst(t.slots[i].serial)).slots;
      i + 1 <= |after| && Pending(after, i + 1, now) < Pending(t.slots, i, now)
  {
    var t1 := DoFire(t, i, true);
    var ops := burst(t.slots[i].serial);
    OpsFresh(c, t1, ops, now);
    var after := DoOps(c, t1, ops).slots;
    assert NoNewExpired(t.slots, t1.slots, now);
    PendingShrinks(t1.slots, after, i + 1, now);
    PendingShrinks(t.slots, t1.slots, i + 1, now);
  }

  /**
    The scan for a message: the first entry that matches is fired and ends the scan; entries found
    expired on the way are fired with nothing. It ends although callbacks may add entries and double
    the table under it, because what they add cannot be expired at the time the scan started.
   */
  function Scan(c: Config, t: Table, i: nat, key: string, now: int, burst: nat -> seq<Op>): (r: (bool, Table))
    requires i <= |t.slots| && |t.slots| > 0 && FreshBursts(burst, now)
    ensures |r.1.slots| > 0
    decreases Pending(t.slots, i, now), |t.slots| - i
  {
    if i == |t.slots| || t.aborted then (false, t)
    else if Matches(t.slots[i], key, c.width) then
      (true, DoOps(c, DoFire(t, i, false), burst(t.slots[i].serial)))
    else if Expired(t.slots[i], now) then
      TimeoutProgress(c, t, i, now, burst);
      Scan(c, DoOps(c, DoFire(t, i, true), burst(t.slots[i].serial)), i + 1, key, now, burst)
    else Scan(c, t, i + 1, key, now, burst)
  }

  // ---------------------------------------------------------------------------------------------
  // Writing one entry
  // ---------------------------------------------------------------------------------------------

  /**
    Registering writes exactly one slot, which was free: doubling the table neither loses nor moves a
    live entry, and the new places are free.
   */
  lemma PlacedKeeps(slots: seq<Slot>, s: Slot)
    requires |slots| > 0
    ensures var r, p := Placed(slots, s), FirstFree(slots);
      && p < |r| && r[p] == s
      && (forall i :: 0 <= i < |slots| && i != p ==> r[i] == slots[i])
      && (p < |slots| ==> !Live(slots[p]))
      && (forall i :: |slots| <= i < |r| && i != p ==> !Live(r[i]))
      && (|r| != |slots| <==> forall i :: 0 <= i < |slots| ==> Live(slots[i]))
  {
  }

  /** After a removal no entry matches the key, and every other entry is as it was. */
  lemma RemovedIsGone(c: Config, t: Table, key: string, i: nat)
    requires !t.aborted && i < |t.slots|
    ensures var r := DoRemove(c, t, key);
      && !Matches(r.slots[i], key, c.width)
      && (Matches(t.slots[i], key, c.width) ==> !Live(r.slots[i]) && t.slots[i].serial in r.removed)
      && (!Matches(t.slots[i], key, c.width) ==> r.slots[i] == t.slots[i])
  {
    ClearedMatchesNothing(key, c.width);
  }

  lemma ClearedMatchesNothing(key: string, width: nat)
    ensures Clip("", width) == "" && (key != "" && width > 0 ==> Clip(key, width) != "")
  {
  }

  // ---------------------------------------------------------------------------------------------
  // What every run keeps
  // ---------------------------------------------------------------------------------------------

  ghost predicate LiveIn(slots: seq<Slot>, serial: nat)
  {
    exists i :: 0 <= i < |slots| && Live(slots[i]) && slots[i].serial == serial
  }

  ghost predicate FiredIn(fired: seq<Fire>, serial: nat)
  {
    exists k :: 0 <= k < |fired| && fired[k].serial == serial
  }

  /** A live entry holds what was registered under its serial number, and no other entry has that number. */
  ghost predicate SlotsAreRegs(c: Config, t: Table)
  {
    && (forall i :: 0 <= i < |t.slots| && Live(t.slots[i]) ==>
          t.slots[i].serial < |t.regs| && t.slots[i] == SlotOf(c, t.regs[t.slots[i].serial], t.slots[i].serial))
    && (forall i, j :: 0 <= i < j < |t.slots| && Live(t.slots[i]) && Live(t.slots[j]) ==>
          t.slots[i].serial != t.slots[j].serial)
  }

  /** A call passes the callback and args of its registration; permanent entries never time out. */
  ghost predicate FiresAreRegs(t: Table)
  {
    forall k :: 0 <= k < |t.fired| ==>
      var f := t.fired[k];
      f.serial < |t.regs| && f.callback == t.regs[f.serial].callback && f.args == t.regs[f.serial].args
      && (f.timeout ==> !t.regs[f.serial].permanent)
  }

  /** At most once: a one-shot registration has one call in its whole life, by answer or by timeout. */
  ghost predicate FiresOnce(t: Table)
  {
    forall k, l :: 0 <= k < l < |t.fired| && t.fired[k].serial == t.fired[l].serial ==>
      t.fired[k].serial < |t.regs| && t.regs[t.fired[k].serial].permanent
  }

  /** Being live, having been called (for a one-shot) and having been removed exclude each other. */
  ghost predicate Exclusive(t: Table)
  {
    && (forall s: nat {:trigger LiveIn(t.slots, s)} :: LiveIn(t.slots, s) ==> s !in t.removed)
    && (forall s: nat {:trigger FiredIn(t.fired, s)} :: FiredIn(t.fired, s) && s < |t.regs| && !t.regs[s].permanent ==>
          s !in t.removed && !LiveIn(t.slots, s))
    && (forall s :: s in t.removed ==> s < |t.regs|)
  }

  /** No registration is lost: it is live, or was called (a one-shot), or was removed. */
  ghost predicate Accounted(c: Config, t: Table)
  {
    forall s: nat {:trigger t.regs[s]} :: s < |t.regs| && Clip(t.regs[s].key, c.width) != "" ==>
      LiveIn(t.slots, s) || s in t.removed || (FiredIn(t.fired, s) && !t.regs[s].permanent)
  }

  ghost predicate Inv(c: Config, t: Table)
  {
    |t.slots| > 0 && SlotsAreRegs(c, t) && FiresAreRegs(t) && FiresOnce(t) && Exclusive(t) && Accounted(c, t)
  }

  lemma EmptyInv(c: Config, n: nat)
    requires n > 0
    ensures Inv(c, Empty(n))
  {
  }

  lemma LiveAt(slots: seq<Slot>, i: nat)
    requires i < |slots| && Live(slots[i])
    ensures LiveIn(slots, slots[i].serial)
  {
  }

  lemma FiredNext(fired: seq<Fire>, f: Fire, s: nat)
    ensures FiredIn(fired + [f], s) <==> FiredIn(fired, s) || s == f.serial
  {
    var after := fired + [f];
    if FiredIn(fired, s) {
      var k :| 0 <= k < |fired| && fired[k].serial == s;
      assert after[k].serial == s;
    }
    assert after[|fired|] == f;
  }

  lemma RegisterLive(slots: seq<Slot>, x: Slot, s: nat)
    requires |slots| > 0
    ensures LiveIn(Placed(slots, x), s) <==> LiveIn(slots, s) || (Live(x) && s == x.serial)
  {
    PlacedKeeps(slots, x);
    var r := Placed(slots, x);
    var p := FirstFree(slots);
    if LiveIn(slots, s) {
      var i :| 0 <= i < |slots| && Live(slots[i]) && slots[i].serial == s;
      LiveAt(r, i);
    }
    if Live(x) {
      LiveAt(r, p);
    }
  }

  lemma FireLive(c: Config, t: Table, i: nat, timeout: bool, s: nat)
    requires i < |t.slots| && Live(t.slots[i]) && SlotsAreRegs(c, t)
    ensures LiveIn(DoFire(t, i, timeout).slots, s) <==>
            LiveIn(t.slots, s) && (t.slots[i].permanent || s != t.slots[i].serial)
  {
    var r := DoFire(t, i, timeout).slots;
    if LiveIn(t.slots, s) {
      var j :| 0 <= j < |t.slots| && Live(t.slots[j]) && t.slots[j].serial == s;
      if j != i {
        LiveAt(r, j);
      }
    }
  }

  lemma RemoveLive(c: Config, t: Table, key: string, s: nat)
    requires SlotsAreRegs(c, t) && !t.aborted
    ensures var r := DoRemove(c, t, key);
      LiveIn(r.slots, s) <==> LiveIn(t.slots, s) && s !in r.removed - t.removed
    requires LiveIn(t.slots, s) ==> s !in t.removed
  {
    var r := DoRemove(c, t, key);
    if LiveIn(t.slots, s) {
      var j :| 0 <= j < |t.slots| && Live(t.slots[j]) && t.slots[j].serial == s;
      if !Matches(t.slots[j], key, c.width) {
        assert r.slots[j] == t.slots[j];
        LiveAt(r.slots, j);
      }
    }
  }

  lemma RegisterInv(c: Config, t: Table, r: Reg)
    requires Inv(c, t)
    ensures Inv(c, DoRegister(c, t, r))
  {
    if !t.aborted && !(Full(t.slots) && !c.growing) {
      var x := SlotOf(c, r, |t.regs|);
      PlacedKeeps(t.slots, x);
      var t' := DoRegister(c, t, r);
      forall s: nat ensures LiveIn(t'.slots, s) <==> LiveIn(t.slots, s) || (Live(x) && s == x.serial) {
        RegisterLive(t.slots, x, s);
      }
      NewSerialUnused(c, t);
      assert forall s: nat :: s < |t.regs| ==> t'.regs[s] == t.regs[s];
    }
  }

  lemma NewSerialUnused(c: Config, t: Table)
    requires Inv(c, t)
    ensures !LiveIn(t.slots, |t.regs|) && !FiredIn(t.fired, |t.regs|) && |t.regs| !in t.removed
  {
  }

  lemma FireInv(c: Config, t: Table, i: nat, timeout: bool)
    requires Inv(c, t) && i < |t.slots| && Live(t.slots[i]) && (timeout ==> !t.slots[i].permanent)
    ensures Inv(c, DoFire(t, i, timeout))
  {
    var t' := DoFire(t, i, timeout);
    var x := t.slots[i];
    forall s: nat ensures LiveIn(t'.slots, s) <==> LiveIn(t.slots, s) && (x.permanent || s != x.serial) {
      FireLive(c, t, i, timeout, s);
    }
    forall s: nat ensures FiredIn(t'.fired, s) <==> FiredIn(t.fired, s) || s == x.serial {
      FiredNext(t.fired, Fire(x.serial, timeout, x.callback, x.args), s);
    }
    LiveAt(t.slots, i);
    forall k | 0 <= k < |t.fired| ensures t.fired[k].serial == x.serial ==> x.permanent {
      assert FiredIn(t.fired, t.fired[k].serial);
    }
  }

  lemma RemoveInv(c: Config, t: Table, key: string)
    requires Inv(c, t)
    ensures Inv(c, DoRemove(c, t, key))
  {
    if !t.aborted {
      var t' := DoRemove(c, t, key);
      forall s: nat ensures LiveIn(t'.slots, s) <==> LiveIn(t.slots, s) && s !in t'.removed - t.removed {
        RemoveLive(c, t, key, s);
      }
      forall s | s in t'.removed - t.removed ensures s < |t.regs| && LiveIn(t.slots, s) {
        var i :| 0 <= i < |t.slots| && Matches(t.slots[i], key, c.width) && t.slots[i].serial == s;
        LiveAt(t.slots, i);
      }
    }
  }

  lemma OpInv(c: Config, t: Table, op: Op)
    requires Inv(c, t)
    ensures Inv(c, DoOp(c, t, op))
  {
    match op {
      case Register(r) => RegisterInv(c, t, r);
      case Remove(key) => RemoveInv(c, t, key);
    }
  }

  lemma {:induction false} OpsInv(c: Config, t: Table, ops: seq<Op>)
    requires Inv(c, t)
    ensures Inv(c, DoOps(c, t, ops))
    decreases |ops|
  {
    if ops != [] {
      OpInv(c, t, ops[0]);
      OpsInv(c, DoOp(c, t, ops[0]), ops[1..]);
    }
  }

  lemma {:induction false} ScanInv(c: Config, t: Table, i: nat, key: string, now: int, burst: nat -> seq<Op>)
    requires Inv(c, t) && i <= |t.slots| && FreshBursts(burst, now)
    ensures Inv(c, Scan(c, t, i, key, now, burst).1)
    decreases Pending(t.slots, i, now), |t.slots| - i
  {
    if i == |t.slots| || t.aborted {
    } else if Matches(t.slots[i], key, c.width) {
      FireInv(c, t, i, false);
      OpsInv(c, DoFire(t, i, false), burst(t.slots[i].serial));
    } else if Expired(t.slots[i], now) {
      TimeoutProgress(c, t, i, now, burst);
      FireInv(c, t, i, true);
      OpsInv(c, DoFire(t, i, true), burst(t.slots[i].serial));
      ScanInv(c, DoOps(c, DoFire(t, i, true), burst(t.slots[i].serial)), i + 1, key, now, burst);
    } else {
      ScanInv(c, t, i + 1, key, now, burst);
    }
  }

  // ---------------------------------------------------------------------------------------------
  // Runs
  // ---------------------------------------------------------------------------------------------

  /** What happens to a table: a registration or removal, or a message handled at a time. */
  datatype Step = Change(op: Op) | Handle(key: string, now: int, burst: nat -> seq<Op>)

  ghost predicate Clocked(steps: seq<Step>)
  {
    forall i :: 0 <= i < |steps| && steps[i].Handle? ==> FreshBursts(steps[i].burst, steps[i].now)
  }

  ghost function DoStep(c: Config, t: Table, step: Step): (r: Table)
    requires |t.slots| > 0 && (step.Handle? ==> FreshBursts(step.burst, step.now))
    ensures |r.slots| > 0
  {
    match step
    case Change(op) => DoOp(c, t, op)
    case Handle(key, now, burst) => Scan(c, t, 0, key, now, burst).1
  }

  ghost function RunAll(c: Config, t: Table, steps: seq<Step>): (r: Table)
    requires |t.slots| > 0 && Clocked(steps)
    ensures |r.slots| > 0
    decreases |steps|
  {
    if steps == [] then t else RunAll(c, DoStep(c, t, steps[0]), steps[1..])
  }

  lemma StepInv(c: Config, t: Table, step: Step)
    requires Inv(c, t) && (step.Handle? ==> FreshBursts(step.burst, step.now))
    ensures Inv(c, DoStep(c, t, step))
  {
    match step {
      case Change(op) => OpInv(c, t, op);
      case Handle(key, now, burst) => ScanInv(c, t, 0, key, now, burst);
    }
  }

  lemma {:induction false} RunInv(c: Config, t: Table, steps: seq<Step>)
    requires Inv(c, t) && Clocked(steps)
    ensures Inv(c, RunAll(c, t, steps))
    decreases |steps|
  {
    if steps != [] {
      StepInv(c, t, steps[0]);
      RunInv(c, DoStep(c, t, steps[0]), steps[1..]);
    }
  }

  function Calls(fired: seq<Fire>, serial: nat): (n: nat)
  {
    if fired == [] then 0 else (if fired[0].serial == serial then 1 else 0) + Calls(fired[1..], serial)
  }

  lemma {:induction false} CallsOnce(fired: seq<Fire>, serial: nat)
    requires forall k, l :: 0 <= k < l < |fired| ==> fired[k].serial != serial || fired[l].serial != serial
    ensures Calls(fired, serial) == if FiredIn(fired, serial) then 1 else 0
  {
    if fired != [] {
      CallsOnce(fired[1..], serial);
      assert forall k :: 0 <= k < |fired| - 1 ==> fired[1..][k] == fired[k + 1];
      assert FiredIn(fired, serial) <==> fired[0].serial == serial || FiredIn(fired[1..], serial);
    }
  }

  /**
    Over every run from the empty table, a one-shot registration with a key is called at most once,
    and exactly one of three things holds of it at the end: it is still live and was never called, it
    was called once and is gone, or it was removed uncalled.
   */
  lemma OneShotAtMostOnce(c: Config, n: nat, steps: seq<Step>, s: nat)
    requires n > 0 && Clocked(steps)
    requires var r := RunAll(c, Empty(n), steps);
      s < |r.regs| && !r.regs[s].permanent && Clip(r.regs[s].key, c.width) != ""
    ensures var r := RunAll(c, Empty(n), steps);
      || (LiveIn(r.slots, s) && Calls(r.fired, s) == 0 && s !in r.removed)
      || (!LiveIn(r.slots, s) && Calls(r.fired, s) == 1 && s !in r.removed)
      || (!LiveIn(r.slots, s) && Calls(r.fired, s) == 0 && s in r.removed)
  {
    EmptyInv(c, n);
    RunInv(c, Empty(n), steps);
    var r := RunAll(c, Empty(n), steps);
    CallsOnce(r.fired, s);
    assert r.regs[s] == r.regs[s];
  }

  /** Every call in every run passes what was registered, and a permanent entry is never timed out. */
  lemma OwnArguments(c: Config, n: nat, steps: seq<Step>, k: nat)
    requires n > 0 && Clocked(steps)
    requires k < |RunAll(c, Empty(n), steps).fired|
    ensures var r := RunAll(c, Empty(n), steps);
      var f := r.fired[k];
      f.serial < |r.regs| && f.callback == r.regs[f.serial].callback && f.args == r.regs[f.serial].args
      && (f.timeout ==> !r.regs[f.serial].permanent)
  {
    EmptyInv(c, n);
    RunInv(c, Empty(n), steps);
  }

  // ---------------------------------------------------------------------------------------------
  // One scan
  // ---------------------------------------------------------------------------------------------

  lemma {:induction false} OpsKeepFired(c: Config, t: Table, ops: seq<Op>)
    requires |t.slots| > 0
    ensures DoOps(c, t, ops).fired == t.fired
    ensures t.regs <= DoOps(c, t, ops).regs
    decreases |ops|
  {
    if ops != [] {
      OpsKeepFired(c, DoOp(c, t, ops[0]), ops[1..]);
    }
  }

  /** A call that gives up on an entry registered more than two minutes before. */
  ghost predicate IsTimeout(f: Fire, regs: seq<Reg>, now: int)
  {
    && f.timeout && f.serial < |regs|
    && !regs[f.serial].permanent && regs[f.serial].timestamp + 120 < now
  }

  /** A call that answers an entry registered under the key. */
  ghost predicate IsAnswer(c: Config, f: Fire, regs: seq<Reg>, key: string)
  {
    && !f.timeout && f.serial < |regs|
    && key != "" && Clip(regs[f.serial].key, c.width) == Clip(key, c.width)
  }

  /** What a scan adds to the calls: timeouts, and one answer at the end if the message was handled. */
  ghost predicate Adds(c: Config, before: seq<Fire>, r: (bool, Table), key: string, now: int)
  {
    var after := r.1.fired;
    var n := if r.0 then |after| - 1 else |after|;
    && before <= after && |before| <= n
    && (forall k :: |before| <= k < n ==> IsTimeout(after[k], r.1.regs, now))
    && (r.0 ==> IsAnswer(c, after[n], r.1.regs, key))
  }

  lemma FiredIsTimeout(c: Config, t: Table, i: nat, now: int)
    requires SlotsAreRegs(c, t) && i < |t.slots| && Expired(t.slots[i], now)
    ensures IsTimeout(DoFire(t, i, true).fired[|t.fired|], t.regs, now)
  {
  }

  lemma FiredIsAnswer(c: Config, t: Table, i: nat, key: string)
    requires SlotsAreRegs(c, t) && i < |t.slots| && Matches(t.slots[i], key, c.width)
    ensures IsAnswer(c, DoFire(t, i, false).fired[|t.fired|], t.regs, key)
  {
    ClipTwice(t.regs[t.slots[i].serial].key, c.width);
  }

  lemma ClipTwice(key: string, width: nat)
    ensures Clip(Clip(key, width), width) == Clip(key, width)
  {
  }

  lemma AddsOneMore(c: Config, before: seq<Fire>, f: Fire, regs: seq<Reg>, r: (bool, Table), key: string, now: int)
    requires Adds(c, before + [f], r, key, now) && regs <= r.1.regs && IsTimeout(f, regs, now)
    ensures Adds(c, before, r, key, now)
  {
    assert r.1.fired[|before|] == f;
  }

  /** One timeout met by a scan: the entry is called once with nothing, and then its callback runs. */
  lemma TimeoutStep(c: Config, t: Table, i: nat, now: int, ops: seq<Op>)
    requires Inv(c, t) && i < |t.slots| && Expired(t.slots[i], now)
    ensures var t' := DoOps(c, DoFire(t, i, true), ops);
      var f := DoFire(t, i, true).fired[|t.fired|];
      Inv(c, t') && t'.fired == t.fired + [f] && t.regs <= t'.regs && IsTimeout(f, t.regs, now)
  {
    FireInv(c, t, i, true);
    OpsInv(c, DoFire(t, i, true), ops);
    OpsKeepFired(c, DoFire(t, i, true), ops);
    FiredIsTimeout(c, t, i, now);
  }

  lemma AnswerStep(c: Config, t: Table, i: nat, key: string, now: int, ops: seq<Op>)
    requires SlotsAreRegs(c, t) && i < |t.slots| && Matches(t.slots[i], key, c.width)
    ensures var t' := DoOps(c, DoFire(t, i, false), ops);
      Adds(c, t.fired, (true, t'), key, now) && t.regs <= t'.regs
  {
    FiredIsAnswer(c, t, i, key);
    OpsKeepFired(c, DoFire(t, i, false), ops);
  }

  /**
    What a scan calls: entries registered more than two minutes before its time, with nothing, and
    then, exactly when it reports the message handled, one entry registered under the message's key.
   */
  lemma {:induction false} ScanCalls(c: Config, t: Table, i: nat, key: string, now: int, burst: nat -> seq<Op>)
    requires Inv(c, t) && i <= |t.slots| && FreshBursts(burst, now)
    ensures Adds(c, t.fired, Scan(c, t, i, key, now, burst), key, now)
    ensures t.regs <= Scan(c, t, i, key, now, burst).1.regs
    decreases Pending(t.slots, i, now), |t.slots| - i
  {
    if i == |t.slots| || t.aborted {
    } else if Matches(t.slots[i], key, c.width) {
      AnswerStep(c, t, i, key, now, burst(t.slots[i].serial));
    } else if Expired(t.slots[i], now) {
      var ops := burst(t.slots[i].serial);
      var next := DoOps(c, DoFire(t, i, true), ops);
      TimeoutProgress(c, t, i, now, burst);
      TimeoutStep(c, t, i, now, ops);
      ScanCalls(c, next, i + 1, key, now, burst);
      AddsOneMore(c, t.fired, DoFire(t, i, true).fired[|t.fired|], t.regs,
                  Scan(c, next, i + 1, key, now, burst), key, now);
    } else {
      ScanCalls(c, t, i + 1, key, now, burst);
    }
  }

  // ---------------------------------------------------------------------------------------------
  // Who is given up
  // ---------------------------------------------------------------------------------------------

  /** A one-shot entry registered more than two minutes before. */
  predicate Late(s: Slot, now: int) { !s.permanent && s.timestamp + 120 < now }

  /** The calls with nothing among these. */
  function Timeouts(fired: seq<Fire>, serial: nat): nat
  {
    if fired == [] then 0
    else (if fired[0].serial == serial && fired[0].timeout then 1 else 0) + Timeouts(fired[1..], serial)
  }

  lemma {:induction false} NoTimeouts(fired: seq<Fire>, serial: nat)
    requires forall k :: 0 <= k < |fired| ==> !(fired[k].serial == serial && fired[k].timeout)
    ensures Timeouts(fired, serial) == 0
  {
    if fired != [] {
      assert forall k :: 0 <= k < |fired| - 1 ==> fired[1..][k] == fired[k + 1];
      NoTimeouts(fired[1..], serial);
    }
  }

  lemma {:induction false} OneTimeout(fired: seq<Fire>, serial: nat, n: nat)
    requires n < |fired| && fired[n].serial == serial && fired[n].timeout
    requires forall k :: 0 <= k < |fired| && k != n ==> fired[k].serial != serial
    ensures Timeouts(fired, serial) == 1
  {
    assert forall k :: 0 <= k < |fired| - 1 ==> fired[1..][k] == fired[k + 1];
    if n == 0 {
      NoTimeouts(fired[1..], serial);
    } else {
      OneTimeout(fired[1..], serial, n - 1);
    }
  }

  /** An entry stays in its place, or it is removed. */
  ghost predicate StaysOrRemoved(t: Table, r: Table)
  {
    && t.removed <= r.removed && |t.slots| <= |r.slots|
    && forall j :: 0 <= j < |t.slots| && Live(t.slots[j]) ==>
         r.slots[j] == t.slots[j] || t.slots[j].serial in r.removed
  }

  lemma OpStays(c: Config, t: Table, op: Op)
    requires |t.slots| > 0
    ensures StaysOrRemoved(t, DoOp(c, t, op))
  {
    match op {
      case Register(r) =>
        if !t.aborted {
          PlacedKeeps(t.slots, SlotOf(c, r, |t.regs|));
        }
      case Remove(key) =>
    }
  }

  lemma StaysTwice(t: Table, u: Table, v: Table)
    requires StaysOrRemoved(t, u) && StaysOrRemoved(u, v)
    ensures StaysOrRemoved(t, v)
  {
    forall j | 0 <= j < |t.slots| && Live(t.slots[j])
      ensures v.slots[j] == t.slots[j] || t.slots[j].serial in v.removed
    {
      assert u.slots[j] == t.slots[j] || t.slots[j].serial in u.removed;
    }
  }

  lemma {:induction false} OpsStay(c: Config, t: Table, ops: seq<Op>)
    requires |t.slots| > 0
    ensures StaysOrRemoved(t, DoOps(c, t, ops))
    decreases |ops|
  {
    if ops != [] {
      OpStays(c, t, ops[0]);
      OpsStay(c, DoOp(c, t, ops[0]), ops[1..]);
      StaysTwice(t, DoOp(c, t, ops[0]), DoOps(c, t, ops));
    }
  }

  /** What a scan up to the place p leaves behind it. */
  ghost predicate Passed(t: Table, r: (bool, Table), i: nat, p: nat, now: int)
  {
    && i <= p && (!r.0 && !r.1.aborted ==> |t.slots| <= p)
    && t.removed <= r.1.removed && t.fired <= r.1.fired
    && (forall j :: i <= j < p && j < |t.slots| && Live(t.slots[j]) && Late(t.slots[j], now) ==>
          !LiveIn(r.1.slots, t.slots[j].serial))
    && (r.0 ==>
          && r.1.fired != []
          && var last := r.1.fired[|r.1.fired| - 1].serial;
             && last !in t.removed
             && forall j :: i <= j < |t.slots| && Live(t.slots[j]) && t.slots[j].serial == last ==> j == p)
  }

  /** A registration that was called as a one-shot or removed is not live. */
  lemma GoneIsNotLive(c: Config, t: Table, s: nat)
    requires Inv(c, t) && (s in t.removed || (FiredIn(t.fired, s) && s < |t.regs| && !t.regs[s].permanent))
    ensures !LiveIn(t.slots, s)
  {
  }

  lemma AnsweredPasses(c: Config, t: Table, i: nat, key: string, now: int, ops: seq<Op>)
    requires Inv(c, t) && i < |t.slots| && Matches(t.slots[i], key, c.width)
    ensures Passed(t, (true, DoOps(c, DoFire(t, i, false), ops)), i, i, now)
  {
    OpsKeepFired(c, DoFire(t, i, false), ops);
    OpsStay(c, DoFire(t, i, false), ops);
    ClearedMatchesNothing(key, c.width);
    LiveAt(t.slots, i);
  }

  /** One place further without a call. */
  lemma QuietPasses(c: Config, t: Table, r: (bool, Table), i: nat, p: nat, now: int)
    requires i < |t.slots| && Passed(t, r, i + 1, p, now) && SlotsAreRegs(c, t)
    requires Live(t.slots[i]) ==> !Late(t.slots[i], now)
    requires r.0 && Live(t.slots[i]) ==> t.slots[i].serial != r.1.fired[|r.1.fired| - 1].serial
    ensures Passed(t, r, i, p, now)
  {
  }

  /** An entry behind the place of a timeout is passed by the rest of the scan, or was removed. */
  lemma LateIsGone(c: Config, t: Table, next: Table, r: (bool, Table), i: nat, j: nat, p: nat, now: int)
    requires StaysOrRemoved(t, next) && Passed(next, r, i + 1, p, now) && Inv(c, r.1)
    requires i < j < p && j < |t.slots| && Live(t.slots[j]) && Late(t.slots[j], now)
    ensures !LiveIn(r.1.slots, t.slots[j].serial)
  {
    if t.slots[j].serial in next.removed {
      GoneIsNotLive(c, r.1, t.slots[j].serial);
    }
  }

  /** One place further with a timeout: t1 is the table with the entry at i freed, next that after its callback. */
  lemma LoudPasses(c: Config, t: Table, t1: Table, next: Table, r: (bool, Table), i: nat, p: nat, now: int)
    requires Inv(c, r.1) && i < |t.slots| && Live(t.slots[i]) && SlotsAreRegs(c, t)
    requires t1 == DoFire(t, i, true) && !t.slots[i].permanent && StaysOrRemoved(t1, next)
    requires Passed(next, r, i + 1, p, now) && t.fired <= r.1.fired
    requires !LiveIn(r.1.slots, t.slots[i].serial)
    requires r.0 ==> t.slots[i].serial != r.1.fired[|r.1.fired| - 1].serial
    ensures Passed(t, r, i, p, now)
  {
    forall j | i < j < p && j < |t.slots| && Live(t.slots[j]) && Late(t.slots[j], now)
      ensures !LiveIn(r.1.slots, t.slots[j].serial)
    {
      assert t1.slots[j] == t.slots[j];
      LateIsGone(c, t1, next, r, i, j, p, now);
    }
    if r.0 {
      var last := r.1.fired[|r.1.fired| - 1].serial;
      forall j | i <= j < |t.slots| && Live(t.slots[j]) && t.slots[j].serial == last ensures j == p {
        assert j != i && t1.slots[j] == t.slots[j];
        assert next.slots[j] == t1.slots[j];
      }
    }
  }

  /** An entry that does not match is not the one that answers. */
  lemma QuietIsNotLast(c: Config, t: Table, i: nat, key: string, now: int, r: (bool, Table))
    requires SlotsAreRegs(c, t) && i < |t.slots| && Live(t.slots[i]) && !Matches(t.slots[i], key, c.width)
    requires r.0 && Adds(c, t.fired, r, key, now) && t.regs <= r.1.regs && c.width > 0
    ensures r.1.fired != [] && t.slots[i].serial != r.1.fired[|r.1.fired| - 1].serial
  {
    ClipTwice(t.regs[t.slots[i].serial].key, c.width);
  }

  /** An entry given up is not the one that answers. */
  lemma GivenUpIsNotLast(t: Table, s: nat, k: nat, n: nat)
    requires FiresOnce(t) && k < n < |t.fired| && t.fired[k].serial == s && s < |t.regs| && !t.regs[s].permanent
    ensures t.fired[n].serial != s
  {
  }

  /** The step of a scan over an expired entry. */
  lemma TimeoutPasses(c: Config, t: Table, i: nat, key: string, now: int, burst: nat -> seq<Op>, p: nat)
    requires Inv(c, t) && i < |t.slots| && FreshBursts(burst, now)
    requires Expired(t.slots[i], now) && !Matches(t.slots[i], key, c.width) && !t.aborted
    requires var next := DoOps(c, DoFire(t, i, true), burst(t.slots[i].serial));
      && i + 1 <= |next.slots|
      && Passed(next, Scan(c, next, i + 1, key, now, burst), i + 1, p, now)
    ensures Passed(t, Scan(c, t, i, key, now, burst), i, p, now)
  {
    var ops := burst(t.slots[i].serial);
    var next := DoOps(c, DoFire(t, i, true), ops);
    var r := Scan(c, next, i + 1, key, now, burst);
    assert Scan(c, t, i, key, now, burst) == r;
    TimeoutStep(c, t, i, now, ops);
    ScanInv(c, next, i + 1, key, now, burst);
    ScanCalls(c, next, i + 1, key, now, burst);
    OpsStay(c, DoFire(t, i, true), ops);
    TimeoutIsGone(c, t, i, next, r, key, now);
    LoudPasses(c, t, DoFire(t, i, true), next, r, i, p, now);
  }

  /** The place at which a scan ends, and what it leaves behind it. */
  lemma {:induction false} ScanPasses(c: Config, t: Table, i: nat, key: string, now: int, burst: nat -> seq<Op>)
    returns (p: nat)
    requires Inv(c, t) && c.width > 0 && i <= |t.slots| && FreshBursts(burst, now)
    ensures Passed(t, Scan(c, t, i, key, now, burst), i, p, now)
    decreases Pending(t.slots, i, now), |t.slots| - i
  {
    if i == |t.slots| || t.aborted {
      p := i;
    } else if Matches(t.slots[i], key, c.width) {
      p := i;
      AnsweredPasses(c, t, i, key, now, burst(t.slots[i].serial));
    } else if Expired(t.slots[i], now) {
      var ops := burst(t.slots[i].serial);
      TimeoutProgress(c, t, i, now, burst);
      TimeoutStep(c, t, i, now, ops);
      p := ScanPasses(c, DoOps(c, DoFire(t, i, true), ops), i + 1, key, now, burst);
      TimeoutPasses(c, t, i, key, now, burst, p);
    } else {
      p := ScanPasses(c, t, i + 1, key, now, burst);
      var r := Scan(c, t, i + 1, key, now, burst);
      if r.0 && Live(t.slots[i]) {
        ScanCalls(c, t, i + 1, key, now, burst);
        QuietIsNotLast(c, t, i, key, now, r);
      }
      QuietPasses(c, t, r, i, p, now);
    }
  }

  /** An entry given up on the way is gone at the end of the scan, and does not answer. */
  lemma TimeoutIsGone(c: Config, t: Table, i: nat, next: Table, r: (bool, Table), key: string, now: int)
    requires Inv(c, t) && i < |t.slots| && Expired(t.slots[i], now) && Inv(c, r.1)
    requires next.fired == DoFire(t, i, true).fired && t.regs <= next.regs <= r.1.regs
    requires Adds(c, next.fired, r, key, now)
    ensures !LiveIn(r.1.slots, t.slots[i].serial)
    ensures r.0 ==> t.slots[i].serial != r.1.fired[|r.1.fired| - 1].serial
  {
    var s, k := t.slots[i].serial, |t.fired|;
    assert r.1.fired[k] == next.fired[k];
    assert FiredIn(r.1.fired, s);
    GoneIsNotLive(c, r.1, s);
    if r.0 {
      GivenUpIsNotLast(r.1, s, k, |r.1.fired| - 1);
    }
  }

  // ---- the outcome for each entry

  /** Given up: gone, and called with nothing exactly once, unless a callback of the scan removed it. */
  ghost predicate GivenUp(t: Table, r: Table, s: nat)
    requires t.fired <= r.fired
  {
    && !LiveIn(r.slots, s) && s !in t.removed
    && Timeouts(r.fired[|t.fired|..], s) == if s in r.removed then 0 else 1
  }

  /** Spared: not called with nothing, and there as before, unless a callback of the scan removed it. */
  ghost predicate Spared(t: Table, r: Table, s: nat)
    requires t.fired <= r.fired
  {
    Timeouts(r.fired[|t.fired|..], s) == 0 && (LiveIn(r.slots, s) || s in r.removed)
  }

  lemma LiveIsFresh(c: Config, t: Table, j: nat)
    requires Inv(c, t) && j < |t.slots| && Live(t.slots[j])
    ensures var s := t.slots[j].serial;
      && s < |t.regs| && s !in t.removed && t.slots[j] == SlotOf(c, t.regs[s], s)
      && (!t.slots[j].permanent ==> !FiredIn(t.fired, s))
  {
    LiveAt(t.slots, j);
  }

  /** Of the calls a scan adds, those of an entry that is not late are no timeouts. */
  lemma SparedTimeouts(c: Config, t: Table, r: (bool, Table), j: nat, key: string, now: int)
    requires Inv(c, t) && j < |t.slots| && Live(t.slots[j]) && !Late(t.slots[j], now)
    requires Adds(c, t.fired, r, key, now) && t.regs <= r.1.regs
    ensures Timeouts(r.1.fired[|t.fired|..], t.slots[j].serial) == 0
  {
    LiveIsFresh(c, t, j);
    var added, s := r.1.fired[|t.fired|..], t.slots[j].serial;
    forall k | 0 <= k < |added| ensures !(added[k].serial == s && added[k].timeout) {
      assert added[k] == r.1.fired[|t.fired| + k];
    }
    NoTimeouts(added, s);
  }

  /** A one-shot entry that is neither late nor the one that answers is not called. */
  lemma NeverCalled(c: Config, t: Table, r: (bool, Table), j: nat, key: string, now: int)
    requires Inv(c, t) && j < |t.slots| && Live(t.slots[j]) && !Late(t.slots[j], now) && !t.slots[j].permanent
    requires Adds(c, t.fired, r, key, now) && t.regs <= r.1.regs
    requires r.0 ==> t.slots[j].serial != r.1.fired[|r.1.fired| - 1].serial
    ensures !FiredIn(r.1.fired, t.slots[j].serial)
  {
    LiveIsFresh(c, t, j);
    var s := t.slots[j].serial;
    assert r.1.regs[s] == t.regs[s];
    forall k | 0 <= k < |r.1.fired| ensures r.1.fired[k].serial != s {
      assert k < |t.fired| ==> t.fired[k] == r.1.fired[k];
    }
  }

  lemma SparedStays(c: Config, t: Table, r: (bool, Table), j: nat, key: string, now: int)
    requires Inv(c, t) && Inv(c, r.1) && j < |t.slots| && Live(t.slots[j]) && !Late(t.slots[j], now)
    requires Adds(c, t.fired, r, key, now) && t.regs <= r.1.regs
    requires r.0 ==> t.slots[j].serial != r.1.fired[|r.1.fired| - 1].serial
    ensures LiveIn(r.1.slots, t.slots[j].serial) || t.slots[j].serial in r.1.removed
  {
    LiveIsFresh(c, t, j);
    assert r.1.regs[t.slots[j].serial] == t.regs[t.slots[j].serial];
    if !t.slots[j].permanent {
      NeverCalled(c, t, r, j, key, now);
    }
  }

  lemma NotFiredBefore(before: seq<Fire>, after: seq<Fire>, s: nat, k: nat)
    requires before <= after && !FiredIn(before, s) && k < |after| && after[k].serial == s
    ensures |before| <= k
  {
    forall l | 0 <= l < |before| ensures after[l].serial != s {
      assert before[l] == after[l];
    }
  }

  /** An entry that was late and is gone, not as the one that answered, was given up. */
  lemma LateIsGivenUp(c: Config, t: Table, r: (bool, Table), j: nat, key: string, now: int)
    requires Inv(c, t) && Inv(c, r.1) && j < |t.slots| && Live(t.slots[j]) && Late(t.slots[j], now)
    requires Adds(c, t.fired, r, key, now) && t.regs <= r.1.regs && t.removed <= r.1.removed
    requires r.0 ==> t.slots[j].serial != r.1.fired[|r.1.fired| - 1].serial
    requires !LiveIn(r.1.slots, t.slots[j].serial)
    ensures GivenUp(t, r.1, t.slots[j].serial)
  {
    LiveIsFresh(c, t, j);
    var added, s := r.1.fired[|t.fired|..], t.slots[j].serial;
    assert r.1.regs[s] == t.regs[s];
    if s in r.1.removed {
      forall k | 0 <= k < |added| ensures added[k].serial != s {
        assert added[k] == r.1.fired[|t.fired| + k];
        RemovedNeverFired(c, r.1, s, |t.fired| + k);
      }
      NoTimeouts(added, s);
    } else {
      assert FiredIn(r.1.fired, s);
      var k :| 0 <= k < |r.1.fired| && r.1.fired[k].serial == s;
      NotFiredBefore(t.fired, r.1.fired, s, k);
      OnlyOne(t, r.1, s, k);
    }
  }

  lemma RemovedNeverFired(c: Config, t: Table, s: nat, k: nat)
    requires Inv(c, t) && s in t.removed && s < |t.regs| && !t.regs[s].permanent && k < |t.fired|
    ensures t.fired[k].serial != s
  {
    assert t.fired[k].serial == s ==> FiredIn(t.fired, s);
  }

  lemma OnlyOne(t: Table, r: Table, s: nat, k: nat)
    requires t.fired <= r.fired && FiresOnce(r) && |t.fired| <= k < |r.fired|
    requires r.fired[k].serial == s && r.fired[k].timeout && s < |r.regs| && !r.regs[s].permanent
    ensures Timeouts(r.fired[|t.fired|..], s) == 1
  {
    var added := r.fired[|t.fired|..];
    forall l | 0 <= l < |added| && l != k - |t.fired| ensures added[l].serial != s {
      assert added[l] == r.fired[|t.fired| + l];
    }
    OneTimeout(added, s, k - |t.fired|);
  }

  /** What becomes of every entry that stood before the place p. */
  ghost predicate Decided(t: Table, r: (bool, Table), p: nat, now: int)
  {
    && t.fired <= r.1.fired && (!r.0 && !r.1.aborted ==> |t.slots| <= p)
    && (forall j :: 0 <= j < p && j < |t.slots| && Live(t.slots[j]) ==>
          (if Late(t.slots[j], now) then GivenUp(t, r.1, t.slots[j].serial) else Spared(t, r.1, t.slots[j].serial)))
    && (r.0 ==> r.1.fired != [] && AnswersAt(t, r.1.fired[|r.1.fired| - 1].serial, p))
  }

  /** Of the entries there from the start, only the one at p can have this number. */
  ghost predicate AnswersAt(t: Table, s: nat, p: nat)
  {
    forall j :: 0 <= j < |t.slots| && Live(t.slots[j]) && t.slots[j].serial == s ==> j == p
  }

  lemma PlaceDecides(c: Config, t: Table, r: (bool, Table), j: nat, p: nat, key: string, now: int)
    requires Inv(c, t) && Inv(c, r.1) && j < |t.slots| && Live(t.slots[j]) && j < p
    requires Adds(c, t.fired, r, key, now) && t.regs <= r.1.regs && Passed(t, r, 0, p, now)
    ensures if Late(t.slots[j], now) then GivenUp(t, r.1, t.slots[j].serial) else Spared(t, r.1, t.slots[j].serial)
  {
    if Late(t.slots[j], now) {
      LateIsGivenUp(c, t, r, j, key, now);
    } else {
      SparedTimeouts(c, t, r, j, key, now);
      SparedStays(c, t, r, j, key, now);
    }
  }

  lemma PlacesDecide(c: Config, t: Table, r: (bool, Table), p: nat, key: string, now: int)
    requires Inv(c, t) && Inv(c, r.1)
    requires Adds(c, t.fired, r, key, now) && t.regs <= r.1.regs && Passed(t, r, 0, p, now)
    ensures Decided(t, r, p, now)
  {
    forall j | 0 <= j < p && j < |t.slots| && Live(t.slots[j])
      ensures if Late(t.slots[j], now) then GivenUp(t, r.1, t.slots[j].serial)
              else Spared(t, r.1, t.slots[j].serial)
    {
      PlaceDecides(c, t, r, j, p, key, now);
    }
  }

  /**
    Who is given up, after any run: a scan that ends at the place p gives up every one-shot entry before p
    that was registered more than 120 seconds before its time, and no other entry before p. A scan that
    handles nothing and does not abort passes the whole table; one that handles the message answers the
    entry at p, if it answers one that was there when it started.
   */
  lemma ScanGivesUp(c: Config, n: nat, steps: seq<Step>, key: string, now: int, burst: nat -> seq<Op>)
    returns (p: nat)
    requires n > 0 && c.width > 0 && Clocked(steps) && FreshBursts(burst, now)
    ensures var t := RunAll(c, Empty(n), steps); Decided(t, Scan(c, t, 0, key, now, burst), p, now)
  {
    var t := RunAll(c, Empty(n), steps);
    EmptyInv(c, n);
    RunInv(c, Empty(n), steps);
    ScanInv(c, t, 0, key, now, burst);
    ScanCalls(c, t, 0, key, now, burst);
    p := ScanPasses(c, t, 0, key, now, burst);
    PlacesDecide(c, t, Scan(c, t, 0, key, now, burst), p, key, now);
  }

  ghost predicate NoRemovals(burst: nat -> seq<Op>)
  {
    forall s: nat, i: nat {:trigger burst(s)[i]} :: i < |burst(s)| ==> burst(s)[i].Register?
  }

  lemma {:induction false} OpsKeepLive(c: Config, t: Table, ops: seq<Op>)
    requires |t.slots| > 0 && c.growing && !t.aborted && forall i :: 0 <= i < |ops| ==> ops[i].Register?
    ensures var r := DoOps(c, t, ops);
      !r.aborted && |t.slots| <= |r.slots| &&
      forall j :: 0 <= j < |t.slots| && Live(t.slots[j]) ==> r.slots[j] == t.slots[j]
    decreases |ops|
  {
    if ops != [] {
      PlacedKeeps(t.slots, SlotOf(c, ops[0].reg, |t.regs|));
      OpsKeepLive(c, DoOp(c, t, ops[0]), ops[1..]);
    }
  }

  /**
    In the growing table, whose entries nobody removes, a message is handled if an entry waits for its
    key when the scan starts, whatever the callbacks of earlier, timed out entries do.
   */
  lemma {:induction false} WaitingIsAnswered(c: Config, t: Table, i: nat, j: nat, key: string, now: int,
      burst: nat -> seq<Op>)
    requires |t.slots| > 0 && c.growing && !t.aborted && FreshBursts(burst, now) && NoRemovals(burst)
    requires i <= j < |t.slots| && Matches(t.slots[j], key, c.width)
    ensures Scan(c, t, i, key, now, burst).0
    decreases Pending(t.slots, i, now), |t.slots| - i
  {
    if Matches(t.slots[i], key, c.width) {
    } else if Expired(t.slots[i], now) {
      TimeoutProgress(c, t, i, now, burst);
      var t1 := DoFire(t, i, true);
      OpsKeepLive(c, t1, burst(t.slots[i].serial));
      assert t1.slots[j] == t.slots[j];
      WaitingIsAnswered(c, DoOps(c, t1, burst(t.slots[i].serial)), i + 1, j, key, now, burst);
    } else {
      WaitingIsAnswered(c, t, i + 1, j, key, now, burst);
    }
  }

  // ---------------------------------------------------------------------------------------------
  // The overflow
  // ---------------------------------------------------------------------------------------------

  lemma {:induction false} OpsNeverAbort(c: Config, t: Table, ops: seq<Op>)
    requires |t.slots| > 0 && c.growing && !t.aborted
    ensures !DoOps(c, t, ops).aborted
    decreases |ops|
  {
    if ops != [] {
      OpsNeverAbort(c, DoOp(c, t, ops[0]), ops[1..]);
    }
  }

  lemma {:induction false} ScanNeverAborts(c: Config, t: Table, i: nat, key: string, now: int, burst: nat -> seq<Op>)
    requires |t.slots| > 0 && c.growing && !t.aborted && i <= |t.slots| && FreshBursts(burst, now)
    ensures !Scan(c, t, i, key, now, burst).1.aborted
    decreases Pending(t.slots, i, now), |t.slots| - i
  {
    if i < |t.slots| {
      if Matches(t.slots[i], key, c.width) {
        OpsNeverAbort(c, DoFire(t, i, false), burst(t.slots[i].serial));
      } else if Expired(t.slots[i], now) {
        TimeoutProgress(c, t, i, now, burst);
        OpsNeverAbort(c, DoFire(t, i, true), burst(t.slots[i].serial));
        ScanNeverAborts(c, DoOps(c, DoFire(t, i, true), burst(t.slots[i].serial)), i + 1, key, now, burst);
      } else {
        ScanNeverAborts(c, t, i + 1, key, now, burst);
      }
    }
  }

  lemma StepNeverAborts(c: Config, t: Table, step: Step)
    requires |t.slots| > 0 && c.growing && !t.aborted && (step.Handle? ==> FreshBursts(step.burst, step.now))
    ensures !DoStep(c, t, step).aborted
  {
    if step.Handle? {
      ScanNeverAborts(c, t, 0, step.key, step.now, step.burst);
    }
  }

  lemma {:induction false} NeverAborts(c: Config, t: Table, steps: seq<Step>)
    requires |t.slots| > 0 && c.growing && !t.aborted && Clocked(steps)
    ensures !RunAll(c, t, steps).aborted
    decreases |steps|
  {
    if steps != [] {
      StepNeverAborts(c, t, steps[0]);
      NeverAborts(c, DoStep(c, t, steps[0]), steps[1..]);
    }
  }

  /**
    In no run does the growing table fail the overflow assertion; the other one fails it in a registration
    exactly when every entry is live.
   */
  lemma AbortsWhenFull(c: Config, n: nat, steps: seq<Step>, r: Reg)
    requires n > 0 && Clocked(steps)
    ensures !Empty(n).aborted && (c.growing ==> !RunAll(c, Empty(n), steps).aborted)
    ensures var t := RunAll(c, Empty(n), steps);
      !t.aborted ==>
        (DoStep(c, t, Change(Register(r))).aborted <==>
         !c.growing && forall i :: 0 <= i < |t.slots| ==> t.slots[i].key != "")
  {
    if c.growing {
      NeverAborts(c, Empty(n), steps);
    }
    var t := RunAll(c, Empty(n), steps);
    assert FirstFree(t.slots) < |t.slots| ==> !Live(t.slots[FirstFree(t.slots)]);
  }

  /** Without late entries in front of it, a waiting entry is found. */
  lemma {:induction false} ScanFinds(c: Config, t: Table, i: nat, j: nat, key: string, now: int,
    burst: nat -> seq<Op>)
    requires |t.slots| > 0 && !t.aborted && FreshBursts(burst, now)
    requires i <= j < |t.slots| && Matches(t.slots[j], key, c.width)
    requires forall k :: i <= k < j ==> !Late(t.slots[k], now)
    ensures Scan(c, t, i, key, now, burst).0
    decreases j - i
  {
    if i < j && !Matches(t.slots[i], key, c.width) {
      assert !Late(t.slots[i], now);
      ScanFinds(c, t, i + 1, j, key, now, burst);
    }
  }
}
