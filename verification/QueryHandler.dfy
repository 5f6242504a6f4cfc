/**
  The table of handlers for incoming queries (src/xmpp/query_handler.c): 64 entries with names of 32
  characters. Registering when none is free fails an assertion and ends the program; the model keeps
  that outcome as a flag and does nothing afterwards.
 */
module QueryHandler {
  import opened CStrings
  import opened CallbackTable

  const QUERY_HDLR_MAX: nat := 64
  const QUERY_TABLE: Config := Config(32, false)

  function Registered(t: Table, query: string, permanent: bool, callback: Option<nat>, args: nat, now: int): Table
    requires |t.slots| > 0
  {
    match callback
    case None => t
    case Some(f) => DoRegister(QUERY_TABLE, t, Reg(query, permanent, now, f, args))
  }

  /** A name that is absent or empty is not looked for. */
  function Removed(t: Table, query: Option<string>): Table
  {
    if query == None || query.value == "" then t else DoRemove(QUERY_TABLE, t, query.value)
  }

  function Handled(t: Table, query: Option<string>, now: int, burst: nat -> seq<Op>): (bool, Table)
    requires |t.slots| > 0 && FreshBursts(burst, now)
  {
    if query == None || query.value == "" then (false, t) else Scan(QUERY_TABLE, t, 0, query.value, now, burst)
  }

  class QueryHandlers {
    const handlers: array<Slot>
    /** Not in the program: what was registered, called and removed, and whether the assertion failed. */
    var registered: seq<Reg>
    var called: seq<Fire>
    var removed: set<nat>
    var aborted: bool

    constructor ()
      ensures Valid() && fresh(handlers) && State() == Empty(64)
    {
      handlers := new Slot[QUERY_HDLR_MAX](i => FREE);
      registered := [];
      called := [];
      removed := {};
      aborted := false;
      new;
      assert handlers[..] == FreeSlots(QUERY_HDLR_MAX);
    }

    ghost predicate Valid()
    {
      handlers.Length == QUERY_HDLR_MAX
    }

    ghost function State(): (t: Table)
      reads this, handlers
      requires Valid()
      ensures |t.slots| == QUERY_HDLR_MAX
    {
      Table(handlers[..], registered, called, removed, aborted)
    }

    method Register(query: string, permanent: bool, callback: Option<nat>, args: nat, now: int)
      requires Valid()
      modifies this, handlers
      ensures State() == Registered(old(State()), query, permanent, callback, args, now)
    {
      if callback == None || aborted {
        return;
      }
      ghost var was := handlers[..];
      var i := 0;
      while i < QUERY_HDLR_MAX && handlers[i].key != ""
        invariant i <= QUERY_HDLR_MAX
        invariant forall j :: 0 <= j < i ==> Live(was[j])
      {
        i := i + 1;
      }
      FirstFreeIs(was, i);
      if i >= QUERY_HDLR_MAX {
        aborted := true;
        return;
      }
      var r := Reg(query, permanent, now, callback.value, args);
      handlers[i] := SlotOf(QUERY_TABLE, r, |registered|);
      registered := registered + [r];
      assert handlers[..] == was[i := SlotOf(QUERY_TABLE, r, |registered| - 1)];
    }

    method Remove(query: Option<string>)
      requires Valid()
      modifies this, handlers
      ensures State() == Removed(old(State()), query)
    {
      if query == None || query.value == "" || aborted {
        return;
      }
      var key := query.value;
      ghost var was := handlers[..];
      ghost var gone := removed;
      for i := 0 to QUERY_HDLR_MAX
        invariant handlers[..i] == Cleared(was, key, 32)[..i]
        invariant handlers[i..] == was[i..]
        invariant removed == gone + set k | 0 <= k < i && Matches(was[k], key, 32) :: was[k].serial
        invariant registered == old(registered) && called == old(called) && aborted == old(aborted)
      {
        assert handlers[i] == handlers[i..][0] == was[i];
        if Clip(handlers[i].key, 32) == Clip(key, 32) {
          removed := removed + {handlers[i].serial};
          handlers[i] := handlers[i].(key := "");
        }
        assert handlers[..i + 1] == handlers[..i] + [handlers[i]];
        assert Cleared(was, key, 32)[..i + 1] == Cleared(was, key, 32)[..i] + [Cleared(was, key, 32)[i]];
      }
      assert handlers[..] == Cleared(was, key, 32);
    }

    method Apply(ops: seq<Op>)
      requires Valid()
      modifies this, handlers
      ensures State() == DoOps(QUERY_TABLE, old(State()), ops)
    {
      ghost var start := State();
      for k := 0 to |ops|
        invariant DoOps(QUERY_TABLE, State(), ops[k..]) == DoOps(QUERY_TABLE, start, ops)
      {
        assert ops[k..][0] == ops[k] && ops[k..][1..] == ops[k + 1..];
        ghost var t := State();
        match ops[k] {
          case Register(r) => Register(r.key, r.permanent, Some(r.callback), r.args, r.timestamp);
          case Remove(key) =>
            EmptyRemovesNothing(t, key);
            Remove(Some(key));
        }
        assert State() == DoOp(QUERY_TABLE, t, ops[k]);
      }
      assert ops[|ops|..] == [];
    }

    method Call(i: nat, timeout: bool, ops: seq<Op>)
      requires Valid() && i < QUERY_HDLR_MAX
      modifies this, handlers
      ensures State() == DoOps(QUERY_TABLE, DoFire(old(State()), i, timeout), ops)
    {
      ghost var t := State();
      var s := handlers[i];
      if !s.permanent {
        handlers[i] := s.(key := "");
      }
      called := called + [Fire(s.serial, timeout, s.callback, s.args)];
      assert State().slots == DoFire(t, i, timeout).slots;
      Apply(ops);
    }

    method Handle(query: Option<string>, now: int, burst: nat -> seq<Op>) returns (handled: bool)
      requires Valid() && FreshBursts(burst, now)
      modifies this, handlers
      ensures (handled, State()) == Handled(old(State()), query, now, burst)
    {
      if query == None || query.value == "" {
        return false;
      }
      var key := query.value;
      ghost var start := State();
      var i := 0;
      while i < QUERY_HDLR_MAX && !aborted
        invariant i <= QUERY_HDLR_MAX
        invariant Scan(QUERY_TABLE, State(), i, key, now, burst) == Scan(QUERY_TABLE, start, 0, key, now, burst)
        decreases QUERY_HDLR_MAX - i
      {
        var s := handlers[i];
        if Clip(s.key, 32) == Clip(key, 32) {
          Call(i, false, burst(s.serial));
          return true;
        }
        if s.key != "" && s.timestamp + TIMEOUT < now && !s.permanent {
          TimeoutProgress(QUERY_TABLE, State(), i, now, burst);
          Call(i, true, burst(s.serial));
        }
        i := i + 1;
      }
      return false;
    }
  }

  lemma EmptyRemovesNothing(t: Table, key: string)
    ensures Removed(t, Some(key)) == DoRemove(QUERY_TABLE, t, key)
  {
    if key == "" && !t.aborted {
      assert Cleared(t.slots, key, 32) == t.slots;
    }
  }

  /** A handler takes every query whose name has the same first thirty-two characters as its own. */
  lemma MatchesThirtyTwo(own: string, name: string, s: Slot)
    requires s.key == Clip(own, QUERY_TABLE.width) && name != ""
    ensures Matches(s, name, QUERY_TABLE.width) <==>
      own == name || (|own| >= 32 && |name| >= 32 && own[..32] == name[..32])
  {
  }

  /** A query is handled if an entry waits for its name and none before it is late; an empty name never is. */
  lemma WaitingIsHandled(t: Table, query: string, now: int, burst: nat -> seq<Op>, j: nat)
    requires |t.slots| > 0 && !t.aborted && FreshBursts(burst, now)
    requires j < |t.slots| && query != "" && Clip(t.slots[j].key, 32) == Clip(query, 32)
    requires forall k :: 0 <= k < j ==> !Late(t.slots[k], now)
    ensures Handled(t, Some(query), now, burst).0
    ensures Handled(t, Some(""), now, burst) == (false, t) && Handled(t, None, now, burst) == (false, t)
  {
    ScanFinds(QUERY_TABLE, t, 0, j, query, now, burst);
  }
}
