/**
  Matchmaking (src/quickplay.c): the user opens a search, invites, starts and cancels; the server
  confirms, succeeds or cancels. Everything happens on the fields of session.quickplay.

  A callback is modelled by the user commands it gives, a finite list chosen by whoever passes it.
 */
module Quickplay {
  import opened CStrings
  import opened LinkedList

  datatype Player = Player(onlineId: string, profileId: string, nickname: string, accepted: bool)

  /** The entry points a user (or a callback) calls; `server` is a game server of the other kind, if any. */
  datatype Cmd =
    | Open(mission: Option<string>, kind: nat, mode: Option<string>, server: Option<string>,
           whenJoined: seq<Cmd>)
    | Start(callback: Option<seq<Cmd>>)
    | Preinvite(onlineId: Option<string>, profileId: Option<string>, nickname: Option<string>)
    | Cancel

  /** What the server, or leaving a room, makes happen. */
  datatype Event =
    | User(cmd: Cmd)
    | PreinviteResponse(uid: Option<string>, onlineId: Option<string>, accepted: bool)
    | Started(uid: Option<string>)
    | Succeeded(uid: Option<string>)
    | Canceled(uid: Option<string>)
    | Refused
    | Left

  /** What is sent to the server. */
  datatype Sent =
    | Invite(to: string, uid: Option<string>)
    | CancelInvite(to: string, uid: Option<string>, expired: bool)
    | StartSearch(uid: Option<string>, mission: Option<string>, kind: nat, mode: Option<string>, switches: nat)
    | DropSearch
    | Join(resource: string)

  /** The start callback that is set: which call of quickplay_start set it, and what it will do. */
  datatype Callback = Callback(serial: nat, commands: seq<Cmd>)

  datatype State = State(
    preUid: Option<string>, uid: Option<string>, tryAgain: int, group: Option<seq<Player>>,
    missionId: Option<string>, gameMode: Option<string>, kind: nat, switches: nat,
    startCb: Option<Callback>,
    // not in the program: how many searches were opened, which one was open at every accepted start,
    // every callback run and the uid it was run for, all that was sent
    opens: nat, starts: seq<nat>, fired: seq<Fired>, sent: seq<Sent>)

  datatype Fired = Fired(serial: nat, uid: string)

  /** What a search depends on outside: the kind of the current channel, and the uuids that are made up. */
  datatype World = World(channel: Option<string>, uuid: nat -> string)

  const ROOM_PVE_QUICKPLAY: nat := 16

  function Init(): State
  {
    State(None, None, 0, None, None, None, 0, 0, None, 0, [], [], [])
  }

  predicate IsPve(kind: nat) { (kind / ROOM_PVE_QUICKPLAY) % 2 == 1 }

  predicate InPve(channel: Option<string>) { channel.Some? && Strstr(channel.value, "pve").Some? }

  /** The channel fits the search; with no channel it always does. */
  predicate Fits(channel: Option<string>, kind: nat)
  {
    channel.None? || IsPve(kind) == InPve(channel)
  }

  function WithId(id: string): Player -> bool { (p: Player) => p.onlineId == id }

  function Freed(s: State): State
  {
    s.(preUid := None, uid := None, missionId := None, gameMode := None, startCb := None, group := None)
  }

  function CancelInvites(group: seq<Player>, uid: Option<string>): seq<Sent>
  {
    if group == [] then [] else [CancelInvite(group[0].onlineId, uid, false)] + CancelInvites(group[1..], uid)
  }

  function DoCancel(s: State): State
  {
    var invites := if s.preUid.Some? && s.group.Some? then CancelInvites(s.group.value, s.preUid) else [];
    var search := if s.uid.Some? then [Sent.DropSearch] else [];
    Freed(s.(sent := s.sent + invites + search))
  }

  function DoStart(s: State, callback: Option<seq<Cmd>>): State
  {
    if s.preUid.None? then s
    else
      s.(startCb := if callback.Some? then Some(Callback(|s.starts|, callback.value)) else None,
         starts := s.starts + [if s.opens > 0 then s.opens - 1 else 0],
         group := if s.group.None? then Some([]) else s.group,
         sent := s.sent + [Sent.StartSearch(s.preUid, s.missionId, s.kind, s.gameMode, s.switches)])
  }

  function DoPreinvite(s: State, onlineId: Option<string>, profileId: Option<string>, nickname: Option<string>): State
  {
    if onlineId.None? || profileId.None? || nickname.None? || s.preUid.None? then s
    else
      s.(group := Some([Player(onlineId.value, profileId.value, nickname.value, false)]
                       + if s.group.Some? then s.group.value else []),
         sent := s.sent + [Invite(onlineId.value, s.preUid)])
  }

  /** The fields after opening, before the channel is looked at. */
  function Opened(w: World, s: State, mission: Option<string>, kind: nat, mode: Option<string>): State
  {
    s.(preUid := Some(w.uuid(s.opens)), opens := s.opens + 1, kind := kind, switches := 0,
       missionId := if mission.Some? then mission else s.missionId,
       gameMode := if mode.Some? then mode else s.gameMode)
  }

  function Do(w: World, s: State, cmd: Cmd): State
    decreases cmd
  {
    match cmd
    case Open(mission, kind, mode, server, whenJoined) =>
      if s.uid.Some? then s
      else
        var s' := Opened(w, s, mission, kind, mode);
        if Fits(w.channel, kind) then DoAll(w, s', whenJoined)
        else if server.Some? then s'.(sent := s'.sent + [Join(server.value)])
        else s'
    case Start(callback) => DoStart(s, callback)
    case Preinvite(onlineId, profileId, nickname) => DoPreinvite(s, onlineId, profileId, nickname)
    case Cancel => DoCancel(s)
  }

  function DoAll(w: World, s: State, cmds: seq<Cmd>): State
    decreases cmds
  {
    if cmds == [] then s else DoAll(w, Do(w, s, cmds[0]), cmds[1..])
  }

  function DoResponse(s: State, uid: Option<string>, onlineId: Option<string>, accepted: bool): State
  {
    if onlineId.None? || s.group.None? then s
    else
      var k := FirstMatch(s.group.value, WithId(onlineId.value));
      if k < |s.group.value| && uid.Some? && s.preUid.Some? && uid == s.preUid then
        if accepted then s.(group := Some(s.group.value[k := s.group.value[k].(accepted := true)]))
        else s.(group := Some(Without(s.group.value, k)))
      else s.(sent := s.sent + [CancelInvite(onlineId.value, uid, true)])
  }

  function DoStarted(s: State, uid: Option<string>): State
  {
    if uid.Some? && s.preUid.Some? && uid == s.preUid then s.(uid := uid, preUid := None, tryAgain := 0) else s
  }

  function DoSucceeded(w: World, s: State, uid: Option<string>): State
  {
    if s.tryAgain != 0 then s.(tryAgain := 0)
    else if uid.Some? && s.uid.Some? && uid == s.uid then
      match s.startCb
      case None => Freed(s)
      case Some(cb) => Freed(DoAll(w, s.(fired := s.fired + [Fired(cb.serial, s.uid.value)]), cb.commands))
    else s
  }

  function DoCanceled(s: State, uid: Option<string>): State
  {
    if uid.Some? && s.uid.Some? && uid == s.uid then Freed(s) else s
  }

  function Step(w: World, s: State, e: Event): State
  {
    match e
    case User(cmd) => Do(w, s, cmd)
    case PreinviteResponse(uid, onlineId, accepted) => DoResponse(s, uid, onlineId, accepted)
    case Started(uid) => DoStarted(s, uid)
    case Succeeded(uid) => DoSucceeded(w, s, uid)
    case Canceled(uid) => DoCanceled(s, uid)
    case Refused => s.(tryAgain := 1)
    case Left => Freed(s)
  }

  /** Any sequence of events, each with the world of its time. */
  function Run(s: State, events: seq<(World, Event)>): State
    decreases |events|
  {
    if events == [] then s else Run(Step(events[0].0, s, events[0].1), events[1..])
  }

  // ---------------------------------------------------------------------------------------------
  // What every run keeps
  // ---------------------------------------------------------------------------------------------

  /** Each serial that was fired belongs to a start, and they only grow. */
  predicate FiredInOrder(fired: seq<Fired>, starts: nat)
  {
    && (forall i, j :: 0 <= i < j < |fired| ==> fired[i].serial < fired[j].serial)
    && (forall i :: 0 <= i < |fired| ==> fired[i].serial < starts)
  }

  /** What holds even while a callback runs. */
  predicate Base(s: State)
  {
    && !(s.uid.Some? && s.preUid.Some?)
    && (s.group.Some? || s.startCb.Some? ==> s.uid.Some? || s.preUid.Some?)
    && (s.startCb.Some? ==> s.startCb.value.serial + 1 == |s.starts|)
    && FiredInOrder(s.fired, |s.starts|)
  }

  /** The first start whose callback can still be run. */
  function Floor(s: State): nat { if s.startCb.Some? then s.startCb.value.serial else |s.starts| }

  predicate Inv(s: State)
  {
    Base(s) && forall i :: 0 <= i < |s.fired| ==> s.fired[i].serial < Floor(s)
  }

  /** What commands can do: nothing fires, and the set callback is only replaced by a newer one or dropped. */
  predicate Forward(s: State, s': State)
  {
    s'.fired == s.fired && |s.starts| <= |s'.starts| && Floor(s) <= Floor(s')
  }

  lemma CmdForward(s: State, s': State)
    requires Inv(s) && Base(s') && Forward(s, s')
    ensures Inv(s')
  {
  }

  lemma FreedInv(s: State)
    requires Inv(s)
    ensures Inv(Freed(s))
  {
  }

  lemma CancelInv(s: State)
    requires Inv(s)
    ensures Inv(DoCancel(s))
  {
  }

  lemma StartInv(s: State, callback: Option<seq<Cmd>>)
    requires Inv(s)
    ensures Inv(DoStart(s, callback))
  {
  }

  lemma PreinviteInv(s: State, onlineId: Option<string>, profileId: Option<string>, nickname: Option<string>)
    requires Inv(s)
    ensures Inv(DoPreinvite(s, onlineId, profileId, nickname))
  {
  }

  lemma ResponseInv(s: State, uid: Option<string>, onlineId: Option<string>, accepted: bool)
    requires Inv(s)
    ensures Inv(DoResponse(s, uid, onlineId, accepted))
  {
  }

  lemma StartedInv(s: State, uid: Option<string>)
    requires Inv(s)
    ensures Inv(DoStarted(s, uid))
  {
  }

  lemma {:induction false} DoBase(w: World, s: State, cmd: Cmd)
    requires Base(s)
    ensures Base(Do(w, s, cmd)) && Forward(s, Do(w, s, cmd))
    decreases cmd
  {
    match cmd {
      case Open(mission, kind, mode, server, whenJoined) =>
        if s.uid.None? && Fits(w.channel, kind) {
          DoAllBase(w, Opened(w, s, mission, kind, mode), whenJoined);
        }
      case _ =>
    }
  }

  lemma {:induction false} DoAllBase(w: World, s: State, cmds: seq<Cmd>)
    requires Base(s)
    ensures Base(DoAll(w, s, cmds)) && Forward(s, DoAll(w, s, cmds))
    decreases cmds
  {
    if cmds != [] {
      DoBase(w, s, cmds[0]);
      DoAllBase(w, Do(w, s, cmds[0]), cmds[1..]);
    }
  }

  lemma CommandInv(w: World, s: State, cmd: Cmd)
    requires Inv(s)
    ensures Inv(Do(w, s, cmd))
  {
    DoBase(w, s, cmd);
    CmdForward(s, Do(w, s, cmd));
  }

  lemma CommandsInv(w: World, s: State, cmds: seq<Cmd>)
    requires Inv(s)
    ensures Inv(DoAll(w, s, cmds))
  {
    DoAllBase(w, s, cmds);
    CmdForward(s, DoAll(w, s, cmds));
  }

  lemma RefusedInv(s: State)
    requires Inv(s)
    ensures Inv(s.(tryAgain := 1))
  {
  }

  /** The callback that is due: the success is for the confirmed search and no second try was asked for. */
  predicate Due(s: State, e: Event)
  {
    e.Succeeded? && e.uid.Some? && s.uid == e.uid && s.tryAgain == 0 && s.startCb.Some?
  }

  lemma SucceededInv(w: World, s: State, uid: Option<string>)
    requires Inv(s)
    ensures var s' := DoSucceeded(w, s, uid);
      && Inv(s') && Floor(s) <= Floor(s')
      && s'.fired == if Due(s, Succeeded(uid)) then s.fired + [Fired(s.startCb.value.serial, uid.value)] else s.fired
  {
    if Due(s, Succeeded(uid)) {
      var cb := s.startCb.value;
      var s1 := s.(fired := s.fired + [Fired(cb.serial, uid.value)]);
      DoAllBase(w, s1, cb.commands);
    }
  }

  /** Every step keeps the invariant; a callback is run exactly when it is due, once, and for its uid. */
  lemma StepInv(w: World, s: State, e: Event)
    requires Inv(s)
    ensures var s' := Step(w, s, e);
      && Inv(s') && Floor(s) <= Floor(s')
      && s'.fired == if Due(s, e) then s.fired + [Fired(s.startCb.value.serial, e.uid.value)] else s.fired
  {
    match e {
      case User(cmd) =>
        DoBase(w, s, cmd);
        CmdForward(s, Do(w, s, cmd));
      case Succeeded(uid) => SucceededInv(w, s, uid);
      case _ =>
    }
  }

  lemma {:induction false} RunInv(s: State, events: seq<(World, Event)>)
    requires Inv(s)
    ensures Inv(Run(s, events))
    ensures s.fired <= Run(s, events).fired
    ensures forall i :: |s.fired| <= i < |Run(s, events).fired| ==> Run(s, events).fired[i].serial >= Floor(s)
    decreases |events|
  {
    if events != [] {
      StepInv(events[0].0, s, events[0].1);
      RunInv(Step(events[0].0, s, events[0].1), events[1..]);
    }
  }

  /**
    Over every run: a search is never both pending and confirmed; players and a start callback exist
    only for one; and a start callback is run at most once per accepted start.
   */
  lemma AlwaysConsistent(events: seq<(World, Event)>)
    ensures var s := Run(Init(), events);
      && !(s.uid.Some? && s.preUid.Some?)
      && (s.group.Some? || s.startCb.Some? ==> s.uid.Some? || s.preUid.Some?)
      && (forall i, j :: 0 <= i < j < |s.fired| ==> s.fired[i].serial != s.fired[j].serial)
      && (forall i :: 0 <= i < |s.fired| ==> s.fired[i].serial < |s.starts|)
  {
    RunInv(Init(), events);
  }

  /**
    In every run, an event makes a callback run exactly when it is a success, its uid is the confirmed
    one, no second try was asked for and a callback is set; it is then run once, for that uid.
   */
  lemma FiresExactlyWhenDue(before: seq<(World, Event)>, w: World, e: Event)
    ensures var s := Run(Init(), before);
      Step(w, s, e).fired ==
        if Due(s, e) then s.fired + [Fired(s.startCb.value.serial, e.uid.value)] else s.fired
  {
    RunInv(Init(), before);
    StepInv(w, Run(Init(), before), e);
  }

  /** After a cancel, by the user or by the server, no callback of an earlier start is ever run. */
  lemma NeverAfterCancel(before: seq<(World, Event)>, w: World, after: seq<(World, Event)>, uid: string)
    ensures var s := Run(Init(), before);
      var c := Step(w, s, User(Cancel));
      forall i :: |c.fired| <= i < |Run(c, after).fired| ==> Run(c, after).fired[i].serial >= |s.starts|
    ensures var s := Run(Init(), before);
      var c := Step(w, s, Canceled(Some(uid)));
      s.uid == Some(uid) ==>
        forall i :: |c.fired| <= i < |Run(c, after).fired| ==> Run(c, after).fired[i].serial >= |s.starts|
  {
    var s := Run(Init(), before);
    RunInv(Init(), before);
    StepInv(w, s, User(Cancel));
    RunInv(Step(w, s, User(Cancel)), after);
    StepInv(w, s, Canceled(Some(uid)));
    RunInv(Step(w, s, Canceled(Some(uid))), after);
  }

  lemma {:induction false} InvitesHave(group: seq<Player>, uid: Option<string>, p: Player)
    requires p in group
    ensures CancelInvite(p.onlineId, uid, false) in CancelInvites(group, uid)
  {
    if p != group[0] {
      InvitesHave(group[1..], uid, p);
    }
  }

  lemma CancelTells(s: State)
    requires Inv(s)
    ensures var sent := DoCancel(s).sent;
      && s.sent <= sent
      && (s.preUid.Some? && s.group.Some? ==>
            forall p :: p in s.group.value ==> CancelInvite(p.onlineId, s.preUid, false) in sent[|s.sent|..])
      && (Sent.DropSearch in sent[|s.sent|..] <==> s.uid.Some?)
  {
    if s.preUid.Some? && s.group.Some? {
      var invites := CancelInvites(s.group.value, s.preUid);
      assert DoCancel(s).sent[|s.sent|..] == invites;
      forall p | p in s.group.value ensures CancelInvite(p.onlineId, s.preUid, false) in invites {
        InvitesHave(s.group.value, s.preUid, p);
      }
      OnlyInvites(s.group.value, s.preUid);
    } else {
      assert DoCancel(s).sent[|s.sent|..] == if s.uid.Some? then [Sent.DropSearch] else [];
    }
  }

  /**
    In every run, a cancel tells every invited player of a pending search, and the server exactly of a
    confirmed one.
   */
  lemma CancelTellsAll(before: seq<(World, Event)>, w: World)
    ensures var s := Run(Init(), before);
      var sent := Step(w, s, User(Cancel)).sent;
      && s.sent <= sent
      && (s.preUid.Some? && s.group.Some? ==>
            forall p :: p in s.group.value ==> CancelInvite(p.onlineId, s.preUid, false) in sent[|s.sent|..])
      && (Sent.DropSearch in sent[|s.sent|..] <==> s.uid.Some?)
  {
    RunInv(Init(), before);
    CancelTells(Run(Init(), before));
  }

  lemma {:induction false} OnlyInvites(group: seq<Player>, uid: Option<string>)
    ensures Sent.DropSearch !in CancelInvites(group, uid)
  {
    if group != [] {
      OnlyInvites(group[1..], uid);
    }
  }

  // ---------------------------------------------------------------------------------------------
  // What the events of a search do
  // ---------------------------------------------------------------------------------------------

  /** The first player of the group with this id stands at k. */
  predicate FirstWith(group: seq<Player>, id: string, k: nat)
  {
    k < |group| && group[k].onlineId == id && forall i :: 0 <= i < k ==> group[i].onlineId != id
  }

  lemma FirstWithIs(group: seq<Player>, id: string, k: nat)
    requires FirstWith(group, id, k)
    ensures FirstMatch(group, WithId(id)) == k
  {
    FirstMatchIs(group, WithId(id), k);
  }

  /**
    In every run, an answer to an invitation of the pending search: a player who accepts is marked in the
    group, one who refuses leaves it, and nothing else changes.
   */
  lemma AnswerCounts(before: seq<(World, Event)>, w: World, uid: string, id: string, accepted: bool, k: nat)
    requires var s := Run(Init(), before); s.preUid == Some(uid) && s.group.Some? && FirstWith(s.group.value, id, k)
    ensures var s := Run(Init(), before);
      var g, p := s.group.value, s.group.value[k];
      Step(w, s, PreinviteResponse(Some(uid), Some(id), accepted)) ==
        s.(group := Some(g[..k] + (if accepted then [Player(p.onlineId, p.profileId, p.nickname, true)] else [])
                         + g[k + 1..]))
  {
    var g := Run(Init(), before).group.value;
    FirstWithIs(g, id, k);
    assert g[k := g[k].(accepted := true)] == g[..k] + [g[k].(accepted := true)] + g[k + 1..];
    assert g[..k] + [] + g[k + 1..] == Without(g, k);
  }

  /**
    In every run with a group, an answer for another search or by someone who is not in the group changes
    nothing but tells that player that the invitation has expired. Without a group it is ignored.
   */
  lemma AnswerTooLate(before: seq<(World, Event)>, w: World, uid: Option<string>, id: string, accepted: bool)
    requires var s := Run(Init(), before);
      s.group.Some? ==>
        uid.None? || s.preUid != uid || forall i :: 0 <= i < |s.group.value| ==> s.group.value[i].onlineId != id
    ensures var s := Run(Init(), before);
      Step(w, s, PreinviteResponse(uid, Some(id), accepted)) ==
        if s.group.Some? then s.(sent := s.sent + [CancelInvite(id, uid, true)]) else s
  {
    var s := Run(Init(), before);
    if s.group.Some? && uid.Some? && s.preUid == uid {
      FirstMatchIs(s.group.value, WithId(id), |s.group.value|);
    }
  }

  lemma RunNext(s: State, w: World, e: Event, rest: seq<(World, Event)>)
    ensures Run(s, [(w, e)] + rest) == Run(Step(w, s, e), rest)
  {
    assert ([(w, e)] + rest)[1..] == rest;
  }

  /** Bit 4 of the kind asks for a channel whose type holds "pve". */
  lemma ChannelsAndKinds(kind: nat, front: string, behind: string, other: string)
    requires 'v' !in other
    ensures IsPve(kind) <==> 16 <= kind % 32
    ensures InPve(Some(front + ("pve" + behind))) && !InPve(Some(other)) && !InPve(None)
  {
    assert (front + ("pve" + behind))[|front|..|front| + 3] == "pve";
    assert OccursAt(front + ("pve" + behind), "pve", |front|) && "pve"[1] == 'v';
    Absent(other, "pve", 'v');
  }

  /** In a channel of its kind, or without one, opening a search goes on at once with what was to be done. */
  lemma OpensHere(w: World, s: State, mission: Option<string>, kind: nat, mode: Option<string>,
    server: Option<string>, p: Player)
    requires s.uid.None? && (w.channel.None? || IsPve(kind) == InPve(w.channel))
    ensures var s' := Step(w, s, User(Open(mission, kind, mode, server, [])));
      && s'.sent == s.sent && s'.preUid == Some(w.uuid(s.opens)) && s'.kind == kind
      && Step(w, s, User(Open(mission, kind, mode, server, [Inviting(p).cmd]))) == Step(w, s', Inviting(p))
  {
    var o, c := Opened(w, s, mission, kind, mode), Inviting(p).cmd;
    assert [c][1..] == [];
    assert DoAll(w, o, []) == o && DoAll(w, o, [c]) == DoAll(w, Do(w, o, c), []) == Do(w, o, c);
  }

  /** After a refusal one success is passed over, and the next one counts. */
  lemma RefusalDelays(w: World, s: State, uid: Option<string>)
    requires s.tryAgain == 0
    ensures var r := Step(w, s, Refused);
      Step(w, r, Succeeded(uid)) == s && Step(w, r, Refused) == r
  {
  }

  /** Opening a search in a channel of the other kind joins a server of that kind, if there is one. */
  lemma OpensElsewhere(w: World, s: State, mission: Option<string>, kind: nat, mode: Option<string>,
    server: Option<string>, whenJoined: seq<Cmd>)
    requires s.uid.None? && w.channel.Some? && IsPve(kind) != InPve(w.channel)
    ensures var s' := Step(w, s, User(Open(mission, kind, mode, server, whenJoined)));
      && s'.sent == s.sent + (if server.Some? then [Join(server.value)] else [])
      && s'.preUid == Some(w.uuid(s.opens)) && s'.kind == kind && s'.group == s.group && s'.starts == s.starts
  {
  }

  /** The fields from opening a search to its confirmation. */
  function Pending(w: World, mission: string, kind: nat, mode: string, group: Option<seq<Player>>,
    sent: seq<Sent>): State
  {
    State(Some(w.uuid(0)), None, 0, group, Some(mission), Some(mode), kind, 0, None, 1, [], [], sent)
  }

  function Inviting(p: Player): Event { User(Preinvite(Some(p.onlineId), Some(p.profileId), Some(p.nickname))) }

  lemma Opens(w: World, mission: string, kind: nat, mode: string)
    ensures Step(w, Init(), User(Open(Some(mission), kind, Some(mode), None, []))) ==
      Pending(w, mission, kind, mode, None, [])
  {
    var s := Opened(w, Init(), Some(mission), kind, Some(mode));
    assert DoAll(w, s, []) == s;
  }

  lemma Invites(w: World, mission: string, kind: nat, mode: string, group: Option<seq<Player>>, sent: seq<Sent>,
    p: Player)
    requires !p.accepted
    ensures Step(w, Pending(w, mission, kind, mode, group, sent), Inviting(p)) ==
      Pending(w, mission, kind, mode, Some([p] + if group.Some? then group.value else []),
              sent + [Invite(p.onlineId, Some(w.uuid(0)))])
  {
  }

  lemma Answers(w: World, s: State, uid: string, id: string, accepted: bool, k: nat, after: seq<Player>)
    requires s.preUid == Some(uid) && s.group.Some? && FirstWith(s.group.value, id, k)
    requires after ==
      if accepted then s.group.value[k := s.group.value[k].(accepted := true)]
      else s.group.value[..k] + s.group.value[k + 1..]
    ensures Step(w, s, PreinviteResponse(Some(uid), Some(id), accepted)) == s.(group := Some(after))
  {
    FirstWithIs(s.group.value, id, k);
  }

  /** Opening a search, inviting p and q, of whom p accepts and q refuses, starting, and the confirmation. */
  function WholeSearch(w: World, mission: string, kind: nat, mode: string, p: Player, q: Player): seq<(World, Event)>
  {
    var uid := Some(w.uuid(0));
    [(w, User(Open(Some(mission), kind, Some(mode), None, [])))] + ([(w, Inviting(p))] + ([(w, Inviting(q))] +
    Answered(w, uid, p.onlineId, q.onlineId)))
  }

  function Answered(w: World, uid: Option<string>, yes: string, no: string): seq<(World, Event)>
  {
    [(w, PreinviteResponse(uid, Some(yes), true))] + ([(w, PreinviteResponse(uid, Some(no), false))] +
    ([(w, User(Start(Some([]))))] + ([(w, Started(uid))] + [])))
  }

  /** Where that leads: the search is confirmed, p is in the group, and the server was told in this order. */
  lemma WholeSearchRuns(w: World, mission: string, kind: nat, mode: string, p: Player, q: Player)
    requires !p.accepted && !q.accepted && p.onlineId != q.onlineId
    ensures var uid := Some(w.uuid(0));
      var s := Run(Init(), WholeSearch(w, mission, kind, mode, p, q));
      && s == State(None, uid, 0, Some([p.(accepted := true)]), Some(mission), Some(mode), kind, 0,
                    Some(Callback(0, [])), 1, [0], [],
                    [Invite(p.onlineId, uid), Invite(q.onlineId, uid),
                     Sent.StartSearch(uid, Some(mission), kind, Some(mode), 0)])
      && Step(w, s, Succeeded(uid)) ==
           State(None, None, 0, None, None, None, kind, 0, None, 1, [0], [Fired(0, w.uuid(0))], s.sent)
  {
    var u, uid := w.uuid(0), Some(w.uuid(0));
    var one, two := [Invite(p.onlineId, uid)], [Invite(p.onlineId, uid), Invite(q.onlineId, uid)];
    var s1, s2 := Pending(w, mission, kind, mode, None, []), Pending(w, mission, kind, mode, Some([p]), one);
    var s3 := Pending(w, mission, kind, mode, Some([q, p]), two);
    var rest := Answered(w, uid, p.onlineId, q.onlineId);
    Opens(w, mission, kind, mode);
    Invites(w, mission, kind, mode, None, [], p);
    Invites(w, mission, kind, mode, Some([p]), one, q);
    assert [] + one == one && one + [Invite(q.onlineId, uid)] == two && [p] + [] == [p] && [q] + [p] == [q, p];
    RunNext(Init(), w, User(Open(Some(mission), kind, Some(mode), None, [])),
            [(w, Inviting(p))] + ([(w, Inviting(q))] + rest));
    RunNext(s1, w, Inviting(p), [(w, Inviting(q))] + rest);
    RunNext(s2, w, Inviting(q), rest);
    AnsweredRuns(w, s3, u, p, q);
    SucceedsWithout(w, Run(s3, rest), u);
  }

  /** A success whose callback gives no commands. */
  lemma SucceedsWithout(w: World, s: State, uid: string)
    requires s.uid == Some(uid) && s.tryAgain == 0 && s.startCb.Some? && s.startCb.value.commands == []
    ensures Step(w, s, Succeeded(Some(uid))) ==
      State(None, None, 0, None, None, None, s.kind, s.switches, None, s.opens, s.starts,
            s.fired + [Fired(s.startCb.value.serial, uid)], s.sent)
  {
  }

  lemma AnsweredRuns(w: World, s: State, uid: string, p: Player, q: Player)
    requires !p.accepted && !q.accepted && p.onlineId != q.onlineId
    requires s.preUid == Some(uid) && s.uid.None? && s.group == Some([q, p]) && s.starts == [] && s.opens == 1
    requires s.tryAgain == 0
    ensures Run(s, Answered(w, Some(uid), p.onlineId, q.onlineId)) ==
      s.(preUid := None, uid := Some(uid), group := Some([p.(accepted := true)]), starts := [0],
         startCb := Some(Callback(0, [])),
         sent := s.sent + [Sent.StartSearch(Some(uid), s.missionId, s.kind, s.gameMode, s.switches)])
  {
    var yes := PreinviteResponse(Some(uid), Some(p.onlineId), true);
    var no := PreinviteResponse(Some(uid), Some(q.onlineId), false);
    var begin, confirm: Event := User(Start(Some([]))), Started(Some(uid));
    var both, kept := [q, p.(accepted := true)], [p.(accepted := true)];
    var s4, s5 := s.(group := Some(both)), s.(group := Some(kept));
    assert [q, p][1 := p.(accepted := true)] == both && both[..0] + both[1..] == kept;
    Answers(w, s, uid, p.onlineId, true, 1, both);
    Answers(w, s4, uid, q.onlineId, false, 0, kept);
    RunNext(s, w, yes, [(w, no)] + ([(w, begin)] + ([(w, confirm)] + [])));
    RunNext(s4, w, no, [(w, begin)] + ([(w, confirm)] + []));
    RunNext(s5, w, begin, [(w, confirm)] + []);
    RunNext(Step(w, s5, begin), w, confirm, []);
  }

  // ---------------------------------------------------------------------------------------------
  // Whose callback it is
  // ---------------------------------------------------------------------------------------------

  ghost predicate Injective(uuid: nat -> string) { forall m, n :: uuid(m) == uuid(n) ==> m == n }

  /** The server confirms only a search it was asked for. */
  ghost predicate Honest(uuid: nat -> string, s: State, e: Event)
  {
    e.Started? && e.uid.Some? ==> exists k :: k in s.starts && uuid(k) == e.uid.value
  }

  ghost predicate HonestRun(uuid: nat -> string, s: State, events: seq<(World, Event)>)
    decreases |events|
  {
    events != [] ==>
      && events[0].0.uuid == uuid && Honest(uuid, s, events[0].1)
      && HonestRun(uuid, Step(events[0].0, s, events[0].1), events[1..])
  }

  /** The pending search is the last opened; starts belong to opened searches, in order. */
  predicate Opening(uuid: nat -> string, s: State)
  {
    && (s.preUid.Some? ==> s.opens > 0 && s.preUid.value == uuid(s.opens - 1))
    && (forall i :: 0 <= i < |s.starts| ==> s.starts[i] < s.opens)
    && (forall i, j :: 0 <= i < j < |s.starts| ==> s.starts[i] <= s.starts[j])
  }

  /** The set callback of a confirmed search was set while that search was the pending one. */
  predicate Own(uuid: nat -> string, s: State)
  {
    && (s.uid.Some? && s.startCb.Some? ==>
          s.startCb.value.serial < |s.starts| && s.uid.value == uuid(s.starts[s.startCb.value.serial]))
    && (forall i :: 0 <= i < |s.fired| ==>
          s.fired[i].serial < |s.starts| && s.fired[i].uid == uuid(s.starts[s.fired[i].serial]))
  }

  predicate OwnInv(uuid: nat -> string, s: State) { Base(s) && Opening(uuid, s) && Own(uuid, s) }

  lemma {:induction false} DoOwn(w: World, s: State, cmd: Cmd)
    requires OwnInv(w.uuid, s)
    ensures OwnInv(w.uuid, Do(w, s, cmd))
    decreases cmd
  {
    match cmd {
      case Open(mission, kind, mode, server, whenJoined) =>
        if s.uid.None? && Fits(w.channel, kind) {
          DoAllOwn(w, Opened(w, s, mission, kind, mode), whenJoined);
        }
      case _ =>
    }
  }

  lemma {:induction false} DoAllOwn(w: World, s: State, cmds: seq<Cmd>)
    requires OwnInv(w.uuid, s)
    ensures OwnInv(w.uuid, DoAll(w, s, cmds))
    decreases cmds
  {
    if cmds != [] {
      DoOwn(w, s, cmds[0]);
      DoAllOwn(w, Do(w, s, cmds[0]), cmds[1..]);
    }
  }

  lemma StartedOwn(uuid: nat -> string, s: State, uid: Option<string>)
    requires OwnInv(uuid, s) && Injective(uuid) && Honest(uuid, s, Started(uid))
    ensures OwnInv(uuid, DoStarted(s, uid))
  {
    if uid.Some? && uid == s.preUid {
      var k :| k in s.starts && uuid(k) == uid.value;
      assert k == s.opens - 1;
      var i :| 0 <= i < |s.starts| && s.starts[i] == k;
      assert s.starts[|s.starts| - 1] == k;
    }
  }

  lemma FreedOwn(uuid: nat -> string, s: State)
    requires OwnInv(uuid, s)
    ensures OwnInv(uuid, Freed(s))
  {
  }

  lemma SucceededOwn(w: World, s: State, uid: Option<string>)
    requires OwnInv(w.uuid, s) && Inv(s)
    ensures OwnInv(w.uuid, DoSucceeded(w, s, uid))
  {
    if Due(s, Succeeded(uid)) {
      var cb := s.startCb.value;
      var s1 := s.(fired := s.fired + [Fired(cb.serial, uid.value)]);
      DoAllOwn(w, s1, cb.commands);
      FreedOwn(w.uuid, DoAll(w, s1, cb.commands));
    } else {
      FreedOwn(w.uuid, s);
    }
  }

  lemma ResponseOwn(uuid: nat -> string, s: State, uid: Option<string>, onlineId: Option<string>, accepted: bool)
    requires OwnInv(uuid, s)
    ensures OwnInv(uuid, DoResponse(s, uid, onlineId, accepted))
  {
  }

  lemma StepOwn(w: World, s: State, e: Event)
    requires OwnInv(w.uuid, s) && Injective(w.uuid) && Honest(w.uuid, s, e) && Inv(s)
    ensures OwnInv(w.uuid, Step(w, s, e))
  {
    match e {
      case User(cmd) => DoOwn(w, s, cmd);
      case PreinviteResponse(uid, onlineId, accepted) => ResponseOwn(w.uuid, s, uid, onlineId, accepted);
      case Started(uid) => StartedOwn(w.uuid, s, uid);
      case Succeeded(uid) => SucceededOwn(w, s, uid);
      case Canceled(uid) => FreedOwn(w.uuid, s);
      case Refused =>
      case Left => FreedOwn(w.uuid, s);
    }
  }

  lemma {:induction false} RunOwn(uuid: nat -> string, s: State, events: seq<(World, Event)>)
    requires OwnInv(uuid, s) && Inv(s) && Injective(uuid) && HonestRun(uuid, s, events)
    ensures OwnInv(uuid, Run(s, events))
    decreases |events|
  {
    if events != [] {
      StepOwn(events[0].0, s, events[0].1);
      StepInv(events[0].0, s, events[0].1);
      RunOwn(uuid, Step(events[0].0, s, events[0].1), events[1..]);
    }
  }

  /**
    If uuids do not repeat and the server confirms only searches it was asked for, every callback that
    is run was set for the very search that succeeded, however often the user opened and started.
   */
  lemma FiredForOwnSearch(uuid: nat -> string, events: seq<(World, Event)>, i: nat)
    requires Injective(uuid) && HonestRun(uuid, Init(), events) && i < |Run(Init(), events).fired|
    ensures var s := Run(Init(), events);
      s.fired[i].serial < |s.starts| && s.fired[i].uid == uuid(s.starts[s.fired[i].serial])
  {
    RunOwn(uuid, Init(), events);
  }

  // ---------------------------------------------------------------------------------------------
  // The fields of session.quickplay
  // ---------------------------------------------------------------------------------------------

  class Search {
    var preUid: Option<string>
    var uid: Option<string>
    var tryAgain: int
    var group: Option<seq<Player>>
    var missionId: Option<string>
    var gameMode: Option<string>
    var kind: nat
    var switches: nat
    var startCb: Option<Callback>
    /** Not in the program. */
    var opens: nat
    var starts: seq<nat>
    var fired: seq<Fired>
    var sent: seq<Sent>

    constructor ()
      ensures Valid() && Now() == Init()
    {
      preUid, uid, tryAgain, group, missionId, gameMode := None, None, 0, None, None, None;
      kind, switches, startCb, opens, starts, fired, sent := 0, 0, None, 0, [], [], [];
    }

    function Now(): State
      reads this
    {
      State(preUid, uid, tryAgain, group, missionId, gameMode, kind, switches, startCb, opens, starts, fired, sent)
    }

    /** What holds between two events. While a callback runs, only Base does: its commands keep either. */
    ghost predicate Valid()
      reads this
    {
      Inv(Now())
    }

    method Free()
      modifies this
      ensures Now() == Freed(old(Now()))
      ensures old(Valid()) ==> Valid()
    {
      if Valid() {
        FreedInv(Now());
      }
      preUid, uid, missionId, gameMode, startCb, group := None, None, None, None, None, None;
    }

    method DropSearch()
      modifies this
      ensures Now() == DoCancel(old(Now()))
      ensures old(Valid()) ==> Valid()
    {
      if Valid() {
        CancelInv(Now());
      }
      if preUid.Some? && group.Some? {
        var players := group.value;
        ghost var before := sent;
        for i := 0 to |players|
          invariant before + CancelInvites(players, preUid) == sent + CancelInvites(players[i..], preUid)
          invariant Now() == old(Now()).(sent := sent)
        {
          NextInvite(players, i, preUid);
          ghost var was := sent;
          sent := sent + [CancelInvite(players[i].onlineId, preUid, false)];
          assert was + ([CancelInvite(players[i].onlineId, preUid, false)] + CancelInvites(players[i + 1..], preUid))
              == sent + CancelInvites(players[i + 1..], preUid);
        }
        assert players[|players|..] == [] && sent == before + CancelInvites(players, preUid);
      }
      if uid.Some? {
        sent := sent + [Sent.DropSearch];
      }
      Free();
    }

    method StartSearch(callback: Option<seq<Cmd>>)
      modifies this
      ensures Now() == DoStart(old(Now()), callback)
      ensures old(Valid()) ==> Valid()
    {
      if Valid() {
        StartInv(Now(), callback);
      }
      if preUid.None? {
        return;
      }
      startCb := if callback.Some? then Some(Callback(|starts|, callback.value)) else None;
      starts := starts + [if opens > 0 then opens - 1 else 0];
      if group.None? {
        group := Some([]);
      }
      sent := sent + [Sent.StartSearch(preUid, missionId, kind, gameMode, switches)];
    }

    method InvitePlayer(onlineId: Option<string>, profileId: Option<string>, nickname: Option<string>)
      modifies this
      ensures Now() == DoPreinvite(old(Now()), onlineId, profileId, nickname)
      ensures old(Valid()) ==> Valid()
    {
      if Valid() {
        PreinviteInv(Now(), onlineId, profileId, nickname);
      }
      if onlineId.None? || profileId.None? || nickname.None? || preUid.None? {
        return;
      }
      if group.None? {
        group := Some([]);
      }
      group := Some([Player(onlineId.value, profileId.value, nickname.value, false)] + group.value);
      sent := sent + [Invite(onlineId.value, preUid)];
    }

    method Begin(w: World, mission: Option<string>, roomKind: nat, mode: Option<string>)
      modifies this
      ensures Now() == Opened(w, old(Now()), mission, roomKind, mode)
    {
      preUid := Some(w.uuid(opens));
      opens := opens + 1;
      kind, switches := roomKind, 0;
      if mission.Some? {
        missionId := mission;
      }
      if mode.Some? {
        gameMode := mode;
      }
    }

    method OpenSearch(w: World, mission: Option<string>, roomKind: nat, mode: Option<string>,
        server: Option<string>, whenJoined: seq<Cmd>)
      modifies this
      ensures Now() == Do(w, old(Now()), Open(mission, roomKind, mode, server, whenJoined))
      ensures old(Valid()) ==> Valid()
      decreases whenJoined, 1
    {
      if Valid() {
        CommandInv(w, Now(), Open(mission, roomKind, mode, server, whenJoined));
      }
      if uid.Some? {
        return;
      }
      Begin(w, mission, roomKind, mode);
      if Fits(w.channel, roomKind) {
        Perform(w, whenJoined);
      } else if server.Some? {
        sent := sent + [Join(server.value)];
      }
    }

    /** What a callback does. */
    method Perform(w: World, cmds: seq<Cmd>)
      modifies this
      ensures Now() == DoAll(w, old(Now()), cmds)
      ensures old(Valid()) ==> Valid()
      decreases cmds, 0
    {
      if Valid() {
        CommandsInv(w, Now(), cmds);
      }
      if cmds != [] {
        match cmds[0] {
          case Open(mission, roomKind, mode, server, whenJoined) =>
            OpenSearch(w, mission, roomKind, mode, server, whenJoined);
          case Start(callback) => StartSearch(callback);
          case Preinvite(onlineId, profileId, nickname) => InvitePlayer(onlineId, profileId, nickname);
          case Cancel => DropSearch();
        }
        Perform(w, cmds[1..]);
      }
    }

    method PreinviteAnswered(to: Option<string>, onlineId: Option<string>, accepted: bool)
      requires Valid()
      modifies this
      ensures Valid() && Now() == DoResponse(old(Now()), to, onlineId, accepted)
    {
      ResponseInv(Now(), to, onlineId, accepted);
      if onlineId.None? || group.None? {
        return;
      }
      var k := FirstMatch(group.value, WithId(onlineId.value));
      if k < |group.value| && to.Some? && preUid.Some? && to.value == preUid.value {
        if accepted {
          group := Some(group.value[k := group.value[k].(accepted := true)]);
        } else {
          group := Some(Without(group.value, k));
        }
      } else {
        sent := sent + [CancelInvite(onlineId.value, to, true)];
      }
    }

    method SearchStarted(confirmed: Option<string>)
      requires Valid()
      modifies this
      ensures Valid() && Now() == DoStarted(old(Now()), confirmed)
    {
      StartedInv(Now(), confirmed);
      if confirmed.Some? && preUid.Some? && confirmed.value == preUid.value {
        uid := confirmed;
        preUid := None;
        tryAgain := 0;
      }
    }

    method SearchSucceeded(w: World, confirmed: Option<string>)
      requires Valid()
      modifies this
      ensures Valid() && Now() == DoSucceeded(w, old(Now()), confirmed)
    {
      SucceededInv(w, Now(), confirmed);
      if tryAgain != 0 {
        tryAgain := 0;
      } else if confirmed.Some? && uid.Some? && confirmed.value == uid.value {
        if startCb.Some? {
          var cb := startCb.value;
          fired := fired + [Fired(cb.serial, uid.value)];
          Perform(w, cb.commands);
        }
        Free();
      }
    }

    method SearchCanceled(canceled: Option<string>)
      requires Valid()
      modifies this
      ensures Valid() && Now() == DoCanceled(old(Now()), canceled)
    {
      FreedInv(Now());
      if canceled.Some? && uid.Some? && canceled.value == uid.value {
        Free();
      }
    }

    /** A command of the user. */
    method Command(w: World, cmd: Cmd)
      requires Valid()
      modifies this
      ensures Valid() && Now() == Do(w, old(Now()), cmd)
    {
      Perform(w, [cmd]);
    }

    /** One event of a run. */
    method Handle(w: World, e: Event)
      requires Valid()
      modifies this
      ensures Valid() && Now() == Step(w, old(Now()), e)
    {
      match e {
        case User(cmd) => Command(w, cmd);
        case PreinviteResponse(from, onlineId, accepted) => PreinviteAnswered(from, onlineId, accepted);
        case Started(confirmed) => SearchStarted(confirmed);
        case Succeeded(confirmed) => SearchSucceeded(w, confirmed);
        case Canceled(canceled) => SearchCanceled(canceled);
        case Refused => Refuse();
        case Left => Free();
      }
    }

    /** A second try was asked for. */
    method Refuse()
      requires Valid()
      modifies this
      ensures Valid() && Now() == old(Now()).(tryAgain := 1)
    {
      RefusedInv(Now());
      tryAgain := 1;
    }

    /** A whole run on the object: what is proved of runs from Init holds of a new object's fields. */
    method Play(events: seq<(World, Event)>)
      requires Valid()
      modifies this
      ensures Valid() && Now() == Run(old(Now()), events)
    {
      var i := 0;
      while i < |events|
        invariant i <= |events| && Valid()
        invariant Run(Now(), events[i..]) == Run(old(Now()), events)
      {
        assert events[i..][1..] == events[i + 1..];
        Handle(events[i].0, events[i].1);
        i := i + 1;
      }
    }
  }

  lemma NextInvite(players: seq<Player>, i: nat, uid: Option<string>)
    requires i < |players|
    ensures CancelInvites(players[i..], uid) ==
      [CancelInvite(players[i].onlineId, uid, false)] + CancelInvites(players[i + 1..], uid)
  {
    assert players[i..][1..] == players[i + 1..];
  }
}
