/** The bits of include/wb_gameroom.h that name the parts of a room. */
module SyncMask {
  const PARTS: nat := 9

  /** GR_SYNC_CORE and so on: 1 << part. */
  function Bit(part: nat): bv16
    requires part < PARTS
  {
    if part == 0 then 1 else if part == 1 then 2 else if part == 2 then 4 else if part == 3 then 8
    else if part == 4 then 16 else if part == 5 then 32 else if part == 6 then 64 else if part == 7 then 128 else 256
  }

  /** The bits are the powers of two, in the order of the parts. */
  lemma BitsShift(part: nat)
    requires part + 1 < PARTS
    ensures Bit(0) == 1 && Bit(part + 1) == Bit(part) << 1
  {
  }

  predicate Meet(m: bv16, n: bv16) { m & n != 0 }

  predicate Has(mask: bv16, part: nat)
    requires part < PARTS
  {
    Meet(mask, Bit(part))
  }

  lemma BitsApart(i: nat, j: nat)
    requires i < PARTS && j < PARTS
    ensures Has(Bit(i), j) <==> i == j
  {
  }

  lemma Distribute(m: bv16, n: bv16, b: bv16)
    ensures (m | n) & b == (m & b) | (n & b)
  {
  }

  lemma OrZero(x: bv16, y: bv16)
    ensures x | y == 0 <==> x == 0 && y == 0
  {
  }

  lemma MeetOr(m: bv16, n: bv16, b: bv16)
    ensures Meet(m | n, b) <==> Meet(m, b) || Meet(n, b)
  {
    Distribute(m, n, b);
    OrZero(m & b, n & b);
  }

  lemma MeetNothing(b: bv16)
    ensures !Meet(0, b)
  {
  }

  /** The bits after `ret |= ...` with the bit of one part or nothing. */
  lemma HasAfter(mask: bv16, m: bv16, part: nat, advanced: bool, i: nat)
    requires part < PARTS && i < PARTS && m == if advanced then Bit(part) else 0
    ensures Has(mask | m, i) <==> Has(mask, i) || (advanced && i == part)
  {
    MeetOr(mask, m, Bit(i));
    MeetNothing(Bit(i));
    BitsApart(part, i);
  }

  lemma HasNothing(i: nat)
    requires i < PARTS
    ensures !Has(0, i)
  {
  }
}

/**
  The game room and its nine parts (src/gameroom.c, include/wb_gameroom.h): every message carries some
  of the parts with a revision number, and a part is replaced only by a higher revision.
 */
module Gameroom {
  import opened CStrings
  import XmlSerializer
  import opened SyncMask

  // ---------------------------------------------------------------------------------------------
  // Keeping the highest revision, whatever the content
  // ---------------------------------------------------------------------------------------------

  datatype Node<C> = Node(revision: nat, content: C)

  function Unsigned(n: int): nat { n % 0x1_0000_0000 }

  function Revision(text: string): nat { Unsigned(GetInfoInt(text, "revision='", "'")) }

  /**
    gameroom_sync_node: an absent part and a revision that is not higher change nothing. Filling a part
    can end the program; then there is no node, and no later message changes that.
   */
  function Merge<C>(sync: (C, string) -> Option<C>, n: Node<C>, text: Option<string>): Option<Node<C>>
  {
    if text.None? || Revision(text.value) <= n.revision then Some(n)
    else match sync(n.content, text.value)
      case None => None
      case Some(c) => Some(Node(Revision(text.value), c))
  }

  function MergeAll<C>(sync: (C, string) -> Option<C>, n: Node<C>, texts: seq<Option<string>>): Option<Node<C>>
    decreases |texts|
  {
    if texts == [] then Some(n)
    else match Merge(sync, n, texts[0])
      case None => None
      case Some(m) => MergeAll(sync, m, texts[1..])
  }

  /** What a part contributes to the revision. */
  function Level(text: Option<string>): nat { if text.Some? then Revision(text.value) else 0 }

  function Highest(start: nat, texts: seq<Option<string>>): (h: nat)
    ensures start <= h
    decreases |texts|
  {
    if texts == [] then start
    else Highest(if Level(texts[0]) > start then Level(texts[0]) else start, texts[1..])
  }

  lemma {:induction false} HighestBounds(start: nat, texts: seq<Option<string>>, t: Option<string>)
    requires t in texts
    ensures Level(t) <= Highest(start, texts)
    decreases |texts|
  {
    if t != texts[0] {
      assert texts == [texts[0]] + texts[1..];
      HighestBounds(if Level(texts[0]) > start then Level(texts[0]) else start, texts[1..], t);
    }
  }

  lemma {:induction false} HighestReached(start: nat, texts: seq<Option<string>>) returns (top: Option<string>)
    requires Highest(start, texts) > start
    ensures top in texts && Level(top) == Highest(start, texts)
    decreases |texts|
  {
    var s := if Level(texts[0]) > start then Level(texts[0]) else start;
    if Highest(s, texts[1..]) > s {
      top := HighestReached(s, texts[1..]);
    } else {
      top := texts[0];
    }
  }

  /** The highest revision is that of a text above which there is none. */
  lemma HighestIs(start: nat, texts: seq<Option<string>>, k: nat)
    requires k < |texts| && Level(texts[k]) > start
    requires forall i :: 0 <= i < |texts| ==> Level(texts[i]) <= Level(texts[k])
    ensures Highest(start, texts) == Level(texts[k])
  {
    HighestBounds(start, texts, texts[k]);
    var top := HighestReached(start, texts);
  }

  lemma {:induction false} MergeIsHighest<C>(sync: (C, string) -> Option<C>, n: Node<C>, texts: seq<Option<string>>)
    ensures MergeAll(sync, n, texts).Some? ==> MergeAll(sync, n, texts).value.revision == Highest(n.revision, texts)
    decreases |texts|
  {
    if texts != [] {
      var m := Merge(sync, n, texts[0]);
      if m.Some? {
        MergeIsHighest(sync, m.value, texts[1..]);
      }
    }
  }

  /** What a part says about itself replaces all that was there, and never ends the program. */
  ghost predicate Complete<C(!new)>(sync: (C, string) -> Option<C>, blank: C, text: Option<string>)
  {
    text.Some? ==> sync(blank, text.value).Some? && forall c :: sync(c, text.value) == sync(blank, text.value)
  }

  ghost predicate AllComplete<C(!new)>(sync: (C, string) -> Option<C>, blank: C, texts: seq<Option<string>>)
  {
    forall t :: t in texts && Level(t) > 0 ==> Complete(sync, blank, t)
  }

  /** A revision determines the content. */
  ghost predicate Determined<C>(sync: (C, string) -> Option<C>, blank: C, texts: seq<Option<string>>)
  {
    forall t, u :: t in texts && u in texts && t.Some? && u.Some? && Level(t) == Level(u) > 0 ==>
      sync(blank, t.value) == sync(blank, u.value)
  }

  lemma TailOf<C(!new)>(sync: (C, string) -> Option<C>, blank: C, texts: seq<Option<string>>)
    requires texts != [] && AllComplete(sync, blank, texts) && Determined(sync, blank, texts)
    ensures AllComplete(sync, blank, texts[1..]) && Determined(sync, blank, texts[1..])
  {
    assert forall t :: t in texts[1..] ==> t in texts;
  }

  /** The first of complete texts does not end the program. */
  lemma FirstMerges<C(!new)>(sync: (C, string) -> Option<C>, blank: C, n: Node<C>, texts: seq<Option<string>>)
    requires texts != [] && AllComplete(sync, blank, texts)
    ensures Merge(sync, n, texts[0]) ==
      Some(if Level(texts[0]) > n.revision then Node(Level(texts[0]), sync(blank, texts[0].value).value) else n)
  {
    assert texts[0] in texts;
    assert Level(texts[0]) > n.revision ==> Complete(sync, blank, texts[0]);
  }

  /** The part survives all messages and ends with the content that belongs to the highest revision seen. */
  lemma {:induction false} MergeContent<C(!new)>(sync: (C, string) -> Option<C>, blank: C, n: Node<C>,
    texts: seq<Option<string>>, top: Option<string>)
    requires AllComplete(sync, blank, texts) && Determined(sync, blank, texts)
    requires top in texts && top.Some? && Level(top) == Highest(n.revision, texts) > n.revision
    ensures sync(blank, top.value).Some?
    ensures MergeAll(sync, n, texts) == Some(Node(Level(top), sync(blank, top.value).value))
    decreases |texts|
  {
    assert Complete(sync, blank, top);
    FirstMerges(sync, blank, n, texts);
    TailOf(sync, blank, texts);
    var m := Merge(sync, n, texts[0]).value;
    assert texts == [texts[0]] + texts[1..];
    if Highest(m.revision, texts[1..]) > m.revision {
      var t := HighestReached(m.revision, texts[1..]);
      MergeContent(sync, blank, m, texts[1..], t);
      assert t in texts && Level(t) == Level(top);
    } else {
      MergeUnchanged(sync, m, texts[1..]);
      assert texts[0] in texts && Level(texts[0]) == Level(top);
    }
  }

  lemma {:induction false} MergeUnchanged<C>(sync: (C, string) -> Option<C>, n: Node<C>, texts: seq<Option<string>>)
    requires Highest(n.revision, texts) == n.revision
    ensures MergeAll(sync, n, texts) == Some(n)
    decreases |texts|
  {
    if texts != [] {
      HighestBounds(n.revision, texts, texts[0]);
      MergeUnchanged(sync, n, texts[1..]);
    }
  }

  lemma HighestOfSame(start: nat, a: seq<Option<string>>, b: seq<Option<string>>)
    requires forall t :: t in a <==> t in b
    ensures Highest(start, a) == Highest(start, b)
  {
    HighestAtMost(start, a, b);
    HighestAtMost(start, b, a);
  }

  lemma HighestAtMost(start: nat, a: seq<Option<string>>, b: seq<Option<string>>)
    requires forall t :: t in a ==> t in b
    ensures Highest(start, a) <= Highest(start, b)
  {
    if Highest(start, a) > start {
      var top := HighestReached(start, a);
      HighestBounds(start, b, top);
    }
  }

  /** Neither the order of the messages nor their repetition makes a difference, and none ends the program. */
  lemma OrderDoesNotMatter<C(!new)>(sync: (C, string) -> Option<C>, blank: C, n: Node<C>,
    a: seq<Option<string>>, b: seq<Option<string>>)
    requires forall t :: t in a <==> t in b
    requires AllComplete(sync, blank, a) && Determined(sync, blank, a)
    ensures MergeAll(sync, n, a).Some? && MergeAll(sync, n, a) == MergeAll(sync, n, b)
  {
    HighestOfSame(n.revision, a, b);
    assert AllComplete(sync, blank, b) && Determined(sync, blank, b);
    if Highest(n.revision, a) == n.revision {
      MergeUnchanged(sync, n, a);
      MergeUnchanged(sync, n, b);
    } else {
      var top := HighestReached(n.revision, a);
      MergeContent(sync, blank, n, a, top);
      MergeContent(sync, blank, n, b, top);
    }
  }

  // ---------------------------------------------------------------------------------------------
  // The parts
  // ---------------------------------------------------------------------------------------------

  const CORE: nat := 0

  /** The names of the parts, in the order of SYNC_LIST. */
  const FIELDS: seq<string> := ["core", "custom_params", "mission", "session", "room_master",
                                "regions", "auto_start", "clan_war", "ingame_chat"]

  /** C types: char, int, unsigned int (also the enumerations), unsigned long int. */
  datatype Width = I8 | I32 | U32 | U64

  datatype IntField = IntField(name: string, width: Width)

  function Store(w: Width, v: int): int
  {
    match w
    case I8 => (v + 128) % 256 - 128
    case I32 => ToInt32(v)
    case U32 => v % 0x1_0000_0000
    case U64 => v % 0x1_0000_0000_0000_0000
  }

  function IntFields(part: nat): seq<IntField>
  {
    if part == 0 then [IntField("teams_switched", I8), IntField("private", I8), IntField("can_start", I8),
                       IntField("team_balanced", I8), IntField("min_ready_players", U32), IntField("players", U32)]
    else if part == 1 then [IntField("friendly_fire", I8), IntField("enemy_outlines", I8),
                            IntField("auto_team_balance", I8), IntField("dead_can_chat", I8),
                            IntField("join_in_the_process", I8), IntField("max_players", U32),
                            IntField("round_limit", U32), IntField("preround_time", I32),
                            IntField("class_restriction", U32), IntField("inventory_slot", U64),
                            IntField("locked_spectator_camera", I8)]
    else if part == 2 then [IntField("no_teams", I8)]
    else if part == 3 then [IntField("status", I32), IntField("game_progress", I32), IntField("start_time", U32)]
    else if part == 6 then [IntField("auto_start_timeout", I32), IntField("auto_start_timeout_left", I32),
                            IntField("can_manual_start", I32), IntField("joined_intermission_timeout", I32)]
    else []
  }

  function StrFields(part: nat): seq<string>
  {
    if part == 2 then ["mission_key", "name", "setting", "mode", "mode_name", "mode_icon", "description", "image",
                       "difficulty", "type", "time_of_day"]
    else if part == 3 then ["id"]
    else if part == 4 then ["master"]
    else if part == 5 then ["region_id"]
    else if part == 7 then ["clan_1", "clan_2"]
    else []
  }

  const PLAYER_INTS: seq<IntField> :=
    [IntField("class_id", U32), IntField("team_id", U32), IntField("status", U32), IntField("presence", U32),
     IntField("observer", I8), IntField("experience", U32), IntField("rank", U32), IntField("banner_badge", U32),
     IntField("banner_mark", U32), IntField("banner_stripe", U32)]

  const PLAYER_STRS: seq<string> := ["nickname", "clanName", "profile_id", "online_id", "group_id", "region_id"]

  function Ints(fields: seq<IntField>, text: string): seq<int>
  {
    seq(|fields|, i requires 0 <= i < |fields| => Store(fields[i].width, GetInfoInt(text, fields[i].name + "='", "'")))
  }

  function Strs(fields: seq<string>, text: string): seq<Option<string>>
  {
    seq(|fields|, i requires 0 <= i < |fields| => GetInfo(text, fields[i] + "='", "'"))
  }

  datatype Player = Player(strs: seq<Option<string>>, ints: seq<int>)

  /** A part: its attributes in the order of the tables, and for the core the room name and the players. */
  datatype Content = Content(ints: seq<int>, strs: seq<Option<string>>, roomName: Option<string>, players: seq<Player>)

  const BLANK: Content := Content([], [], None, [])

  /**
    The players of a list of elements; the list is built from its head, so the last comes first. None
    when an element does not end: its text is then a null pointer.
   */
  function PlayersIn(m: string, before: seq<Player>): Option<seq<Player>>
    decreases |m|
  {
    match Strstr(m, "<player")
    case None => Some(before)
    case Some(k) =>
      match GetInfo(m[k..], "<player", "/>")
      case None => None
      case Some(text) => PlayersIn(m[k + 1..], [Player(Strs(PLAYER_STRS, text), Ints(PLAYER_INTS, text))] + before)
  }

  /** Without a list of players the old one stays. */
  function PlayersAfter(old_: seq<Player>, text: string): Option<seq<Player>>
  {
    match GetInfo(text, "<players>", "</players>")
    case None => Some(old_)
    case Some(m) => PlayersIn(m, [])
  }

  /** The core: a name that disappears is unescaped as a null pointer, which ends the program. */
  function SyncCore(local: Content, text: string): Option<Content>
  {
    var name := GetInfo(text, "room_name='", "'");
    var players := PlayersAfter(local.players, text);
    if (name.None? && local.roomName.Some?) || players.None? then None
    else
      Some(Content(Ints(IntFields(CORE), text), [],
                   if name.Some? then Some(XmlSerializer.Unescape(name.value)) else None, players.value))
  }

  function Sync(part: nat, local: Content, text: string): Option<Content>
  {
    if part == CORE then SyncCore(local, text)
    else Some(Content(Ints(IntFields(part), text), Strs(StrFields(part), text), None, []))
  }

  function SyncOf(part: nat): (Content, string) -> Option<Content> { (local, text) => Sync(part, local, text) }

  /** A part of a message: an element with a body, or an empty element. */
  function PartText(field: string, data: string): Option<string>
  {
    var n := GetInfo(data, "<" + field, "</" + field + ">");
    if n.Some? then n else GetInfo(data, "<" + field + " ", "/>")
  }

  type Nodes = s: seq<Node<Content>> | |s| == PARTS witness seq(PARTS, i => Node(0, BLANK))

  function MergePart(part: nat, n: Node<Content>, data: string): Option<Node<Content>>
    requires part < PARTS
  {
    Merge(SyncOf(part), n, PartText(FIELDS[part], data))
  }

  /** No part of the message ends the program. */
  predicate Survives(nodes: Nodes, data: string)
  {
    forall i :: 0 <= i < PARTS ==> MergePart(i, nodes[i], data).Some?
  }

  function MergeParts(nodes: Nodes, data: string): Nodes
    requires Survives(nodes, data)
  {
    seq(PARTS, i requires 0 <= i < PARTS && MergePart(i, nodes[i], data).Some? => MergePart(i, nodes[i], data).value)
  }

  datatype Room = Room(id: Option<string>, kind: int, nodes: Nodes)

  /** gameroom_init */
  function Fresh(): Room { Room(None, 0, seq(PARTS, i => Node(0, BLANK))) }

  /** gameroom_parse; None if it ends the program. */
  function ParseRoom(r: Room, data: string): Option<Room>
  {
    if Survives(r.nodes, data) then
      Some(Room(GetInfo(data, "room_id='", "'"), Unsigned(GetInfoInt(data, "room_type='", "'")),
                MergeParts(r.nodes, data)))
    else None
  }

  function ParseAll(r: Room, messages: seq<string>): Option<Room>
    decreases |messages|
  {
    if messages == [] then Some(r)
    else match ParseRoom(r, messages[0])
      case None => None
      case Some(r') => ParseAll(r', messages[1..])
  }

  function PartTexts(field: string, messages: seq<string>): (r: seq<Option<string>>)
    ensures |r| == |messages| && forall i :: 0 <= i < |r| ==> r[i] == PartText(field, messages[i])
  {
    seq(|messages|, i requires 0 <= i < |messages| => PartText(field, messages[i]))
  }

  /** What the messages make of a part when it is looked at alone. */
  function Alone(part: nat, n: Node<Content>, messages: seq<string>): Option<Node<Content>>
    requires part < PARTS
  {
    MergeAll(SyncOf(part), n, PartTexts(FIELDS[part], messages))
  }

  lemma AloneStep(part: nat, n: Node<Content>, messages: seq<string>)
    requires part < PARTS && messages != []
    ensures Alone(part, n, messages) ==
      match MergePart(part, n, messages[0]) { case None => None case Some(m) => Alone(part, m, messages[1..]) }
  {
    assert PartTexts(FIELDS[part], messages)[1..] == PartTexts(FIELDS[part], messages[1..]);
  }

  /** If the program survives the messages, every part is what its own merge makes of it. */
  lemma {:induction false} PartAlone(r: Room, messages: seq<string>, part: nat)
    requires part < PARTS && ParseAll(r, messages).Some?
    ensures Alone(part, r.nodes[part], messages) == Some(ParseAll(r, messages).value.nodes[part])
    decreases |messages|
  {
    if messages != [] {
      AloneStep(part, r.nodes[part], messages);
      var next := ParseRoom(r, messages[0]).value;
      assert MergePart(part, r.nodes[part], messages[0]) == Some(next.nodes[part]);
      PartAlone(next, messages[1..], part);
    }
  }

  /** A part that no message has filled yet. */
  predicate Untouched(n: Node<Content>) { n.revision == 0 ==> n.content == BLANK }

  lemma {:induction false} UntouchedStays(r: Room, messages: seq<string>)
    requires forall part: nat :: part < PARTS ==> Untouched(r.nodes[part])
    requires ParseAll(r, messages).Some?
    ensures forall part: nat :: part < PARTS ==> Untouched(ParseAll(r, messages).value.nodes[part])
    decreases |messages|
  {
    if messages != [] {
      var next := ParseRoom(r, messages[0]).value;
      forall part: nat | part < PARTS ensures Untouched(next.nodes[part]) {
        assert MergePart(part, r.nodes[part], messages[0]) == Some(next.nodes[part]);
      }
      UntouchedStays(next, messages[1..]);
    }
  }

  /** Whatever messages a room has survived, its parts at revision 0 are blank. */
  lemma UntouchedIsBlank(messages: seq<string>, part: nat)
    requires part < PARTS && ParseAll(Fresh(), messages).Some?
    ensures var n := ParseAll(Fresh(), messages).value.nodes[part]; n.revision == 0 ==> n.content == BLANK
  {
    UntouchedStays(Fresh(), messages);
    assert Untouched(ParseAll(Fresh(), messages).value.nodes[part]);
  }

  /** If the messages end the program, they do so in the merge of one part. */
  lemma {:induction false} PartThatDies(r: Room, messages: seq<string>) returns (part: nat)
    requires ParseAll(r, messages).None?
    ensures part < PARTS && Alone(part, r.nodes[part], messages).None?
    decreases |messages|
  {
    var next := ParseRoom(r, messages[0]);
    if next.Some? {
      part := PartThatDies(next.value, messages[1..]);
      assert MergePart(part, r.nodes[part], messages[0]) == Some(next.value.nodes[part]);
    } else {
      part :| part < PARTS && MergePart(part, r.nodes[part], messages[0]).None?;
    }
    AloneStep(part, r.nodes[part], messages);
  }

  /** Parts that survive alone survive together. */
  lemma PartsTogether(r: Room, messages: seq<string>)
    requires forall part: nat :: part < PARTS ==> Alone(part, r.nodes[part], messages).Some?
    ensures ParseAll(r, messages).Some?
    ensures forall part: nat :: part < PARTS ==>
      Some(ParseAll(r, messages).value.nodes[part]) == Alone(part, r.nodes[part], messages)
  {
    if ParseAll(r, messages).None? {
      var part := PartThatDies(r, messages);
    } else {
      forall part: nat | part < PARTS
        ensures Some(ParseAll(r, messages).value.nodes[part]) == Alone(part, r.nodes[part], messages)
      {
        PartAlone(r, messages, part);
      }
    }
  }

  lemma SameTexts(field: string, a: seq<string>, b: seq<string>)
    requires forall m :: m in a <==> m in b
    ensures forall t :: t in PartTexts(field, a) <==> t in PartTexts(field, b)
  {
    TextsOf(field, a, b);
    TextsOf(field, b, a);
  }

  lemma TextsOf(field: string, a: seq<string>, b: seq<string>)
    requires forall m :: m in a ==> m in b
    ensures forall t :: t in PartTexts(field, a) ==> t in PartTexts(field, b)
  {
    forall t | t in PartTexts(field, a) ensures t in PartTexts(field, b) {
      var i :| 0 <= i < |a| && PartTexts(field, a)[i] == t;
      assert a[i] in b;
      var j :| 0 <= j < |b| && b[j] == a[i];
      assert PartTexts(field, b)[j] == t;
    }
  }

  /** The messages give every part completely, and a revision of a part always has the same content. */
  ghost predicate Consistent(part: nat, messages: seq<string>)
    requires part < PARTS
  {
    var texts := PartTexts(FIELDS[part], messages);
    AllComplete(SyncOf(part), BLANK, texts) && Determined(SyncOf(part), BLANK, texts)
  }

  lemma PartConverges(part: nat, n: Node<Content>, a: seq<string>, b: seq<string>)
    requires part < PARTS && Consistent(part, a) && forall m :: m in a <==> m in b
    ensures Alone(part, n, a).Some? && Alone(part, n, a) == Alone(part, n, b)
    ensures Alone(part, n, a).value.revision == Highest(n.revision, PartTexts(FIELDS[part], a))
  {
    var field := FIELDS[part];
    SameTexts(field, a, b);
    OrderDoesNotMatter(SyncOf(part), BLANK, n, PartTexts(field, a), PartTexts(field, b));
    MergeIsHighest(SyncOf(part), n, PartTexts(field, a));
  }

  /**
    The same messages in any order and any number of times leave the room the same: the program
    survives them, and every part is at the highest revision seen, with its content.
   */
  lemma RoomConverges(r: Room, a: seq<string>, b: seq<string>)
    requires forall part: nat :: part < PARTS ==> Consistent(part, a)
    requires forall m :: m in a <==> m in b
    ensures ParseAll(r, a).Some? && ParseAll(r, b).Some?
    ensures ParseAll(r, a).value.nodes == ParseAll(r, b).value.nodes
    ensures forall part: nat :: part < PARTS ==>
      ParseAll(r, a).value.nodes[part].revision == Highest(r.nodes[part].revision, PartTexts(FIELDS[part], a))
  {
    forall part: nat | part < PARTS
      ensures Alone(part, r.nodes[part], a).Some? && Alone(part, r.nodes[part], a) == Alone(part, r.nodes[part], b)
      ensures Alone(part, r.nodes[part], a).value.revision ==
              Highest(r.nodes[part].revision, PartTexts(FIELDS[part], a))
    {
      PartConverges(part, r.nodes[part], a, b);
    }
    PartsTogether(r, a);
    PartsTogether(r, b);
  }

  predicate HasPlayers(text: string) { GetInfo(text, "<players>", "</players>").Some? }

  predicate HasName(text: string) { GetInfo(text, "room_name='", "'").Some? }

  /** A player element of the list does not end. */
  predicate BrokenPlayers(text: string)
  {
    HasPlayers(text) && PlayersIn(GetInfo(text, "<players>", "</players>").value, []).None?
  }

  /** A core that ends the program, depending only on whether the room has a name. */
  predicate Crashes(text: string, named: bool) { BrokenPlayers(text) || (named && !HasName(text)) }

  lemma CrashesIs(c: Content, text: string)
    ensures SyncCore(c, text).None? <==> Crashes(text, c.roomName.Some?)
    ensures SyncCore(c, text).Some? ==>
      && (SyncCore(c, text).value.roomName.Some? <==> HasName(text))
      && (!HasPlayers(text) ==> SyncCore(c, text).value.players == c.players)
  {
  }

  /** Two contents of the core become the same exactly when both or none end the program and the players agree. */
  lemma CoreAgrees(c: Content, d: Content, text: string)
    ensures SyncCore(c, text) == SyncCore(d, text) <==>
      && Crashes(text, c.roomName.Some?) == Crashes(text, d.roomName.Some?)
      && (Crashes(text, c.roomName.Some?) || HasPlayers(text) || c.players == d.players)
  {
  }

  /** Only the core can be incomplete: it is complete exactly when it carries a name and a whole list of players. */
  lemma CompleteParts(part: nat, text: string)
    ensures Complete(SyncOf(part), BLANK, Some(text)) <==>
      (part == CORE ==> HasPlayers(text) && HasName(text) && !BrokenPlayers(text))
  {
    var sync := SyncOf(part);
    if part != CORE {
      assert forall c :: sync(c, text) == sync(BLANK, text);
    } else {
      forall c ensures sync(c, text) == SyncCore(c, text) {
      }
      forall c ensures HasPlayers(text) && HasName(text) ==> sync(c, text) == sync(BLANK, text) {
        CoreAgrees(c, BLANK, text);
      }
      CrashesIs(BLANK, text);
      var named, manned := BLANK.(roomName := Some("")), BLANK.(players := [Player([], [])]);
      CoreAgrees(named, BLANK, text);
      CoreAgrees(manned, BLANK, text);
      assert sync(named, text) == SyncCore(named, text) && sync(manned, text) == SyncCore(manned, text);
    }
  }

  lemma MergeTwo<C>(sync: (C, string) -> Option<C>, n: Node<C>, x: Option<string>, y: Option<string>)
    ensures MergeAll(sync, n, [x, y]) ==
      match Merge(sync, n, x) { case None => None case Some(m) => Merge(sync, m, y) }
  {
    assert [x, y][1..] == [y] && [y][1..] == [];
    var m := Merge(sync, n, x);
    if m.Some? {
      MergeOne(sync, m.value, y);
    }
  }

  lemma MergeOne<C>(sync: (C, string) -> Option<C>, n: Node<C>, y: Option<string>)
    ensures MergeAll(sync, n, [y]) == Merge(sync, n, y)
  {
    assert [y][1..] == [];
  }

  /** Two rising revisions, in either order. */
  lemma TwoRevisions<C>(sync: (C, string) -> Option<C>, n: Node<C>, low: string, high: string)
    requires n.revision < Revision(low) < Revision(high)
    ensures MergeAll(sync, n, [Some(low), Some(high)]) ==
      match sync(n.content, low) {
        case None => None
        case Some(c) => match sync(c, high) { case None => None case Some(d) => Some(Node(Revision(high), d)) }
      }
    ensures MergeAll(sync, n, [Some(high), Some(low)]) ==
      match sync(n.content, high) { case None => None case Some(d) => Some(Node(Revision(high), d)) }
  {
    MergeTwo(sync, n, Some(low), Some(high));
    MergeTwo(sync, n, Some(high), Some(low));
  }

  /** The players after a core that does not end the program. */
  function PlayersLeft(old_: seq<Player>, text: string): seq<Player>
    requires !BrokenPlayers(text)
  {
    PlayersAfter(old_, text).value
  }

  /**
    When two cores of different revisions can be exchanged, exactly: either order ends the program or
    neither does, and if neither does, the higher one carries its players or the lower one leaves those
    that were there.
   */
  lemma CoresCommute(n: Node<Content>, low: string, high: string)
    requires n.revision < Revision(low) < Revision(high)
    ensures var named := n.content.roomName.Some?;
      MergeAll(SyncOf(CORE), n, [Some(low), Some(high)]) == MergeAll(SyncOf(CORE), n, [Some(high), Some(low)]) <==>
        if Crashes(low, named) || Crashes(high, HasName(low)) then Crashes(high, named)
        else !Crashes(high, named) && (HasPlayers(high) || PlayersLeft(n.content.players, low) == n.content.players)
  {
    var sync := SyncOf(CORE);
    TwoRevisions(sync, n, low, high);
    assert sync(n.content, low) == SyncCore(n.content, low) && sync(n.content, high) == SyncCore(n.content, high);
    CrashesIs(n.content, low);
    CrashesIs(n.content, high);
    if SyncCore(n.content, low).Some? {
      var c := SyncCore(n.content, low).value;
      assert sync(c, high) == SyncCore(c, high);
      CrashesIs(c, high);
      CoreAgrees(c, n.content, high);
    }
  }

  // ---------------------------------------------------------------------------------------------
  // The room of the program
  // ---------------------------------------------------------------------------------------------

  /** The mask names exactly the parts whose revision went up. */
  predicate Names(mask: bv16, was: Nodes, now: Nodes)
  {
    forall i :: 0 <= i < PARTS ==> (Has(mask, i) <==> now[i].revision > was[i].revision)
  }

  lemma NamesNext(mask: bv16, m: bv16, was: Nodes, before: Nodes, part: nat, n: Node<Content>)
    requires part < PARTS && before[part] == was[part] && Names(mask, was, before)
    requires m == if n.revision > was[part].revision then Bit(part) else 0
    ensures Names(mask | m, was, before[part := n])
  {
    forall i | 0 <= i < PARTS ensures Has(mask | m, i) <==> before[part := n][i].revision > was[i].revision {
      HasAfter(mask, m, part, n.revision > was[part].revision, i);
    }
  }

  class Gameroom {
    var id: Option<string>
    var kind: int
    const nodes: array<Node<Content>>

    /** gameroom_init. */
    constructor ()
      ensures Valid() && fresh(nodes) && State() == Fresh()
      ensures id == None && kind == 0 && forall i :: 0 <= i < 9 ==> nodes[i] == Node(0, BLANK)
    {
      id := None;
      kind := 0;
      nodes := new Node<Content>[PARTS](i => Node(0, BLANK));
      new;
      assert nodes[..] == seq(PARTS, i => Node(0, BLANK));
    }

    predicate Valid() { nodes.Length == PARTS }

    function State(): Room
      requires Valid()
      reads this, nodes
    {
      Room(id, kind, nodes[..])
    }

    /** The loop over the player elements. */
    static method ReadPlayers(text: string) returns (r: Option<seq<Player>>)
      ensures r == PlayersIn(text, [])
    {
      var m := text;
      var list: seq<Player> := [];
      while true
        invariant PlayersIn(m, list) == PlayersIn(text, [])
        decreases |m|
      {
        var k := Strstr(m, "<player");
        if k.None? {
          return Some(list);
        }
        var player := GetInfo(m[k.value..], "<player", "/>");
        if player.None? {
          return None;
        }
        list := [Player(Strs(PLAYER_STRS, player.value), Ints(PLAYER_INTS, player.value))] + list;
        m := m[k.value + 1..];
      }
    }

    /** gameroom_sync_node: the part's own bit if it advanced, 0 otherwise; not ok if it ends the program. */
    method SyncNode(part: nat, text: Option<string>) returns (ok: bool, mask: bv16)
      requires Valid() && part < PARTS
      modifies nodes
      ensures var m := Merge(SyncOf(part), old(nodes[part]), text);
        && (ok <==> m.Some?)
        && (ok ==> nodes[..] == old(nodes[..])[part := m.value])
        && (ok ==> mask == if m.value.revision > old(nodes[part].revision) then Bit(part) else 0)
    {
      if text.None? {
        return true, 0;
      }
      var revision := Revision(text.value);
      if revision > nodes[part].revision {
        var local: Option<Content>;
        if part == CORE {
          local := SyncCoreOf(nodes[part].content, text.value);
        } else {
          local := Sync(part, nodes[part].content, text.value);
        }
        if local.None? {
          return false, 0;
        }
        nodes[part] := Node(revision, local.value);
        return true, Bit(part);
      }
      return true, 0;
    }

    static method SyncCoreOf(local: Content, text: string) returns (r: Option<Content>)
      ensures r == SyncCore(local, text)
    {
      var name := GetInfo(text, "room_name='", "'");
      var c := Content(Ints(IntFields(CORE), text), [], None, local.players);
      if name.Some? {
        c := c.(roomName := Some(XmlSerializer.Unescape(name.value)));
      } else if local.roomName.Some? {
        return None;
      }
      var players := GetInfo(text, "<players>", "</players>");
      if players.Some? {
        var list := ReadPlayers(players.value);
        if list.None? {
          return None;
        }
        c := c.(players := list.value);
      }
      r := Some(c);
    }

    method SyncPart(part: nat, data: string, ghost merge: (nat, Node<Content>) -> Option<Node<Content>>)
      returns (ok: bool, mask: bv16)
      requires Valid() && part < PARTS && Merges(merge, data)
      modifies nodes
      ensures var m := merge(part, old(nodes[part]));
        && (ok <==> m.Some?)
        && (ok ==> nodes[..] == old(nodes[..])[part := m.value])
        && (ok ==> mask == if m.value.revision > old(nodes[part].revision) then Bit(part) else 0)
    {
      assert merge(part, nodes[part]) == MergePart(part, nodes[part], data);
      ok, mask := SyncNode(part, PartText(FIELDS[part], data));
    }

    method SyncParts(data: string, ghost merge: (nat, Node<Content>) -> Option<Node<Content>>)
      returns (ok: bool, mask: bv16)
      requires Valid() && Merges(merge, data)
      modifies nodes
      ensures ok <==> forall i: nat :: i < PARTS ==> merge(i, old(nodes[i])).Some?
      ensures ok ==> forall i: nat :: i < PARTS ==> Some(nodes[i]) == merge(i, old(nodes[i]))
      ensures ok ==> Names(mask, old(nodes[..]), nodes[..])
    {
      ok, mask := true, 0;
      ghost var was: Nodes := nodes[..];
      forall i | 0 <= i < PARTS ensures !Has(0, i) {
        HasNothing(i);
      }
      for part := 0 to PARTS
        invariant ok
        invariant forall i: nat :: i < part ==> Some(nodes[i]) == merge(i, was[i])
        invariant forall i :: part <= i < PARTS ==> nodes[i] == was[i]
        invariant Names(mask, was, nodes[..])
      {
        ghost var before: Nodes := nodes[..];
        var m;
        ok, m := SyncPart(part, data, merge);
        if !ok {
          return;
        }
        NamesNext(mask, m, was, before, part, nodes[part]);
        mask := mask | m;
      }
    }

    /**
      gameroom_parse: not ok exactly if it ends the program; otherwise the result names exactly the parts
      whose revision went up, and the others stay.
     */
    method Parse(data: string) returns (ok: bool, mask: bv16)
      requires Valid()
      modifies this, nodes
      ensures ok <==> ParseRoom(old(State()), data).Some?
      ensures ok ==> State() == ParseRoom(old(State()), data).value
      ensures ok ==> Names(mask, old(nodes[..]), nodes[..])
      ensures ok ==> forall i :: 0 <= i < PARTS && !Has(mask, i) ==> nodes[i] == old(nodes[i])
    {
      kind := Unsigned(GetInfoInt(data, "room_type='", "'"));
      id := GetInfo(data, "room_id='", "'");
      ghost var was: Nodes := nodes[..];
      ghost var merge := (i: nat, n: Node<Content>) => if i < PARTS then MergePart(i, n, data) else None;
      ok, mask := SyncParts(data, merge);
      forall i: nat | i < PARTS ensures merge(i, was[i]) == MergePart(i, was[i], data) {
      }
      assert ok <==> Survives(was, data);
      if ok {
        assert forall i: nat :: i < PARTS ==> Some(nodes[i]) == merge(i, was[i]);
        assert nodes[..] == MergeParts(was, data);
        UnnamedStay(mask, was, nodes[..], data);
      }
    }

    /** gameroom_update: the named parts, the id and the kind; the id is taken away from the source. */
    method Update(src: Gameroom, changes: bv16)
      requires Valid() && src.Valid() && src != this && src.nodes != nodes
      modifies this, nodes, src`id
      ensures id == old(src.id) && src.id == None && kind == src.kind
      ensures forall i :: 0 <= i < PARTS ==> nodes[i] == if Has(changes, i) then src.nodes[i] else old(nodes[i])
    {
      id := src.id;
      src.id := None;
      kind := src.kind;
      for part := 0 to PARTS
        invariant forall i :: 0 <= i < part ==> nodes[i] == if Has(changes, i) then src.nodes[i] else old(nodes[i])
        invariant forall i :: part <= i < PARTS ==> nodes[i] == old(nodes[i])
        invariant id == old(src.id) && src.id == None && kind == src.kind
      {
        if Has(changes, part) {
          nodes[part] := src.nodes[part];
        }
      }
    }

    /**
      Parsing into a scratch copy and carrying over what the mask names is the same as parsing in place:
      the mask says everything that has to be carried over.
     */
    method ParseThrough(scratch: Gameroom, data: string) returns (ok: bool, mask: bv16)
      requires Valid() && scratch.Valid() && scratch != this && scratch.nodes != nodes
      requires scratch.nodes[..] == nodes[..]
      modifies this, nodes, scratch, scratch.nodes
      ensures ok <==> ParseRoom(old(State()), data).Some?
      ensures ok ==> State() == ParseRoom(old(State()), data).value
    {
      ghost var was: Nodes := nodes[..];
      ok, mask := scratch.Parse(data);
      if ok {
        Update(scratch, mask);
        assert nodes[..] == MergeParts(was, data);
      }
    }
  }

  lemma UnnamedStay(mask: bv16, was: Nodes, now: Nodes, data: string)
    requires Survives(was, data) && now == MergeParts(was, data) && Names(mask, was, now)
    ensures forall i :: 0 <= i < PARTS && !Has(mask, i) ==> now[i] == was[i]
  {
    forall i | 0 <= i < PARTS && !Has(mask, i) ensures now[i] == was[i] {
      assert Some(now[i]) == MergePart(i, was[i], data);
    }
  }

  /** The function gives what a message makes of a part. */
  ghost predicate Merges(merge: (nat, Node<Content>) -> Option<Node<Content>>, data: string)
  {
    forall i: nat, n {:trigger MergePart(i, n, data)} :: i < PARTS ==> merge(i, n) == MergePart(i, n, data)
  }
}
