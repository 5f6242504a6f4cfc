/** A message with all parts of a room. */
module GameroomMessage {
  import opened CStrings
  import opened Gameroom
  import opened GameroomText
  import opened SyncMask

  function Filled(strs: nat, ints: nat): Sheet { Sheet(seq(strs, i => ""), seq(ints, i => 0)) }

  lemma FilledFits(strs: nat, ints: nat)
    ensures Fits(Filled(strs, ints), strs, ints)
  {
  }

  function SamplePlayer(nickname: string, clan: string): Sheet
  {
    Sheet([nickname, clan, "", "", "", ""], [0, 0, 0, 0, 0, 0, 0, 0, 0, 0])
  }

  lemma SamplePlayerFits(nickname: string, clan: string)
    requires Writable(nickname) && Writable(clan)
    ensures IsPlayer(SamplePlayer(nickname, clan))
  {
  }

  function SampleCore(): CoreSheet
  {
    CoreSheet("<b>", [1, 0, 1, 200, 4, 2], [SamplePlayer("ann", "red"), SamplePlayer("bob", "")])
  }

  lemma SampleCoreFits()
    ensures IsCore(SampleCore())
  {
    assert Writable("ann") && Writable("red") && Writable("bob") && Writable("");
    SamplePlayerFits("ann", "red");
    SamplePlayerFits("bob", "");
  }

  function SampleMission(): Sheet { Sheet(["k", "n", "s", "m", "o", "i", "d", "p", "x", "t", "y"], [300]) }

  lemma SampleMissionFits()
    ensures Fits(SampleMission(), 11, 1)
  {
  }

  const SAMPLE_PARTS: seq<Sheet> := [Filled(0, 0), Filled(0, 11), SampleMission(), Filled(1, 3), Filled(1, 0),
                                     Filled(1, 0), Filled(0, 4), Filled(2, 0), Filled(0, 0)]

  function SampleRoom(): RoomSheet
  {
    RoomSheet("17", 2, SampleCore(), SAMPLE_PARTS, [5, 1, 2, 3, 4, 0, 6, 7, 8])
  }

  lemma SamplePartFits(p: nat)
    requires 0 < p < PARTS
    ensures Fits(SAMPLE_PARTS[p], |StrFields(p)|, |IntFields(p)|)
  {
    FilledFits(0, 11);
    SampleMissionFits();
    FilledFits(1, 3);
    FilledFits(1, 0);
    FilledFits(0, 4);
    FilledFits(2, 0);
    FilledFits(0, 0);
  }

  lemma SampleFits()
    ensures IsRoom(SampleRoom())
  {
    SampleCoreFits();
    assert Writable("17");
    forall p | 0 < p < PARTS ensures Fits(SAMPLE_PARTS[p], |StrFields(p)|, |IntFields(p)|) {
      SamplePartFits(p);
    }
  }

  /** What the core of the message leaves in a room: the last player first. */
  predicate CoreShown(n: Node<Content>)
  {
    && n.revision == 5 && n.content.roomName == Some("<b>") && n.content.ints == [1, 0, 1, -56, 4, 2]
    && |n.content.players| == 2
    && Shows(n.content.players[0], "bob", "") && Shows(n.content.players[1], "ann", "red")
  }

  predicate Shows(p: Player, nickname: string, clan: string)
  {
    |p.strs| == 6 && p.strs[0] == Some(nickname) && p.strs[1] == Some(clan)
  }

  predicate MissionShown(n: Node<Content>)
  {
    && n.revision == 2 && n.content.ints == [44] && |n.content.strs| == 11
    && n.content.strs[0] == Some("k") && n.content.strs[1] == Some("n") && n.content.strs[10] == Some("y")
  }

  predicate SaysPlayer(p: Sheet, nickname: string, clan: string)
  {
    |p.strs| == 6 && p.strs[0] == nickname && p.strs[1] == clan
  }

  predicate SaysCore(core: CoreSheet)
  {
    && core.name == "<b>" && core.ints == [1, 0, 1, 200, 4, 2] && |core.players| == 2
    && SaysPlayer(core.players[0], "ann", "red") && SaysPlayer(core.players[1], "bob", "")
  }

  predicate SaysMission(m: Sheet)
  {
    |m.strs| == 11 && m.strs[0] == "k" && m.strs[1] == "n" && m.strs[10] == "y" && m.ints == [300]
  }

  lemma CoreHeld(w: RoomSheet)
    requires IsRoom(w) && SaysCore(w.core) && w.revisions[0] == 5
    ensures CoreShown(NodeOf(w, 0))
  {
  }

  lemma MissionHeld(w: RoomSheet)
    requires IsRoom(w) && SaysMission(w.parts[2]) && w.revisions[2] == 2
    ensures MissionShown(NodeOf(w, 2))
  {
  }

  lemma FreshRead(w: RoomSheet) returns (r: Room)
    requires IsRoom(w)
    ensures ParseRoom(Fresh(), Message(w)) == Some(r) && r.id == Some(w.id) && r.kind == w.kind % 0x1_0000_0000
    ensures forall i :: 0 <= i < PARTS ==> r.nodes[i] == if w.revisions[i] > 0 then NodeOf(w, i) else Node(0, BLANK)
  {
    MessageRead(w, Fresh());
    r := ParseRoom(Fresh(), Message(w)).value;
  }

  /** A sheet like the sample; its regions have revision 0. */
  predicate IsSample(w: RoomSheet)
  {
    && IsRoom(w) && SaysCore(w.core) && SaysMission(w.parts[2])
    && w.revisions[0] == 5 && w.revisions[2] == 2 && w.revisions[5] == 0
  }

  lemma SampleIs()
    ensures IsSample(SampleRoom())
  {
    SampleFits();
  }

  /** A fresh room read from one message. */
  lemma RoomFromMessage(w: RoomSheet) returns (r: Room)
    requires IsSample(w)
    ensures ParseRoom(Fresh(), Message(w)) == Some(r) && r.id == Some(w.id) && r.kind == w.kind % 0x1_0000_0000
    ensures CoreShown(r.nodes[0]) && MissionShown(r.nodes[2]) && r.nodes[5] == Node(0, BLANK)
  {
    r := FreshRead(w);
    CoreHeld(w);
    MissionHeld(w);
  }
}
