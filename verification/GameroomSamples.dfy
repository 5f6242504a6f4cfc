/**
  Messages of a game room whose order matters, from a fresh room on.
 */
module GameroomSamples {
  import opened CStrings
  import opened Gameroom
  import opened SyncMask

  const NAME: string := " room_name='r'"
  const PLAYER_TEXT: string := " rank='7'"
  const PLAYER: string := "<player" + PLAYER_TEXT + "/>"

  /** The text of a core with a revision and what follows it. */
  function CoreText(revision: nat, body: string): string
  {
    " " + ("revision='" + (Dec(revision) + ("'" + body)))
  }

  /** A message with nothing but that core. */
  function CoreMessage(revision: nat, body: string): string
  {
    "" + ("<core" + (CoreText(revision, body) + ("</core>" + "")))
  }

  function List(inner: string): string { "<players>" + (inner + ("</players>" + "")) }

  /** The bodies of the three cores: with a name and a player, with a name only, and with neither. */
  function Manned(): string { NAME + ">" + List(PLAYER) }

  function Named(): string { NAME + ">" }

  function Nameless(): string { ">" }

  // ---- taking the core out of a message

  lemma DecLacks(n: nat, c: char)
    requires !IsDigit(c)
    ensures c !in Dec(n)
  {
  }

  lemma TextLacks(revision: nat, body: string, c: char)
    requires c !in body && c !in "revision='" && !IsDigit(c) && c != ' ' && c != '\''
    ensures c !in CoreText(revision, body)
  {
    DecLacks(revision, c);
  }

  /** A text without a 'c' holds no end of a core, not even at its edge. */
  lemma NoCoreEnd(text: string)
    requires 'c' !in text
    ensures forall i :: 0 <= i < |text| ==> !OccursAt(text + ("</core>" + ""), "</core>", i)
  {
    var close := "</core>";
    assert close + "" == close && close[0] != 'c' && close[1] != 'c' && close[2] == 'c';
    forall i | 0 <= i < |text| ensures !OccursAt(text + (close + ""), close, i) {
      NoCAt(text, close, i);
    }
  }

  lemma NoCAt(text: string, close: string, i: nat)
    requires i < |text| && 'c' !in text && |close| > 2 && close[0] != 'c' && close[1] != 'c' && close[2] == 'c'
    ensures !OccursAt(text + (close + ""), close, i)
  {
    var s := text + (close + "");
    assert s[i + 2] == if i + 2 < |text| then text[i + 2] else close[i + 2 - |text|];
    if OccursAt(s, close, i) {
      CharOf(s, close, i, 2);
    }
  }

  lemma CoreIsIn(text: string)
    requires 'c' !in text
    ensures PartText(FIELDS[CORE], "" + ("<core" + (text + ("</core>" + "")))) == Some(text)
  {
    assert "<" + FIELDS[CORE] == "<core" && "</" + FIELDS[CORE] + ">" == "</core>";
    NoCoreEnd(text);
    GetInfoOf("", "<core", text, "</core>", "");
  }

  lemma CoreIs(revision: nat, body: string)
    requires 'c' !in body
    ensures PartText(FIELDS[CORE], CoreMessage(revision, body)) == Some(CoreText(revision, body))
  {
    TextLacks(revision, body, 'c');
    CoreIsIn(CoreText(revision, body));
  }

  // ---- what the cores say

  lemma RevisionIs(text: string, revision: nat)
    requires GetInfoInt(text, "revision='", "'") == revision < 0x1_0000_0000
    ensures Revision(text) == revision
  {
  }

  lemma RevisionOf(revision: nat, body: string)
    requires revision < 0x1_0000_0000
    ensures Revision(CoreText(revision, body)) == revision
  {
    IntBehind(" ", "revision='", revision, body);
    RevisionIs(CoreText(revision, body), revision);
  }

  lemma NameBehind(text: string, a: string, name: string, rest: string)
    requires text == a + ("room_name='" + (name + ("'" + rest)))
    ensures HasName(text)
  {
    HasInfo(a, "room_name='", name, "'", rest);
  }

  lemma NameIn(revision: nat, rest: string)
    ensures HasName(CoreText(revision, NAME + rest))
  {
    var a := " " + ("revision='" + (Dec(revision) + "' "));
    assert NAME + rest == " " + ("room_name='" + ("r" + ("'" + rest)));
    NameBehind(CoreText(revision, NAME + rest), a, "r", rest);
  }

  lemma NoNameIn(revision: nat)
    ensures !HasName(CoreText(revision, Nameless()))
  {
    TextLacks(revision, Nameless(), 'm');
    assert "room_name='"[3] == 'm';
    Absent(CoreText(revision, Nameless()), "room_name='", 'm');
  }

  lemma NoPlayersIn(revision: nat, body: string)
    requires '<' !in body
    ensures !HasPlayers(CoreText(revision, body)) && !BrokenPlayers(CoreText(revision, body))
  {
    TextLacks(revision, body, '<');
    Absent(CoreText(revision, body), "<players>", '<');
  }

  lemma LastPlayer(m: string, text: string, behind: string)
    requires Strstr(m, "<player").Some? && Strstr(behind, "<player").None?
    requires GetInfo(m[Strstr(m, "<player").value..], "<player", "/>") == Some(text)
    requires m[Strstr(m, "<player").value + 1..] == behind
    ensures PlayersIn(m, []) == Some([Player(Strs(PLAYER_STRS, text), Ints(PLAYER_INTS, text))])
  {
    var players := [Player(Strs(PLAYER_STRS, text), Ints(PLAYER_INTS, text))];
    NoMorePlayers(behind, players);
    assert players + [] == players;
  }

  lemma NoMorePlayers(m: string, before: seq<Player>)
    requires Strstr(m, "<player").None?
    ensures PlayersIn(m, before) == Some(before)
  {
  }

  lemma PlayerTag()
    ensures Strstr(PLAYER, "<player") == Some(0) && GetInfo(PLAYER, "<player", "/>") == Some(PLAYER_TEXT)
  {
    FoundBehind("", "<player", PLAYER_TEXT + "/>");
    assert "/>"[0] == '/' && '/' !in PLAYER_TEXT;
    NoStartWithoutFirst(PLAYER_TEXT, "/>" + "", "/>");
    GetInfoOf("", "<player", PLAYER_TEXT, "/>", "");
    assert PLAYER == "" + ("<player" + (PLAYER_TEXT + "/>"));
    assert PLAYER == "" + ("<player" + (PLAYER_TEXT + ("/>" + "")));
  }

  lemma NothingBehind()
    ensures Strstr(PLAYER[1..], "<player").None? && PLAYER[0..] == PLAYER
  {
    assert "<player"[0] == '<';
    assert '<' !in PLAYER[1..];
    Absent(PLAYER[1..], "<player", '<');
  }

  /** The list of one player is read as one player. */
  lemma OnePlayer()
    ensures PlayersIn(PLAYER, []).Some? && |PlayersIn(PLAYER, []).value| == 1
  {
    PlayerTag();
    NothingBehind();
    LastPlayer(PLAYER, PLAYER_TEXT, PLAYER[1..]);
  }

  lemma NoListEnd()
    ensures forall i :: 0 <= i < |PLAYER| ==> !OccursAt(PLAYER + ("</players>" + ""), "</players>", i)
  {
    var close := "</players>";
    var s := PLAYER + (close + "");
    assert close[0] == '<' && close[1] == '/' && PLAYER[1] == 'p' && forall i :: 0 < i < |PLAYER| ==> PLAYER[i] != '<';
    forall i | 0 <= i < |PLAYER| ensures !OccursAt(s, close, i) {
      assert s[0] == PLAYER[0] && s[1] == PLAYER[1] && s[i] == PLAYER[i];
      if OccursAt(s, close, i) {
        CharOf(s, close, i, 0);
        CharOf(s, close, i, 1);
      }
    }
  }

  lemma ListBehind(text: string, a: string)
    requires text == a + List(PLAYER) && '<' !in a
    ensures GetInfo(text, "<players>", "</players>") == Some(PLAYER)
  {
    assert "<players>"[0] == '<';
    NoStartWithoutFirst(a, List(PLAYER), "<players>");
    NoListEnd();
    GetInfoOf(a, "<players>", PLAYER, "</players>", "");
  }

  lemma PlayerIn(revision: nat)
    ensures GetInfo(CoreText(revision, Manned()), "<players>", "</players>") == Some(PLAYER)
  {
    TextLacks(revision, Named(), '<');
    var text := CoreText(revision, Manned());
    assert text == CoreText(revision, Named()) + List(PLAYER);
    ListBehind(text, CoreText(revision, Named()));
  }

  // ---- two messages from a fresh room

  /** Only the core can end the program. */
  lemma {:induction false} OthersSurvive(part: nat, n: Node<Content>, texts: seq<Option<string>>)
    requires part != CORE
    ensures MergeAll(SyncOf(part), n, texts).Some?
    decreases |texts|
  {
    if texts != [] {
      var m := Merge(SyncOf(part), n, texts[0]);
      assert texts[0].Some? ==> SyncOf(part)(n.content, texts[0].value) == Sync(part, n.content, texts[0].value);
      OthersSurvive(part, m.value, texts[1..]);
    }
  }

  /** What two messages with one core each make of a fresh room. */
  lemma TwoCores(a: string, b: string, x: string, y: string)
    requires PartText(FIELDS[CORE], a) == Some(x) && PartText(FIELDS[CORE], b) == Some(y)
    ensures var core := MergeAll(SyncOf(CORE), Node(0, BLANK), [Some(x), Some(y)]);
      && (ParseAll(Fresh(), [a, b]).Some? <==> core.Some?)
      && (core.Some? ==> ParseAll(Fresh(), [a, b]).value.nodes[CORE] == core.value)
  {
    var r, core := Fresh(), MergeAll(SyncOf(CORE), Node(0, BLANK), [Some(x), Some(y)]);
    assert PartTexts(FIELDS[CORE], [a, b]) == [Some(x), Some(y)];
    assert Alone(CORE, r.nodes[CORE], [a, b]) == core;
    if core.Some? {
      forall part: nat | part < PARTS ensures Alone(part, r.nodes[part], [a, b]).Some? {
        if part != CORE {
          OthersSurvive(part, r.nodes[part], PartTexts(FIELDS[part], [a, b]));
        }
      }
      PartsTogether(r, [a, b]);
    } else if ParseAll(r, [a, b]).Some? {
      PartAlone(r, [a, b], CORE);
    }
  }

  /** Two cores of rising revision, in both orders, from a fresh room. */
  lemma BothOrders(a: string, b: string, low: string, high: string)
    requires PartText(FIELDS[CORE], a) == Some(low) && PartText(FIELDS[CORE], b) == Some(high)
    requires 0 < Revision(low) < Revision(high) && SyncCore(BLANK, low).Some?
    ensures var c, d := SyncCore(BLANK, low).value, SyncCore(BLANK, high);
      && (ParseAll(Fresh(), [a, b]).Some? <==> SyncCore(c, high).Some?)
      && (SyncCore(c, high).Some? ==>
            ParseAll(Fresh(), [a, b]).value.nodes[CORE].content == SyncCore(c, high).value)
      && (ParseAll(Fresh(), [b, a]).Some? <==> d.Some?)
      && (d.Some? ==> ParseAll(Fresh(), [b, a]).value.nodes[CORE].content == d.value)
  {
    var sync, c := SyncOf(CORE), SyncCore(BLANK, low).value;
    TwoRevisions(sync, Node(0, BLANK), low, high);
    assert sync(BLANK, low) == SyncCore(BLANK, low) && sync(BLANK, high) == SyncCore(BLANK, high);
    assert sync(c, high) == SyncCore(c, high);
    TwoCores(a, b, low, high);
    TwoCores(b, a, high, low);
  }

  lemma NameAndPlayers(c: Content, text: string)
    requires HasName(text) && !BrokenPlayers(text)
    ensures SyncCore(c, text).Some? && SyncCore(c, text).value.roomName.Some?
    ensures SyncCore(c, text).value.players == PlayersLeft(c.players, text)
  {
  }

  /**
    A core with a name and a player, revision 1, and one with a name and no list of players, revision 2:
    whether the player stays depends on the order.
   */
  lemma MissingPlayersDoNotCommute(low: string, high: string)
    requires low == CoreMessage(1, Manned()) && high == CoreMessage(2, Named())
    ensures var up, down := ParseAll(Fresh(), [low, high]), ParseAll(Fresh(), [high, low]);
      && up.Some? && |up.value.nodes[CORE].content.players| == 1
      && down.Some? && down.value.nodes[CORE].content.players == []
  {
    var x, y := CoreText(1, Manned()), CoreText(2, Named());
    MannedCore(1);
    NamedCore(2);
    NameAndPlayers(BLANK, x);
    NameAndPlayers(SyncCore(BLANK, x).value, y);
    NameAndPlayers(BLANK, y);
    BothOrders(low, high, x, y);
  }

  lemma MannedCore(revision: nat)
    requires revision < 0x1_0000_0000
    ensures var text := CoreText(revision, Manned());
      && PartText(FIELDS[CORE], CoreMessage(revision, Manned())) == Some(text) && Revision(text) == revision
      && HasName(text) && !BrokenPlayers(text) && |PlayersLeft([], text)| == 1
  {
    CoreIs(revision, Manned());
    RevisionOf(revision, Manned());
    NameIn(revision, ">" + List(PLAYER));
    Associates(NAME, ">", List(PLAYER));
    PlayerIn(revision);
    OnePlayer();
  }

  lemma NamedLacks()
    ensures 'c' !in Named() && '<' !in Named()
  {
  }

  lemma NamedCore(revision: nat)
    requires revision < 0x1_0000_0000
    ensures var text := CoreText(revision, Named());
      && PartText(FIELDS[CORE], CoreMessage(revision, Named())) == Some(text) && Revision(text) == revision
      && HasName(text) && !HasPlayers(text) && !BrokenPlayers(text)
  {
    NamedLacks();
    CoreIs(revision, Named());
    RevisionOf(revision, Named());
    NameIn(revision, ">");
    NoPlayersIn(revision, Named());
  }

  lemma NamelessCore(revision: nat)
    requires revision < 0x1_0000_0000
    ensures var text := CoreText(revision, Nameless());
      && PartText(FIELDS[CORE], CoreMessage(revision, Nameless())) == Some(text) && Revision(text) == revision
      && !HasName(text) && !BrokenPlayers(text)
  {
    CoreIs(revision, Nameless());
    RevisionOf(revision, Nameless());
    NoNameIn(revision);
    NoPlayersIn(revision, Nameless());
  }

  /**
    A core with a name, revision 1, and one without, revision 2: the second ends the program when the
    first one came before it, and is taken when it comes first.
   */
  lemma NamelessCoreEndsProgram(low: string, high: string)
    requires low == CoreMessage(1, Named()) && high == CoreMessage(2, Nameless())
    ensures ParseAll(Fresh(), [low, high]).None? && ParseAll(Fresh(), [high, low]).Some?
  {
    var x, y := CoreText(1, Named()), CoreText(2, Nameless());
    NamedCore(1);
    NamelessCore(2);
    NameAndPlayers(BLANK, x);
    CrashesIs(SyncCore(BLANK, x).value, y);
    CrashesIs(BLANK, y);
    BothOrders(low, high, x, y);
  }
}
