/** Lists of attributes as they stand in a message, and what the tag readers find in them. */
module Attributes {
  import opened CStrings

  /** What stands in front of the "='" of an attribute: its name and the text before it; and the value. */
  datatype Attribute = Attribute(front: string, value: string)

  function Listed(attributes: seq<Attribute>, tail: string): string
    decreases |attributes|
  {
    if attributes == [] then tail
    else attributes[0].front + ("='" + (attributes[0].value + ("'" + Listed(attributes[1..], tail))))
  }

  predicate Ends(s: string, name: string)
  {
    |name| <= |s| && s[|s| - |name|..] == name
  }

  /** A value that ends at the quote behind it: it holds none and does not end like the name of an attribute. */
  predicate Quotable(value: string) { '\'' !in value && (value == "" || value[|value| - 1] != '=') }

  predicate IsName(name: string) { '=' !in name && '\'' !in name }

  predicate Proper(attributes: seq<Attribute>)
  {
    forall i :: 0 <= i < |attributes| ==> '=' !in attributes[i].front && Quotable(attributes[i].value)
  }

  /** Where the pattern of an attribute stands, its name, its equals sign and a quote stand. */
  lemma PatternAt(s: string, name: string, p: nat)
    requires OccursAt(s, name + "='", p)
    ensures p + |name| + 1 < |s| && s[p + |name|] == '=' && s[p + |name| + 1] == '\'' && s[p..p + |name|] == name
  {
    CharOf(s, name + "='", p, |name|);
    CharOf(s, name + "='", p, |name| + 1);
    assert s[p..p + |name + "='"|][..|name|] == s[p..p + |name|];
  }

  lemma EqualsSign(front: string, value: string, rest: string, q: nat)
    requires '=' !in front && Quotable(value)
    requires var s := front + ("='" + (value + ("'" + rest))); q + 1 < |s| && s[q] == '=' && s[q + 1] == '\''
    ensures q == |front| || q >= |front + ("='" + (value + "'"))|
  {
  }

  lemma QuoteInside(s: string, name: string, p: nat, k: nat)
    requires p + |name| <= |s| && s[p..p + |name|] == name && p <= k < p + |name| && s[k] == '\''
    ensures !IsName(name)
  {
    assert name[k - p] == s[k];
  }

  lemma EndsThere(s: string, front: string, name: string, p: nat)
    requires p + |name| == |front| <= |s| && s[..|front|] == front && s[p..p + |name|] == name
    ensures Ends(front, name)
  {
    assert s[p..p + |name|] == front[p..];
  }

  /** The pattern of an attribute with another name does not start in front of the next attribute. */
  lemma NotInside(front: string, value: string, rest: string, name: string, p: nat)
    requires '=' !in front && Quotable(value) && IsName(name) && !Ends(front, name)
    requires p < |front + ("='" + (value + "'"))|
    ensures !OccursAt(front + ("='" + (value + ("'" + rest))), name + "='", p)
  {
    var h, s := |front + ("='" + (value + "'"))|, front + ("='" + (value + ("'" + rest)));
    if OccursAt(s, name + "='", p) {
      PatternAt(s, name, p);
      EqualsSign(front, value, rest, p + |name|);
      assert s[h - 1] == '\'' && s[..|front|] == front;
      if p + |name| == |front| {
        EndsThere(s, front, name, p);
      } else {
        QuoteInside(s, name, p, h - 1);
      }
    }
  }

  lemma Passes(front: string, value: string, rest: string, name: string)
    requires '=' !in front && Quotable(value) && IsName(name) && !Ends(front, name)
    ensures GetInfo(front + ("='" + (value + ("'" + rest))), name + "='", "'") == GetInfo(rest, name + "='", "'")
  {
    var h := front + ("='" + (value + "'"));
    assert front + ("='" + (value + ("'" + rest))) == h + rest;
    forall p | 0 <= p < |h| ensures !OccursAt(h + rest, name + "='", p) {
      NotInside(front, value, rest, name, p);
    }
    InfoBehind(h, rest, name + "='", "'");
  }

  lemma Meets(front: string, value: string, rest: string, name: string)
    requires '=' !in front && Quotable(value) && IsName(name) && Ends(front, name)
    ensures GetInfo(front + ("='" + (value + ("'" + rest))), name + "='", "'") == Some(value)
  {
    var a := front[..|front| - |name|];
    var s := a + ((name + "='") + (value + ("'" + rest)));
    assert front == a + name;
    assert front + ("='" + (value + ("'" + rest))) == s;
    assert s[..|front|] == front;
    forall p | 0 <= p < |a| ensures !OccursAt(s, name + "='", p) {
      if OccursAt(s, name + "='", p) {
        PatternAt(s, name, p);
      }
    }
    NoStartWithoutFirst(value, "'" + rest, "'");
    GetInfoOf(a, name + "='", value, "'", rest);
  }

  /** The attribute at j is the first one whose name ends with the given one. */
  predicate First(attributes: seq<Attribute>, name: string, j: nat)
  {
    j < |attributes| && Ends(attributes[j].front, name) &&
    forall i :: 0 <= i < j ==> !Ends(attributes[i].front, name)
  }

  /** The reader of an attribute returns the value of the first one whose name ends with its name. */
  lemma {:induction false} ReadsFirst(attributes: seq<Attribute>, tail: string, name: string, j: nat)
    requires Proper(attributes) && IsName(name) && First(attributes, name, j)
    ensures GetInfo(Listed(attributes, tail), name + "='", "'") == Some(attributes[j].value)
    decreases |attributes|
  {
    var rest := Listed(attributes[1..], tail);
    if j == 0 {
      Meets(attributes[0].front, attributes[0].value, rest, name);
    } else {
      Passes(attributes[0].front, attributes[0].value, rest, name);
      ReadsFirst(attributes[1..], tail, name, j - 1);
    }
  }
}

/** The rooms that messages with given attributes make. */
module GameroomText {
  import opened Attributes
  import opened CStrings
  import opened Gameroom
  import opened SyncMask
  import XmlSerializer

  // ---------------------------------------------------------------------------------------------
  // Numbers and attributes
  // ---------------------------------------------------------------------------------------------

  /** printf("%ld") */
  function Printed(z: int): string { if z < 0 then "-" + Dec(-z) else Dec(z) }

  predicate IsLong(z: int) { -0x8000_0000_0000_0000 <= z < 0x8000_0000_0000_0000 }

  lemma PrintedReads(z: int, rest: string)
    requires IsLong(z) && (rest == "" || !IsDigit(rest[0]))
    ensures Strtol(Printed(z) + rest) == z
  {
    if z < 0 {
      var n: nat := -z;
      StrtolReads(n, rest);
      Associates("-", Dec(n), rest);
    } else {
      StrtolOfDec(z, rest);
    }
  }

  lemma IntInside(input: string, open: string, value: string, rest: string, z: int)
    requires Strstr(input, open).Some?
    requires input[Strstr(input, open).value + |open|..] == value + ("'" + rest)
    requires Strtol(value + ("'" + rest)) == z
    ensures GetInfoInt(input, open, "'") == z
  {
    QuoteBehind(value, rest);
    IntIs(input, open, "'", value + ("'" + rest));
  }

  /** Where the text reader finds a printed number, the number reader finds that number. */
  lemma NumberIs(input: string, open: string, z: int)
    requires GetInfo(input, open, "'") == Some(Printed(z)) && IsLong(z)
    ensures GetInfoInt(input, open, "'") == z
  {
    var k, rest := GetInfoSplits(input, open, "'");
    NumberAt(input, open, z, rest);
  }

  lemma NumberAt(input: string, open: string, z: int, rest: string)
    requires Strstr(input, open).Some? && IsLong(z)
    requires input[Strstr(input, open).value + |open|..] == Printed(z) + ("'" + rest)
    ensures GetInfoInt(input, open, "'") == z
  {
    PrintedReads(z, "'" + rest);
    IntInside(input, open, Printed(z), rest, z);
  }

  /** A value that can stand in an element: no quote, no bracket, and not the end of a name. */
  predicate Writable(value: string) { Quotable(value) && '<' !in value && '>' !in value }

  lemma DigitsAreWritable(d: string)
    requires forall i :: 0 <= i < |d| ==> IsDigit(d[i])
    ensures Writable(d) && Writable("-" + d)
  {
  }

  lemma PrintedIsWritable(z: int)
    ensures Writable(Printed(z))
  {
    DigitsAreWritable(if z < 0 then Dec(-z) else Dec(z));
  }

  /** The characters at the ends of two texts differ somewhere. */
  predicate Apart(s: string, name: string)
  {
    |name| > |s| || (0 < |name| && s[|s| - 1] != name[|name| - 1]) || (1 < |name| && s[|s| - 2] != name[|name| - 2]) ||
    (2 < |name| && s[|s| - 3] != name[|name| - 3]) || (3 < |name| && s[|s| - 4] != name[|name| - 4]) ||
    (4 < |name| && s[|s| - 5] != name[|name| - 5])
  }

  /** A letter, a digit or an underscore. */
  predicate IsWord(name: string) { forall i :: 0 <= i < |name| ==> 'A' <= name[i] || '0' <= name[i] <= '9' }

  predicate Words(names: seq<string>) { forall i :: 0 <= i < |names| ==> IsWord(names[i]) }

  predicate IsNew(names: seq<string>, j: nat)
    requires j < |names|
  {
    forall i :: 0 <= i < j ==> Apart(names[i], names[j])
  }

  /** No name ends with a later one. */
  predicate Separate(names: seq<string>) { forall j :: 0 <= j < |names| ==> IsNew(names, j) }

  lemma ApartIsNotEnd(lead: string, s: string, name: string)
    requires Apart(s, name) && IsWord(name) && (lead == "" || lead == " ")
    ensures !Ends(lead + s, name)
  {
    assert lead == " " && |name| == |s| + 1 ==> (lead + s)[0] == ' ';
  }

  predicate AllWritable(values: seq<string>) { forall i :: 0 <= i < |values| ==> Writable(values[i]) }

  /** The attributes with blanks between them. */
  function Zip(lead: string, names: seq<string>, values: seq<string>): seq<Attribute>
    requires |names| == |values|
  {
    seq(|names|, i requires 0 <= i < |names| => Attribute((if i == 0 then lead else " ") + names[i], values[i]))
  }

  /** Every attribute is read under its own name. */
  lemma AttributesRead(lead: string, names: seq<string>, values: seq<string>, tail: string, j: nat)
    requires |names| == |values| && Words(names) && Separate(names) && AllWritable(values)
    requires (lead == "" || lead == " ") && j < |names|
    ensures GetInfo(Listed(Zip(lead, names, values), tail), names[j] + "='", "'") == Some(values[j])
  {
    assert IsNew(names, j);
    var all := Zip(lead, names, values);
    forall i | 0 <= i < j ensures !Ends(all[i].front, names[j]) {
      ApartIsNotEnd(if i == 0 then lead else " ", names[i], names[j]);
    }
    ReadsFirst(all, tail, names[j], j);
  }

  // ---------------------------------------------------------------------------------------------
  // The parts
  // ---------------------------------------------------------------------------------------------

  const PARAMS: seq<string> :=
    ["revision", "friendly_fire", "enemy_outlines", "auto_team_balance", "dead_can_chat", "join_in_the_process",
     "max_players", "round_limit", "preround_time", "class_restriction", "inventory_slot", "locked_spectator_camera"]

  const MISSION: seq<string> :=
    ["revision", "mission_key", "name", "setting", "mode", "mode_name", "mode_icon", "description", "image",
     "difficulty", "type", "time_of_day", "no_teams"]

  const SESSION: seq<string> := ["revision", "id", "status", "game_progress", "start_time"]

  const START: seq<string> :=
    ["revision", "auto_start_timeout", "auto_start_timeout_left", "can_manual_start", "joined_intermission_timeout"]

  const PLAYER: seq<string> :=
    ["nickname", "clanName", "profile_id", "online_id", "group_id", "region_id", "class_id", "team_id", "status",
     "presence", "observer", "experience", "rank", "banner_badge", "banner_mark", "banner_stripe"]

  /** The attributes of a part other than the core: its revision, its strings and its numbers. */
  function Names(part: nat): seq<string>
  {
    if part == 1 then PARAMS
    else if part == 2 then MISSION
    else if part == 3 then SESSION
    else if part == 4 then ["revision", "master"]
    else if part == 5 then ["revision", "region_id"]
    else if part == 6 then START
    else if part == 7 then ["revision", "clan_1", "clan_2"]
    else ["revision"]
  }

  /** The C types of the numbers of a part. */
  function Widths(part: nat): seq<Width>
  {
    if part == 0 then [I8, I8, I8, I8, U32, U32]
    else if part == 1 then [I8, I8, I8, I8, I8, U32, U32, I32, U32, U64, I8]
    else if part == 2 then [I8]
    else if part == 3 then [I32, I32, U32]
    else if part == 6 then [I32, I32, I32, I32]
    else []
  }

  const PLAYER_WIDTHS: seq<Width> := [U32, U32, U32, U32, I8, U32, U32, U32, U32, U32]

  function NamesOf(fields: seq<IntField>): seq<string>
  {
    seq(|fields|, i requires 0 <= i < |fields| => fields[i].name)
  }

  function WidthsOf(fields: seq<IntField>): seq<Width>
  {
    seq(|fields|, i requires 0 <= i < |fields| => fields[i].width)
  }

  lemma ParamsWords()
    ensures Words(PARAMS)
  {
    ParamsWordsFrom();
    assert forall i :: 0 <= i < 6 ==> IsWord(PARAMS[i]);
  }

  lemma ParamsWordsFrom()
    ensures forall i :: 6 <= i < 12 ==> IsWord(PARAMS[i])
  {
  }

  lemma MissionWords()
    ensures Words(MISSION)
  {
    MissionWordsFrom();
    assert forall i :: 0 <= i < 6 ==> IsWord(MISSION[i]);
  }

  lemma MissionWordsFrom()
    ensures forall i :: 6 <= i < 13 ==> IsWord(MISSION[i])
  {
  }

  lemma SessionWords()
    ensures Words(SESSION)
  {
    SessionWordsFrom();
    assert forall i :: 0 <= i < 2 ==> IsWord(SESSION[i]);
  }

  lemma SessionWordsFrom()
    ensures forall i :: 2 <= i < 5 ==> IsWord(SESSION[i])
  {
  }

  lemma SessionSeparate()
    ensures Separate(SESSION)
  {
  }

  lemma StartWords()
    ensures Words(START)
  {
    StartWordsFrom();
    assert forall i :: 0 <= i < 3 ==> IsWord(START[i]);
  }

  lemma StartWordsFrom()
    ensures forall i :: 3 <= i < 5 ==> IsWord(START[i])
  {
  }

  lemma StartSeparate()
    ensures Separate(START)
  {
  }

  lemma PlayerWords()
    ensures Words(PLAYER)
  {
    PlayerWordsFrom();
    assert forall i :: 0 <= i < 8 ==> IsWord(PLAYER[i]);
  }

  lemma PlayerWordsFrom()
    ensures forall i :: 8 <= i < 16 ==> IsWord(PLAYER[i])
  {
  }

  lemma ParamsSeparate()
    ensures Separate(PARAMS)
  {
    ParamsSeparateFrom();
    assert forall j :: 0 <= j < 7 ==> IsNew(PARAMS, j);
  }

  lemma ParamsSeparateFrom()
    ensures forall j :: 7 <= j < 12 ==> IsNew(PARAMS, j)
  {
  }

  lemma MissionSeparate()
    ensures Separate(MISSION)
  {
    MissionSeparateFrom();
    assert forall j :: 0 <= j < 8 ==> IsNew(MISSION, j);
  }

  lemma MissionSeparateFrom()
    ensures forall j :: 8 <= j < 13 ==> IsNew(MISSION, j)
  {
  }

  lemma PlayerSeparate()
    ensures Separate(PLAYER)
  {
    PlayerSeparateFrom();
    assert forall j :: 0 <= j < 9 ==> IsNew(PLAYER, j);
  }

  lemma PlayerSeparateFrom()
    ensures forall j :: 9 <= j < 16 ==> IsNew(PLAYER, j)
  {
  }

  lemma MasterNames()
    ensures Words(["revision", "master"]) && Separate(["revision", "master"])
  {
  }

  lemma RegionNames()
    ensures Words(["revision", "region_id"]) && Separate(["revision", "region_id"])
  {
  }

  lemma ClanWords()
    ensures Words(["revision", "clan_1", "clan_2"])
  {
  }

  lemma ClanSeparate()
    ensures Separate(["revision", "clan_1", "clan_2"])
  {
  }

  lemma ChatNames()
    ensures Words(["revision"]) && Separate(["revision"])
  {
  }

  lemma ShortTable(part: nat)
    requires part == 4 || part == 5 || part == 7 || part == 8
    ensures Names(part) == ["revision"] + StrFields(part) + NamesOf(IntFields(part))
  {
  }

  lemma ParamsTable()
    ensures PARAMS == ["revision"] + StrFields(1) + NamesOf(IntFields(1)) && WidthsOf(IntFields(1)) == Widths(1)
  {
  }

  lemma MissionTable()
    ensures MISSION == ["revision"] + StrFields(2) + NamesOf(IntFields(2))
  {
  }

  lemma SessionTable()
    ensures SESSION == ["revision"] + StrFields(3) + NamesOf(IntFields(3))
  {
  }

  lemma StartTable()
    ensures START == ["revision"] + StrFields(6) + NamesOf(IntFields(6))
  {
  }

  lemma ShortWidths(part: nat)
    requires 1 < part
    ensures WidthsOf(IntFields(part)) == Widths(part)
  {
  }

  lemma PlayerTable()
    ensures PLAYER == PLAYER_STRS + NamesOf(PLAYER_INTS) && WidthsOf(PLAYER_INTS) == PLAYER_WIDTHS
  {
  }

  /** The tables of the model are the attributes as they are written here. */
  lemma Tables(part: nat)
    requires 0 < part < PARTS
    ensures Words(Names(part)) && Separate(Names(part)) && WidthsOf(IntFields(part)) == Widths(part)
    ensures Names(part) == ["revision"] + StrFields(part) + NamesOf(IntFields(part))
  {
    if part == 1 { ParamsWords(); ParamsSeparate(); ParamsTable(); }
    else {
      ShortWidths(part);
      if part == 2 { MissionWords(); MissionSeparate(); MissionTable(); }
      else if part == 3 { SessionWords(); SessionSeparate(); SessionTable(); }
      else if part == 6 { StartWords(); StartSeparate(); StartTable(); }
      else {
        ShortTable(part);
        MasterNames();
        RegionNames();
        ClanWords();
        ClanSeparate();
        ChatNames();
      }
    }
  }

  // ---- what is read

  function PrintedAll(ints: seq<int>): (r: seq<string>)
    ensures |r| == |ints| && forall i :: 0 <= i < |ints| ==> r[i] == Printed(ints[i])
  {
    seq(|ints|, i requires 0 <= i < |ints| => Printed(ints[i]))
  }

  predicate AllLong(ints: seq<int>) { forall i :: 0 <= i < |ints| ==> IsLong(ints[i]) }

  function Somes(strs: seq<string>): seq<Option<string>>
  {
    seq(|strs|, i requires 0 <= i < |strs| => Some(strs[i]))
  }

  /** The numbers as they are held. */
  function Stored(widths: seq<Width>, ints: seq<int>): seq<int>
    requires |widths| == |ints|
  {
    seq(|ints|, i requires 0 <= i < |ints| => Store(widths[i], ints[i]))
  }

  /** Strings and numbers of a table that are each read from the text. */
  lemma TableRead(strFields: seq<string>, intFields: seq<IntField>, text: string, strs: seq<string>, ints: seq<int>)
    requires |strFields| == |strs| && |intFields| == |ints| && AllLong(ints)
    requires forall i :: 0 <= i < |strs| ==> GetInfo(text, strFields[i] + "='", "'") == Some(strs[i])
    requires forall i :: 0 <= i < |ints| ==> GetInfo(text, intFields[i].name + "='", "'") == Some(Printed(ints[i]))
    ensures Strs(strFields, text) == Somes(strs) && Ints(intFields, text) == Stored(WidthsOf(intFields), ints)
  {
    forall i | 0 <= i < |ints| ensures GetInfoInt(text, intFields[i].name + "='", "'") == ints[i] {
      NumberIs(text, intFields[i].name + "='", ints[i]);
    }
  }

  lemma PrintedAllWritable(ints: seq<int>)
    ensures AllWritable(PrintedAll(ints))
  {
    forall i | 0 <= i < |ints| ensures Writable(Printed(ints[i])) {
      PrintedIsWritable(ints[i]);
    }
  }

  /** Names and values in the order of a table, behind some others. */
  predicate Rows(names: seq<string>, values: seq<string>, first: nat, strFields: seq<string>, intFields: seq<IntField>,
    strs: seq<string>, ints: seq<int>)
  {
    && |strFields| == |strs| && |intFields| == |ints| && |names| == |values| == first + |strs| + |ints|
    && (forall i :: 0 <= i < |strs| ==> names[first + i] == strFields[i] && values[first + i] == strs[i])
    && (forall i :: 0 <= i < |ints| ==>
          names[first + |strs| + i] == intFields[i].name && values[first + |strs| + i] == Printed(ints[i]))
  }

  lemma RowsOf(names: seq<string>, values: seq<string>, x: seq<string>, y: seq<string>, strFields: seq<string>,
    intFields: seq<IntField>, strs: seq<string>, ints: seq<int>)
    requires |strFields| == |strs| && |intFields| == |ints| && |x| == |y|
    requires names == x + strFields + NamesOf(intFields) && values == y + strs + PrintedAll(ints)
    ensures Rows(names, values, |x|, strFields, intFields, strs, ints)
  {
    IndexOfThree(names, x, strFields, NamesOf(intFields));
    IndexOfThree(values, y, strs, PrintedAll(ints));
  }

  lemma IndexOfThree(all: seq<string>, x: seq<string>, y: seq<string>, z: seq<string>)
    requires all == x + y + z
    ensures forall i :: 0 <= i < |y| ==> all[|x| + i] == y[i]
    ensures forall i :: 0 <= i < |z| ==> all[|x| + |y| + i] == z[i]
  {
  }

  lemma StringRow(text: string, name: string, value: string, lead: string, names: seq<string>, values: seq<string>,
    tail: string, j: nat)
    requires |names| == |values| && Words(names) && Separate(names) && AllWritable(values)
    requires (lead == "" || lead == " ") && j < |names| && names[j] == name && values[j] == value
    requires text == Listed(Zip(lead, names, values), tail)
    ensures GetInfo(text, name + "='", "'") == Some(value)
  {
    AttributesRead(lead, names, values, tail, j);
  }

  /** A text with the attributes of a table. */
  lemma RowsRead(lead: string, names: seq<string>, values: seq<string>, tail: string, first: nat,
    strFields: seq<string>, intFields: seq<IntField>, strs: seq<string>, ints: seq<int>)
    requires lead == "" || lead == " "
    requires Rows(names, values, first, strFields, intFields, strs, ints) && AllLong(ints)
    requires Words(names) && Separate(names) && AllWritable(values)
    ensures var text := Listed(Zip(lead, names, values), tail);
      Strs(strFields, text) == Somes(strs) && Ints(intFields, text) == Stored(WidthsOf(intFields), ints)
  {
    var text := Listed(Zip(lead, names, values), tail);
    forall i | 0 <= i < |strs| ensures GetInfo(text, strFields[i] + "='", "'") == Some(strs[i]) {
      StringRow(text, strFields[i], strs[i], lead, names, values, tail, first + i);
    }
    forall i | 0 <= i < |ints| ensures GetInfo(text, intFields[i].name + "='", "'") == Some(Printed(ints[i])) {
      StringRow(text, intFields[i].name, Printed(ints[i]), lead, names, values, tail, first + |strs| + i);
    }
    TableRead(strFields, intFields, text, strs, ints);
  }

  /** A sheet of strings and numbers for a part or a player. */
  datatype Sheet = Sheet(strs: seq<string>, ints: seq<int>)

  function Values(revision: nat, sheet: Sheet): (r: seq<string>)
  {
    [Printed(revision)] + sheet.strs + PrintedAll(sheet.ints)
  }

  /** A sheet with as many strings and numbers as the table has, all of which can be written. */
  predicate Fits(sheet: Sheet, strs: nat, ints: nat)
  {
    |sheet.strs| == strs && |sheet.ints| == ints && AllWritable(sheet.strs) && AllLong(sheet.ints)
  }

  lemma ValuesWritable(revision: nat, sheet: Sheet)
    requires AllWritable(sheet.strs)
    ensures AllWritable(Values(revision, sheet))
  {
    PrintedIsWritable(revision);
    PrintedAllWritable(sheet.ints);
  }

  function PartAttributes(part: nat, revision: nat, sheet: Sheet): string
    requires 0 < part < PARTS && |Names(part)| == 1 + |sheet.strs| + |sheet.ints|
  {
    Listed(Zip("", Names(part), Values(revision, sheet)), "")
  }

  lemma RevisionPattern()
    ensures "revision" + "='" == "revision='"
  {
  }

  lemma RevisionIs(text: string, z: int)
    requires GetInfoInt(text, "revision='", "'") == z && 0 <= z < 0x1_0000_0000
    ensures Revision(text) == z
  {
  }

  lemma RevisionRead(text: string, revision: nat)
    requires GetInfo(text, "revision" + "='", "'") == Some(Printed(revision)) && revision < 0x1_0000_0000
    ensures Revision(text) == revision
  {
    NumberIs(text, "revision" + "='", revision);
    RevisionPattern();
    RevisionIs(text, revision);
  }

  /** A part other than the core holds the strings and the numbers of its attributes, whatever it held before. */
  lemma PartRead(part: nat, revision: nat, sheet: Sheet, local: Content)
    requires 0 < part < PARTS && revision < 0x1_0000_0000
    requires Fits(sheet, |StrFields(part)|, |IntFields(part)|)
    ensures |Names(part)| == 1 + |sheet.strs| + |sheet.ints| && |Widths(part)| == |sheet.ints|
    ensures var text := PartAttributes(part, revision, sheet);
      && Revision(text) == revision
      && Sync(part, local, text) == Some(Content(Stored(Widths(part), sheet.ints), Somes(sheet.strs), None, []))
  {
    Tables(part);
    var names, values := Names(part), Values(revision, sheet);
    ValuesWritable(revision, sheet);
    RowsOf(names, values, ["revision"], [Printed(revision)], StrFields(part), IntFields(part), sheet.strs, sheet.ints);
    RowsRead("", names, values, "", 1, StrFields(part), IntFields(part), sheet.strs, sheet.ints);
    AttributesRead("", names, values, "", 0);
    RevisionRead(PartAttributes(part, revision, sheet), revision);
  }

  // ---------------------------------------------------------------------------------------------
  // Players
  // ---------------------------------------------------------------------------------------------

  /** What stands between the name of a player's element and its end. */
  function PlayerAttributes(sheet: Sheet): string
    requires IsPlayer(sheet)
  {
    Listed(Zip(" ", PLAYER, sheet.strs + PrintedAll(sheet.ints)), "")
  }

  predicate IsPlayer(sheet: Sheet) { Fits(sheet, 6, 10) }

  function PlayerOf(sheet: Sheet): Player
    requires IsPlayer(sheet)
  {
    Player(Somes(sheet.strs), Stored(PLAYER_WIDTHS, sheet.ints))
  }

  /** A player holds the strings and the numbers of its attributes. */
  lemma PlayerRead(sheet: Sheet)
    requires IsPlayer(sheet)
    ensures var text := PlayerAttributes(sheet);
      Player(Strs(PLAYER_STRS, text), Ints(PLAYER_INTS, text)) == PlayerOf(sheet)
  {
    PlayerTable();
    PlayerWords();
    PlayerSeparate();
    PrintedAllWritable(sheet.ints);
    var values := sheet.strs + PrintedAll(sheet.ints);
    assert PLAYER == [] + PLAYER_STRS + NamesOf(PLAYER_INTS) && values == [] + sheet.strs + PrintedAll(sheet.ints);
    RowsOf(PLAYER, values, [], [], PLAYER_STRS, PLAYER_INTS, sheet.strs, sheet.ints);
    RowsRead(" ", PLAYER, values, "", 0, PLAYER_STRS, PLAYER_INTS, sheet.strs, sheet.ints);
  }

  predicate ArePlayers(players: seq<Sheet>) { forall i :: 0 <= i < |players| ==> IsPlayer(players[i]) }

  /** The elements of players one behind the other. */
  function Tags(players: seq<Sheet>): string
    requires ArePlayers(players)
    decreases |players|
  {
    if players == [] then "" else "<player" + (PlayerAttributes(players[0]) + ("/>" + Tags(players[1..])))
  }

  /** The players of the elements, the last one first, in front of others. */
  function Newest(players: seq<Sheet>, before: seq<Player>): (r: seq<Player>)
    requires ArePlayers(players)
    ensures |r| == |players| + |before| && r[|players|..] == before
    ensures forall i :: 0 <= i < |players| ==> r[i] == PlayerOf(players[|players| - 1 - i])
    decreases |players|
  {
    if players == [] then before else Newest(players[1..], [PlayerOf(players[0])] + before)
  }

  /** The players from the start of an element on. */
  function PlayersFrom(at: string, before: seq<Player>): Option<seq<Player>>
    requires at != ""
  {
    match GetInfo(at, "<player", "/>")
    case None => None
    case Some(text) => PlayersIn(at[1..], [Player(Strs(PLAYER_STRS, text), Ints(PLAYER_INTS, text))] + before)
  }

  lemma PlayersStep(m: string, at: string, before: seq<Player>)
    requires Strstr(m, "<player").Some? && m[Strstr(m, "<player").value..] == at
    ensures at != "" && PlayersIn(m, before) == PlayersFrom(at, before)
  {
    assert m[Strstr(m, "<player").value + 1..] == at[1..];
  }

  lemma NoPlayer(m: string, before: seq<Player>)
    requires Strstr(m, "<player").None?
    ensures PlayersIn(m, before) == Some(before)
  {
  }

  lemma TagBehind(a: string, y: string)
    requires '<' !in a
    ensures Strstr(y, "<player").None? ==> Strstr(a + y, "<player").None?
    ensures Strstr(y, "<player").Some? ==> Strstr(a + y, "<player") == Some(|a| + Strstr(y, "<player").value)
  {
    assert "<player"[0] == '<';
    NoStartWithoutFirst(a, y, "<player");
    StrstrSkip(a, y, "<player");
  }

  lemma DropBehind(a: string, y: string, k: nat)
    requires k <= |y|
    ensures (a + y)[|a| + k..] == y[k..]
  {
  }

  /** Up to the next '<' no element starts. */
  lemma SkipsToTag(a: string, y: string, before: seq<Player>)
    requires '<' !in a
    ensures PlayersIn(a + y, before) == PlayersIn(y, before)
  {
    TagBehind(a, y);
    if Strstr(y, "<player").Some? {
      var k := Strstr(y, "<player").value;
      DropBehind(a, y, k);
      PlayersStep(y, y[k..], before);
      PlayersStep(a + y, y[k..], before);
    } else {
      NoPlayer(y, before);
      NoPlayer(a + y, before);
    }
  }

  predicate Bare(text: string) { '<' !in text && '>' !in text }

  lemma FirstPlayer(text: string, rest: string, before: seq<Player>)
    requires Bare(text)
    ensures PlayersIn("<player" + (text + ("/>" + rest)), before) ==
      PlayersIn(rest, [Player(Strs(PLAYER_STRS, text), Ints(PLAYER_INTS, text))] + before)
  {
    var m := "<player" + (text + ("/>" + rest));
    FirstTag(text, rest);
    PlayersStep(m, m, before);
    BehindTag(text, rest);
    SkipsToTag("player" + (text + "/>"), rest, [Player(Strs(PLAYER_STRS, text), Ints(PLAYER_INTS, text))] + before);
  }

  lemma BehindTag(text: string, rest: string)
    requires '<' !in text
    ensures ("<player" + (text + ("/>" + rest)))[1..] == "player" + (text + "/>") + rest
    ensures '<' !in "player" + (text + "/>")
  {
  }

  lemma FirstTag(text: string, rest: string)
    requires Bare(text)
    ensures var m := "<player" + (text + ("/>" + rest));
      Strstr(m, "<player") == Some(0) && GetInfo(m, "<player", "/>") == Some(text)
  {
    var m := "<player" + (text + ("/>" + rest));
    assert "" + m == m;
    FoundBehind("", "<player", text + ("/>" + rest));
    EndOfElement(text, rest);
    GetInfoOf("", "<player", text, "/>", rest);
  }

  lemma EndOfElement(text: string, rest: string)
    requires '>' !in text
    ensures forall i :: 0 <= i < |text| ==> !OccursAt(text + ("/>" + rest), "/>", i)
  {
    forall i | 0 <= i < |text| ensures !OccursAt(text + ("/>" + rest), "/>", i) {
      if OccursAt(text + ("/>" + rest), "/>", i) {
        CharOf(text + ("/>" + rest), "/>", i, 1);
      }
    }
  }

  /** A list of players is held with the last one first, each with its own attributes. */
  lemma {:induction false} PlayersRead(players: seq<Sheet>, before: seq<Player>)
    requires ArePlayers(players)
    ensures PlayersIn(Tags(players), before) == Some(Newest(players, before))
    decreases |players|
  {
    if players == [] {
      assert "<player"[0] == '<';
      Absent("", "<player", '<');
    } else {
      var text := PlayerAttributes(players[0]);
      PlayerBare(players[0]);
      PlayerRead(players[0]);
      FirstPlayer(text, Tags(players[1..]), before);
      PlayersRead(players[1..], [PlayerOf(players[0])] + before);
    }
  }

  // ---------------------------------------------------------------------------------------------
  // The core
  // ---------------------------------------------------------------------------------------------

  const CORE_NAMES: seq<string> :=
    ["revision", "room_name", "teams_switched", "private", "players", "can_start", "team_balanced",
     "min_ready_players"]

  datatype CoreSheet = CoreSheet(name: string, ints: seq<int>, players: seq<Sheet>)

  predicate IsCore(core: CoreSheet)
  {
    && |core.ints| == 6 && AllLong(core.ints) && (core.name == "" || core.name[|core.name| - 1] != '=')
    && ArePlayers(core.players)
  }

  /** An escaped name can be written, whatever its characters. */
  lemma EscapedIsWritable(name: string)
    requires name == "" || name[|name| - 1] != '='
    ensures Writable(XmlSerializer.Escape(name))
  {
    XmlSerializer.EscapedIsInert(name, '\'');
    XmlSerializer.EscapedIsInert(name, '<');
    XmlSerializer.EscapedIsInert(name, '>');
    if name != "" {
      var a, c := name[..|name| - 1], name[|name| - 1];
      assert name == a + [c];
      XmlSerializer.EscapeConcat(a, [c]);
      XmlSerializer.EscapeSingle(c);
    }
  }

  function CoreValues(revision: nat, core: CoreSheet): seq<string>
    requires |core.ints| == 6
  {
    var n := core.ints;
    [Printed(revision), XmlSerializer.Escape(core.name), Printed(n[0]), Printed(n[1]), Printed(n[5]), Printed(n[2]),
     Printed(n[3]), Printed(n[4])]
  }

  function CoreTail(players: seq<Sheet>): string
    requires ArePlayers(players)
  {
    ">" + ("<players>" + (Tags(players) + ("</players>" + "")))
  }

  /** What stands in the element of the core. */
  function CoreAttributes(revision: nat, core: CoreSheet): string
    requires IsCore(core)
  {
    Listed(Zip(" ", CORE_NAMES, CoreValues(revision, core)), CoreTail(core.players))
  }

  lemma CoreWords()
    ensures Words(CORE_NAMES)
  {
    CoreWordsFrom();
    assert forall i :: 0 <= i < 4 ==> IsWord(CORE_NAMES[i]);
  }

  lemma CoreWordsFrom()
    ensures forall i :: 4 <= i < 8 ==> IsWord(CORE_NAMES[i])
  {
  }

  lemma CoreSeparate()
    ensures Separate(CORE_NAMES)
  {
  }

  lemma CoreTable()
    ensures NamesOf(IntFields(CORE)) ==
      [CORE_NAMES[2], CORE_NAMES[3], CORE_NAMES[5], CORE_NAMES[6], CORE_NAMES[7], CORE_NAMES[4]]
    ensures WidthsOf(IntFields(CORE)) == Widths(0)
    ensures CORE_NAMES[1] + "='" == "room_name='"
  {
  }

  lemma CoreValuesWritable(revision: nat, core: CoreSheet)
    requires IsCore(core)
    ensures AllWritable(CoreValues(revision, core))
  {
    PrintedIsWritable(revision);
    EscapedIsWritable(core.name);
    PrintedAllWritable(core.ints);
    assert forall i :: 0 <= i < 6 ==> PrintedAll(core.ints)[i] == Printed(core.ints[i]);
  }

  /** The numbers of the core stand in another order than in the table. */
  function At(i: nat): nat { if i < 2 then 2 + i else if i < 5 then 3 + i else 4 }

  lemma CoreInts(revision: nat, core: CoreSheet, text: string)
    requires IsCore(core) && text == CoreAttributes(revision, core)
    ensures Ints(IntFields(CORE), text) == Stored(Widths(0), core.ints)
  {
    CoreWords();
    CoreSeparate();
    CoreTable();
    CoreValuesWritable(revision, core);
    var values, fields := CoreValues(revision, core), IntFields(CORE);
    forall i | 0 <= i < 6 ensures GetInfo(text, fields[i].name + "='", "'") == Some(Printed(core.ints[i])) {
      assert fields[i].name == NamesOf(fields)[i];
      StringRow(text, fields[i].name, Printed(core.ints[i]), " ", CORE_NAMES, values, CoreTail(core.players), At(i));
    }
    TableRead([], fields, text, [], core.ints);
  }

  lemma CoreStrs(revision: nat, core: CoreSheet, text: string)
    requires IsCore(core) && text == CoreAttributes(revision, core) && revision < 0x1_0000_0000
    ensures Revision(text) == revision && GetInfo(text, "room_name='", "'") == Some(XmlSerializer.Escape(core.name))
  {
    CoreWords();
    CoreSeparate();
    CoreTable();
    CoreValuesWritable(revision, core);
    var values := CoreValues(revision, core);
    AttributesRead(" ", CORE_NAMES, values, CoreTail(core.players), 0);
    AttributesRead(" ", CORE_NAMES, values, CoreTail(core.players), 1);
    RevisionRead(text, revision);
  }

  // ---- the list of players in the core

  lemma {:induction false} ListedTail(attributes: seq<Attribute>, tail: string)
    ensures Listed(attributes, tail) == Listed(attributes, "") + tail
    decreases |attributes|
  {
    if attributes != [] {
      ListedTail(attributes[1..], tail);
      var a, b := attributes[0], Listed(attributes[1..], "");
      Reassociate(a.front, "='", a.value, "'", b, tail);
    } else {
      assert "" + tail == tail;
    }
  }

  lemma Reassociate(a: string, b: string, c: string, d: string, e: string, f: string)
    ensures a + (b + (c + (d + (e + f)))) == a + (b + (c + (d + e))) + f
  {
  }

  lemma {:induction false} ListedBare(attributes: seq<Attribute>)
    requires forall i :: 0 <= i < |attributes| ==> Bare(attributes[i].front) && Bare(attributes[i].value)
    ensures Bare(Listed(attributes, ""))
    decreases |attributes|
  {
    if attributes != [] {
      ListedBare(attributes[1..]);
    }
  }

  lemma ZipBare(lead: string, names: seq<string>, values: seq<string>)
    requires |names| == |values| && Words(names) && AllWritable(values) && (lead == "" || lead == " ")
    ensures Bare(Listed(Zip(lead, names, values), ""))
  {
    var all := Zip(lead, names, values);
    forall i | 0 <= i < |all| ensures Bare(all[i].front) && Bare(all[i].value) {
      assert IsWord(names[i]) && Writable(values[i]);
    }
    ListedBare(all);
  }

  lemma PlayerBare(sheet: Sheet)
    requires IsPlayer(sheet)
    ensures Bare(PlayerAttributes(sheet))
  {
    PlayerWords();
    PrintedAllWritable(sheet.ints);
    ZipBare(" ", PLAYER, sheet.strs + PrintedAll(sheet.ints));
  }

  predicate Differ(x: string, y: string) { |x| == |y| == 3 && (x[0] != y[0] || x[1] != y[1] || x[2] != y[2]) }

  /** Every '<' of x is followed by three characters other than those of the mark. */
  predicate Avoids(x: string, mark: string)
  {
    |mark| == 3 && forall i :: 0 <= i < |x| && x[i] == '<' ==>
      i + 3 < |x| && (x[i + 1] != mark[0] || x[i + 2] != mark[1] || x[i + 3] != mark[2])
  }

  lemma AvoidsBoth(x: string, y: string, mark: string)
    requires Avoids(x, mark) && Avoids(y, mark)
    ensures Avoids(x + y, mark)
  {
  }

  lemma BareAvoids(x: string, mark: string)
    requires '<' !in x && |mark| == 3
    ensures Avoids(x, mark)
  {
  }

  /** A text that starts with a '<' and has no other one. */
  lemma OpenAvoids(open: string, rest: string, mark: string)
    requires |open| >= 4 && open[0] == '<' && '<' !in open[1..] && '<' !in rest
    requires |mark| == 3 && (open[1] != mark[0] || open[2] != mark[1] || open[3] != mark[2])
    ensures Avoids(open + rest, mark)
  {
    assert forall i :: 0 < i < |open| ==> open[1..][i - 1] == open[i];
  }

  predicate Marked(pattern: string, mark: string)
  {
    && |mark| == 3 && |pattern| >= 4
    && pattern[0] == '<' && pattern[1] == mark[0] && pattern[2] == mark[1] && pattern[3] == mark[2]
  }

  /** No pattern with the mark starts there. */
  lemma NotMarked(x: string, rest: string, pattern: string, mark: string)
    requires Avoids(x, mark) && Marked(pattern, mark)
    ensures forall i :: 0 <= i < |x| ==> !OccursAt(x + rest, pattern, i)
  {
    forall i | 0 <= i < |x| ensures !OccursAt(x + rest, pattern, i) {
      if OccursAt(x + rest, pattern, i) {
        MarkThere(x, rest, pattern, i);
      }
    }
  }

  lemma MarkThere(x: string, rest: string, pattern: string, i: nat)
    requires OccursAt(x + rest, pattern, i) && |pattern| >= 4 && i < |x|
    ensures x[i] == pattern[0]
    ensures i + 3 < |x| ==> x[i + 1] == pattern[1] && x[i + 2] == pattern[2] && x[i + 3] == pattern[3]
  {
    CharOf(x + rest, pattern, i, 0);
    CharOf(x + rest, pattern, i, 1);
    CharOf(x + rest, pattern, i, 2);
    CharOf(x + rest, pattern, i, 3);
  }

  lemma PlayerOpens()
    ensures Marked("<player", "pla") && '<' !in "<player"[1..]
    ensures Marked("<players>", "pla") && '<' !in "<players>"[1..]
    ensures Marked("</players>", "/pl") && '<' !in "</players>"[1..]
  {
  }

  lemma TagAvoids(text: string, mark: string)
    requires Bare(text) && Differ("pla", mark)
    ensures Avoids("<player" + (text + "/>"), mark)
  {
    PlayerOpens();
    OpenAvoids("<player", text + "/>", mark);
  }

  lemma {:induction false} TagsAvoid(players: seq<Sheet>, mark: string)
    requires ArePlayers(players) && Differ("pla", mark)
    ensures Avoids(Tags(players), mark)
    decreases |players|
  {
    if players != [] {
      var text := PlayerAttributes(players[0]);
      PlayerBare(players[0]);
      TagAvoids(text, mark);
      TagsAvoid(players[1..], mark);
      AvoidsBoth("<player" + (text + "/>"), Tags(players[1..]), mark);
      TagsSplit(text, Tags(players[1..]));
    }
  }

  lemma TagsSplit(text: string, rest: string)
    ensures "<player" + (text + ("/>" + rest)) == "<player" + (text + "/>") + rest
  {
  }

  /** The list of players is found in the core. */
  lemma ListFound(front: string, tags: string)
    requires '<' !in front && Avoids(tags, "/pl")
    ensures GetInfo(front + (">" + ("<players>" + (tags + ("</players>" + "")))), "<players>", "</players>") ==
      Some(tags)
  {
    var a := front + ">";
    assert front + (">" + ("<players>" + (tags + ("</players>" + "")))) ==
      a + ("<players>" + (tags + ("</players>" + "")));
    PlayerOpens();
    NoStartWithoutFirst(a, "<players>" + (tags + ("</players>" + "")), "<players>");
    NotMarked(tags, "</players>" + "", "</players>", "/pl");
    GetInfoOf(a, "<players>", tags, "</players>", "");
  }

  lemma CorePlayers(revision: nat, core: CoreSheet, text: string, local: Content)
    requires IsCore(core) && text == CoreAttributes(revision, core)
    ensures PlayersAfter(local.players, text) == Some(Newest(core.players, []))
  {
    var all := Zip(" ", CORE_NAMES, CoreValues(revision, core));
    CoreWords();
    CoreValuesWritable(revision, core);
    ListedTail(all, CoreTail(core.players));
    ZipBare(" ", CORE_NAMES, CoreValues(revision, core));
    TagsAvoid(core.players, "/pl");
    ListFound(Listed(all, ""), Tags(core.players));
    PlayersRead(core.players, []);
  }

  /** The core holds its name, numbers and players, whatever it held before. */
  lemma CoreRead(revision: nat, core: CoreSheet, local: Content)
    requires IsCore(core) && revision < 0x1_0000_0000
    ensures var text := CoreAttributes(revision, core);
      && Revision(text) == revision
      && SyncCore(local, text) ==
           Some(Content(Stored(Widths(0), core.ints), [], Some(core.name), Newest(core.players, [])))
  {
    var text := CoreAttributes(revision, core);
    CoreInts(revision, core, text);
    CoreStrs(revision, core, text);
    CorePlayers(revision, core, text, local);
    XmlSerializer.RoundTrip(core.name);
  }

  // ---------------------------------------------------------------------------------------------
  // A whole message
  // ---------------------------------------------------------------------------------------------

  const TAGS: seq<string> := ["core", "custom_params", "mission", "session", "room_master", "regions", "auto_start",
                              "clan_war", "ingame_chat"]

  /** What a message says: an id, a type, the core and the other parts, each with a revision. */
  datatype RoomSheet = RoomSheet(id: string, kind: int, core: CoreSheet, parts: seq<Sheet>, revisions: seq<nat>)

  predicate IsRoom(w: RoomSheet)
  {
    && Writable(w.id) && IsLong(w.kind) && IsCore(w.core) && |w.parts| == |w.revisions| == PARTS
    && (forall p :: 0 < p < PARTS ==> Fits(w.parts[p], |StrFields(p)|, |IntFields(p)|))
    && (forall p :: 0 <= p < PARTS ==> w.revisions[p] < 0x1_0000_0000)
  }

  /** The attributes of a part other than the core. */
  function TextOf(w: RoomSheet, part: nat): string
    requires IsRoom(w) && 0 < part < PARTS
  {
    PartRead(part, w.revisions[part], w.parts[part], BLANK);
    PartAttributes(part, w.revisions[part], w.parts[part])
  }

  function PartElement(w: RoomSheet, part: nat): string
    requires IsRoom(w) && 0 < part < PARTS
  {
    "<" + (TAGS[part] + (" " + (TextOf(w, part) + "/>")))
  }

  function Parts(w: RoomSheet, part: nat): string
    requires IsRoom(w) && 0 < part <= PARTS
    decreases PARTS - part
  {
    if part == PARTS then "</game_room>" else PartElement(w, part) + Parts(w, part + 1)
  }

  function CoreElement(w: RoomSheet): string
    requires IsRoom(w)
  {
    "<core" + (CoreAttributes(w.revisions[0], w.core) + "</core>")
  }

  const ROOM_NAMES: seq<string> := ["room_id", "room_type"]

  function RoomTag(w: RoomSheet): string
  {
    Listed(Zip(" ", ROOM_NAMES, [w.id, Printed(w.kind)]), "")
  }

  function Message(w: RoomSheet): string
    requires IsRoom(w)
  {
    "<game_room" + (RoomTag(w) + (">" + (CoreElement(w) + Parts(w, 1))))
  }

  // ---- finding the parts

  lemma TagsAreFields()
    ensures FIELDS == TAGS
  {
  }

  /** The first three characters of the tags, and those of their ends. */
  const MARKS: seq<string> := ["cor", "cus", "mis", "ses", "roo", "reg", "aut", "cla", "ing"]

  const ENDS: seq<string> := ["/co", "/cu", "/mi", "/se", "/ro", "/re", "/au", "/cl", "/in"]

  lemma MarksDiffer(p: nat, q: nat)
    requires p < q < PARTS
    ensures Differ(MARKS[p], MARKS[q])
  {
  }

  lemma MarkIs(p: nat)
    requires p < PARTS
    ensures '<' !in TAGS[p] && '>' !in TAGS[p] && Marked("<" + TAGS[p], MARKS[p]) && Marked("</" + TAGS[p], ENDS[p])
  {
  }

  lemma MarkKinds(p: nat)
    requires 0 < p < PARTS
    ensures Differ("cor", MARKS[p]) && Differ("gam", MARKS[p]) && Differ("pla", MARKS[p]) && MARKS[p][0] != '/'
    ensures Differ("/pl", ENDS[p]) && Differ("/co", ENDS[p]) && Differ("/ga", ENDS[p]) && ENDS[p][0] == '/'
  {
  }

  // ---- what the pieces of the message avoid

  lemma TextBare(w: RoomSheet, part: nat)
    requires IsRoom(w) && 0 < part < PARTS
    ensures Bare(TextOf(w, part))
  {
    PartRead(part, w.revisions[part], w.parts[part], BLANK);
    Tables(part);
    ValuesWritable(w.revisions[part], w.parts[part]);
    ZipBare("", Names(part), Values(w.revisions[part], w.parts[part]));
  }

  lemma PartAvoids(w: RoomSheet, part: nat, mark: string)
    requires IsRoom(w) && 0 < part < PARTS && Differ(MARKS[part], mark)
    ensures Avoids(PartElement(w, part), mark)
  {
    MarkIs(part);
    TextBare(w, part);
    ElementAvoids(TAGS[part], MARKS[part], " " + (TextOf(w, part) + "/>"), mark);
  }

  lemma ElementAvoids(tag: string, own: string, rest: string, mark: string)
    requires Marked("<" + tag, own) && '<' !in tag && '<' !in rest && Differ(own, mark)
    ensures Avoids("<" + (tag + rest), mark)
  {
    assert ("<" + tag)[1..] == tag;
    OpenAvoids("<" + tag, rest, mark);
    assert "<" + (tag + rest) == "<" + tag + rest;
  }

  lemma EndTag(mark: string)
    requires Differ("/ga", mark)
    ensures Avoids("</game_room>", mark)
  {
    assert Marked("</game_room>", "/ga") && '<' !in "</game_room>"[1..];
    OpenAvoids("</game_room>", "", mark);
    assert "</game_room>" + "" == "</game_room>";
  }

  lemma {:induction false} PartsAvoid(w: RoomSheet, part: nat, mark: string)
    requires IsRoom(w) && 0 < part <= PARTS && Differ("/ga", mark)
    requires forall q :: part <= q < PARTS ==> Differ(MARKS[q], mark)
    ensures Avoids(Parts(w, part), mark)
    decreases PARTS - part
  {
    if part == PARTS {
      EndTag(mark);
    } else {
      PartAvoids(w, part, mark);
      PartsAvoid(w, part + 1, mark);
      AvoidsBoth(PartElement(w, part), Parts(w, part + 1), mark);
    }
  }

  lemma PiecesAvoid(mark: string)
    requires Differ("cor", mark) && Differ("pla", mark) && Differ("/pl", mark) && Differ("/co", mark)
    ensures Avoids("<players>", mark) && Avoids("</players>", mark) && Avoids("</core>", mark)
    ensures Marked("<core", "cor") && '<' !in "<core"[1..]
  {
    PlayerOpens();
    assert Marked("</core>", "/co") && '<' !in "</core>"[1..];
    OpenAvoids("<players>", "", mark);
    OpenAvoids("</players>", "", mark);
    OpenAvoids("</core>", "", mark);
    assert "<players>" + "" == "<players>" && "</players>" + "" == "</players>" && "</core>" + "" == "</core>";
  }

  lemma CoreAvoids(w: RoomSheet, mark: string)
    requires IsRoom(w)
    requires Differ("cor", mark) && Differ("pla", mark) && Differ("/pl", mark) && Differ("/co", mark)
    ensures Avoids(CoreElement(w), mark)
  {
    var names, values, tags := CORE_NAMES, CoreValues(w.revisions[0], w.core), Tags(w.core.players);
    var list := Listed(Zip(" ", names, values), "");
    PiecesAvoid(mark);
    CoreWords();
    CoreValuesWritable(w.revisions[0], w.core);
    ZipBare(" ", names, values);
    ListedTail(Zip(" ", names, values), CoreTail(w.core.players));
    OpenAvoids("<core", list + ">", mark);
    TagsAvoid(w.core.players, mark);
    AvoidsBoth("<core" + (list + ">"), "<players>", mark);
    AvoidsBoth("<core" + (list + ">") + "<players>", tags, mark);
    AvoidsBoth("<core" + (list + ">") + "<players>" + tags, "</players>", mark);
    AvoidsBoth("<core" + (list + ">") + "<players>" + tags + "</players>", "</core>", mark);
    CorePieces(list, "<players>", tags, "</players>");
  }

  lemma CorePieces(list: string, x: string, tags: string, y: string)
    ensures "<core" + (list + (">" + (x + (tags + (y + "")))) + "</core>") ==
      "<core" + (list + ">") + x + tags + y + "</core>"
  {
  }

  // ---- what is found in the message

  lemma CoreFound(w: RoomSheet)
    requires IsRoom(w)
    ensures GetInfo(CoreElement(w) + Parts(w, 1), "<core", "</core>") == Some(CoreAttributes(w.revisions[0], w.core))
  {
    var text, rest := CoreAttributes(w.revisions[0], w.core), Parts(w, 1);
    CoreEndLess(w);
    CoreOpens();
    NotMarked(text, "</core>" + rest, "</core>", "/co");
    GetInfoOf("", "<core", text, "</core>", rest);
    CoreFront("<core", text, "</core>", rest);
  }

  lemma CoreFront(a: string, b: string, c: string, d: string)
    ensures "" + (a + (b + (c + d))) == a + (b + c) + d
  {
  }

  lemma CoreOpens()
    ensures Marked("</core>", "/co") && Marked("<core", "cor")
  {
  }

  /** No end of a core in its attributes and players. */
  lemma CoreEndLess(w: RoomSheet)
    requires IsRoom(w)
    ensures Avoids(CoreAttributes(w.revisions[0], w.core), "/co")
  {
    var names, values, tags := CORE_NAMES, CoreValues(w.revisions[0], w.core), Tags(w.core.players);
    var list := Listed(Zip(" ", names, values), "");
    CoreWords();
    CoreValuesWritable(w.revisions[0], w.core);
    ZipBare(" ", names, values);
    ListedTail(Zip(" ", names, values), CoreTail(w.core.players));
    PlayerOpens();
    OpenAvoids("<players>", "", "/co");
    OpenAvoids("</players>", "", "/co");
    assert "<players>" + "" == "<players>" && "</players>" + "" == "</players>";
    BareAvoids(list + ">", "/co");
    TagsAvoid(w.core.players, "/co");
    AvoidsBoth(list + ">", "<players>", "/co");
    AvoidsBoth(list + ">" + "<players>", tags, "/co");
    AvoidsBoth(list + ">" + "<players>" + tags, "</players>", "/co");
    ListPieces(list, "<players>", tags, "</players>");
  }

  lemma ListPieces(list: string, x: string, tags: string, y: string)
    ensures list + (">" + (x + (tags + (y + "")))) == list + ">" + x + tags + y
  {
  }

  lemma PartFront(tag: string, text: string, rest: string)
    requires '>' !in text
    ensures var e := "<" + (tag + (" " + (text + "/>")));
      GetInfo(e + rest, "<" + tag + " ", "/>") == Some(text)
  {
    var open := "<" + tag + " ";
    EndOfElement(text, rest);
    GetInfoOf("", open, text, "/>", rest);
    assert "" + (open + (text + ("/>" + rest))) == "<" + (tag + (" " + (text + "/>"))) + rest;
  }

  lemma TagPattern(part: nat)
    requires part < PARTS
    ensures Marked("<" + TAGS[part] + " ", MARKS[part]) && Marked("</" + TAGS[part] + ">", ENDS[part])
  {
    MarkIs(part);
    LongerMarked("<" + TAGS[part], " ", MARKS[part]);
    LongerMarked("</" + TAGS[part], ">", ENDS[part]);
  }

  lemma LongerMarked(pattern: string, c: string, mark: string)
    requires Marked(pattern, mark)
    ensures Marked(pattern + c, mark)
  {
  }

  lemma {:induction false} PartFound(w: RoomSheet, part: nat, from: nat)
    requires IsRoom(w) && 0 < from <= part < PARTS
    ensures GetInfo(Parts(w, from), "<" + TAGS[part] + " ", "/>") == Some(TextOf(w, part))
    decreases part - from
  {
    var open, rest := "<" + TAGS[part] + " ", Parts(w, from + 1);
    if from == part {
      TextBare(w, part);
      PartFront(TAGS[part], TextOf(w, part), rest);
    } else {
      MarksDiffer(from, part);
      PartAvoids(w, from, MARKS[part]);
      TagPattern(part);
      NotMarked(PartElement(w, from), rest, open, MARKS[part]);
      InfoBehind(PartElement(w, from), rest, open, "/>");
      PartFound(w, part, from + 1);
    }
  }

  function Head(w: RoomSheet): string { "<game_room" + (RoomTag(w) + ">") }

  lemma RoomWords()
    ensures Words(ROOM_NAMES) && Separate(ROOM_NAMES)
  {
  }

  lemma HeadAvoids(w: RoomSheet, mark: string)
    requires IsRoom(w) && Differ("gam", mark)
    ensures Avoids(Head(w), mark) && Message(w) == Head(w) + (CoreElement(w) + Parts(w, 1))
  {
    RoomWords();
    PrintedIsWritable(w.kind);
    ZipBare(" ", ROOM_NAMES, [w.id, Printed(w.kind)]);
    assert Marked("<game_room", "gam") && '<' !in "<game_room"[1..];
    OpenAvoids("<game_room", RoomTag(w) + ">", mark);
    HeadPieces("<game_room", RoomTag(w), CoreElement(w) + Parts(w, 1));
  }

  lemma HeadPieces(a: string, b: string, c: string)
    ensures a + (b + (">" + c)) == a + (b + ">") + c
  {
  }

  lemma CoreBehindHead(w: RoomSheet, open: string, close: string)
    requires IsRoom(w) && Marked(open, "cor")
    requires GetInfo(CoreElement(w) + Parts(w, 1), open, close).Some?
    ensures GetInfo(Message(w), open, close) == GetInfo(CoreElement(w) + Parts(w, 1), open, close)
  {
    HeadAvoids(w, "cor");
    NotMarked(Head(w), CoreElement(w) + Parts(w, 1), open, "cor");
    InfoBehind(Head(w), CoreElement(w) + Parts(w, 1), open, close);
  }

  lemma CorePatterns()
    ensures "<core" == "<" + TAGS[0] && "</core>" == "</" + TAGS[0] + ">"
  {
  }

  /** The text of the core of the message. */
  lemma CoreInMessage(w: RoomSheet)
    requires IsRoom(w)
    ensures PartText(TAGS[0], Message(w)) == Some(CoreAttributes(w.revisions[0], w.core))
  {
    CoreFound(w);
    CoreOpens();
    CoreBehindHead(w, "<core", "</core>");
    CorePatterns();
    FullElement(TAGS[0], Message(w), "<core", "</core>");
  }

  lemma FullElement(field: string, data: string, open: string, close: string)
    requires open == "<" + field && close == "</" + field + ">" && GetInfo(data, open, close).Some?
    ensures PartText(field, data) == GetInfo(data, open, close)
  {
  }

  lemma EmptyElement(field: string, data: string, open: string, close: string)
    requires open == "<" + field + " " && close == "</" + field + ">" && !Occurs(data, close)
    ensures PartText(field, data) == GetInfo(data, open, "/>")
  {
    NoEnd(data, "<" + field, close);
  }

  lemma MessageAvoids(w: RoomSheet, mark: string)
    requires IsRoom(w) && Differ("gam", mark) && Differ("/ga", mark)
    requires Differ("cor", mark) && Differ("pla", mark) && Differ("/pl", mark) && Differ("/co", mark)
    requires forall q :: 0 < q < PARTS ==> Differ(MARKS[q], mark)
    ensures Avoids(Message(w), mark)
  {
    HeadAvoids(w, mark);
    CoreAvoids(w, mark);
    PartsAvoid(w, 1, mark);
    AvoidsBoth(CoreElement(w), Parts(w, 1), mark);
    AvoidsBoth(Head(w), CoreElement(w) + Parts(w, 1), mark);
  }

  lemma NotAnywhere(x: string, pattern: string, mark: string)
    requires Avoids(x, mark) && Marked(pattern, mark)
    ensures !Occurs(x, pattern)
  {
    NotMarked(x, "", pattern, mark);
    assert x + "" == x;
  }

  /** The text of a part of the message other than the core. */
  lemma PartInMessage(w: RoomSheet, part: nat)
    requires IsRoom(w) && 0 < part < PARTS
    ensures PartText(TAGS[part], Message(w)) == Some(TextOf(w, part))
  {
    var tag, open := TAGS[part], "<" + TAGS[part] + " ";
    var close, rest := "</" + TAGS[part] + ">", CoreElement(w) + Parts(w, 1);
    MarkKinds(part);
    TagPattern(part);
    forall q | 0 < q < PARTS ensures Differ(MARKS[q], ENDS[part]) {
      MarkKinds(q);
    }
    OtherKinds(part);
    MessageAvoids(w, ENDS[part]);
    NotAnywhere(Message(w), close, ENDS[part]);
    EmptyElement(tag, Message(w), open, close);
    HeadAvoids(w, MARKS[part]);
    CoreAvoids(w, MARKS[part]);
    NotMarked(Head(w), rest, open, MARKS[part]);
    InfoBehind(Head(w), rest, open, "/>");
    NotMarked(CoreElement(w), Parts(w, 1), open, MARKS[part]);
    InfoBehind(CoreElement(w), Parts(w, 1), open, "/>");
    PartFound(w, part, 1);
  }

  lemma OtherKinds(p: nat)
    requires 0 < p < PARTS
    ensures Differ("cor", ENDS[p]) && Differ("gam", ENDS[p]) && Differ("pla", ENDS[p])
    ensures Differ("/pl", MARKS[p]) && Differ("/co", MARKS[p])
  {
  }

  // ---- the room

  /** The parts of the room the message describes. */
  function NodeOf(w: RoomSheet, part: nat): Node<Content>
    requires IsRoom(w) && part < PARTS
  {
    if part == 0 then
      Node(w.revisions[0],
           Content(Stored(Widths(0), w.core.ints), [], Some(w.core.name), Newest(w.core.players, [])))
    else
      PartRead(part, w.revisions[part], w.parts[part], BLANK);
      Node(w.revisions[part],
           Content(Stored(Widths(part), w.parts[part].ints), Somes(w.parts[part].strs), None, []))
  }

  lemma MergeHigher(part: nat, n: Node<Content>, data: string, text: string)
    requires part < PARTS && PartText(FIELDS[part], data) == Some(text)
    ensures MergePart(part, n, data) ==
      if Revision(text) <= n.revision then Some(n)
      else match Sync(part, n.content, text) { case None => None case Some(c) => Some(Node(Revision(text), c)) }
  {
    assert SyncOf(part)(n.content, text) == Sync(part, n.content, text);
  }

  /** A part of higher revision becomes what the message says, whatever it was; another one stays. */
  lemma PartTaken(w: RoomSheet, part: nat, n: Node<Content>)
    requires IsRoom(w) && part < PARTS
    ensures MergePart(part, n, Message(w)) == Some(if w.revisions[part] > n.revision then NodeOf(w, part) else n)
  {
    TagsAreFields();
    if part == 0 {
      CoreInMessage(w);
      CoreRead(w.revisions[0], w.core, n.content);
      MergeHigher(0, n, Message(w), CoreAttributes(w.revisions[0], w.core));
    } else {
      PartInMessage(w, part);
      PartRead(part, w.revisions[part], w.parts[part], n.content);
      MergeHigher(part, n, Message(w), TextOf(w, part));
    }
  }

  lemma RoomListRead(id: string, kind: int, rest: string, j: nat)
    requires Writable(id) && j < 2
    ensures GetInfo(Listed(Zip(" ", ROOM_NAMES, [id, Printed(kind)]), rest), ROOM_NAMES[j] + "='", "'") ==
      Some([id, Printed(kind)][j])
  {
    RoomWords();
    PrintedIsWritable(kind);
    AttributesRead(" ", ROOM_NAMES, [id, Printed(kind)], rest, j);
  }

  lemma TagSplits(w: RoomSheet)
    requires IsRoom(w)
    ensures var list := Listed(Zip(" ", ROOM_NAMES, [w.id, Printed(w.kind)]), ">" + (CoreElement(w) + Parts(w, 1)));
      Message(w) == "<game_room" + list && |list| > 0 && list[0] == ' '
  {
    ListedTail(Zip(" ", ROOM_NAMES, [w.id, Printed(w.kind)]), ">" + (CoreElement(w) + Parts(w, 1)));
  }

  lemma BehindName(list: string, pattern: string)
    requires |list| > 0 && list[0] == ' '
    requires |pattern| > 4 && pattern[0] == 'r' && pattern[1] == 'o' && pattern[4] == '_'
    ensures GetInfo("<game_room" + list, pattern, "'") == GetInfo(list, pattern, "'")
  {
    NoPatternInTag(list, pattern);
    InfoBehind("<game_room", list, pattern, "'");
  }

  lemma TagReads(data: string, list: string, id: string, kind: int, first: string, second: string)
    requires data == "<game_room" + list && |list| > 0 && list[0] == ' ' && IsLong(kind)
    requires first == "room_id='" && second == "room_type='"
    requires GetInfo(list, first, "'") == Some(id) && GetInfo(list, second, "'") == Some(Printed(kind))
    ensures GetInfo(data, first, "'") == Some(id) && GetInfoInt(data, second, "'") == kind
  {
    BehindName(list, first);
    BehindName(list, second);
    NumberIs(data, second, kind);
  }

  /** The id and the type of the room in the message. */
  lemma RoomTagRead(w: RoomSheet)
    requires IsRoom(w)
    ensures GetInfo(Message(w), "room_id='", "'") == Some(w.id)
    ensures GetInfoInt(Message(w), "room_type='", "'") == w.kind
  {
    var rest := ">" + (CoreElement(w) + Parts(w, 1));
    RoomListRead(w.id, w.kind, rest, 0);
    RoomListRead(w.id, w.kind, rest, 1);
    RoomPatterns();
    TagSplits(w);
    TagReads(Message(w), Listed(Zip(" ", ROOM_NAMES, [w.id, Printed(w.kind)]), rest), w.id, w.kind,
             "room_id='", "room_type='");
  }

  lemma RoomPatterns()
    ensures ROOM_NAMES[0] + "='" == "room_id='" && ROOM_NAMES[1] + "='" == "room_type='"
  {
  }

  /** The name of the element has no further characters behind "room". */
  lemma NoPatternInTag(list: string, pattern: string)
    requires |list| > 0 && list[0] == ' '
    requires |pattern| > 4 && pattern[0] == 'r' && pattern[1] == 'o' && pattern[4] == '_'
    ensures forall i :: 0 <= i < |"<game_room"| ==> !OccursAt("<game_room" + list, pattern, i)
  {
    var s := "<game_room" + list;
    forall i | 0 <= i < |"<game_room"| ensures !OccursAt(s, pattern, i) {
      if OccursAt(s, pattern, i) {
        CharOf(s, pattern, i, 0);
        CharOf(s, pattern, i, 1);
        CharOf(s, pattern, i, 4);
      }
    }
  }

  /** The parts of a room after the message. */
  function Taken(w: RoomSheet, nodes: Nodes): (r: Nodes)
    requires IsRoom(w)
    ensures forall i :: 0 <= i < PARTS ==> r[i] == if w.revisions[i] > nodes[i].revision then NodeOf(w, i) else nodes[i]
  {
    seq(PARTS, i requires 0 <= i < PARTS => if w.revisions[i] > nodes[i].revision then NodeOf(w, i) else nodes[i])
  }

  lemma MergedAre(nodes: Nodes, data: string, after: Nodes)
    requires forall i :: 0 <= i < PARTS ==> MergePart(i, nodes[i], data) == Some(after[i])
    ensures Survives(nodes, data) && MergeParts(nodes, data) == after
  {
  }

  /**
    A message that says all about a room, read into any room: the id and the type are taken over, every
    part of a higher revision becomes what the message says, and the others stay.
   */
  lemma MessageRead(w: RoomSheet, r: Room)
    requires IsRoom(w)
    ensures ParseRoom(r, Message(w)) == Some(Room(Some(w.id), w.kind % 0x1_0000_0000, Taken(w, r.nodes)))
  {
    var data, after := Message(w), Taken(w, r.nodes);
    forall i | 0 <= i < PARTS ensures MergePart(i, r.nodes[i], data) == Some(after[i]) {
      PartTaken(w, i, r.nodes[i]);
    }
    RoomTagRead(w);
    MergedAre(r.nodes, data, after);
  }

  // ---------------------------------------------------------------------------------------------
  // Attributes in any message
  // ---------------------------------------------------------------------------------------------

  /** Converting a 64-bit number to char, int, unsigned int and unsigned long. */
  lemma StoreIs(z: int)
    ensures -0x80 <= Store(I8, z) < 0x80 && (Store(I8, z) - z) % 0x100 == 0
    ensures -0x8000_0000 <= Store(I32, z) < 0x8000_0000 && (Store(I32, z) - z) % 0x1_0000_0000 == 0
    ensures 0 <= Store(U32, z) < 0x1_0000_0000 && (Store(U32, z) - z) % 0x1_0000_0000 == 0
    ensures 0 <= Store(U64, z) < 0x1_0000_0000_0000_0000 && (Store(U64, z) - z) % 0x1_0000_0000_0000_0000 == 0
  {
  }

  /** The message carries the part with a higher revision. */
  predicate Carries(r: Room, data: string, part: nat, text: string)
  {
    part < PARTS && PartText(FIELDS[part], data) == Some(text) && Revision(text) > r.nodes[part].revision
  }

  /** The first place of an attribute: front lies before it and what follows its value behind. */
  predicate StandsFirst(text: string, front: string, name: string, value: string, behind: string)
  {
    && text == front + ((name + "='") + (value + ("'" + behind))) && '\'' !in value
    && forall i :: 0 <= i < |front| ==> !OccursAt(text, name + "='", i)
  }

  lemma FirstRead(text: string, front: string, name: string, value: string, behind: string)
    requires StandsFirst(text, front, name, value, behind)
    ensures GetInfo(text, name + "='", "'") == Some(value)
  {
    NoStartWithoutFirst(value, "'" + behind, "'");
    GetInfoOf(front, name + "='", value, "'", behind);
  }

  lemma CarriedMerges(r: Room, data: string, part: nat, text: string)
    requires Carries(r, data, part, text) && ParseRoom(r, data).Some?
    ensures ParseRoom(r, data).value.nodes[part].content.ints == Ints(IntFields(part), text)
    ensures part != CORE ==> ParseRoom(r, data).value.nodes[part].content.strs == Strs(StrFields(part), text)
  {
    MergeHigher(part, r.nodes[part], data, text);
    assert MergePart(part, r.nodes[part], data).Some?;
    FilledWith(part, r.nodes[part].content, text);
  }

  lemma FilledWith(part: nat, local: Content, text: string)
    requires Sync(part, local, text).Some?
    ensures Sync(part, local, text).value.ints == Ints(IntFields(part), text)
    ensures part != CORE ==> Sync(part, local, text).value.strs == Strs(StrFields(part), text)
  {
  }

  /** A string of a part whose attribute stands first in the part is held as it stands there. */
  lemma StringHeld(r: Room, data: string, part: nat, text: string, i: nat, front: string, value: string,
    behind: string)
    requires Carries(r, data, part, text) && ParseRoom(r, data).Some? && part != CORE && i < |StrFields(part)|
    requires StandsFirst(text, front, StrFields(part)[i], value, behind)
    ensures var strs := ParseRoom(r, data).value.nodes[part].content.strs;
      |strs| == |StrFields(part)| && strs[i] == Some(value)
  {
    CarriedMerges(r, data, part, text);
    FirstRead(text, front, StrFields(part)[i], value, behind);
  }

  /** A number of a part whose attribute stands first in the part is held in the width of its field. */
  lemma NumberHeld(r: Room, data: string, part: nat, text: string, i: nat, front: string, z: int, behind: string)
    requires Carries(r, data, part, text) && ParseRoom(r, data).Some? && i < |IntFields(part)| && IsLong(z)
    requires StandsFirst(text, front, IntFields(part)[i].name, Printed(z), behind)
    ensures var ints := ParseRoom(r, data).value.nodes[part].content.ints;
      |ints| == |IntFields(part)| && ints[i] == Store(IntFields(part)[i].width, z)
  {
    CarriedMerges(r, data, part, text);
    FirstRead(text, front, IntFields(part)[i].name, Printed(z), behind);
    NumberIs(text, IntFields(part)[i].name + "='", z);
  }

  lemma MissingRead(text: string, open: string)
    requires !Occurs(text, open)
    ensures GetInfo(text, open, "'") == None && GetInfoInt(text, open, "'") == 0
  {
  }

  /** An attribute that is missing leaves no string, also where there was one. */
  lemma StringMissing(r: Room, data: string, part: nat, text: string, i: nat)
    requires Carries(r, data, part, text) && ParseRoom(r, data).Some? && part != CORE && i < |StrFields(part)|
    requires !Occurs(text, StrFields(part)[i] + "='")
    ensures var strs := ParseRoom(r, data).value.nodes[part].content.strs; |strs| > i && strs[i] == None
  {
    CarriedMerges(r, data, part, text);
    MissingRead(text, StrFields(part)[i] + "='");
  }

  lemma IntsAt(fields: seq<IntField>, text: string, i: nat)
    requires i < |fields| && GetInfoInt(text, fields[i].name + "='", "'") == 0
    ensures |Ints(fields, text)| > i && Ints(fields, text)[i] == 0
  {
    var w := fields[i].width;
    assert w == I8 || w == I32 || w == U32 || w == U64;
  }

  /** An attribute that is missing leaves the number 0. */
  lemma NumberMissing(r: Room, data: string, part: nat, text: string, i: nat)
    requires Carries(r, data, part, text) && ParseRoom(r, data).Some? && i < |IntFields(part)|
    requires !Occurs(text, IntFields(part)[i].name + "='")
    ensures var ints := ParseRoom(r, data).value.nodes[part].content.ints; |ints| > i && ints[i] == 0
  {
    CarriedMerges(r, data, part, text);
    MissingRead(text, IntFields(part)[i].name + "='");
    IntsAt(IntFields(part), text, i);
  }

  /** The least number of ready players, where it stands first, is taken for the number of players. */
  lemma MinimumForPlayers(r: Room, data: string, text: string, front: string, z: int, behind: string)
    requires Carries(r, data, CORE, text) && ParseRoom(r, data).Some? && IsLong(z)
    requires StandsFirst(text, front + "min_ready_", "players", Printed(z), behind)
    ensures var ints := ParseRoom(r, data).value.nodes[CORE].content.ints; |ints| == 6 && ints[5] == z % 0x1_0000_0000
  {
    NumberHeld(r, data, CORE, text, 5, front + "min_ready_", z, behind);
  }

  // ---------------------------------------------------------------------------------------------
  // Several messages
  // ---------------------------------------------------------------------------------------------

  ghost predicate AreRooms(ws: seq<RoomSheet>) { forall i :: 0 <= i < |ws| ==> IsRoom(ws[i]) }

  function Messages(ws: seq<RoomSheet>): (r: seq<string>)
    requires AreRooms(ws)
    ensures |r| == |ws| && forall i :: 0 <= i < |ws| ==> r[i] == Message(ws[i])
  {
    seq(|ws|, i requires 0 <= i < |ws| && IsRoom(ws[i]) => Message(ws[i]))
  }

  /** What the sheets say of a part is the same. */
  predicate SamePart(w: RoomSheet, v: RoomSheet, part: nat)
    requires IsRoom(w) && IsRoom(v) && part < PARTS
  {
    if part == 0 then w.core == v.core else w.parts[part] == v.parts[part]
  }

  /** A revision of a part determines what is said of it. */
  ghost predicate OneContent(ws: seq<RoomSheet>, part: nat)
    requires AreRooms(ws) && part < PARTS
  {
    forall i, j :: 0 <= i < |ws| && 0 <= j < |ws| && ws[i].revisions[part] == ws[j].revisions[part] ==>
      SamePart(ws[i], ws[j], part)
  }

  function TextAt(w: RoomSheet, part: nat): string
    requires IsRoom(w) && part < PARTS
  {
    if part == 0 then CoreAttributes(w.revisions[0], w.core) else TextOf(w, part)
  }

  lemma TextAtIs(w: RoomSheet, part: nat)
    requires IsRoom(w) && part < PARTS
    ensures PartText(FIELDS[part], Message(w)) == Some(TextAt(w, part))
    ensures Revision(TextAt(w, part)) == w.revisions[part]
  {
    TagsAreFields();
    if part == 0 {
      CoreInMessage(w);
      CoreRead(w.revisions[0], w.core, BLANK);
    } else {
      PartInMessage(w, part);
      PartRead(part, w.revisions[part], w.parts[part], BLANK);
    }
  }

  lemma SyncAt(w: RoomSheet, part: nat, local: Content)
    requires IsRoom(w) && part < PARTS
    ensures SyncOf(part)(local, TextAt(w, part)) == Some(NodeOf(w, part).content)
  {
    if part == 0 {
      CoreRead(w.revisions[0], w.core, local);
    } else {
      PartRead(part, w.revisions[part], w.parts[part], local);
    }
  }

  lemma CompleteAt(w: RoomSheet, part: nat)
    requires IsRoom(w) && part < PARTS
    ensures Complete(SyncOf(part), BLANK, Some(TextAt(w, part)))
  {
    forall c ensures SyncOf(part)(c, TextAt(w, part)) == Some(NodeOf(w, part).content) {
      SyncAt(w, part, c);
    }
  }

  lemma TextsAt(ws: seq<RoomSheet>, part: nat)
    requires AreRooms(ws) && part < PARTS
    ensures var texts := PartTexts(FIELDS[part], Messages(ws));
      forall i :: 0 <= i < |ws| ==> texts[i] == Some(TextAt(ws[i], part)) && Level(texts[i]) == ws[i].revisions[part]
  {
    forall i | 0 <= i < |ws|
      ensures PartText(FIELDS[part], Message(ws[i])) == Some(TextAt(ws[i], part))
      ensures Revision(TextAt(ws[i], part)) == ws[i].revisions[part]
    {
      TextAtIs(ws[i], part);
    }
  }

  lemma SameSync(w: RoomSheet, v: RoomSheet, part: nat)
    requires IsRoom(w) && IsRoom(v) && part < PARTS && w.revisions[part] == v.revisions[part] && SamePart(w, v, part)
    ensures SyncOf(part)(BLANK, TextAt(w, part)) == SyncOf(part)(BLANK, TextAt(v, part))
  {
    SyncAt(w, part, BLANK);
    SyncAt(v, part, BLANK);
  }

  lemma WrittenComplete(ws: seq<RoomSheet>, part: nat, texts: seq<Option<string>>)
    requires AreRooms(ws) && part < PARTS && |texts| == |ws|
    requires forall i :: 0 <= i < |ws| ==> texts[i] == Some(TextAt(ws[i], part))
    ensures AllComplete(SyncOf(part), BLANK, texts)
  {
    forall t | t in texts ensures Complete(SyncOf(part), BLANK, t) {
      var i :| 0 <= i < |texts| && texts[i] == t;
      CompleteAt(ws[i], part);
    }
  }

  lemma WrittenDetermined(ws: seq<RoomSheet>, part: nat, texts: seq<Option<string>>)
    requires AreRooms(ws) && part < PARTS && |texts| == |ws| && OneContent(ws, part)
    requires forall i :: 0 <= i < |ws| ==>
      texts[i] == Some(TextAt(ws[i], part)) && Level(texts[i]) == ws[i].revisions[part]
    ensures Determined(SyncOf(part), BLANK, texts)
  {
    var sync := SyncOf(part);
    forall t, u | t in texts && u in texts && t.Some? && u.Some? && Level(t) == Level(u) > 0
      ensures sync(BLANK, t.value) == sync(BLANK, u.value)
    {
      var i :| 0 <= i < |texts| && texts[i] == t;
      var j :| 0 <= j < |texts| && texts[j] == u;
      SameSync(ws[i], ws[j], part);
    }
  }

  lemma WrittenConsistent(ws: seq<RoomSheet>, part: nat)
    requires AreRooms(ws) && part < PARTS && OneContent(ws, part)
    ensures Consistent(part, Messages(ws))
  {
    var texts := PartTexts(FIELDS[part], Messages(ws));
    TextsAt(ws, part);
    WrittenComplete(ws, part, texts);
    WrittenDetermined(ws, part, texts);
  }

  lemma MembersFollow<T>(ws: seq<T>, vs: seq<T>, a: seq<string>, b: seq<string>)
    requires |a| == |ws| && |b| == |vs| && forall w :: w in ws ==> w in vs
    requires forall i, j :: 0 <= i < |ws| && 0 <= j < |vs| && ws[i] == vs[j] ==> a[i] == b[j]
    ensures forall m :: m in a ==> m in b
  {
    forall m | m in a ensures m in b {
      var i :| 0 <= i < |a| && a[i] == m;
      assert ws[i] in vs;
      var j :| 0 <= j < |vs| && vs[j] == ws[i];
      assert b[j] == m;
    }
  }

  lemma MessagesHave(ws: seq<RoomSheet>, vs: seq<RoomSheet>)
    requires AreRooms(ws) && AreRooms(vs) && forall w :: w in ws ==> w in vs
    ensures forall m :: m in Messages(ws) ==> m in Messages(vs)
  {
    var a, b := Messages(ws), Messages(vs);
    forall i, j | 0 <= i < |ws| && 0 <= j < |vs| && ws[i] == vs[j] ensures a[i] == b[j] {
      assert a[i] == Message(ws[i]) == Message(vs[j]);
    }
    MembersFollow(ws, vs, a, b);
  }

  /** The sheet at k has the highest revision of the part, also above that of the room. */
  ghost predicate IsNewest(ws: seq<RoomSheet>, part: nat, k: nat, start: nat)
    requires AreRooms(ws) && part < PARTS
  {
    && k < |ws| && ws[k].revisions[part] > start
    && forall i :: 0 <= i < |ws| ==> ws[i].revisions[part] <= ws[k].revisions[part]
  }

  lemma NewestIsHighest(ws: seq<RoomSheet>, part: nat, k: nat, start: nat, texts: seq<Option<string>>)
    requires AreRooms(ws) && part < PARTS && IsNewest(ws, part, k, start) && |texts| == |ws|
    requires forall i :: 0 <= i < |ws| ==> Level(texts[i]) == ws[i].revisions[part]
    ensures Highest(start, texts) == ws[k].revisions[part]
  {
    HighestIs(start, texts, k);
  }

  /**
    Of messages that write out rooms, a part ends as the one with its highest revision says, if a revision
    of the part determines what is said of it.
   */
  lemma NewestStays(r: Room, ws: seq<RoomSheet>, part: nat, k: nat)
    requires AreRooms(ws) && part < PARTS && OneContent(ws, part) && ParseAll(r, Messages(ws)).Some?
    requires IsNewest(ws, part, k, r.nodes[part].revision)
    ensures ParseAll(r, Messages(ws)).value.nodes[part] == NodeOf(ws[k], part)
  {
    var texts, n := PartTexts(FIELDS[part], Messages(ws)), r.nodes[part];
    WrittenConsistent(ws, part);
    TextsAt(ws, part);
    NewestIsHighest(ws, part, k, n.revision, texts);
    MergeContent(SyncOf(part), BLANK, n, texts, texts[k]);
    SyncAt(ws[k], part, BLANK);
    PartAlone(r, Messages(ws), part);
  }

  /**
    Messages that write out the same rooms, in any order and with any repetition, are survived and leave
    every part the same, if a revision of a part determines what is said of it.
   */
  lemma WrittenConverges(r: Room, ws: seq<RoomSheet>, vs: seq<RoomSheet>)
    requires AreRooms(ws) && AreRooms(vs) && forall w :: w in ws <==> w in vs
    requires forall part: nat :: part < PARTS ==> OneContent(ws, part)
    ensures ParseAll(r, Messages(ws)).Some? && ParseAll(r, Messages(vs)).Some?
    ensures ParseAll(r, Messages(ws)).value.nodes == ParseAll(r, Messages(vs)).value.nodes
  {
    forall part: nat | part < PARTS ensures Consistent(part, Messages(ws)) {
      WrittenConsistent(ws, part);
    }
    MessagesHave(ws, vs);
    MessagesHave(vs, ws);
    RoomConverges(r, Messages(ws), Messages(vs));
  }
}
