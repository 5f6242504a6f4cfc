/**
  Answers after which the copy in memory and the one in the file disagree: a download, broken off by an
  answer that does not come, is started again while its file is still open.
 */
module QueryCacheSamples {
  import opened CStrings
  import opened QueryCache

  const SAMPLE_NODE: string := "<e/>"

  const CODE: string := "code='"
  const FROM: string := "from='"
  const TO: string := "to='"
  const HASH: string := "hash='"

  /** An attribute with a number, behind a lead and in front of the rest. */
  function Numbered(lead: string, open: string, n: nat, rest: string): string
  {
    lead + (open + (Dec(n) + ("'" + rest)))
  }

  /** A lead with one attribute more. */
  function Longer(lead: string, open: string, n: nat): string { lead + open + Dec(n) + "'" + " " }

  lemma Grows(lead: string, open: string, n: nat, rest: string)
    ensures Numbered(lead, open, n, " " + rest) == Longer(lead, open, n) + rest
  {
    Regroups(lead, open, Dec(n), "'", " ", rest);
  }

  lemma Regroups(a: string, b: string, c: string, d: string, e: string, f: string)
    ensures a + (b + (c + (d + (e + f)))) == a + b + c + d + e + f
  {
  }

  function AfterHash(n: nat): string { Dec(n) + ("'" + (">" + (SAMPLE_NODE + "</q>"))) }

  function AfterTo(n: nat): string { Dec(9) + ("'" + (" " + (HASH + AfterHash(n)))) }

  function AfterFrom(n: nat): string { Dec(0) + ("'" + (" " + (TO + AfterTo(n)))) }

  /** An answer with one element, of a chunk that starts at 0, with the number n for a hash. */
  function SampleAnswer(code: nat, n: nat): string
  {
    Numbered("<q ", CODE, code, " " + (FROM + AfterFrom(n)))
  }

  function Lead1(code: nat): string { Longer("<q ", CODE, code) }

  function Lead2(code: nat): string { Longer(Lead1(code), FROM, 0) }

  function Lead3(code: nat): string { Longer(Lead2(code), TO, 9) }

  lemma SampleIsElement()
    ensures IsElement(SAMPLE_NODE, "q")
  {
    FirstIs(SAMPLE_NODE, '>', 3);
    assert ">" == ['>'];
    SingleNode(SAMPLE_NODE, 3);
  }

  /** A printed number contains no letter, no bracket and no quote. */
  lemma DecPlain(n: nat, c: char)
    requires !IsDigit(c)
    ensures c !in Dec(n)
  {
  }

  lemma SampleSplits(code: nat, n: nat)
    ensures SampleAnswer(code, n) == Numbered(Lead1(code), FROM, 0, " " + (TO + AfterTo(n)))
    ensures SampleAnswer(code, n) == Numbered(Lead2(code), TO, 9, " " + (HASH + AfterHash(n)))
    ensures SampleAnswer(code, n) == Lead3(code) + (HASH + AfterHash(n))
  {
    Grows("<q ", CODE, code, FROM + AfterFrom(n));
    Grows(Lead1(code), FROM, 0, TO + AfterTo(n));
    Grows(Lead2(code), TO, 9, HASH + AfterHash(n));
  }

  lemma LongerLacks(lead: string, open: string, n: nat, c: char)
    requires c !in lead && c !in open && !IsDigit(c) && c != '\'' && c != ' '
    ensures c !in Longer(lead, open, n)
  {
    DecPlain(n, c);
  }

  lemma LeadsLack(code: nat)
    ensures 'f' !in Lead1(code) && 't' !in Lead2(code) && 'h' !in Lead3(code)
  {
    LongerLacks("<q ", CODE, code, 'f');
    LongerLacks("<q ", CODE, code, 't');
    LongerLacks(Lead1(code), FROM, 0, 't');
    LongerLacks("<q ", CODE, code, 'h');
    LongerLacks(Lead1(code), FROM, 0, 'h');
    LongerLacks(Lead2(code), TO, 9, 'h');
  }

  lemma NumberReads(d: string, lead: string, open: string, n: nat, rest: string)
    requires d == Numbered(lead, open, n, rest) && open != "" && open[0] !in lead && n <= 9
    ensures GetInfoInt(d, open, "'") == n
  {
    IntBehind(lead, open, n, rest);
  }

  lemma FitsInt(x: int)
    requires 0 <= x <= 9
    ensures ToInt32(x) == x
  {
  }

  lemma SampleNumbers(code: nat, n: nat)
    requires code < 10
    ensures var d := SampleAnswer(code, n); CodeOf(d) == code && FromOf(d) == 0 && ToOf(d) == 9
  {
    var d := SampleAnswer(code, n);
    SampleSplits(code, n);
    LeadsLack(code);
    assert CODE[0] == 'c' && FROM[0] == 'f' && TO[0] == 't';
    NumberReads(d, "<q ", CODE, code, " " + (FROM + AfterFrom(n)));
    NumberReads(d, Lead1(code), FROM, 0, " " + (TO + AfterTo(n)));
    NumberReads(d, Lead2(code), TO, 9, " " + (HASH + AfterHash(n)));
    FitsInt(code);
    FitsInt(0);
    FitsInt(9);
  }

  lemma HashFound(lead: string, h: string, rest: string)
    requires 'h' !in lead && '\'' !in h
    ensures HashOf(lead + (HASH + (h + ("'" + rest)))) == Some(h)
  {
    assert HASH[0] == 'h';
    NoStartWithoutFirst(lead, HASH + (h + ("'" + rest)), HASH);
    NoStartWithoutFirst(h, "'" + rest, "'");
    GetInfoOf(lead, HASH, h, "'", rest);
  }

  lemma SampleHash(code: nat, n: nat)
    ensures HashOf(SampleAnswer(code, n)) == Some(Dec(n))
  {
    SampleSplits(code, n);
    LeadsLack(code);
    DecPlain(n, '\'');
    HashFound(Lead3(code), Dec(n), ">" + (SAMPLE_NODE + "</q>"));
  }

  /** The answer without its opening bracket: a gap, the element, and the end tag. */
  function SampleGap(code: nat, n: nat): string
  {
    Longer(Longer(Longer("q ", CODE, code), FROM, 0), TO, 9) + HASH + Dec(n) + "'" + ">"
  }

  lemma LongerShift(a: string, lead: string, open: string, n: nat)
    ensures Longer(a + lead, open, n) == a + Longer(lead, open, n)
  {
    Shift5(a, lead, open, Dec(n), "'", " ");
  }

  lemma Shift5(a: string, b: string, c: string, d: string, e: string, f: string)
    ensures a + b + c + d + e + f == a + (b + c + d + e + f)
  {
  }

  lemma SampleBehindBracket(code: nat, n: nat)
    ensures SampleAnswer(code, n) == "<" + (SampleGap(code, n) + (SAMPLE_NODE + "</q>"))
  {
    SampleSplits(code, n);
    var l1, l2 := Longer("q ", CODE, code), Longer(Longer("q ", CODE, code), FROM, 0);
    assert "<q " == "<" + "q ";
    LongerShift("<", "q ", CODE, code);
    LongerShift("<", l1, FROM, 0);
    LongerShift("<", l2, TO, 9);
    var l3, e := Longer(l2, TO, 9), SAMPLE_NODE + "</q>";
    Regroups(l3, HASH, Dec(n), "'", ">", e);
    Associates("<", l3, HASH + AfterHash(n));
  }

  lemma SampleGapPlain(code: nat, n: nat)
    ensures '<' !in SampleGap(code, n)
  {
    LongerLacks("q ", CODE, code, '<');
    LongerLacks(Longer("q ", CODE, code), FROM, 0, '<');
    LongerLacks(Longer(Longer("q ", CODE, code), FROM, 0), TO, 9, '<');
    DecPlain(n, '<');
  }

  lemma SampleSkips(code: nat, n: nat)
    ensures SkipStart(SampleAnswer(code, n), "q") == SampleGap(code, n) + (SAMPLE_NODE + "</q>")
  {
    var d := SampleAnswer(code, n);
    assert StartTag("q") == "<q ";
    AtFront(d, "<q ", CODE + (Dec(code) + ("'" + (" " + (FROM + AfterFrom(n))))));
    SampleBehindBracket(code, n);
    SkipsOne(d, "q", SampleGap(code, n) + (SAMPLE_NODE + "</q>"));
  }

  lemma AtFront(s: string, p: string, rest: string)
    requires s == p + rest
    ensures Strstr(s, p) == Some(0)
  {
    assert s[0..|p|] == p;
    StrstrIs(s, p, 0);
  }

  lemma SkipsOne(s: string, q: string, rest: string)
    requires s == "<" + rest && Strstr(s, StartTag(q)) == Some(0)
    ensures SkipStart(s, q) == rest
  {
    assert s[1..] == rest;
  }

  /** The one element of the answer is cut. */
  lemma SampleCuts(code: nat, n: nat)
    ensures Cut(SkipStart(SampleAnswer(code, n), "q"), "q", 0, 9, true) == Parsed([SAMPLE_NODE], true)
  {
    var items := [Item(SAMPLE_NODE, "")];
    SampleIsElement();
    SampleGapPlain(code, n);
    SampleSkips(code, n);
    CutItems(SampleGap(code, n), items, "q", "", 0, 9, true);
    SampleBody();
    assert Taken(items, 0, 9, true) == [SAMPLE_NODE];
  }

  lemma SampleBody()
    ensures Body([Item(SAMPLE_NODE, "")], "q", "") == SAMPLE_NODE + "</q>"
  {
    var items := [Item(SAMPLE_NODE, "")];
    assert items[1..] == [];
    assert Body([], "q", "") == "</q>";
    assert "" + "</q>" == "</q>";
  }

  lemma SampleChunk(c: Config, code: nat, n: nat)
    requires c.q == "q" && c.caching && code < 10
    ensures ChunkOf(c, SampleAnswer(code, n)) == Chunk(code, 0, 9, Some(Dec(n)), Parsed([SAMPLE_NODE], true))
  {
    SampleNumbers(code, n);
    SampleHash(code, n);
    SampleCuts(code, n);
  }

  lemma PairNodes(k: Chunk, m: Chunk)
    ensures AllNodes([k, m]) == k.parsed.nodes + m.parsed.nodes
  {
    assert [k, m][1..] == [m] && [m][1..] == [];
    assert AllNodes([m]) == m.parsed.nodes;
  }

  lemma PairKept(k: Chunk, m: Chunk)
    ensures KeptNodes([], [k, m]) == After(After([], k), m)
  {
    assert [k, m][1..] == [m] && [m][1..] == [];
    assert KeptNodes(After([], k), [m]) == KeptNodes(After(After([], k), m), []);
  }

  lemma NoFault(c: Config, s: Cache, h: Heard, g: Heard)
    requires h.k.parsed.ok && g.k.parsed.ok
    ensures Hear(c, s, [h, g]).1
  {
    assert [h, g][1..] == [g] && [g][1..] == [];
    assert Hear(c, OnChunk(c, s, h.k, h.opens).0, [g]).1;
  }

  /** The chunk an answer of the sample holds. */
  function SampleChunkOf(code: nat, hash: string): Chunk
  {
    Chunk(code, 0, 9, Some(hash), Parsed([SAMPLE_NODE], true))
  }

  /** An answer, one that does not come, and another one. */
  function Replies(a: string, b: string): seq<Reply>
  {
    [Reply(Some(a), true), Reply(None, true), Reply(Some(b), true)]
  }

  lemma HeardOfReplies(c: Config, a: string, b: string)
    requires TakenUp(ChunkOf(c, a)) && TakenUp(ChunkOf(c, b))
    ensures HeardIn(c, Replies(a, b)) == [Heard(ChunkOf(c, a), true), Heard(ChunkOf(c, b), true)]
  {
    var rs := Replies(a, b);
    assert rs[1..][1..] == [rs[2]] && [rs[2]][1..] == [];
    assert HeardIn(c, [rs[2]]) == [Heard(ChunkOf(c, b), true)] + [];
    assert HeardIn(c, rs[1..]) == HeardIn(c, [rs[2]]);
  }

  lemma OneAndTwo()
    ensures Dec(1) == "1" && Dec(2) == "2"
  {
  }

  lemma SampleHeard(c: Config)
    requires c.q == "q" && c.caching
    ensures HeardIn(c, Replies(SampleAnswer(CHUNK_MORE, 1), SampleAnswer(CHUNK_END, 2))) ==
            [Heard(SampleChunkOf(CHUNK_MORE, "1"), true), Heard(SampleChunkOf(CHUNK_END, "2"), true)]
  {
    SampleChunk(c, CHUNK_MORE, 1);
    SampleChunk(c, CHUNK_END, 2);
    OneAndTwo();
    HeardOfReplies(c, SampleAnswer(CHUNK_MORE, 1), SampleAnswer(CHUNK_END, 2));
  }

  lemma PairEnds(c: Config, replies: seq<Reply>, k: Chunk, m: Chunk)
    requires HeardIn(c, replies) == [Heard(k, true), Heard(m, true)] && k.from == 0
    requires k.code == CHUNK_MORE && m.code == CHUNK_END
    ensures FilesOf(c, replies) == Files(None, Some([k, m]), true)
  {
    PairToEnd(Heard(k, true), Heard(m, true));
    DownloadEnds(c, replies);
  }

  lemma PairToEnd(h: Heard, g: Heard)
    requires h.k.code == CHUNK_MORE && g.k.code == CHUNK_END
    ensures Chunks([h, g]) == [h.k, g.k] && MoreThenEnd([h.k, g.k])
  {
  }

  /** What two chunks that both start at 0 leave in memory and on the disk. */
  lemma PairRuns(c: Config, s: Cache, replies: seq<Reply>, k: Chunk, m: Chunk, later: Cache)
    requires c.caching && c.hasReset && PlainName(c.q) && s.file.None? && k.from == 0 && m.from == 0
    requires HeardIn(c, replies) == [Heard(k, true), Heard(m, true)]
    requires k.code == CHUNK_MORE && m.code == CHUNK_END && k.parsed.ok && m.parsed.ok
    requires k.hash.Some? && PlainText(k.hash.value)
    requires later.disk == Session(c, s, replies).0.disk
    ensures var memory, loaded := Session(c, s, replies).0, DoLoad(c, later).0;
      && Session(c, s, replies).1
      && memory.container == m.parsed.nodes && memory.hash == m.hash
      && loaded.container == k.parsed.nodes + m.parsed.nodes && loaded.hash == k.hash
      && later.disk == Some(FileText(c.q, 0, k.to, k.hash, k.parsed.nodes + m.parsed.nodes))
  {
    SessionIsHeard(c, s, replies);
    NoFault(c, s, Heard(k, true), Heard(m, true));
    PairEnds(c, replies, k, m);
    SessionFollows(c, s, replies);
    CacheRoundTrip(c, s, replies, later);
    PairNodes(k, m);
    PairKept(k, m);
    assert [] + m.parsed.nodes == m.parsed.nodes;
  }

  lemma HashText()
    ensures HashAttr(Some("1")) == "hash='1'"
  {
  }

  lemma RangeText()
    ensures Range(0, 9) == "from='0' to='9' "
  {
    assert Dec(0) == "0" && Dec(9) == "9";
  }

  lemma LinesText()
    ensures Lines([SAMPLE_NODE] + [SAMPLE_NODE]) == " <e/>\n <e/>\n"
  {
    var two := [SAMPLE_NODE] + [SAMPLE_NODE];
    assert two[1..] == [SAMPLE_NODE] && [SAMPLE_NODE][1..] == [];
    assert Lines([SAMPLE_NODE]) == " <e/>\n" + "";
  }

  /** The file of the sample, character by character. */
  lemma FileIs()
    ensures FileText("q", 0, 9, Some("1"), [SAMPLE_NODE] + [SAMPLE_NODE]) ==
            "<q " + "from='0' to='9' " + "hash='1'" + ">\n" + " <e/>\n <e/>\n" + "</q>\n"
  {
    HashText();
    RangeText();
    LinesText();
    assert StartTag("q") == "<q " && Footer("q") == "</q>\n";
  }

  lemma SampleHashIsPlain()
    ensures PlainText("1") && PlainName("q")
  {
  }

  /**
    A download whose two copies disagree: the answer to its second request does not come, and the next
    download starts at 0 with another hash. The parser keeps one element and the program the second hash;
    the file, still open, gets both elements under the first hash.
   */
  lemma CopiesDisagree(c: Config, s: Cache, replies: seq<Reply>, later: Cache)
    requires c.q == "q" && c.caching && c.hasReset && s.file.None?
    requires replies == Replies(SampleAnswer(CHUNK_MORE, 1), SampleAnswer(CHUNK_END, 2))
    requires later.disk == Session(c, s, replies).0.disk
    ensures var memory, loaded := Session(c, s, replies).0, DoLoad(c, later).0;
      && Session(c, s, replies).1
      && memory.container == [SAMPLE_NODE] && memory.hash == Some("2")
      && loaded.container == [SAMPLE_NODE] + [SAMPLE_NODE] && loaded.hash == Some("1")
      && later.disk == Some("<q " + "from='0' to='9' " + "hash='1'" + ">\n" + " <e/>\n <e/>\n" + "</q>\n")
  {
    SampleHeard(c);
    SampleHashIsPlain();
    FileIs();
    PairRuns(c, s, replies, SampleChunkOf(CHUNK_MORE, "1"), SampleChunkOf(CHUNK_END, "2"), later);
  }
}
