/**
  Messages that query compression changes: a result that hides its error, and a query whose name is lost.
 */
module WfQuerySamples {
  import opened CStrings
  import opened WfQuery

  /* ---- a message that compression changes ---- */

  const SAMPLE_TYPE: string := "iq type='result'"
  const SAMPLE_QUERY: string := "<query xmlns"

  /** The prologue of the sample, up to its namespace. */
  function SamplePrologue(): string { SAMPLE_TYPE + ">" + SAMPLE_QUERY + "='" }

  function Fill(n: nat): (s: string)
    ensures |s| == n && forall i :: 0 <= i < n ==> s[i] == 'x'
  {
    seq(n, i => 'x')
  }

  const SAMPLE_ERROR: string := "><error>"

  /** A long query that shows an error element inside its content. */
  function SampleQuery(name: string): string { "<" + name + SAMPLE_ERROR + Fill(511) + ['x'] }

  /** A result iq around that query. */
  function Sample(name: string): string
  {
    "<" + (SamplePrologue() + (NS + (SampleQuery(name) + (END_QUERY + ("" + (END_IQ + ""))))))
  }

  /** A tag name without a slash, a bracket or a blank. */
  predicate SampleName(name: string)
  {
    name != "" && IsCString(name) && '<' !in name && '/' !in name && '>' !in name && ' ' !in name
  }

  lemma LacksSlash(name: string)
    requires SampleName(name)
    ensures !Occurs(SampleStem(name), END_QUERY) && !Occurs("<" + name + SAMPLE_ERROR + Fill(511), END_QUERY)
  {
    assert '/' in END_QUERY by {
      assert END_QUERY[1] == '/';
    }
    Absent("<" + name + SAMPLE_ERROR + Fill(511), END_QUERY, '/');
    assert '/' !in NS && '/' !in SAMPLE_TYPE && '/' !in SAMPLE_QUERY;
    Absent(SampleStem(name), END_QUERY, '/');
  }

  /** Everything before the last character of the query. */
  function SampleStem(name: string): string
  {
    "<" + SamplePrologue() + NS + ("<" + name + SAMPLE_ERROR + Fill(511))
  }

  lemma SampleGroups(name: string, close: string)
    ensures "<" + (SamplePrologue() + (NS + (SampleQuery(name) + close))) == SampleStem(name) + ['x'] + close
  {
  }

  /** The search for the end of the query. */
  lemma SampleContent(name: string)
    requires SampleName(name)
    ensures forall i :: 0 <= i < |SampleQuery(name)| ==>
              !OccursAt(SampleQuery(name) + (END_QUERY + ("" + (END_IQ + ""))), END_QUERY, i)
    ensures forall i :: 0 <= i < |SampleStem(name)| + 1 ==> !OccursAt(Sample(name), END_QUERY, i)
  {
    LacksSlash(name);
    var close := END_QUERY + ("" + (END_IQ + ""));
    assert 'x' !in END_QUERY;
    NoStartAcross("<" + name + SAMPLE_ERROR + Fill(511), 'x', close, END_QUERY);
    NoStartAcross(SampleStem(name), 'x', close, END_QUERY);
    SampleGroups(name, close);
  }

  lemma NoNamespaceInFront(rest: string)
    ensures var front := "<" + SAMPLE_TYPE + ">" + SAMPLE_QUERY;
      forall i :: 0 <= i < |front| + 1 ==> !OccursAt(front + ['='] + rest, NS, i)
  {
    var front := "<" + SAMPLE_TYPE + ">" + SAMPLE_QUERY;
    assert NS[3] == ':' && '=' !in NS;
    assert ':' !in SAMPLE_TYPE && ':' !in SAMPLE_QUERY;
    Absent(front, NS, ':');
    NoStartAcross(front, '=', rest, NS);
  }

  /** The search for the namespace. */
  lemma SampleNamespace(rest: string)
    ensures forall i :: 0 <= i < 1 + |SamplePrologue()| ==>
              !OccursAt("<" + SamplePrologue() + (NS + rest), NS, i)
  {
    var front := "<" + SAMPLE_TYPE + ">" + SAMPLE_QUERY;
    NoNamespaceInFront("'" + (NS + rest));
    var s := "<" + SamplePrologue() + (NS + rest);
    assert s == front + ['='] + ("'" + (NS + rest));
    assert s[|front| + 1] == '\'' && NS[0] == 'u';
  }

  lemma NoStartBehind(a: string, b: string, p: string, n: nat)
    requires forall i :: 0 <= i < |a| + n ==> !OccursAt(a + b, p, i)
    ensures forall i :: 0 <= i < n ==> !OccursAt(b, p, i)
  {
    forall i | 0 <= i < n ensures !OccursAt(b, p, i) {
      OccursShift(a, b, p, i);
    }
  }

  /** What the tag readers find in the sample. */
  lemma SampleParts(name: string)
    requires SampleName(name)
    ensures GetInfo(Sample(name), "<", NS) == Some(SamplePrologue())
    ensures GetInfo(Sample(name), NS, END_QUERY) == Some(SampleQuery(name))
    ensures GetInfo(Sample(name), END_QUERY, END_IQ) == Some("")
  {
    var close := END_QUERY + ("" + (END_IQ + ""));
    var behind := SampleQuery(name) + close;
    SampleContent(name);
    SampleNamespace(behind);
    Associates("<", SamplePrologue(), NS + behind);
    NoStartBehind("<", SamplePrologue() + (NS + behind), NS, |SamplePrologue()|);
    GetInfoOf("", "<", SamplePrologue(), NS, behind);
    assert "" + Sample(name) == Sample(name);
    GetInfoOf("<" + SamplePrologue(), NS, SampleQuery(name), END_QUERY, "" + (END_IQ + ""));
    SampleGroups(name, close);
    GetInfoOf(SampleStem(name) + ['x'], END_QUERY, "", END_IQ, "");
  }

  const SINGLE_TAG: string := "/></query>"

  lemma NoSingleTagAtEnd()
    ensures !Occurs(END_QUERY + ("" + (END_IQ + "")), SINGLE_TAG)
  {
    assert END_QUERY + ("" + (END_IQ + "")) == "</query></" + ['i'] + "q>";
    assert SINGLE_TAG[0] == '/' && '/' !in "q>";
    Absent("q>", SINGLE_TAG, '/');
    var front := "</query></";
    forall i ensures !OccursAt(front, SINGLE_TAG, i) {
      assert front[0..10][0] == '<';
    }
    OccursAround(front, 'i', "q>", SINGLE_TAG);
  }

  lemma NoSingleTag(name: string)
    requires SampleName(name)
    ensures !Occurs(Sample(name), SINGLE_TAG)
  {
    var close := END_QUERY + ("" + (END_IQ + ""));
    assert SINGLE_TAG[0] == '/' && 'x' !in SINGLE_TAG;
    assert '/' !in NS && '/' !in SAMPLE_TYPE && '/' !in SAMPLE_QUERY;
    Absent(SampleStem(name), SINGLE_TAG, '/');
    NoSingleTagAtEnd();
    OccursAround(SampleStem(name), 'x', close, SINGLE_TAG);
    SampleGroups(name, close);
  }

  lemma StopsOfName(name: string, rest: string)
    requires SampleName(name)
    ensures Span(name + ['>'] + rest, " />") == |name|
  {
    assert " />" == [' ', '/', '>'];
    SpanOf(name, '>', rest, " />");
  }

  lemma SampleFirstTag(name: string, rest: string)
    requires SampleName(name)
    ensures GetInfoFirst("<" + (name + (['>'] + rest)), "<", " />") == Some(name)
  {
    var t := name + (['>'] + rest);
    Associates(name, ['>'], rest);
    StopsOfName(name, rest);
    SpanOf("", '<', t, "<");
    assert "<" + t == "" + ['<'] + t && "<" == ['<'];
    GetInfoFirstAt("<" + t, '<', " />", 0, t);
    assert t[..|name|] == name;
  }

  lemma SampleArgs(name: string, rest: string)
    requires SampleName(name)
    ensures GetInfoFirst("<" + (name + (['>'] + rest)), name, ">") == Some("")
  {
    assert name[0] in name;
    FoundBehind("<", name, ['>'] + rest);
    DropFront("<", name, ['>'] + rest);
    assert Span(['>'] + rest, ">") == 0;
  }

  /** The name and the arguments of the first tag of the query. */
  lemma SampleTag(name: string)
    requires SampleName(name)
    ensures GetInfoFirst(SampleQuery(name), "<", " />") == Some(name)
    ensures GetInfoFirst(SampleQuery(name), name, ">") == Some("")
  {
    var rest := "<error>" + Fill(511) + ['x'];
    assert SampleQuery(name) == "<" + (name + (['>'] + rest));
    SampleFirstTag(name, rest);
    SampleArgs(name, rest);
  }

  function SamplePlan(name: string): Parts { Parts(SamplePrologue(), name, SampleQuery(name), "", "") }

  /** The sample is compressed. */
  lemma SampleIsPlanned(name: string)
    requires SampleName(name) && name != "data"
    ensures Plan(Sample(name)) == Some(SamplePlan(name))
  {
    SampleParts(name);
    NoSingleTag(name);
    SampleTag(name);
  }

  /* ---- the error element of the sample ---- */

  /** Every opening bracket is followed by another character than 'e'. */
  predicate NoErrorStart(s: string)
  {
    forall i :: 0 <= i < |s| && s[i] == '<' ==> i + 1 < |s| && s[i + 1] != 'e'
  }

  lemma NoErrorStarts(s: string)
    requires NoErrorStart(s)
    ensures !Occurs(s, ERROR_TAG)
  {
    forall i ensures !OccursAt(s, ERROR_TAG, i) {
      if OccursAt(s, ERROR_TAG, i) {
        CharOf(s, ERROR_TAG, i, 0);
        CharOf(s, ERROR_TAG, i, 1);
      }
    }
  }

  lemma NoErrorJoined(a: string, b: string)
    requires NoErrorStart(a) && NoErrorStart(b)
    ensures NoErrorStart(a + b)
  {
    forall i | 0 <= i < |a + b| && (a + b)[i] == '<' ensures i + 1 < |a + b| && (a + b)[i + 1] != 'e' {
      if i < |a| {
        assert a[i] == '<';
      } else {
        assert b[i - |a|] == '<';
      }
    }
  }

  lemma SampleHeadSplits(name: string)
    ensures Head(SamplePlan(name)) ==
      "<" + SAMPLE_TYPE + ">" + SAMPLE_QUERY + "='" + NS + OPEN_DATA + (" " + NAME + name + "'")
  {
    assert "<" + SamplePrologue() == "<" + SAMPLE_TYPE + ">" + SAMPLE_QUERY + "='";
  }

  lemma NoErrorPieces()
    ensures NoErrorStart("<" + SAMPLE_TYPE + ">") && NoErrorStart(SAMPLE_QUERY) && NoErrorStart("='")
    ensures NoErrorStart(NS) && NoErrorStart(OPEN_DATA) && '<' !in NAME
  {
    assert '<' !in SAMPLE_TYPE;
  }

  /** Outside its content the packed sample shows no error element. */
  lemma HeadShowsNoError(name: string)
    requires SampleName(name)
    ensures !Occurs(Head(SamplePlan(name)), ERROR_TAG)
  {
    var tag, data := "<" + SAMPLE_TYPE + ">", " " + NAME + name + "'";
    NoErrorPieces();
    assert NoErrorStart(data);
    NoErrorJoined(tag, SAMPLE_QUERY);
    NoErrorJoined(tag + SAMPLE_QUERY, "='");
    NoErrorJoined(tag + SAMPLE_QUERY + "='", NS);
    NoErrorJoined(tag + SAMPLE_QUERY + "='" + NS, OPEN_DATA);
    NoErrorJoined(tag + SAMPLE_QUERY + "='" + NS + OPEN_DATA, data);
    SampleHeadSplits(name);
    NoErrorStarts(Head(SamplePlan(name)));
  }

  lemma TailShowsNoError(name: string)
    ensures !Occurs(After(SamplePlan(name)), ERROR_TAG)
  {
    NoErrorJoined("'  />", END_QUERY);
    NoErrorJoined("'  />" + END_QUERY, END_IQ);
    assert After(SamplePlan(name)) == "'  />" + END_QUERY + END_IQ;
    NoErrorStarts(After(SamplePlan(name)));
  }

  lemma ShowsAt(front: string, p: string, rest: string)
    ensures Occurs(front + (p + rest), p)
  {
    var s := front + (p + rest);
    assert s[|front|..|front| + |p|] == p;
    assert OccursAt(s, p, |front|);
  }

  lemma ErrorInQuery(name: string)
    ensures SampleQuery(name) == "<" + name + ">" + (ERROR_TAG + (">" + Fill(511) + ['x']))
  {
    assert SAMPLE_ERROR == ">" + (ERROR_TAG + ">");
  }

  lemma SampleShowsError(name: string)
    ensures Occurs(Sample(name), ERROR_TAG)
  {
    var front, inner := "<" + SamplePrologue() + NS, "<" + name + ">";
    var rest, close := ">" + Fill(511) + ['x'], END_QUERY + ("" + (END_IQ + ""));
    ErrorInQuery(name);
    Joined("<", SamplePrologue(), NS, inner, ERROR_TAG, rest, close);
    ShowsAt(front + inner, ERROR_TAG, rest + close);
  }

  lemma Joined(a: string, b: string, c: string, d: string, e: string, f: string, g: string)
    ensures a + (b + (c + ((d + (e + f)) + g))) == (a + b + c + d) + (e + (f + g))
  {
  }

  lemma SampleTagSplits(name: string) returns (rest: string)
    ensures Sample(name) == "" + ("<" + (SAMPLE_TYPE + (">" + rest)))
  {
    rest := SAMPLE_QUERY + "='" + (NS + (SampleQuery(name) + (END_QUERY + ("" + (END_IQ + "")))));
  }

  /** The sample says that it is a result. */
  lemma SampleIsResult(name: string)
    ensures TypeAttribute(Sample(name)) == Some("result")
  {
    var rest := SampleTagSplits(name);
    assert '>' !in SAMPLE_TYPE;
    NoStartWithoutFirst(SAMPLE_TYPE, ">" + rest, ">");
    GetInfoOf("", "<", SAMPLE_TYPE, ">", rest);
    TypeOfTag();
  }

  lemma TypeText()
    ensures SAMPLE_TYPE == "iq " + ("type='" + ("result" + ("'" + "")))
    ensures "type='"[0] == 't' && 't' !in "iq " && '\'' !in "result"
  {
  }

  lemma TypeOfTag()
    ensures GetInfo(SAMPLE_TYPE, "type='", "'") == Some("result")
  {
    TypeText();
    NoStartWithoutFirst("iq ", "type='" + ("result" + ("'" + "")), "type='");
    NoStartWithoutFirst("result", "'" + "", "'");
    GetInfoOf("iq ", "type='", "result", "'", "");
  }

  lemma SamplePieces()
    ensures IsCString(SAMPLE_TYPE) && IsCString(SAMPLE_QUERY) && IsCString(NS)
    ensures IsCString(SAMPLE_ERROR) && IsCString(END_QUERY) && IsCString(END_IQ)
  {
  }

  lemma SampleIsCString(name: string)
    requires SampleName(name)
    ensures IsCString(Sample(name))
  {
    SamplePieces();
    assert IsCString("<" + SamplePrologue());
    assert IsCString(SampleQuery(name));
    assert IsCString(END_QUERY + ("" + (END_IQ + "")));
    CStringJoined(SampleQuery(name), END_QUERY + ("" + (END_IQ + "")));
    CStringJoined("<" + SamplePrologue(), NS + (SampleQuery(name) + (END_QUERY + ("" + (END_IQ + "")))));
    Associates("<", SamplePrologue(), NS + (SampleQuery(name) + (END_QUERY + ("" + (END_IQ + "")))));
  }

  lemma CStringJoined(a: string, b: string)
    requires IsCString(a) && IsCString(b)
    ensures IsCString(a + b)
  {
  }

  /** A result that carries an error element in its content reads as an error before compression and not after. */
  lemma ErrorHidden(z: Zlib)
    ensures var iq := Sample("a");
      && IsCString(iq) && MsgTypeOf(iq) == Error && MsgTypeOf(CompressQuery(z, iq)) == Result
  {
    SampleIsCString("a");
    SampleIsPlanned("a");
    SampleIsResult("a");
    SampleShowsError("a");
    HeadShowsNoError("a");
    TailShowsNoError("a");
    HiddenError(z, Sample("a"), SamplePlan("a"));
  }

  lemma HiddenError(z: Zlib, iq: string, p: Parts)
    requires IsCString(iq) && Plan(iq) == Some(p) && TypeAttribute(iq) == Some("result")
    requires Occurs(iq, ERROR_TAG) && !Occurs(Head(p), ERROR_TAG) && !Occurs(After(p), ERROR_TAG)
    ensures MsgTypeOf(iq) == Error && MsgTypeOf(CompressQuery(z, iq)) == Result
  {
    FirstTagKept(z, iq);
    QueryIsCString(iq);
    PackedShowsError(z, p);
  }

  lemma HeadOf(a: string, b: string)
    requires '<' !in a && '<' !in b
    ensures BehindQueryTag("<iq" + (a + ("<query" + b))) == Some(b)
  {
    var inIq := a + ("<query" + b);
    AtStart("<iq", inIq);
    FoundBehind(a, "<query", b);
    DropFront(a, "<query", b);
    HeadOfTags("<iq" + inIq, inIq, b);
  }

  lemma SampleTags()
    ensures SAMPLE_TYPE == "iq" + " type='result'" && SAMPLE_QUERY == "<query" + " xmlns" && "<" + "iq" == "<iq"
  {
  }

  lemma SampleRegroups(c: string, i: string, t: string, g: string, q: string, x: string, e: string)
    ensures c + ((i + t) + g + (q + x) + e) == (c + i) + ((t + g) + (q + (x + e)))
  {
  }

  lemma PlainHeadOf(iq: string, prologue: string, a: string, b: string)
    requires iq != "" && iq[0] == '<' && GetInfo(iq, "<", NS) == Some(prologue) && Strstr(iq, NS).Some?
    requires "<" + prologue == "<iq" + (a + ("<query" + b)) && '<' !in a && '<' !in b
    ensures PlainHead(iq)
  {
    HeadOf(a, b);
    StartsWithTag(iq);
  }

  lemma SampleHeadText()
    ensures "<" + SamplePrologue() == "<iq" + ((" type='result'" + ">") + ("<query" + (" xmlns" + "='")))
  {
    SampleTags();
    SampleRegroups("<", "iq", " type='result'", ">", "<query", " xmlns", "='");
  }

  lemma SampleOpens(name: string)
    ensures Sample(name) != "" && Sample(name)[0] == '<'
  {
  }

  lemma SampleTagsOpenOnce()
    ensures '<' !in " type='result'" + ">" && '<' !in " xmlns" + "='"
  {
  }

  /** The query tag of the sample is the last one open at its namespace. */
  lemma SampleHead(name: string)
    requires SampleName(name)
    ensures PlainHead(Sample(name))
  {
    SampleParts(name);
    SampleHeadText();
    SampleOpens(name);
    SampleTagsOpenOnce();
    PlainHeadOf(Sample(name), SamplePrologue(), " type='result'" + ">", " xmlns" + "='");
  }

  /** What follows the namespace of the sample. */
  lemma SampleBehind(name: string)
    requires SampleName(name)
    ensures BehindNamespace(Sample(name)) == SampleQuery(name) + (END_QUERY + ("" + (END_IQ + "")))
  {
    SampleParts(name);
    SampleHead(name);
    BehindIs(Sample(name), SamplePrologue(), SampleQuery(name) + (END_QUERY + ("" + (END_IQ + ""))));
  }

  lemma BehindIs(iq: string, prologue: string, behind: string)
    requires iq == "<" + (prologue + (NS + behind)) && GetInfo(iq, "<", NS) == Some(prologue)
    requires NamespaceInside(iq)
    ensures BehindNamespace(iq) == behind
  {
    SplitsAtNamespace(iq, prologue);
    AtStart("<", prologue + (NS + behind));
    assert BeforeTag(iq) + "<" == "<";
    SameRest("<", prologue + (NS + BehindNamespace(iq)), prologue + (NS + behind));
    SameRest(prologue, NS + BehindNamespace(iq), NS + behind);
    SameRest(NS, BehindNamespace(iq), behind);
  }

  /** The sample has no data tag. */
  lemma SampleHasNoData(name: string)
    requires 'd' !in name
    ensures !Occurs(SampleQuery(name) + (END_QUERY + ("" + (END_IQ + ""))), OPEN_DATA)
  {
    var query, close := SampleQuery(name), END_QUERY + ("" + (END_IQ + ""));
    assert OPEN_DATA[1] == 'd' && 'd' !in SAMPLE_ERROR && 'd' !in END_QUERY && 'd' !in END_IQ;
    assert 'd' !in query;
    assert 'd' !in close;
    Absent(query + close, OPEN_DATA, 'd');
  }

  /** The two names of a plain query without a data tag. */
  lemma BothNames(z: Zlib, iq: string, p: Parts)
    requires IsCString(iq) && Plan(iq) == Some(p) && PlainHead(iq)
    requires Strstr(BehindNamespace(iq), OPEN_DATA).None?
    ensures QueryTagName(iq) == NonEmpty(Some(p.name))
    ensures QueryTagName(CompressQuery(z, iq)) == NonEmpty(Some(Announced(p.name)))
  {
    PlanParts(iq);
    QueryIsCString(iq);
    OriginalTagName(iq, p.query, p.name);
    PackedTagName(z, p);
  }

  lemma QuotedName()
    ensures SampleName("a'") && 'd' !in "a'" && Announced("a'") == "a"
  {
    SpanOf("a", '\'', "", "'");
    assert "a" + ['\''] + "" == "a'";
    assert "a'"[..1] == "a";
  }

  /** A name with a quote in it is not the name that the data tag announces. */
  lemma QuotedNameLost(z: Zlib)
    ensures var iq := Sample("a'");
      && IsCString(iq) && QueryTagName(iq) == Some("a'") && QueryTagName(CompressQuery(z, iq)) == Some("a")
  {
    QuotedName();
    SampleIsCString("a'");
    SampleIsPlanned("a'");
    SampleHead("a'");
    SampleBehind("a'");
    SampleHasNoData("a'");
    BothNames(z, Sample("a'"), SamplePlan("a'"));
  }
}
