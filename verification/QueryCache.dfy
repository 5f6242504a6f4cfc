/**
  The cache of chunked downloads (src/querycache.c) and the answers that drive it
  (src/xmpp_wf/get/xmpp_iq_querycache.c): elements are cut out of a chunk, handed to a parser and
  written to a file, and the file is cut again at the next start.
 */
module QueryCache {
  import opened CStrings

  // ---------------------------------------------------------------------------------------------
  // Cutting elements
  // ---------------------------------------------------------------------------------------------

  function StartTag(q: string): string { "<" + q + " " }

  function EndTag(q: string): string { "</" + q + ">" }

  /** Where the element at the start of s ends; None where the program would use a null pointer. */
  function NodeEnd(s: string): (r: Option<nat>)
    ensures r.Some? ==> 0 < r.value <= |s|
  {
    var single := Strstr(s, "/>");
    match Strstr(s, ">")
    case None => None
    case Some(root) =>
      if single.Some? && !(root < single.value) then Some(single.value + 2)
      else
        match GetInfoFirst(s, "<", " >")
        case None => None
        case Some(name) => CloseEnd(s, root, EndTag(name))
  }

  /** Behind the first closing tag from an offset on. */
  function CloseEnd(s: string, root: nat, close: string): (r: Option<nat>)
    requires root <= |s|
    ensures r.Some? ==> root + |close| <= r.value <= |s|
  {
    match Strstr(s[root..], close)
    case None => None
    case Some(p) => Some(root + p + |close|)
  }

  /** Behind the start tag's first character; the whole text when there is no start tag. */
  function SkipStart(s: string, q: string): string
  {
    match Strstr(s, StartTag(q))
    case None => s
    case Some(k) => s[k + 1..]
  }

  /** The elements handed to the parser, and whether the cutting ended without fault. */
  datatype Parsed = Parsed(nodes: seq<string>, ok: bool)

  /** The next element begins at the next '<', unless that is the end tag or there is no end tag. */
  function NextNode(s: string, q: string): (r: Option<nat>)
    ensures r.Some? ==> r.value < |s| && s[r.value] == '<'
  {
    match Strstr(s, "<")
    case None => None
    case Some(k) =>
      match Strstr(s[k..], EndTag(q))
      case None => None
      case Some(e) => if 0 < e then Some(k) else None
  }

  function Cut(s: string, q: string, from: int, to: int, write: bool): (r: Parsed)
    decreases |s|
  {
    var k := NextNode(s, q);
    if k.None? || !(from < to || !write) then Parsed([], true)
    else
      var t := s[k.value..];
      match NodeEnd(t)
      case None => Parsed([], false)
      case Some(e) =>
        var rest := Cut(t[e..], q, from + 1, to, write);
        Parsed([t[..e]] + rest.nodes, rest.ok)
  }

  // ---------------------------------------------------------------------------------------------
  // The element depends only on its own text
  // ---------------------------------------------------------------------------------------------

  lemma OccursPrefix(s: string, s': string, p: string, j: int, e: nat)
    requires e <= |s| && e <= |s'| && s[..e] == s'[..e] && 0 <= j && j + |p| <= e
    ensures OccursAt(s, p, j) <==> OccursAt(s', p, j)
  {
    assert s[j..j + |p|] == s[..e][j..j + |p|];
    assert s'[j..j + |p|] == s'[..e][j..j + |p|];
  }

  lemma StrstrPrefix(s: string, s': string, p: string, k: nat, e: nat)
    requires e <= |s| && e <= |s'| && s[..e] == s'[..e]
    requires Strstr(s, p) == Some(k) && k + |p| <= e
    ensures Strstr(s', p) == Some(k)
  {
    forall j | 0 <= j <= k ensures OccursAt(s, p, j) <==> OccursAt(s', p, j) {
      OccursPrefix(s, s', p, j, e);
    }
    StrstrIs(s', p, k);
  }

  lemma {:induction false} SpanPrefix(s: string, s': string, stops: string, e: nat)
    requires e <= |s| && e <= |s'| && s[..e] == s'[..e] && Span(s, stops) < e
    ensures Span(s', stops) == Span(s, stops)
    ensures s'[..Span(s', stops)] == s[..Span(s, stops)]
  {
    assert s[..Span(s, stops)] == s[..e][..Span(s, stops)];
    assert s'[..Span(s, stops)] == s'[..e][..Span(s, stops)];
    assert s[0] == s[..e][0] && s'[0] == s'[..e][0];
    if s[0] !in stops {
      assert s[1..][..e - 1] == s[..e][1..] && s'[1..][..e - 1] == s'[..e][1..];
      SpanPrefix(s[1..], s'[1..], stops, e - 1);
    }
  }

  lemma FirstIs(s: string, c: char, k: nat)
    requires k < |s| && s[k] == c && forall j :: 0 <= j < k ==> s[j] != c
    ensures Strstr(s, [c]) == Some(k)
  {
    StrstrChar(s, c);
  }

  /** Where "/>" can be: right before a '>'. */
  lemma SlashAt(s: string, j: nat)
    requires OccursAt(s, "/>", j)
    ensures s[j] == '/' && s[j + 1] == '>'
  {
    assert s[j..j + 2][0] == s[j] && s[j..j + 2][1] == s[j + 1];
  }

  lemma RootIsFirst(s: string, root: nat)
    requires Strstr(s, ">") == Some(root)
    ensures root < |s| && s[root] == '>' && forall j :: 0 <= j < root ==> s[j] != '>'
  {
    StrstrChar(s, '>');
  }

  predicate SelfClosing(s: string, root: nat) { 0 < root <= |s| && s[root - 1] == '/' }

  /** The first '>' decides between the two forms by what stands before it. */
  lemma SingleNode(s: string, root: nat)
    requires Strstr(s, ">") == Some(root) && SelfClosing(s, root)
    ensures NodeEnd(s) == Some(root + 1)
  {
    RootIsFirst(s, root);
    forall j | 0 <= j < root - 1 ensures !OccursAt(s, "/>", j) {
      assert s[j + 1] != '>';
      assert j + 2 <= |s| ==> s[j..j + 2][1] == s[j + 1];
    }
    assert s[root - 1..root + 1] == "/>";
    StrstrIs(s, "/>", root - 1);
  }

  lemma ContainerNode(s: string, root: nat)
    requires Strstr(s, ">") == Some(root) && !SelfClosing(s, root)
    ensures var single := Strstr(s, "/>"); single.None? || root < single.value
  {
    RootIsFirst(s, root);
    var single := Strstr(s, "/>");
    if single.Some? {
      SlashAt(s, single.value);
    }
  }

  /** The name of an element, which lies before its first '>'. */
  lemma NameOf(s: string, root: nat)
    requires s != "" && s[0] == '<' && Strstr(s, ">") == Some(root)
    ensures 0 < root && Span(s[1..], " >") <= root - 1
    ensures GetInfoFirst(s, "<", " >") == Some(s[1..][..Span(s[1..], " >")])
  {
    StrstrChar(s, '>');
    FirstIs(s, '<', 0);
    assert s[1..][root - 1] == '>';
  }

  lemma RootIs(a: string, rest: string)
    requires '>' !in a
    ensures Strstr(a + (">" + rest), ">") == Some(|a|)
  {
    FoundBehind(a, ">", rest);
  }

  /** Where an element "<…/>" ends, whatever follows. */
  lemma SingleIs(body: string, rest: string)
    requires '>' !in body
    ensures NodeEnd("<" + body + "/" + (">" + rest)) == Some(|body| + 3)
  {
    var a := "<" + body + "/";
    var s := a + (">" + rest);
    RootIs(a, rest);
    assert s[|a| - 1] == '/';
    SingleNode(s, |a|);
  }

  lemma CloseIs(s: string, root: nat, inner: string, close: string, rest: string)
    requires root <= |s| && s[root..] == inner + (close + rest)
    requires forall i :: 0 <= i < |inner| ==> !OccursAt(inner + (close + rest), close, i)
    ensures CloseEnd(s, root, close) == Some(root + |inner| + |close|)
  {
    FirstBehind(inner, close, rest);
  }

  lemma NameIs(name: string, attrs: string, rest: string)
    requires ' ' !in name && '>' !in name && (attrs == "" || attrs[0] == ' ')
    ensures GetInfoFirst("<" + name + attrs + (">" + rest), "<", " >") == Some(name)
  {
    var t := name + (attrs + (">" + rest));
    var s := "<" + name + attrs + (">" + rest);
    var x := (attrs + (">" + rest))[0];
    assert s == "<" + t && t == name + [x] + (attrs + (">" + rest))[1..];
    SpanOf(name, x, (attrs + (">" + rest))[1..], " >");
    SpanOf("", '<', t, "<");
    assert s == "" + ['<'] + t && "<" == ['<'];
    GetInfoFirstAt(s, '<', " >", 0, t);
    assert t[..|name|] == name;
  }

  /** Where an element "<name …>…</name>" ends: behind the first closing tag of its own name, whatever follows. */
  lemma ContainerIs(name: string, attrs: string, inner: string, rest: string, open: string, close: string)
    requires ' ' !in name && '>' !in name && (attrs == "" || attrs[0] == ' ') && '>' !in attrs
    requires open == "<" + (name + attrs) && close == "</" + name + ">" && open[|open| - 1] != '/'
    requires forall i :: 0 <= i < 1 + |inner| ==> !OccursAt((">" + inner) + (close + rest), close, i)
    ensures NodeEnd(open + (">" + (inner + (close + rest)))) == Some(|open| + 1 + |inner| + |close|)
  {
    var s := open + (">" + (inner + (close + rest)));
    TagIs(name, attrs, open, inner + (close + rest));
    EndIs(open, inner, close, rest);
    NodeEndIs(s, |open|, name, close, |open| + 1 + |inner| + |close|);
  }

  lemma TagIs(name: string, attrs: string, open: string, u: string)
    requires ' ' !in name && '>' !in name && (attrs == "" || attrs[0] == ' ') && '>' !in attrs
    requires open == "<" + (name + attrs) && open[|open| - 1] != '/'
    ensures Strstr(open + (">" + u), ">") == Some(|open|) && !SelfClosing(open + (">" + u), |open|)
    ensures GetInfoFirst(open + (">" + u), "<", " >") == Some(name)
  {
    RootIs(open, u);
    LastOfTag(open, ">" + u);
    NameIs(name, attrs, u);
    assert "<" + name + attrs == open;
  }

  lemma EndIs(open: string, inner: string, close: string, rest: string)
    requires forall i :: 0 <= i < 1 + |inner| ==> !OccursAt((">" + inner) + (close + rest), close, i)
    ensures CloseEnd(open + (">" + (inner + (close + rest))), |open|, close) == Some(|open| + 1 + |inner| + |close|)
  {
    BehindTag(open, ">", inner, close, rest);
    CloseIs(open + (">" + (inner + (close + rest))), |open|, ">" + inner, close, rest);
  }

  lemma BehindTag(a: string, g: string, inner: string, close: string, rest: string)
    ensures (a + (g + (inner + (close + rest))))[|a|..] == (g + inner) + (close + rest)
  {
  }

  lemma LastOfTag(a: string, u: string)
    requires a != "" && a[|a| - 1] != '/'
    ensures !SelfClosing(a + u, |a|)
  {
    assert (a + u)[|a| - 1] == a[|a| - 1];
  }

  lemma NodeEndIs(s: string, root: nat, name: string, close: string, e: nat)
    requires Strstr(s, ">") == Some(root) && !SelfClosing(s, root) && root <= |s| && close == "</" + name + ">"
    requires GetInfoFirst(s, "<", " >") == Some(name) && CloseEnd(s, root, close) == Some(e)
    ensures NodeEnd(s) == Some(e)
  {
    ContainerNode(s, root);
  }

  lemma DropPrefix(s: string, s': string, k: nat, e: nat)
    requires k <= e <= |s| && e <= |s'| && s[..e] == s'[..e]
    ensures s[k..][..e - k] == s'[k..][..e - k]
  {
    assert s[k..][..e - k] == s[..e][k..] && s'[k..][..e - k] == s'[..e][k..];
  }

  lemma ClosePrefix(s: string, s': string, root: nat, close: string, e: nat)
    requires root <= e <= |s| && e <= |s'| && s[..e] == s'[..e] && CloseEnd(s, root, close) == Some(e)
    ensures CloseEnd(s', root, close) == Some(e)
  {
    DropPrefix(s, s', root, e);
    StrstrPrefix(s[root..], s'[root..], close, Strstr(s[root..], close).value, e - root);
  }

  lemma NameTextPrefix(s: string, s': string, e: nat)
    requires 0 < e <= |s| && e <= |s'| && s[..e] == s'[..e] && Span(s[1..], " >") < e - 1
    ensures s'[1..][..Span(s'[1..], " >")] == s[1..][..Span(s[1..], " >")]
  {
    DropPrefix(s, s', 1, e);
    SpanPrefix(s[1..], s'[1..], " >", e - 1);
  }

  lemma NamePrefix(s: string, s': string, root: nat, e: nat)
    requires s != "" && s' != "" && s[0] == '<' && s'[0] == '<' && root < e
    requires Strstr(s, ">") == Some(root) && Strstr(s', ">") == Some(root)
    requires e <= |s| && e <= |s'| && s[..e] == s'[..e]
    ensures GetInfoFirst(s', "<", " >") == GetInfoFirst(s, "<", " >")
  {
    NameOf(s, root);
    NameOf(s', root);
    NameTextPrefix(s, s', e);
  }

  lemma ContainerPrefix(s: string, s': string, root: nat, e: nat)
    requires s != "" && s[0] == '<' && NodeEnd(s) == Some(e) && e <= |s'| && s[..e] == s'[..e]
    requires s' != "" && s'[0] == '<'
    requires Strstr(s, ">") == Some(root) && Strstr(s', ">") == Some(root) && root < e
    requires Strstr(s, "/>").None? || root < Strstr(s, "/>").value
    requires Strstr(s', "/>").None? || root < Strstr(s', "/>").value
    ensures NodeEnd(s') == Some(e)
  {
    NamePrefix(s, s', root, e);
    ClosePrefix(s, s', root, EndTag(GetInfoFirst(s, "<", " >").value), e);
  }

  lemma EndBehindRoot(s: string, e: nat)
    requires NodeEnd(s) == Some(e)
    ensures Strstr(s, ">").Some? && Strstr(s, ">").value < e
  {
    var root := Strstr(s, ">").value;
    RootIsFirst(s, root);
    var single := Strstr(s, "/>");
    if single.Some? {
      SlashAt(s, single.value);
    }
  }

  /** An element is found again in every text that starts with it. */
  lemma NodePrefix(s: string, s': string, e: nat)
    requires s != "" && s[0] == '<' && NodeEnd(s) == Some(e)
    requires e <= |s'| && s[..e] == s'[..e]
    ensures NodeEnd(s') == Some(e)
  {
    EndBehindRoot(s, e);
    var root := Strstr(s, ">").value;
    StrstrPrefix(s, s', ">", root, e);
    assert s'[0] == s'[..e][0] == s[..e][0] == s[0];
    assert 0 < root ==> s'[root - 1] == s'[..e][root - 1] == s[..e][root - 1] == s[root - 1];
    if SelfClosing(s, root) {
      SingleNode(s, root);
      SingleNode(s', root);
    } else {
      ContainerNode(s, root);
      ContainerNode(s', root);
      ContainerPrefix(s, s', root, e);
    }
  }

  // ---------------------------------------------------------------------------------------------
  // What is cut from a laid out text
  // ---------------------------------------------------------------------------------------------

  /** A text that is one element, and that is not taken for the end tag of q. */
  predicate IsElement(n: string, q: string)
  {
    n != "" && n[0] == '<' && NodeEnd(n) == Some(|n|) && !(EndTag(q) <= n)
  }

  /** An element and what follows it before the next tag. */
  datatype Item = Item(node: string, gap: string)

  predicate Laid(items: seq<Item>, q: string)
  {
    forall i :: 0 <= i < |items| ==> IsElement(items[i].node, q) && '<' !in items[i].gap
  }

  function Body(items: seq<Item>, q: string, tail: string): (b: string)
    ensures b != ""
  {
    if items == [] then EndTag(q) + tail else items[0].node + (items[0].gap + Body(items[1..], q, tail))
  }

  function NodesOf(items: seq<Item>): (r: seq<string>)
    ensures |r| == |items| && forall i :: 0 <= i < |items| ==> r[i] == items[i].node
  {
    seq(|items|, i requires 0 <= i < |items| => items[i].node)
  }

  /** While writing, only as many elements as the chunk announces are taken. */
  function Limited(nodes: seq<string>, from: int, to: int, write: bool): seq<string>
  {
    if !write || |nodes| <= to - from then nodes
    else if to <= from then []
    else nodes[..to - from]
  }

  predicate PlainName(q: string) { '<' !in q && '>' !in q }

  lemma EndTagFits(s: string, q: string, root: nat)
    requires '>' !in q && root < |s| && s[root] == '>' && OccursAt(s, EndTag(q), 0)
    ensures |EndTag(q)| <= root + 1
  {
    var c := EndTag(q);
    assert root < |c| ==> c[root] == s[0..|c|][root];
  }

  lemma EndTagInside(n: string, rest: string, c: string)
    requires OccursAt(n + rest, c, 0) && |c| <= |n|
    ensures c <= n
  {
    assert c == (n + rest)[0..|c|] == n[..|c|];
  }

  /** An element is not the end tag, whatever follows it. */
  lemma NotEndTag(n: string, q: string, rest: string)
    requires IsElement(n, q) && '>' !in q
    ensures !OccursAt(n + rest, EndTag(q), 0)
  {
    EndBehindRoot(n, |n|);
    var root := Strstr(n, ">").value;
    RootIsFirst(n, root);
    if OccursAt(n + rest, EndTag(q), 0) {
      EndTagFits(n + rest, q, root);
      EndTagInside(n, rest, EndTag(q));
    }
  }

  lemma {:induction false} BodyHasEnd(items: seq<Item>, q: string, tail: string) returns (k: nat)
    ensures OccursAt(Body(items, q, tail), EndTag(q), k)
  {
    if items == [] {
      k := 0;
      assert Body(items, q, tail)[0..|EndTag(q)|] == EndTag(q);
    } else {
      var j := BodyHasEnd(items[1..], q, tail);
      var rest := Body(items[1..], q, tail);
      OccursShift(items[0].gap, rest, EndTag(q), j);
      OccursShift(items[0].node, items[0].gap + rest, EndTag(q), |items[0].gap| + j);
      k := |items[0].node| + (|items[0].gap| + j);
    }
  }

  lemma NextAfterGap(gap: string, body: string, q: string)
    requires '<' !in gap && body != "" && body[0] == '<'
    ensures (gap + body)[|gap|..] == body
    ensures NextNode(gap + body, q) ==
      match Strstr(body, EndTag(q)) { case None => None case Some(e) => if 0 < e then Some(|gap|) else None }
  {
    FirstIs(gap + body, '<', |gap|);
    assert (gap + body)[|gap|..] == body;
  }

  /** One element in front of the rest. */
  lemma CutOne(gap: string, n: string, rest: string, q: string, from: int, to: int, write: bool, k: nat)
    requires '<' !in gap && IsElement(n, q) && PlainName(q) && OccursAt(n + rest, EndTag(q), k) && (from < to || !write)
    ensures var after := Cut(rest, q, from + 1, to, write);
      Cut(gap + (n + rest), q, from, to, write) == Parsed([n] + after.nodes, after.ok)
  {
    NotEndTag(n, q, rest);
    assert Strstr(n + rest, EndTag(q)).Some?;
    NextAfterGap(gap, n + rest, q);
    assert (n + rest)[..|n|] == n[..|n|];
    NodePrefix(n, n + rest, |n|);
    assert (n + rest)[|n|..] == rest;
  }

  lemma CutNothing(gap: string, q: string, tail: string, from: int, to: int, write: bool)
    requires '<' !in gap
    ensures Cut(gap + (EndTag(q) + tail), q, from, to, write) == Parsed([], true)
  {
    var body := EndTag(q) + tail;
    NextAfterGap(gap, body, q);
    assert body[0..|EndTag(q)|] == EndTag(q);
    StrstrIs(body, EndTag(q), 0);
  }

  function Taken(items: seq<Item>, from: int, to: int, write: bool): seq<string>
  {
    Limited(NodesOf(items), from, to, write)
  }

  lemma TakenStep(items: seq<Item>, from: int, to: int, write: bool)
    requires items != [] && (from < to || !write)
    ensures Taken(items, from, to, write) == [items[0].node] + Taken(items[1..], from + 1, to, write)
  {
    assert NodesOf(items) == [items[0].node] + NodesOf(items[1..]);
  }

  /** One element more, when the rest is known to be cut as it should. */
  lemma CutStep(gap: string, items: seq<Item>, q: string, tail: string, from: int, to: int, write: bool)
    requires '<' !in gap && items != [] && IsElement(items[0].node, q) && PlainName(q) && (from < to || !write)
    requires Cut(items[0].gap + Body(items[1..], q, tail), q, from + 1, to, write) ==
             Parsed(Taken(items[1..], from + 1, to, write), true)
    ensures Cut(gap + Body(items, q, tail), q, from, to, write) == Parsed(Taken(items, from, to, write), true)
  {
    var k := BodyHasEnd(items, q, tail);
    CutOne(gap, items[0].node, items[0].gap + Body(items[1..], q, tail), q, from, to, write, k);
    TakenStep(items, from, to, write);
  }

  lemma CutFull(s: string, items: seq<Item>, q: string, from: int, to: int)
    requires items != [] && to <= from
    ensures Cut(s, q, from, to, true) == Parsed(Taken(items, from, to, true), true)
  {
  }

  /**
    Cutting a text laid out as elements with anything but tags between them gives exactly those
    elements, however far apart they are; while writing, the first `to - from` of them.
   */
  lemma {:induction false} CutItems(gap: string, items: seq<Item>, q: string, tail: string,
      from: int, to: int, write: bool)
    requires '<' !in gap && Laid(items, q) && PlainName(q)
    ensures Cut(gap + Body(items, q, tail), q, from, to, write) == Parsed(Taken(items, from, to, write), true)
    decreases |items|
  {
    if items == [] {
      CutNothing(gap, q, tail, from, to, write);
    } else if from < to || !write {
      CutItems(items[0].gap, items[1..], q, tail, from + 1, to, write);
      CutStep(gap, items, q, tail, from, to, write);
    } else {
      CutFull(gap + Body(items, q, tail), items, q, from, to);
    }
  }

  lemma PrefixOccurs(t: string, e: nat, c: string)
    requires e <= |t| && c <= t[..e]
    ensures OccursAt(t, c, 0)
  {
    assert t[0..|c|] == t[..e][..|c|];
  }

  lemma CutIsElement(t: string, q: string, e: nat)
    requires t != "" && t[0] == '<' && NodeEnd(t) == Some(e) && !OccursAt(t, EndTag(q), 0)
    ensures IsElement(t[..e], q)
  {
    NodePrefix(t, t[..e], e);
    if EndTag(q) <= t[..e] {
      PrefixOccurs(t, e, EndTag(q));
    }
  }

  predicate AllElements(nodes: seq<string>, q: string)
  {
    forall i :: 0 <= i < |nodes| ==> IsElement(nodes[i], q)
  }

  lemma ElementsStep(n: string, nodes: seq<string>, q: string)
    requires IsElement(n, q) && AllElements(nodes, q)
    ensures AllElements([n] + nodes, q)
  {
  }

  lemma NextIsNotEnd(s: string, q: string)
    requires NextNode(s, q).Some?
    ensures !OccursAt(s[NextNode(s, q).value..], EndTag(q), 0)
  {
  }

  /** Whatever is cut is an element. */
  lemma {:induction false} CutGivesElements(s: string, q: string, from: int, to: int, write: bool)
    ensures AllElements(Cut(s, q, from, to, write).nodes, q)
    decreases |s|
  {
    var k := NextNode(s, q);
    if k.Some? && (from < to || !write) {
      var t := s[k.value..];
      NextIsNotEnd(s, q);
      var e := NodeEnd(t);
      if e.Some? {
        CutIsElement(t, q, e.value);
        CutGivesElements(t[e.value..], q, from + 1, to, write);
        ElementsStep(t[..e.value], Cut(t[e.value..], q, from + 1, to, write).nodes, q);
      }
    }
  }

  // ---------------------------------------------------------------------------------------------
  // The cache
  // ---------------------------------------------------------------------------------------------

  /** The query name, cvar.query_cache, and whether a reset function was given. */
  datatype Config = Config(q: string, caching: bool, hasReset: bool)

  /**
    The text written to the open file, what is on disk, the hash, and the elements the parser was given
    since the last reset.
   */
  datatype Cache = Cache(file: Option<string>, disk: Option<string>, hash: Option<string>, container: seq<string>)

  function Lines(nodes: seq<string>): string
  {
    if nodes == [] then "" else " " + nodes[0] + "\n" + Lines(nodes[1..])
  }

  /** printf of an int and of a string pointer. */
  function PrintInt(n: int): string { if n < 0 then "-" + Dec(-n) else Dec(n) }

  function PrintText(s: Option<string>): string { if s.Some? then s.value else "(null)" }

  function Range(from: int, to: int): string { "from='" + PrintInt(from) + "' to='" + PrintInt(to) + "' " }

  function HashAttr(hash: Option<string>): string { "hash='" + (PrintText(hash) + "'") }

  function Header(q: string, from: int, to: int, hash: Option<string>): string
  {
    StartTag(q) + (Range(from, to) + HashAttr(hash) + ">\n")
  }

  /** The text that opens a file, also for numbers below 0 and without a hash. */
  lemma HeaderText(q: string, m: nat, n: nat, h: string)
    ensures Header(q, m, n, Some(h)) ==
      "<" + q + " " + ("from='" + Dec(m) + "' to='" + Dec(n) + "' " + ("hash='" + (h + "'")) + ">\n")
    ensures HashAttr(None) == "hash='" + ("(null)" + "'")
    ensures var v: int := m; m > 0 ==> PrintInt(-v) == "-" + Dec(m)
  {
  }

  function Footer(q: string): string { EndTag(q) + "\n" }

  function Opened(c: Config, s: Cache, from: int, to: int, hash: Option<string>, opens: bool): Cache
  {
    if from == 0 && c.caching && s.file.None? && opens
    then s.(file := Some(Header(c.q, from, to, hash)), disk := Some(""))
    else s
  }

  function Reset(c: Config, s: Cache, from: int): Cache
  {
    if from == 0 && c.hasReset then s.(container := []) else s
  }

  function Fed(c: Config, s: Cache, nodes: seq<string>): Cache
  {
    s.(container := s.container + nodes, file := Appended(s.file, nodes, c.caching))
  }

  function Appended(file: Option<string>, nodes: seq<string>, write: bool): Option<string>
  {
    if write && file.Some? then Some(file.value + Lines(nodes)) else file
  }

  function Closed(c: Config, s: Cache, isEnd: bool): Cache
  {
    if isEnd && c.caching && s.file.Some? then s.(file := None, disk := Some(s.file.value + Footer(c.q))) else s
  }

  function Nodes(c: Config, text: string, from: int, to: int): Parsed
  {
    Cut(SkipStart(text, c.q), c.q, from, to, c.caching)
  }

  /** What a chunk says: its code, its numbers, its hash, and what is cut from it. */
  datatype Chunk = Chunk(code: int, from: int, to: int, hash: Option<string>, parsed: Parsed)

  /** One chunk; `opens` says whether the file can be opened. The second part is false after a fault. */
  function DoChunk(c: Config, s: Cache, k: Chunk, isEnd: bool, opens: bool): (Cache, bool)
  {
    var fed := Fed(c, Reset(c, Opened(c, s, k.from, k.to, k.hash, opens), k.from).(hash := k.hash), k.parsed.nodes);
    if k.parsed.ok then (Closed(c, fed, isEnd), true) else (fed, false)
  }

  function DoUpdate(c: Config, s: Cache, text: string, hash: Option<string>, from: int, to: int,
      isEnd: bool, opens: bool): (Cache, bool)
  {
    DoChunk(c, s, Chunk(0, from, to, hash, Nodes(c, text, from, to)), isEnd, opens)
  }

  /** Reading the file at the start of the program. */
  function DoLoad(c: Config, s: Cache): (Cache, bool)
  {
    if !c.caching || s.disk.None? || s.disk.value == "" then (s, true)
    else
      var text := s.disk.value;
      match GetInfo(text, StartTag(c.q), ">")
      case None => (s, true)
      case Some(tag) =>
        var p := Cut(SkipStart(text, c.q), c.q, 0, 0, false);
        var s' := if c.hasReset then s.(container := []) else s;
        (s'.(hash := GetInfo(tag, "hash='", "'"), container := s'.container + p.nodes), p.ok)
  }

  /** Without caching, a file, or a start tag that ends, loading changes nothing and is no fault. */
  lemma NothingToLoad(c: Config, s: Cache)
    requires !c.caching || s.disk.None? || GetInfo(s.disk.value, "<" + c.q + " ", ">").None?
    ensures DoLoad(c, s) == (s, true)
  {
  }

  // ---- the answers of the server

  const CHUNK_CACHED: int := 1
  const CHUNK_MORE: int := 2
  const CHUNK_END: int := 3

  function HashOf(data: string): Option<string> { GetInfo(data, "hash='", "'") }
  function CodeOf(data: string): int { ToInt32(GetInfoInt(data, "code='", "'")) }
  function FromOf(data: string): int { ToInt32(GetInfoInt(data, "from='", "'")) }
  function ToOf(data: string): int { ToInt32(GetInfoInt(data, "to='", "'")) }

  /** After an answer: another request from a number on, the caller's callback, nothing, or a fault. */
  datatype Next = Again(from: int) | Called | Dropped | Fault

  function ChunkOf(c: Config, d: string): Chunk
  {
    Chunk(CodeOf(d), FromOf(d), ToOf(d), HashOf(d), Nodes(c, d, FromOf(d), ToOf(d)))
  }

  function OnChunk(c: Config, s: Cache, k: Chunk, opens: bool): (Cache, Next)
  {
    if k.code == CHUNK_CACHED then (s, Called)
    else if k.code == CHUNK_MORE then
      var r := DoChunk(c, s, k, false, opens);
      (r.0, if r.1 then Again(k.to) else Fault)
    else if k.code == CHUNK_END then
      var r := DoChunk(c, s, k, true, opens);
      (r.0, if r.1 then Called else Fault)
    else (s, Dropped)
  }

  /** `data` is the content of the query; None stands for an error, a timeout or no content. */
  function DoAnswer(c: Config, s: Cache, data: Option<string>, opens: bool): (Cache, Next)
  {
    match data
    case None => (s, Dropped)
    case Some(d) => OnChunk(c, s, ChunkOf(c, d), opens)
  }

  // ---- the same on the program's own state

  class QueryCacheFile {
    const c: Config
    var file: Option<string>
    var disk: Option<string>
    var hash: Option<string>
    var container: seq<string>

    constructor (c: Config, disk: Option<string>)
      ensures this.c == c && State() == Cache(None, disk, None, [])
    {
      this.c := c;
      file := None;
      this.disk := disk;
      hash := None;
      container := [];
    }

    function State(): Cache
      reads this
    {
      Cache(file, disk, hash, container)
    }

    /** An element goes to the parser and, while writing, to the file. */
    method Feed(node: string, write: bool)
      modifies this`file, this`container
      ensures container == old(container) + [node]
      ensures file == Appended(old(file), [node], write)
    {
      container := container + [node];
      if write && file.Some? {
        file := Some(file.value + (" " + node + "\n"));
      }
      assert Lines([node]) == " " + node + "\n";
    }

    /** The body of the loop: the next element, if any, or why there is none. */
    method Element(str: string, from: int, to: int, write: bool, ghost cut: (string, int) -> Parsed)
      returns (more: bool, ok: bool, node: string, rest: string)
      requires Cuts(cut, c.q, to, write)
      ensures |rest| < |str| || !more
      ensures cut(str, from) == if more then Behind([node], cut(rest, from + 1)) else Parsed([], ok)
    {
      more, ok, node, rest := false, true, "", "";
      assert cut(str, from) == Cut(str, c.q, from, to, write);
      var k := NextNode(str, c.q);
      if k.None? || !(from < to || !write) {
        return;
      }
      var t := str[k.value..];
      var e := NodeEnd(t);
      if e.None? {
        ok := false;
      } else {
        more, node, rest := true, t[..e.value], t[e.value..];
        assert cut(rest, from + 1) == Cut(rest, c.q, from + 1, to, write);
      }
    }

    /** The loop of _querycache_parse. */
    method Loop(str: string, start: int, to: int, write: bool, ghost cut: (string, int) -> Parsed) returns (ok: bool)
      requires Cuts(cut, c.q, to, write)
      modifies this`file, this`container
      ensures var p := cut(str, start);
        && ok == p.ok && container == old(container) + p.nodes && file == Appended(old(file), p.nodes, write)
    {
      var rest, from := str, start;
      ghost var done: seq<string> := [];
      AppendedNone(file, write);
      var more, node := true, "";
      ok := true;
      while more
        invariant cut(str, start) == Behind(done, if more then cut(rest, from) else Parsed([], ok))
        invariant container == old(container) + done
        invariant file == Appended(old(file), done, write)
        decreases more, |rest|
      {
        more, ok, node, rest := Element(rest, from, to, write, cut);
        if more {
          AppendedNext(old(file), done, node, write);
          Feed(node, write);
          BehindMore(done, node, cut(rest, from + 1));
          done := done + [node];
          from := from + 1;
        }
      }
      assert done + [] == done;
    }

    method Parse(text: string, from: int, to: int, write: bool) returns (ok: bool)
      modifies this`file, this`container
      ensures var p := Cut(SkipStart(text, c.q), c.q, from, to, write);
        && ok == p.ok && container == old(container) + p.nodes && file == Appended(old(file), p.nodes, write)
    {
      var str := SkipStart(text, c.q);
      ghost var cut := (s, i) => Cut(s, c.q, i, to, write);
      ok := Loop(str, from, to, write, cut);
      assert cut(str, from) == Cut(str, c.q, from, to, write);
    }

    /** What happens before the chunk is parsed. */
    method Prepare(h: Option<string>, from: int, to: int, opens: bool)
      modifies this
      ensures State() == Reset(c, Opened(c, old(State()), from, to, h, opens), from).(hash := h)
    {
      if from == 0 && c.caching && file.None? && opens {
        disk := Some("");
        file := Some(Header(c.q, from, to, h));
      }
      if from == 0 && c.hasReset {
        container := [];
      }
      hash := h;
    }

    method Update(text: string, h: Option<string>, from: int, to: int, isEnd: bool, opens: bool) returns (ok: bool)
      modifies this
      ensures (State(), ok) == DoUpdate(c, old(State()), text, h, from, to, isEnd, opens)
    {
      Prepare(h, from, to, opens);
      ok := Parse(text, from, to, c.caching);
      if !ok {
        return;
      }
      if isEnd && c.caching && file.Some? {
        disk := Some(file.value + Footer(c.q));
        file := None;
      }
    }

    method Load() returns (ok: bool)
      requires file.None?
      modifies this
      ensures (State(), ok) == DoLoad(c, old(State()))
    {
      if !c.caching || disk.None? || disk.value == "" {
        return true;
      }
      var tag := GetInfo(disk.value, StartTag(c.q), ">");
      if tag.None? {
        return true;
      }
      hash := GetInfo(tag.value, "hash='", "'");
      if c.hasReset {
        container := [];
      }
      ok := Parse(disk.value, 0, 0, false);
    }

    method Answer(data: Option<string>, opens: bool) returns (next: Next)
      modifies this
      ensures (State(), next) == DoAnswer(c, old(State()), data, opens)
    {
      if data.None? {
        return Dropped;
      }
      var d := data.value;
      var code := CodeOf(d);
      var from, to := FromOf(d), ToOf(d);
      if code == CHUNK_CACHED {
        next := Called;
      } else if code == CHUNK_MORE {
        var ok := Update(d, HashOf(d), from, to, false, opens);
        next := if ok then Again(to) else Fault;
      } else if code == CHUNK_END {
        var ok := Update(d, HashOf(d), from, to, true, opens);
        next := if ok then Called else Fault;
      } else {
        next := Dropped;
      }
    }

    /** The answers of a run of the program, in turn. */
    method Answers(replies: seq<Reply>) returns (ok: bool)
      modifies this
      ensures (State(), ok) == Session(c, old(State()), replies)
    {
      ok := true;
      var i := 0;
      while i < |replies|
        invariant i <= |replies|
        invariant Session(c, State(), replies[i..]) == Session(c, old(State()), replies)
      {
        assert replies[i..][1..] == replies[i + 1..];
        var next := Answer(replies[i].data, replies[i].opens);
        if next == Fault {
          return false;
        }
        i := i + 1;
      }
    }
  }

  /** A parse with elements before it. */
  function Behind(done: seq<string>, p: Parsed): Parsed { Parsed(done + p.nodes, p.ok) }

  /** The function gives what is cut from a text when the count stands at a number. */
  ghost predicate Cuts(cut: (string, int) -> Parsed, q: string, to: int, write: bool)
  {
    forall s, i {:trigger Cut(s, q, i, to, write)} :: cut(s, i) == Cut(s, q, i, to, write)
  }

  lemma BehindMore(done: seq<string>, n: string, p: Parsed)
    ensures Behind(done, Behind([n], p)) == Behind(done + [n], p)
  {
    assert done + ([n] + p.nodes) == done + [n] + p.nodes;
  }

  lemma AppendedNone(file: Option<string>, write: bool)
    ensures Appended(file, [], write) == file
  {
    assert file.Some? ==> file.value + "" == file.value;
  }

  lemma AppendedNext(file: Option<string>, nodes: seq<string>, n: string, write: bool)
    ensures Appended(Appended(file, nodes, write), [n], write) == Appended(file, nodes + [n], write)
  {
    LinesNext(nodes, n);
    LinesNext([], n);
    assert [] + [n] == [n] && Lines([n]) == " " + n + "\n";
    if file.Some? {
      var l := " " + n + "\n";
      assert file.value + Lines(nodes) + l == file.value + (Lines(nodes) + l);
    }
  }

  lemma {:induction false} LinesNext(nodes: seq<string>, n: string)
    ensures Lines(nodes + [n]) == Lines(nodes) + (" " + n + "\n")
  {
    if nodes == [] {
      assert nodes + [n] == [n];
    } else {
      assert (nodes + [n])[1..] == nodes[1..] + [n];
      LinesNext(nodes[1..], n);
    }
  }

  // ---------------------------------------------------------------------------------------------
  // Reading the file back
  // ---------------------------------------------------------------------------------------------

  function Lead(nodes: seq<string>): string { if nodes == [] then "" else " " }

  function ItemsOf(nodes: seq<string>): (r: seq<Item>)
    ensures |r| == |nodes|
  {
    if nodes == [] then [] else [Item(nodes[0], "\n" + Lead(nodes[1..]))] + ItemsOf(nodes[1..])
  }

  lemma LaidStep(item: Item, items: seq<Item>, q: string)
    requires IsElement(item.node, q) && '<' !in item.gap && Laid(items, q)
    ensures Laid([item] + items, q)
  {
  }

  lemma NodesStep(item: Item, items: seq<Item>)
    ensures NodesOf([item] + items) == [item.node] + NodesOf(items)
  {
  }

  lemma {:induction false} ItemsLaid(nodes: seq<string>, q: string)
    requires AllElements(nodes, q)
    ensures Laid(ItemsOf(nodes), q) && NodesOf(ItemsOf(nodes)) == nodes
  {
    if nodes != [] {
      var item := Item(nodes[0], "\n" + Lead(nodes[1..]));
      ItemsLaid(nodes[1..], q);
      LaidStep(item, ItemsOf(nodes[1..]), q);
      NodesStep(item, ItemsOf(nodes[1..]));
    }
  }

  lemma JoinGap(n: string, lead: string, lines: string, foot: string, body: string)
    requires lines + foot == lead + body
    ensures (" " + n + "\n" + lines) + foot == " " + (n + (("\n" + lead) + body))
  {
    assert (" " + n + "\n" + lines) + foot == (" " + n + "\n") + (lines + foot);
    assert (" " + n + "\n") + (lead + body) == " " + (n + (("\n" + lead) + body));
  }

  /** The lines and the footer are a layout of the elements. */
  lemma {:induction false} FileBody(nodes: seq<string>, q: string)
    ensures Lines(nodes) + Footer(q) == Lead(nodes) + Body(ItemsOf(nodes), q, "\n")
  {
    if nodes != [] {
      FileBody(nodes[1..], q);
      var items := ItemsOf(nodes);
      assert items[1..] == ItemsOf(nodes[1..]);
      JoinGap(nodes[0], Lead(nodes[1..]), Lines(nodes[1..]), Footer(q), Body(items[1..], q, "\n"));
    }
  }

  predicate PlainText(s: string) { '<' !in s && '>' !in s }

  lemma PrintIntPlain(n: int)
    ensures PlainText(PrintInt(n)) && 'h' !in PrintInt(n)
  {
  }

  lemma RangePlain(from: int, to: int)
    ensures PlainText(Range(from, to)) && 'h' !in Range(from, to)
  {
    PrintIntPlain(from);
    PrintIntPlain(to);
  }

  lemma AttrsPlain(from: int, to: int, hash: Option<string>)
    requires PlainText(PrintText(hash))
    ensures PlainText(Range(from, to) + HashAttr(hash))
  {
    RangePlain(from, to);
  }

  /** The start tag of the file gives back the hash that was printed into it. */
  lemma HashReadsBack(from: int, to: int, hash: Option<string>)
    requires '\'' !in PrintText(hash)
    ensures GetInfo(Range(from, to) + HashAttr(hash), "hash='", "'") == Some(PrintText(hash))
  {
    var h := PrintText(hash);
    RangePlain(from, to);
    HashBehind(Range(from, to), h);
  }

  lemma HashBehind(lead: string, h: string)
    requires 'h' !in lead && '\'' !in h
    ensures GetInfo(lead + ("hash='" + (h + "'")), "hash='", "'") == Some(h)
  {
    FoundBehind(lead, "hash='", h + "'");
    var s := lead + ("hash='" + (h + "'"));
    assert s[|lead| + 6..] == h + "'";
    FoundBehind(h, "'", "");
    assert h + ("'" + "") == h + "'";
    assert (h + "'")[..|h|] == h;
  }

  lemma TagReadsBack(q: string, attrs: string, rest: string)
    requires '>' !in attrs
    ensures GetInfo(StartTag(q) + (attrs + ">" + rest), StartTag(q), ">") == Some(attrs)
  {
    var open := StartTag(q);
    var s := open + (attrs + ">" + rest);
    assert s[0..|open|] == open;
    StrstrIs(s, open, 0);
    assert s[|open|..] == attrs + (">" + rest);
    FoundBehind(attrs, ">", rest);
    assert (attrs + (">" + rest))[..|attrs|] == attrs;
  }

  lemma SkipReadsBack(q: string, rest: string)
    ensures SkipStart(StartTag(q) + rest, q) == (q + " ") + rest
  {
    var s := StartTag(q) + rest;
    assert s[0..|StartTag(q)|] == StartTag(q);
    StrstrIs(s, StartTag(q), 0);
    assert s[1..] == (q + " ") + rest;
  }

  function FileText(q: string, from: int, to: int, hash: Option<string>, nodes: seq<string>): string
  {
    Header(q, from, to, hash) + Lines(nodes) + Footer(q)
  }

  lemma FileSplits(q: string, attrs: string, lines: string, foot: string)
    ensures (StartTag(q) + (attrs + ">\n")) + lines + foot == StartTag(q) + (attrs + ">" + ("\n" + (lines + foot)))
    ensures attrs + ">" + ("\n" + (lines + foot)) == (attrs + ">\n") + (lines + foot)
  {
  }

  lemma GapBefore(q: string, attrs: string, lead: string, body: string)
    ensures (q + " ") + ((attrs + ">\n") + (lead + body)) == ((q + " ") + (attrs + ">\n") + lead) + body
  {
  }

  /** Cutting the file gives the elements written to it. */
  lemma FileCuts(q: string, from: int, to: int, hash: Option<string>, nodes: seq<string>)
    requires PlainName(q) && PlainText(PrintText(hash)) && AllElements(nodes, q)
    ensures Cut(SkipStart(FileText(q, from, to, hash, nodes), q), q, 0, 0, false) == Parsed(nodes, true)
  {
    var attrs := Range(from, to) + HashAttr(hash);
    AttrsPlain(from, to, hash);
    FileSplits(q, attrs, Lines(nodes), Footer(q));
    SkipReadsBack(q, (attrs + ">\n") + (Lines(nodes) + Footer(q)));
    FileBody(nodes, q);
    ItemsLaid(nodes, q);
    var gap := (q + " ") + (attrs + ">\n") + Lead(nodes);
    GapBefore(q, attrs, Lead(nodes), Body(ItemsOf(nodes), q, "\n"));
    CutItems(gap, ItemsOf(nodes), q, "\n", 0, 0, false);
  }

  lemma FileTag(q: string, from: int, to: int, hash: Option<string>, nodes: seq<string>)
    requires PlainText(PrintText(hash))
    ensures FileText(q, from, to, hash, nodes) != ""
    ensures GetInfo(FileText(q, from, to, hash, nodes), StartTag(q), ">") == Some(Range(from, to) + HashAttr(hash))
  {
    var attrs := Range(from, to) + HashAttr(hash);
    AttrsPlain(from, to, hash);
    FileSplits(q, attrs, Lines(nodes), Footer(q));
    TagReadsBack(q, attrs, "\n" + (Lines(nodes) + Footer(q)));
  }

  lemma LoadOf(c: Config, s: Cache, text: string, tag: string, hash: string, nodes: seq<string>)
    requires c.caching && c.hasReset && s.disk == Some(text) && text != ""
    requires GetInfo(text, StartTag(c.q), ">") == Some(tag) && GetInfo(tag, "hash='", "'") == Some(hash)
    requires Cut(SkipStart(text, c.q), c.q, 0, 0, false) == Parsed(nodes, true)
    ensures DoLoad(c, s) == (s.(hash := Some(hash), container := nodes), true)
  {
    assert [] + nodes == nodes;
  }

  /** Loading the file: the elements in it, and the hash of its start tag. */
  lemma FileLoads(c: Config, s: Cache, from: int, to: int, hash: Option<string>, nodes: seq<string>)
    requires c.caching && c.hasReset && PlainName(c.q)
    requires PlainText(PrintText(hash)) && '\'' !in PrintText(hash)
    requires AllElements(nodes, c.q)
    requires s.disk == Some(FileText(c.q, from, to, hash, nodes))
    ensures DoLoad(c, s) == (s.(hash := Some(PrintText(hash)), container := nodes), true)
  {
    FileTag(c.q, from, to, hash, nodes);
    HashReadsBack(from, to, hash);
    FileCuts(c.q, from, to, hash, nodes);
    LoadOf(c, s, FileText(c.q, from, to, hash, nodes), Range(from, to) + HashAttr(hash), PrintText(hash), nodes);
  }

  // ---------------------------------------------------------------------------------------------
  // Sessions
  // ---------------------------------------------------------------------------------------------

  /** What an answer brings, None for one that is dropped, and whether a file could be opened at that moment. */
  datatype Reply = Reply(data: Option<string>, opens: bool)

  /** The answers of a run of the program, to any number of requests; the second part says that none faulted. */
  function Session(c: Config, s: Cache, replies: seq<Reply>): (Cache, bool)
    decreases |replies|
  {
    if replies == [] then (s, true)
    else
      var r := DoAnswer(c, s, replies[0].data, replies[0].opens);
      if r.1 == Fault then (r.0, false) else Session(c, r.0, replies[1..])
  }

  /** A chunk that is taken up. */
  datatype Heard = Heard(k: Chunk, opens: bool)

  predicate TakenUp(k: Chunk) { k.code == CHUNK_MORE || k.code == CHUNK_END }

  function HeardIn(c: Config, replies: seq<Reply>): seq<Heard>
    decreases |replies|
  {
    if replies == [] then []
    else
      var rest := HeardIn(c, replies[1..]);
      match replies[0].data
      case None => rest
      case Some(d) =>
        if TakenUp(ChunkOf(c, d)) then [Heard(ChunkOf(c, d), replies[0].opens)] + rest else rest
  }

  function Hear(c: Config, s: Cache, hs: seq<Heard>): (Cache, bool)
    decreases |hs|
  {
    if hs == [] then (s, true)
    else
      var r := OnChunk(c, s, hs[0].k, hs[0].opens);
      if r.1 == Fault then (r.0, false) else Hear(c, r.0, hs[1..])
  }

  lemma HearFirst(c: Config, s: Cache, h: Heard, hs: seq<Heard>)
    ensures var r := OnChunk(c, s, h.k, h.opens);
      Hear(c, s, [h] + hs) == if r.1 == Fault then (r.0, false) else Hear(c, r.0, hs)
  {
    assert ([h] + hs)[1..] == hs;
  }

  /** Only the chunks that are taken up matter to the cache. */
  lemma {:induction false} SessionIsHeard(c: Config, s: Cache, replies: seq<Reply>)
    ensures Session(c, s, replies) == Hear(c, s, HeardIn(c, replies))
    decreases |replies|
  {
    if replies != [] {
      var data, opens := replies[0].data, replies[0].opens;
      var r := DoAnswer(c, s, data, opens);
      if r.1 != Fault {
        SessionIsHeard(c, r.0, replies[1..]);
      }
      if data.Some? && TakenUp(ChunkOf(c, data.value)) {
        HearFirst(c, s, Heard(ChunkOf(c, data.value), opens), HeardIn(c, replies[1..]));
      }
    }
  }

  /** Any number of MORE chunks and an END chunk. */
  predicate MoreThenEnd(ks: seq<Chunk>)
  {
    && ks != []
    && (forall i :: 0 <= i < |ks| - 1 ==> ks[i].code == CHUNK_MORE)
    && ks[|ks| - 1].code == CHUNK_END
  }

  /** Everything the parser is given by these chunks. */
  function AllNodes(ks: seq<Chunk>): seq<string>
  {
    if ks == [] then [] else ks[0].parsed.nodes + AllNodes(ks[1..])
  }

  function After(container: seq<string>, k: Chunk): seq<string>
  {
    (if k.from == 0 then [] else container) + k.parsed.nodes
  }

  /** What is left in the container: a chunk that starts at 0 empties it first. */
  function KeptNodes(container: seq<string>, ks: seq<Chunk>): seq<string>
    decreases |ks|
  {
    if ks == [] then container else KeptNodes(After(container, ks[0]), ks[1..])
  }

  lemma {:induction false} AllNodesNext(ks: seq<Chunk>, k: Chunk)
    ensures AllNodes(ks + [k]) == AllNodes(ks) + k.parsed.nodes
  {
    if ks == [] {
      assert ks + [k] == [k] && [k][1..] == [];
    } else {
      AllNodesNext(ks[1..], k);
      assert (ks + [k])[1..] == ks[1..] + [k];
    }
  }

  lemma {:induction false} KeptNext(container: seq<string>, ks: seq<Chunk>, k: Chunk)
    ensures KeptNodes(container, ks + [k]) == After(KeptNodes(container, ks), k)
    decreases |ks|
  {
    if ks == [] {
      assert ks + [k] == [k] && [k][1..] == [];
    } else {
      KeptNext(After(container, ks[0]), ks[1..], k);
      assert (ks + [k])[1..] == ks[1..] + [k];
    }
  }

  lemma {:induction false} LinesConcat(a: seq<string>, b: seq<string>)
    ensures Lines(a + b) == Lines(a) + Lines(b)
  {
    if a == [] {
      assert a + b == b;
    } else {
      assert (a + b)[1..] == a[1..] + b;
      LinesConcat(a[1..], b);
    }
  }

  // ---- what is asked for next

  lemma CodeIs(d: string, a: string, n: nat, rest: string)
    requires d == a + ("code='" + (Dec(n) + ("'" + rest))) && n < 0x8000_0000
    requires forall i :: 0 <= i < |a| ==> !OccursAt(d, "code='", i)
    ensures CodeOf(d) == n
  {
    IntOf(a, "code='", n, rest);
    FitsInt32(n);
  }

  lemma ToIs(d: string, a: string, n: nat, rest: string)
    requires d == a + ("to='" + (Dec(n) + ("'" + rest))) && n < 0x8000_0000
    requires forall i :: 0 <= i < |a| ==> !OccursAt(d, "to='", i)
    ensures ToOf(d) == n
  {
    IntOf(a, "to='", n, rest);
    FitsInt32(n);
  }

  lemma FromIs(d: string, a: string, n: nat, rest: string)
    requires d == a + ("from='" + (Dec(n) + ("'" + rest))) && n < 0x8000_0000
    requires forall i :: 0 <= i < |a| ==> !OccursAt(d, "from='", i)
    ensures FromOf(d) == n
  {
    IntOf(a, "from='", n, rest);
    FitsInt32(n);
  }

  /** An answer whose first code attribute prints n and whose first to attribute prints m. */
  ghost predicate Prints(d: string, n: nat, m: nat)
  {
    && (exists a: string, b: string {:trigger a + ("code='" + (Dec(n) + ("'" + b)))} ::
          d == a + ("code='" + (Dec(n) + ("'" + b))) && forall i :: 0 <= i < |a| ==> !OccursAt(d, "code='", i))
    && (exists a: string, b: string {:trigger a + ("to='" + (Dec(m) + ("'" + b)))} ::
          d == a + ("to='" + (Dec(m) + ("'" + b))) && forall i :: 0 <= i < |a| ==> !OccursAt(d, "to='", i))
  }

  lemma PrintsRead(d: string, n: nat, m: nat)
    requires Prints(d, n, m) && n < 0x8000_0000 && m < 0x8000_0000
    ensures CodeOf(d) == n && ToOf(d) == m
  {
    var a: string, b: string :| d == a + ("code='" + (Dec(n) + ("'" + b)))
      && forall i :: 0 <= i < |a| ==> !OccursAt(d, "code='", i);
    CodeIs(d, a, n, b);
    var e: string, f: string :| d == e + ("to='" + (Dec(m) + ("'" + f)))
      && forall i :: 0 <= i < |e| ==> !OccursAt(d, "to='", i);
    ToIs(d, e, m, f);
  }

  /**
    What follows an answer, by its text: code 1 tells the caller and leaves the cache as it is; code 2 asks
    for the chunk that starts at its to attribute and code 3 tells the caller, unless the cutting faults;
    any other code drops the request and leaves the cache as it is.
   */
  lemma AnswerAsks(c: Config, s: Cache, d: string, opens: bool, n: nat, m: nat)
    requires Prints(d, n, m) && n < 0x8000_0000 && m < 0x8000_0000
    ensures var (s', next) := DoAnswer(c, s, Some(d), opens);
      var cut := Cut(SkipStart(d, c.q), c.q, FromOf(d), m, c.caching);
      && (n == 1 ==> next == Called && s' == s)
      && (n == 2 ==> next == if cut.ok then Again(m) else Fault)
      && (n == 3 ==> next == if cut.ok then Called else Fault)
      && (n != 1 && n != 2 && n != 3 ==> next == Dropped && s' == s)
  {
    PrintsRead(d, n, m);
  }

  /** The numbers that the requests of a session ask from. */
  function Asked(c: Config, s: Cache, replies: seq<Reply>): seq<int>
    decreases |replies|
  {
    if replies == [] then []
    else
      var r := DoAnswer(c, s, replies[0].data, replies[0].opens);
      match r.1
      case Fault => []
      case Again(n) => [n] + Asked(c, r.0, replies[1..])
      case _ => Asked(c, r.0, replies[1..])
  }

  /** The ends of the chunks with the code 2. */
  function Ends(replies: seq<Reply>): seq<int>
  {
    if replies == [] then []
    else
      var rest := Ends(replies[1..]);
      if replies[0].data.Some? && CodeOf(replies[0].data.value) == 2 then [ToOf(replies[0].data.value)] + rest
      else rest
  }

  /** The server answers a request from n with a chunk from n, or the request is dropped. */
  predicate Serves(c: Config, s: Cache, replies: seq<Reply>, asked: Option<int>)
    decreases |replies|
  {
    replies != [] ==>
      var r := DoAnswer(c, s, replies[0].data, replies[0].opens);
      && (asked.Some? && replies[0].data.Some? ==> FromOf(replies[0].data.value) == asked.value)
      && Serves(c, r.0, replies[1..], if r.1.Again? then Some(r.1.from) else None)
  }

  lemma {:induction false} AskedAreEnds(c: Config, s: Cache, replies: seq<Reply>)
    requires Session(c, s, replies).1
    ensures Asked(c, s, replies) == Ends(replies)
    decreases |replies|
  {
    if replies != [] {
      AskedAreEnds(c, DoAnswer(c, s, replies[0].data, replies[0].opens).0, replies[1..]);
    }
  }

  /** The second reply goes on where the first one ended, if that asked for more. */
  predicate Meets(a: Reply, b: Reply)
  {
    a.data.Some? && b.data.Some? && CodeOf(a.data.value) == 2 ==> FromOf(b.data.value) == ToOf(a.data.value)
  }

  lemma MoreAsks(c: Config, s: Cache, d: string, opens: bool)
    requires CodeOf(d) == 2 && DoAnswer(c, s, Some(d), opens).1 != Fault
    ensures DoAnswer(c, s, Some(d), opens).1 == Again(ToOf(d))
  {
  }

  /** What the first reply of a session leaves to the rest. */
  lemma ServesRest(c: Config, s: Cache, replies: seq<Reply>, asked: Option<int>) returns (s': Cache, next: Option<int>)
    requires Session(c, s, replies).1 && Serves(c, s, replies, asked) && replies != []
    ensures Session(c, s', replies[1..]).1 && Serves(c, s', replies[1..], next)
    ensures replies[0].data.Some? && CodeOf(replies[0].data.value) == 2 ==>
      next == Some(ToOf(replies[0].data.value))
  {
    var r := DoAnswer(c, s, replies[0].data, replies[0].opens);
    s', next := r.0, if r.1.Again? then Some(r.1.from) else None;
    if replies[0].data.Some? && CodeOf(replies[0].data.value) == 2 {
      MoreAsks(c, s, replies[0].data.value, replies[0].opens);
    }
  }

  lemma FirstServes(c: Config, s: Cache, replies: seq<Reply>, n: int)
    requires Serves(c, s, replies, Some(n)) && replies != [] && replies[0].data.Some?
    ensures FromOf(replies[0].data.value) == n
  {
  }

  lemma {:induction false} ChunksMeet(c: Config, s: Cache, replies: seq<Reply>, asked: Option<int>, i: nat)
    requires Session(c, s, replies).1 && Serves(c, s, replies, asked) && i + 1 < |replies|
    ensures Meets(replies[i], replies[i + 1])
    decreases i
  {
    var s', next := ServesRest(c, s, replies, asked);
    if i > 0 {
      ChunksMeet(c, s', replies[1..], next, i - 1);
    } else if next.Some? && replies[1].data.Some? {
      FirstServes(c, s', replies[1..], next.value);
    }
  }

  /**
    The requests of any session ask for exactly the ends of its chunks with code 2, in order; and if the
    server answers a request from n with a chunk from n, every chunk starts where the one before it ended.
   */
  lemma ChunksAreContiguous(c: Config, s: Cache, replies: seq<Reply>)
    requires Session(c, s, replies).1
    ensures Asked(c, s, replies) == Ends(replies)
    ensures Serves(c, s, replies, None) ==> forall i :: 0 <= i < |replies| - 1 ==> Meets(replies[i], replies[i + 1])
  {
    AskedAreEnds(c, s, replies);
    if Serves(c, s, replies, None) {
      forall i | 0 <= i < |replies| - 1 ensures Meets(replies[i], replies[i + 1]) {
        ChunksMeet(c, s, replies, None, i);
      }
    }
  }

  // ---- which chunks a file holds

  /**
    The chunks in the open file, those in the last file that was completed and not opened again since,
    and whether the last chunk completed it.
   */
  datatype Files = Files(open: Option<seq<Chunk>>, last: Option<seq<Chunk>>, closed: bool)

  const NO_FILES: Files := Files(None, None, false)

  /** A chunk goes to the open file; with none open, only a chunk that starts at 0 opens one. */
  function Follow(f: Files, h: Heard): Files
  {
    if f.open.None? && !(h.k.from == 0 && h.opens) then f.(closed := false)
    else
      var ks := (if f.open.Some? then f.open.value else []) + [h.k];
      if h.k.code == CHUNK_END then Files(None, Some(ks), true) else Files(Some(ks), None, false)
  }

  function FollowAll(f: Files, hs: seq<Heard>): Files
    decreases |hs|
  {
    if hs == [] then f else FollowAll(Follow(f, hs[0]), hs[1..])
  }

  /** The files of a run of the program, which starts with none open. */
  function FilesOf(c: Config, replies: seq<Reply>): Files { FollowAll(NO_FILES, HeardIn(c, replies)) }

  /** What is cut is an element, and a hash ends at its quote. */
  predicate Sound(c: Config, k: Chunk)
  {
    AllElements(k.parsed.nodes, c.q) && '\'' !in PrintText(k.hash)
  }

  ghost predicate InWork(c: Config, ks: seq<Chunk>)
  {
    && ks != [] && ks[0].from == 0
    && forall i :: 0 <= i < |ks| ==> ks[i].code == CHUNK_MORE && Sound(c, ks[i])
  }

  ghost predicate Whole(c: Config, ks: seq<Chunk>)
  {
    MoreThenEnd(ks) && ks[0].from == 0 && forall i :: 0 <= i < |ks| ==> Sound(c, ks[i])
  }

  ghost predicate Shape(c: Config, f: Files)
  {
    && (f.open.Some? ==> InWork(c, f.open.value) && f.last.None?)
    && (f.last.Some? ==> Whole(c, f.last.value))
    && (f.closed ==> f.last.Some?)
  }

  lemma FollowShape(c: Config, f: Files, h: Heard)
    requires Shape(c, f) && TakenUp(h.k) && Sound(c, h.k)
    ensures Shape(c, Follow(f, h))
  {
    var ks := if f.open.Some? then f.open.value else [];
    assert forall i :: 0 <= i < |ks| ==> (ks + [h.k])[i] == ks[i];
  }

  /** What has been written while these chunks came in. */
  function Written(c: Config, ks: seq<Chunk>): string
    requires ks != []
  {
    Header(c.q, 0, ks[0].to, ks[0].hash) + Lines(AllNodes(ks))
  }

  /** The file they leave. */
  function FileOf(c: Config, ks: seq<Chunk>): string
    requires ks != []
  {
    FileText(c.q, 0, ks[0].to, ks[0].hash, AllNodes(ks))
  }

  /** Memory after these chunks, the first of which starts at 0. */
  ghost predicate Remembers(s: Cache, ks: seq<Chunk>)
    requires ks != []
  {
    s.container == KeptNodes([], ks) && s.hash == ks[|ks| - 1].hash
  }

  ghost predicate Represents(c: Config, f: Files, s: Cache)
    requires Shape(c, f)
  {
    && s.file == (if f.open.Some? then Some(Written(c, f.open.value)) else None)
    && (f.open.Some? ==> s.disk == Some("") && Remembers(s, f.open.value))
    && (f.last.Some? ==> s.disk == Some(FileOf(c, f.last.value)))
    && (f.closed ==> Remembers(s, f.last.value))
  }

  /** One chunk while the file is open. */
  lemma ChunkStep(c: Config, s: Cache, k: Chunk, opens: bool)
    requires c.caching && c.hasReset && s.file.Some? && TakenUp(k)
    requires OnChunk(c, s, k, opens).1 != Fault
    ensures var text := s.file.value + Lines(k.parsed.nodes);
      OnChunk(c, s, k, opens).0 ==
        if k.code == CHUNK_MORE then Cache(Some(text), s.disk, k.hash, After(s.container, k))
        else Cache(None, Some(text + Footer(c.q)), k.hash, After(s.container, k))
  {
  }

  lemma Rejoin(h: string, l: string, m: string)
    ensures (h + l) + m == h + (l + m)
  {
  }

  lemma WrittenNext(c: Config, ks: seq<Chunk>, k: Chunk)
    requires ks != []
    ensures Written(c, ks) + Lines(k.parsed.nodes) == Written(c, ks + [k])
    ensures FileOf(c, ks) == Written(c, ks) + Footer(c.q)
    ensures FileOf(c, ks + [k]) == Written(c, ks + [k]) + Footer(c.q)
  {
    AllNodesNext(ks, k);
    LinesConcat(AllNodes(ks), k.parsed.nodes);
    assert (ks + [k])[0] == ks[0];
    Rejoin(Header(c.q, 0, ks[0].to, ks[0].hash), Lines(AllNodes(ks)), Lines(k.parsed.nodes));
  }

  /** A chunk more in the open file. */
  lemma OpenFollows(c: Config, f: Files, s: Cache, h: Heard)
    requires c.caching && c.hasReset && TakenUp(h.k) && Sound(c, h.k)
    requires Shape(c, f) && Represents(c, f, s) && f.open.Some?
    requires OnChunk(c, s, h.k, h.opens).1 != Fault
    ensures Shape(c, Follow(f, h)) && Represents(c, Follow(f, h), OnChunk(c, s, h.k, h.opens).0)
  {
    FollowShape(c, f, h);
    ChunkStep(c, s, h.k, h.opens);
    WrittenNext(c, f.open.value, h.k);
    KeptNext([], f.open.value, h.k);
  }

  /** The chunk that opens a file, which is as if the file had been open with just its start tag. */
  lemma FirstChunk(c: Config, s: Cache, k: Chunk)
    requires c.caching && s.file.None? && k.from == 0 && TakenUp(k)
    ensures OnChunk(c, s, k, true) ==
            OnChunk(c, s.(file := Some(Header(c.q, 0, k.to, k.hash)), disk := Some("")), k, true)
  {
  }

  lemma OnlyChunk(c: Config, k: Chunk)
    ensures Written(c, [k]) == Header(c.q, 0, k.to, k.hash) + Lines(k.parsed.nodes)
    ensures FileOf(c, [k]) == Written(c, [k]) + Footer(c.q)
    ensures KeptNodes([], [k]) == After([], k)
  {
    assert [k][1..] == [] && k.parsed.nodes + [] == k.parsed.nodes;
    assert AllNodes([k]) == k.parsed.nodes;
  }

  lemma ClosedOpens(c: Config, f: Files, s: Cache, h: Heard)
    requires c.caching && c.hasReset && TakenUp(h.k) && Sound(c, h.k)
    requires Shape(c, f) && Represents(c, f, s) && f.open.None? && h.k.from == 0 && h.opens
    requires OnChunk(c, s, h.k, h.opens).1 != Fault
    ensures Shape(c, Follow(f, h)) && Represents(c, Follow(f, h), OnChunk(c, s, h.k, h.opens).0)
  {
    var s1 := s.(file := Some(Header(c.q, 0, h.k.to, h.k.hash)), disk := Some(""));
    FollowShape(c, f, h);
    FirstChunk(c, s, h.k);
    ChunkStep(c, s1, h.k, true);
    OnlyChunk(c, h.k);
    assert [] + [h.k] == [h.k] && After(s.container, h.k) == After([], h.k);
  }

  /** Without an open file a chunk that opens none leaves the disk alone. */
  lemma NoFileStep(c: Config, s: Cache, k: Chunk, opens: bool)
    requires s.file.None? && !(k.from == 0 && opens)
    ensures OnChunk(c, s, k, opens).0.file.None? && OnChunk(c, s, k, opens).0.disk == s.disk
  {
  }

  lemma HeardFollows(c: Config, f: Files, s: Cache, h: Heard)
    requires c.caching && c.hasReset && TakenUp(h.k) && Sound(c, h.k)
    requires Shape(c, f) && Represents(c, f, s)
    requires OnChunk(c, s, h.k, h.opens).1 != Fault
    ensures Shape(c, Follow(f, h)) && Represents(c, Follow(f, h), OnChunk(c, s, h.k, h.opens).0)
  {
    if f.open.Some? {
      OpenFollows(c, f, s, h);
    } else if h.k.from == 0 && h.opens {
      ClosedOpens(c, f, s, h);
    } else {
      NoFileStep(c, s, h.k, h.opens);
    }
  }

  lemma UpToQuote(input: string, open: string)
    requires GetInfo(input, open, "'").Some?
    ensures '\'' !in GetInfo(input, open, "'").value
  {
    var rest := input[Strstr(input, open).value + |open|..];
    StrstrChar(rest, '\'');
  }

  lemma NoQuoteInHash(d: string)
    ensures '\'' !in PrintText(HashOf(d))
  {
    if HashOf(d).Some? {
      UpToQuote(d, "hash='");
    }
  }

  lemma ElementsConcat(a: seq<string>, b: seq<string>, q: string)
    requires AllElements(a, q) && AllElements(b, q)
    ensures AllElements(a + b, q)
  {
  }

  lemma ChunkIsSound(c: Config, d: string)
    ensures Sound(c, ChunkOf(c, d))
  {
    CutGivesElements(SkipStart(d, c.q), c.q, FromOf(d), ToOf(d), c.caching);
    NoQuoteInHash(d);
  }

  ghost predicate AllSound(c: Config, hs: seq<Heard>)
  {
    forall i :: 0 <= i < |hs| ==> TakenUp(hs[i].k) && Sound(c, hs[i].k)
  }

  lemma SoundFirst(c: Config, h: Heard, hs: seq<Heard>)
    requires TakenUp(h.k) && Sound(c, h.k) && AllSound(c, hs)
    ensures AllSound(c, [h] + hs)
  {
  }

  lemma {:induction false} HeardIsSound(c: Config, replies: seq<Reply>)
    ensures AllSound(c, HeardIn(c, replies))
    decreases |replies|
  {
    if replies != [] {
      var data, rest := replies[0].data, HeardIn(c, replies[1..]);
      HeardIsSound(c, replies[1..]);
      if data.Some? && TakenUp(ChunkOf(c, data.value)) {
        ChunkIsSound(c, data.value);
        SoundFirst(c, Heard(ChunkOf(c, data.value), replies[0].opens), rest);
      }
    }
  }

  lemma {:induction false} HearFollows(c: Config, f: Files, s: Cache, hs: seq<Heard>)
    requires c.caching && c.hasReset && AllSound(c, hs)
    requires Shape(c, f) && Represents(c, f, s) && Hear(c, s, hs).1
    ensures Shape(c, FollowAll(f, hs)) && Represents(c, FollowAll(f, hs), Hear(c, s, hs).0)
    decreases |hs|
  {
    if hs != [] {
      HeardFollows(c, f, s, hs[0]);
      HearFollows(c, Follow(f, hs[0]), OnChunk(c, s, hs[0].k, hs[0].opens).0, hs[1..]);
    }
  }

  lemma {:induction false} SessionFollows(c: Config, s: Cache, replies: seq<Reply>)
    requires c.caching && c.hasReset && s.file.None? && Session(c, s, replies).1
    ensures Shape(c, FilesOf(c, replies)) && Represents(c, FilesOf(c, replies), Session(c, s, replies).0)
  {
    HeardIsSound(c, replies);
    SessionIsHeard(c, s, replies);
    HearFollows(c, NO_FILES, s, HeardIn(c, replies));
  }

  /**
    The files of any run of the program, whatever answers came and however many requests were dropped: the
    open file holds the start tag of the chunk that opened it and a line for each element since; the last
    file completed holds that and the end tag, until another one is opened.
   */
  lemma SessionFile(c: Config, s: Cache, replies: seq<Reply>)
    requires c.caching && c.hasReset && s.file.None? && Session(c, s, replies).1
    ensures var f, s' := FilesOf(c, replies), Session(c, s, replies).0;
      && (f.open.Some? ==> InWork(c, f.open.value) && s'.file == Some(Written(c, f.open.value)) && s'.disk == Some(""))
      && (f.open.None? ==> s'.file == None)
      && (f.last.Some? ==> Whole(c, f.last.value) && s'.disk == Some(FileOf(c, f.last.value)))
  {
    SessionFollows(c, s, replies);
  }

  // ---- where these chunks come from

  function Chunks(hs: seq<Heard>): (ks: seq<Chunk>)
    ensures |ks| == |hs| && forall i :: 0 <= i < |hs| ==> ks[i] == hs[i].k
  {
    seq(|hs|, i requires 0 <= i < |hs| => hs[i].k)
  }

  /** The chunks of the open file come last, those of the completed file lie somewhere, in one piece. */
  ghost predicate Pieces(f: Files, heard: seq<Chunk>)
  {
    && (f.open.Some? ==> IsSuffix(heard, f.open.value))
    && (f.last.Some? ==> exists n :: 0 <= n <= |heard| && IsSuffix(heard[..n], f.last.value))
    && (f.closed ==> f.last.Some? && IsSuffix(heard, f.last.value))
  }

  predicate IsSuffix(s: seq<Chunk>, e: seq<Chunk>) { |e| <= |s| && s[|s| - |e|..] == e }

  lemma SuffixNext(s: seq<Chunk>, e: seq<Chunk>, k: Chunk)
    requires IsSuffix(s, e)
    ensures IsSuffix(s + [k], e + [k])
  {
    assert (s + [k])[|s| - |e|..] == s[|s| - |e|..] + [k];
  }

  lemma PiecesNext(f: Files, heard: seq<Chunk>, h: Heard)
    requires Pieces(f, heard)
    ensures Pieces(Follow(f, h), heard + [h.k])
  {
    var all, f' := heard + [h.k], Follow(f, h);
    if f.open.None? && !(h.k.from == 0 && h.opens) {
      if f.last.Some? {
        var n :| 0 <= n <= |heard| && IsSuffix(heard[..n], f.last.value);
        assert all[..n] == heard[..n];
      }
    } else {
      SuffixNext(heard, if f.open.Some? then f.open.value else [], h.k);
      assert all[..|all|] == all;
    }
  }

  lemma {:induction false} PiecesAll(f: Files, before: seq<Chunk>, hs: seq<Heard>)
    requires Pieces(f, before)
    ensures Pieces(FollowAll(f, hs), before + Chunks(hs))
    decreases |hs|
  {
    if hs == [] {
      assert before + Chunks(hs) == before;
    } else {
      PiecesNext(f, before, hs[0]);
      PiecesAll(Follow(f, hs[0]), before + [hs[0].k], hs[1..]);
      assert before + Chunks(hs) == before + [hs[0].k] + Chunks(hs[1..]);
    }
  }

  /** The files of a run hold pieces of what the program took up; a file just completed holds the end of it. */
  lemma {:induction false} FilesArePieces(c: Config, replies: seq<Reply>)
    ensures Pieces(FilesOf(c, replies), Chunks(HeardIn(c, replies)))
  {
    PiecesAll(NO_FILES, [], HeardIn(c, replies));
    assert [] + Chunks(HeardIn(c, replies)) == Chunks(HeardIn(c, replies));
  }

  lemma FirstOf(hs: seq<Heard>)
    requires hs != []
    ensures Chunks(hs) == [hs[0].k] + Chunks(hs[1..]) && Chunks(hs)[1..] == Chunks(hs[1..])
  {
  }

  lemma TailToEnd(ks: seq<Chunk>)
    requires MoreThenEnd(ks)
    ensures if |ks| == 1 then ks[0].code == CHUNK_END else ks[0].code == CHUNK_MORE && MoreThenEnd(ks[1..])
  {
  }

  lemma FollowOpen(ks: seq<Chunk>, h: Heard)
    ensures Follow(Files(Some(ks), None, false), h) ==
            if h.k.code == CHUNK_END then Files(None, Some(ks + [h.k]), true) else Files(Some(ks + [h.k]), None, false)
  {
  }

  lemma FollowStep(f: Files, hs: seq<Heard>)
    requires hs != []
    ensures FollowAll(f, hs) == FollowAll(Follow(f, hs[0]), hs[1..])
  {
  }

  lemma FirstThenRest(ks: seq<Chunk>, cs: seq<Chunk>)
    requires cs != []
    ensures (ks + [cs[0]]) + cs[1..] == ks + cs
    ensures |cs| == 1 ==> ks + [cs[0]] == ks + cs
  {
  }

  lemma {:induction false} OpenToEnd(ks: seq<Chunk>, hs: seq<Heard>, cs: seq<Chunk>)
    requires cs == Chunks(hs) && MoreThenEnd(cs)
    ensures FollowAll(Files(Some(ks), None, false), hs) == Files(None, Some(ks + cs), true)
    decreases |hs|
  {
    FirstOf(hs);
    TailToEnd(cs);
    FirstThenRest(ks, cs);
    FollowStep(Files(Some(ks), None, false), hs);
    FollowOpen(ks, hs[0]);
    if |cs| == 1 {
      NothingMore(Files(None, Some(ks + cs), true), hs[1..]);
    } else {
      OpenToEnd(ks + [cs[0]], hs[1..], cs[1..]);
    }
  }

  lemma NothingMore(f: Files, hs: seq<Heard>)
    requires hs == []
    ensures FollowAll(f, hs) == f
  {
  }

  lemma FollowNone(h: Heard)
    requires h.k.from == 0 && h.opens
    ensures Follow(NO_FILES, h) ==
            if h.k.code == CHUNK_END then Files(None, Some([h.k]), true) else Files(Some([h.k]), None, false)
  {
    assert [] + [h.k] == [h.k];
  }

  lemma {:induction false} WholeDownload(hs: seq<Heard>)
    requires MoreThenEnd(Chunks(hs)) && hs[0].k.from == 0 && hs[0].opens
    ensures FollowAll(NO_FILES, hs) == Files(None, Some(Chunks(hs)), true)
  {
    FirstOf(hs);
    TailToEnd(Chunks(hs));
    FollowNone(hs[0]);
    if |hs| == 1 {
      NothingMore(Files(None, Some([hs[0].k]), true), hs[1..]);
      assert Chunks(hs) == [hs[0].k];
    } else {
      OpenToEnd([hs[0].k], hs[1..], Chunks(hs)[1..]);
    }
  }

  /** A download from 0 to END, with any answers that are dropped in between, is one file with all its chunks. */
  lemma {:induction false} DownloadEnds(c: Config, replies: seq<Reply>)
    requires var hs := HeardIn(c, replies);
      MoreThenEnd(Chunks(hs)) && hs[0].k.from == 0 && hs[0].opens
    ensures FilesOf(c, replies) == Files(None, Some(Chunks(HeardIn(c, replies))), true)
  {
    WholeDownload(HeardIn(c, replies));
  }

  // ---- loading what a session left

  lemma {:induction false} NodesAreElements(c: Config, ks: seq<Chunk>)
    requires forall i :: 0 <= i < |ks| ==> Sound(c, ks[i])
    ensures AllElements(AllNodes(ks), c.q)
  {
    if ks != [] {
      NodesAreElements(c, ks[1..]);
      ElementsConcat(ks[0].parsed.nodes, AllNodes(ks[1..]), c.q);
    }
  }

  /**
    The cached copy: after any run of the program, loading the last file it completed hands the parser
    exactly the elements that the chunks of that file handed it, in the same order, and gives the hash of
    the first of these chunks.
   */
  lemma CacheRoundTrip(c: Config, s: Cache, replies: seq<Reply>, later: Cache)
    requires c.caching && c.hasReset && PlainName(c.q) && s.file.None?
    requires Session(c, s, replies).1 && later.disk == Session(c, s, replies).0.disk
    requires var last := FilesOf(c, replies).last;
      last.Some? && (last.value != [] ==> PlainText(PrintText(last.value[0].hash)))
    ensures var ks := FilesOf(c, replies).last.value;
      ks != [] && DoLoad(c, later) == (later.(container := AllNodes(ks), hash := Some(PrintText(ks[0].hash))), true)
  {
    SessionFollows(c, s, replies);
    var ks := FilesOf(c, replies).last.value;
    NodesAreElements(c, ks);
    FileLoads(c, later, 0, ks[0].to, ks[0].hash, AllNodes(ks));
  }

  /** No element was handed over before a later chunk that starts at 0 again. */
  predicate NothingLost(container: seq<string>, ks: seq<Chunk>)
  {
    forall i :: 0 <= i < |ks| && ks[i].from == 0 ==> container + AllNodes(ks[..i]) == []
  }

  lemma {:induction false} KeptAtMost(container: seq<string>, ks: seq<Chunk>)
    ensures |KeptNodes(container, ks)| <= |container| + |AllNodes(ks)|
    decreases |ks|
  {
    if ks != [] {
      KeptAtMost(After(container, ks[0]), ks[1..]);
    }
  }

  lemma NothingLostStep(container: seq<string>, ks: seq<Chunk>)
    requires ks != []
    ensures NothingLost(container, ks) <==>
      (ks[0].from == 0 ==> container == []) && NothingLost(container + ks[0].parsed.nodes, ks[1..])
  {
    var n := ks[0].parsed.nodes;
    forall i | 0 <= i < |ks| - 1 ensures container + AllNodes(ks[..i + 1]) == (container + n) + AllNodes(ks[1..][..i]) {
      assert ks[..i + 1][1..] == ks[1..][..i];
    }
    assert AllNodes(ks[..0]) == [];
    if NothingLost(container, ks) {
      forall i | 0 <= i < |ks| - 1 && ks[1..][i].from == 0 ensures (container + n) + AllNodes(ks[1..][..i]) == [] {
        assert ks[i + 1].from == 0;
      }
    }
    if NothingLost(container + n, ks[1..]) && (ks[0].from == 0 ==> container == []) {
      forall i | 0 <= i < |ks| && ks[i].from == 0 ensures container + AllNodes(ks[..i]) == [] {
        assert 0 < i ==> ks[1..][i - 1].from == 0;
      }
    }
  }

  /** The container keeps everything exactly when no reset came after an element. */
  lemma {:induction false} KeptIsAll(container: seq<string>, ks: seq<Chunk>)
    ensures KeptNodes(container, ks) == container + AllNodes(ks) <==> NothingLost(container, ks)
    decreases |ks|
  {
    if ks == [] {
      assert container + [] == container;
    } else {
      var n := ks[0].parsed.nodes;
      NothingLostStep(container, ks);
      assert container + AllNodes(ks) == (container + n) + AllNodes(ks[1..]);
      if ks[0].from == 0 && container != [] {
        KeptAtMost(n, ks[1..]);
        assert After(container, ks[0]) == n;
      } else {
        assert After(container, ks[0]) == container + n;
        KeptIsAll(container + n, ks[1..]);
      }
    }
  }

  /**
    When the cached copy is the copy in memory, at the moment a file is completed in any run of the
    program: the elements agree exactly when no chunk of that file but the first with elements restarts
    at 0, and the hash agrees exactly when the last chunk carries the first one's.
   */
  lemma CachedCopyAgrees(c: Config, s: Cache, replies: seq<Reply>, later: Cache)
    requires c.caching && c.hasReset && PlainName(c.q) && s.file.None?
    requires Session(c, s, replies).1 && later.disk == Session(c, s, replies).0.disk
    requires var f := FilesOf(c, replies);
      f.closed && f.last.Some? && (f.last.value != [] ==> PlainText(PrintText(f.last.value[0].hash)))
    ensures var ks := FilesOf(c, replies).last.value;
      var memory, loaded := Session(c, s, replies).0, DoLoad(c, later).0;
      && ks != []
      && (memory.container == loaded.container <==> NothingLost([], ks))
      && (memory.hash == loaded.hash <==> ks[|ks| - 1].hash == Some(PrintText(ks[0].hash)))
  {
    var ks := FilesOf(c, replies).last.value;
    SessionFollows(c, s, replies);
    CacheRoundTrip(c, s, replies, later);
    KeptIsAll([], ks);
    assert [] + AllNodes(ks) == AllNodes(ks);
  }

  // ---------------------------------------------------------------------------------------------
  // A download that was interrupted
  // ---------------------------------------------------------------------------------------------

  /** Loading gives the hash and no element exactly when nothing is found to cut behind the start tag. */
  lemma LoadsNothing(c: Config, s: Cache, text: string, tag: string)
    requires c.caching && c.hasReset && s.disk == Some(text) && text != ""
    requires GetInfo(text, StartTag(c.q), ">") == Some(tag)
    ensures DoLoad(c, s) == (s.(hash := GetInfo(tag, "hash='", "'"), container := []), true) <==>
            NextNode(SkipStart(text, c.q), c.q).None?
  {
    var p := Cut(SkipStart(text, c.q), c.q, 0, 0, false);
    CutsNothing(SkipStart(text, c.q), c.q);
    LoadIs(c, s, text, tag, p);
    assert [] + p.nodes == p.nodes;
  }

  lemma LoadIs(c: Config, s: Cache, text: string, tag: string, p: Parsed)
    requires c.caching && c.hasReset && s.disk == Some(text) && text != ""
    requires GetInfo(text, StartTag(c.q), ">") == Some(tag) && Cut(SkipStart(text, c.q), c.q, 0, 0, false) == p
    ensures DoLoad(c, s) == (s.(hash := GetInfo(tag, "hash='", "'"), container := [] + p.nodes), p.ok)
  {
  }

  lemma CutsNothing(s: string, q: string)
    ensures Cut(s, q, 0, 0, false) == Parsed([], true) <==> NextNode(s, q).None?
  {
  }

  lemma NoTagNoEnd(s: string, q: string)
    requires '<' !in s
    ensures !Occurs(s, EndTag(q)) && NextNode(s, q).None?
  {
    assert EndTag(q)[0] == '<';
    Absent(s, EndTag(q), '<');
    StrstrChar(s, '<');
  }

  lemma PrefixOfElement(body: string, text: string, c: string)
    requires body <= text && !OccursAt(text, c, 0)
    ensures !OccursAt(body, c, 0)
  {
    assert |c| <= |body| ==> body[0..|c|] == text[0..|c|];
  }

  /** Behind a text without tags, the beginning of an element is cut exactly when an end tag follows. */
  lemma NextOfPart(gap: string, body: string, q: string)
    requires '<' !in gap && body != "" && body[0] == '<' && !OccursAt(body, EndTag(q), 0)
    ensures NextNode(gap + body, q).None? <==> !Occurs(body, EndTag(q))
  {
    NextAfterGap(gap, body, q);
  }

  lemma OccursBehind(gap: string, body: string, q: string)
    requires '<' !in gap
    ensures Occurs(gap + body, EndTag(q)) <==> Occurs(body, EndTag(q))
  {
    assert EndTag(q)[0] == '<';
    NoStartWithoutFirst(gap, body, EndTag(q));
    StrstrSkip(gap, body, EndTag(q));
  }

  lemma LinesStart(nodes: seq<string>, part: string) returns (rest: string, body: string)
    requires nodes != [] && part <= Lines(nodes) && part != "" && nodes[0] != ""
    ensures part == " " + body && body <= nodes[0] + rest && Lines(nodes) == " " + (nodes[0] + rest)
  {
    rest := "\n" + Lines(nodes[1..]);
    assert Lines(nodes) == " " + (nodes[0] + rest);
    body := part[1..];
    assert part[0] == Lines(nodes)[0];
    assert body == Lines(nodes)[1..][..|body|];
  }

  lemma ShortPart(nodes: seq<string>, part: string)
    requires part <= Lines(nodes) && (|part| <= 1 || nodes == [])
    ensures '<' !in part
  {
    assert part != "" ==> part[0] == Lines(nodes)[0];
  }

  /** The beginning of an element is not the end tag. */
  lemma BodyIsNotEnd(n: string, rest: string, body: string, q: string)
    requires IsElement(n, q) && PlainName(q) && body <= n + rest && body != ""
    ensures body[0] == '<' && !OccursAt(body, EndTag(q), 0)
  {
    assert body[0] == (n + rest)[0];
    NotEndTag(n, q, rest);
    PrefixOfElement(body, n + rest, EndTag(q));
  }

  lemma NextBehindBlank(gap: string, body: string, q: string)
    requires '<' !in gap && body != "" && body[0] == '<' && !OccursAt(body, EndTag(q), 0)
    ensures NextNode(gap + (" " + body), q).None? <==> !Occurs(" " + body, EndTag(q))
  {
    Associates(gap, " ", body);
    NextOfPart(gap + " ", body, q);
    OccursBehind(" ", body, q);
  }

  /** Any part of the lines behind the start tag: elements are cut exactly when an end tag is among them. */
  lemma NextInPart(gap: string, nodes: seq<string>, part: string, q: string)
    requires '<' !in gap && PlainName(q) && part <= Lines(nodes)
    requires AllElements(nodes, q)
    ensures NextNode(gap + part, q).None? <==> !Occurs(part, EndTag(q))
  {
    if |part| <= 1 || nodes == [] {
      ShortPart(nodes, part);
      NoTagNoEnd(gap + part, q);
      NoTagNoEnd(part, q);
    } else {
      var rest, body := LinesStart(nodes, part);
      BodyIsNotEnd(nodes[0], rest, body, q);
      NextBehindBlank(gap, body, q);
    }
  }

  lemma DiffersAt(text: string, c: string, i: nat)
    requires i < |c| && (i < |text| ==> text[i] != c[i])
    ensures !OccursAt(text, c, 0)
  {
    if OccursAt(text, c, 0) {
      CharOf(text, c, 0, i);
    }
  }

  /** The end tag is not in the start tag of the file. */
  lemma HeaderHasNoEnd(q: string, attrs: string, part: string)
    requires PlainName(q) && PlainText(attrs) && attrs != ""
    ensures Occurs(StartTag(q) + (attrs + ">\n" + part), EndTag(q)) <==> Occurs(part, EndTag(q))
  {
    var behind := q + " " + (attrs + ">\n");
    var text := StartTag(q) + (attrs + ">\n" + part);
    assert text == "<" + (behind + part) && '<' !in behind;
    assert text[|q| + 2] == attrs[0] && EndTag(q)[|q| + 2] == '>';
    DiffersAt(text, EndTag(q), |q| + 2);
    OccursBehind(behind, part, q);
    StrstrSkip("<", behind + part, EndTag(q));
  }

  lemma HeaderSplits(q: string, attrs: string, part: string)
    ensures (StartTag(q) + (attrs + ">\n")) + part == StartTag(q) + (attrs + ">" + ("\n" + part))
    ensures (StartTag(q) + (attrs + ">\n")) + part == StartTag(q) + (attrs + ">\n" + part)
    ensures (q + " ") + (attrs + ">\n" + part) == (q + " " + (attrs + ">\n")) + part
  {
  }

  lemma PartTag(q: string, attrs: string, part: string)
    requires PlainText(attrs)
    ensures GetInfo((StartTag(q) + (attrs + ">\n")) + part, StartTag(q), ">") == Some(attrs)
  {
    HeaderSplits(q, attrs, part);
    TagReadsBack(q, attrs, "\n" + part);
  }

  /** Behind the start tag of a file that was cut off, elements are found exactly when there is an end tag. */
  lemma PartNext(q: string, attrs: string, nodes: seq<string>, part: string)
    requires PlainName(q) && PlainText(attrs) && attrs != "" && AllElements(nodes, q) && part <= Lines(nodes)
    ensures var text := (StartTag(q) + (attrs + ">\n")) + part;
      NextNode(SkipStart(text, q), q).None? <==> !Occurs(text, EndTag(q))
  {
    HeaderSplits(q, attrs, part);
    SkipReadsBack(q, attrs + ">\n" + part);
    HeaderHasNoEnd(q, attrs, part);
    NextInPart(q + " " + (attrs + ">\n"), nodes, part, q);
  }

  /** Loading the beginning of a file, cut off anywhere behind its start tag. */
  lemma PartLoads(c: Config, later: Cache, to: int, hash: Option<string>, nodes: seq<string>, part: string)
    requires c.caching && c.hasReset && PlainName(c.q)
    requires PlainText(PrintText(hash)) && '\'' !in PrintText(hash)
    requires AllElements(nodes, c.q)
    requires part <= Lines(nodes) && later.disk == Some(Header(c.q, 0, to, hash) + part)
    ensures DoLoad(c, later) == (later.(hash := Some(PrintText(hash)), container := []), true) <==>
            !Occurs(later.disk.value, EndTag(c.q))
  {
    var attrs := Range(0, to) + HashAttr(hash);
    AttrsPlain(0, to, hash);
    HashReadsBack(0, to, hash);
    PartTag(c.q, attrs, part);
    PartNext(c.q, attrs, nodes, part);
    LoadsNothing(c, later, Header(c.q, 0, to, hash) + part, attrs);
  }

  lemma PartOf(w: string, head: string, t: string) returns (part: string)
    requires t <= head + w && |head| <= |t|
    ensures part <= w && t == head + part
  {
    part := t[|head|..];
    assert t == (head + w)[..|t|];
    assert part == w[..|part|];
    assert t[..|head|] == head;
  }

  /**
    An interrupted download: when the program ends while a file is open and any part t of it, from its
    start tag on, has reached the disk, the next start takes over the hash of the chunk that opened the
    file and no element at all exactly when no element in that part contains the end tag of the query.
   */
  lemma InterruptedDownload(c: Config, s: Cache, replies: seq<Reply>, t: string, later: Cache)
    requires c.caching && c.hasReset && PlainName(c.q) && s.file.None?
    requires Session(c, s, replies).1 && later.disk == Some(t)
    requires var open := FilesOf(c, replies).open;
      && open.Some? && open.value != [] && PlainText(PrintText(open.value[0].hash))
      && Header(c.q, 0, open.value[0].to, open.value[0].hash) <= t <= Written(c, open.value)
    ensures var ks := FilesOf(c, replies).open.value;
      && Session(c, s, replies).0.file == Some(Written(c, ks))
      && (DoLoad(c, later) == (later.(hash := Some(PrintText(ks[0].hash)), container := []), true) <==>
          !Occurs(t, EndTag(c.q)))
  {
    SessionFollows(c, s, replies);
    var ks := FilesOf(c, replies).open.value;
    NodesAreElements(c, ks);
    var part := PartOf(Lines(AllNodes(ks)), Header(c.q, 0, ks[0].to, ks[0].hash), t);
    PartLoads(c, later, ks[0].to, ks[0].hash, AllNodes(ks), part);
  }
}
