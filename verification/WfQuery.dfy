/**
  Query compression (src/xmpp_wf/tools.c), zlib under base64 (src/tools/zlibb64.c) and the readers
  that route a message (src/xmpp/tools.c).

  zlib is a parameter: decompression inverts compression even when other bytes follow the
  compressed data.
 */
module WfQuery {
  import opened CStrings
  import opened Base64

  const MAX_PLAIN_QUERY_SIZE: nat := 512

  const NS: string := "urn:cryonline:k01'>"
  const END_QUERY: string := "</query>"
  const END_IQ: string := "</iq>"
  const DATA: string := "compressedData='"
  const SIZE: string := "originalSize='"
  const NAME: string := "query_name='"
  const OPEN_DATA: string := "<data"

  /* ---- zlib and bytes ---- */

  datatype Zlib = Zlib(compress: seq<byte> -> seq<byte>,
                       uncompress: (seq<byte>, nat) -> Option<seq<byte>>)
  {
    ghost predicate Good()
    {
      forall data: seq<byte>, more: seq<byte> :: uncompress(compress(data) + more, |data|) == Some(data)
    }
  }

  /** Characters of a C string: no terminator inside, eight bits each. */
  predicate IsCString(s: string) { forall i :: 0 <= i < |s| ==> 0 < s[i] as int < 256 }

  function ToBytes(s: string): (bs: seq<byte>)
    requires IsCString(s)
    ensures |bs| == |s|
  {
    seq(|s|, i requires 0 <= i < |s| => s[i] as int)
  }

  function FromBytes(bs: seq<byte>): (s: string)
    ensures |s| == |bs|
  {
    seq(|bs|, i requires 0 <= i < |bs| => bs[i] as char)
  }

  lemma BytesRoundTrip(s: string)
    requires IsCString(s)
    ensures FromBytes(ToBytes(s)) == s && '\0' !in FromBytes(ToBytes(s))
  {
  }

  /** zlibb64encode */
  function ZlibB64Encode(z: Zlib, s: string): string
    requires IsCString(s)
  {
    Encode(z.compress(ToBytes(s)))
  }

  /** Fault stands for a read or write outside a block, or for reading uninitialised memory. */
  datatype Content = Null | Text(s: string) | Fault

  /** zlibb64decode, up to the terminator of the decompressed data. */
  function ZlibB64Decode(z: Zlib, input: string, inlength: nat, outlength: nat): Content
  {
    if !StaysInside(input) || |Decode(input)| > DecodeCapacity(inlength) then Fault
    else match z.uncompress(Decode(input), outlength)
      case None => Null
      case Some(data) =>
        if |data| != outlength then Fault
        else var s := FromBytes(data); Text(s[..Span(s, "\0")])
  }

  /* ---- wf_get_query_content ---- */

  function Requote(s: string): (r: string)
    ensures |r| == |s|
  {
    seq(|s|, i requires 0 <= i < |s| => if s[i] == '"' then '\'' else s[i])
  }

  /** Double quotes become single ones, and nothing else changes. */
  lemma RequoteIs(a: string, c: char, b: string)
    ensures Requote(a + "\"" + b) == Requote(a) + "'" + Requote(b)
    ensures c != '"' ==> Requote(a + [c] + b) == Requote(a) + [c] + Requote(b)
    ensures Requote("") == ""
  {
  }

  /** The data attribute, from the character after its opening quote, once the size is known. */
  function ReadData(z: Zlib, data: string, outsize: int): Content
  {
    match Strstr(data, "'")
    case None => Fault
    case Some(q) =>
      if outsize < 0 then Fault
      else match ZlibB64Decode(z, data, q + 1, outsize)
        case Text(s) => Text(Requote(s))
        case _ => Fault
  }

  function CompressedContent(z: Zlib, msg: string, data: string): Content
  {
    match Strstr(msg, SIZE)
    case None => Null
    case Some(m) => ReadData(z, data, Strtol(msg[m + |SIZE|..]))
  }

  /** What wf_get_query_content returns. */
  function QueryContent(z: Zlib, msg: string): Content
  {
    match Strstr(msg, DATA)
    case Some(k) => CompressedContent(z, msg, msg[k + |DATA|..])
    case None =>
      match GetInfo(msg, NS, END_QUERY)
      case None => Null
      case Some(content) => Text(content)
  }

  /** The content of a message without compressed data stands between the namespace and the end of the query. */
  lemma PlainContent(z: Zlib, a: string, content: string, b: string)
    requires var msg := a + ("urn:cryonline:k01'>" + (content + ("</query>" + b)));
      && !Occurs(msg, "compressedData='")
      && (forall i :: 0 <= i < |a| ==> !OccursAt(msg, "urn:cryonline:k01'>", i))
      && (forall i :: 0 <= i < |content| ==> !OccursAt(content + ("</query>" + b), "</query>", i))
    ensures QueryContent(z, a + ("urn:cryonline:k01'>" + (content + ("</query>" + b)))) == Text(content)
  {
    GetInfoOf(a, NS, content, END_QUERY, b);
  }

  /** The loop that replaces double quotes, in place and up to the terminator. */
  method RequoteInPlace(buf: array<char>, ghost s: string)
    requires |s| < buf.Length && buf[..|s|] == s && buf[|s|] == '\0' && '\0' !in s
    modifies buf
    ensures buf[..|s|] == Requote(s) && buf[|s|] == '\0'
  {
    var i := 0;
    while buf[i] != '\0'
      invariant i <= |s| && buf[|s|] == '\0'
      invariant forall j :: 0 <= j < i ==> buf[j] == Requote(s)[j]
      invariant forall j :: i <= j < |s| ==> buf[j] == s[j]
      decreases |s| - i
    {
      if buf[i] == '"' {
        buf[i] := '\'';
      }
      i := i + 1;
    }
  }

  /** zlibb64decode into a block of outlength + 1 characters. */
  method Inflate(z: Zlib, input: string, inlength: nat, outlength: nat)
    returns (status: Content, block: array<char>)
    requires '\0' !in input
    ensures status == ZlibB64Decode(z, input, inlength, outlength)
    ensures status.Text? ==> fresh(block) && |status.s| < block.Length == outlength + 1
    ensures status.Text? ==> block[..|status.s|] == status.s && block[|status.s|] == '\0' && '\0' !in status.s
  {
    block := new char[outlength + 1];
    var ok, bytes, size := Base64Decode(input, inlength);
    if !ok {
      return Fault, block;
    }
    var inflated := z.uncompress(bytes[..size], outlength);
    if inflated.None? {
      return Null, block;
    }
    if |inflated.value| != outlength {
      return Fault, block;
    }
    var s := FromBytes(inflated.value);
    forall i | 0 <= i < outlength {
      block[i] := s[i];
    }
    block[outlength] := '\0';
    var n := Span(s, "\0");
    assert block[..n] == s[..n];
    status := Text(s[..n]);
  }

  /** wf_get_query_content; block holds the text when there is one. */
  method GetQueryContent(z: Zlib, msg: string) returns (r: Content, block: array?<char>)
    requires '\0' !in msg
    ensures r == QueryContent(z, msg)
    ensures r.Text? && Strstr(msg, DATA).Some? ==>
            block != null && |r.s| < block.Length && block[..|r.s|] == r.s && block[|r.s|] == '\0'
  {
    block := null;
    var k := Strstr(msg, DATA);
    if k.None? {
      var content := GetInfo(msg, NS, END_QUERY);
      r := if content.None? then Null else Text(content.value);
      return;
    }
    var m := Strstr(msg, SIZE);
    if m.None? {
      return Null, null;
    }
    var data := msg[k.value + |DATA|..];
    var outsize := Strtol(msg[m.value + |SIZE|..]);
    var q := Strstr(data, "'");
    if q.None? || outsize < 0 {
      return Fault, null;
    }
    var status, ret := Inflate(z, data, q.value + 1, outsize);
    if !status.Text? {
      return Fault, null;
    }
    RequoteInPlace(ret, status.s);
    r, block := Text(Requote(status.s)), ret;
  }

  /* ---- wf_compress_query ---- */

  /** The pieces of a query worth compressing. */
  datatype Parts = Parts(prologue: string, name: string, query: string, args: string, epilogue: string)

  /** None on every early return of the source. */
  function Plan(iq: string): Option<Parts>
  {
    if |iq| < MAX_PLAIN_QUERY_SIZE then None
    else if Strstr(iq, "/></query>").Some? then None
    else match GetInfo(iq, NS, END_QUERY)
      case None => None
      case Some(query) =>
        match GetInfoFirst(query, "<", " />")
        case None => None
        case Some(name) =>
          if name == "data" then None
          else
            var args := GetInfoFirst(query, name, ">");
            var prologue := GetInfo(iq, "<", NS);
            var epilogue := GetInfo(iq, END_QUERY, END_IQ);
            if args.None? || prologue.None? || epilogue.None? then None
            else Some(Parts(prologue.value, name, query, args.value, epilogue.value))
  }

  /** Arguments that are too long are dropped; the '/' of a single tag is removed. */
  function TrimArgs(args: string): string
  {
    if |args| > MAX_PLAIN_QUERY_SIZE then ""
    else if args != "" && args[|args| - 1] == '/' then args[..|args| - 1]
    else args
  }

  /** Everything before the compressed data. */
  function Head(p: Parts): string
  {
    "<" + p.prologue + NS + OPEN_DATA + (" " + NAME + p.name + "'")
  }

  function Pack(z: Zlib, p: Parts): string
    requires IsCString(p.query)
  {
    Head(p) + [' '] + (DATA + ZlibB64Encode(z, p.query) + "'" + [' '] + Tail(p))
  }

  /** Everything after the compressed data. */
  function Tail(p: Parts): string
  {
    SIZE + (Dec(|p.query|) + After(p))
  }

  function After(p: Parts): (s: string)
    ensures s != "" && s[0] == '\''
  {
    "' " + TrimArgs(p.args) + " />" + END_QUERY + p.epilogue + END_IQ
  }

  lemma GetInfoSlice(input: string, open: string, close: string)
    requires IsCString(input)
    ensures var r := GetInfo(input, open, close);
      r.Some? ==> IsCString(r.value) && |r.value| <= |input|
  {
  }

  lemma QueryIsCString(iq: string)
    requires IsCString(iq) && Plan(iq).Some?
    ensures GetInfo(iq, NS, END_QUERY) == Some(Plan(iq).value.query)
    ensures IsCString(Plan(iq).value.query) && |Plan(iq).value.query| <= |iq|
  {
    GetInfoSlice(iq, NS, END_QUERY);
  }

  /** wf_compress_query */
  function CompressQuery(z: Zlib, iq: string): string
    requires IsCString(iq)
  {
    match Plan(iq)
    case None => iq
    case Some(p) => QueryIsCString(iq); Pack(z, p)
  }

  /* ---- content ---- */

  lemma Literals()
    ensures |DATA| == 16 && |SIZE| == 14 && ' ' !in DATA && ' ' !in SIZE
    ensures DATA[15] == '\'' && '\'' !in DATA[..15]
    ensures SIZE[13] == '\'' && SIZE[12] == '=' && SIZE[11] == 'e' && '\'' !in SIZE[..13]
    ensures DATA[2] == 'm' && SIZE[0] == 'o'
  {
  }

  /** The pattern ends with a quote behind "e=", and an encoding ends neither so nor with a quote. */
  lemma NoSizeAt(bs: seq<byte>, e: string, s: string, i: nat)
    requires e == Encode(bs) && s == DATA + e + "'" && '\'' !in e && i + 14 <= |s|
    requires |e| >= 2 && e[|e| - 1] == '=' ==> e[|e| - 2] != 'e'
    requires |e| < 2 ==> |e| == 0
    ensures !OccursAt(s, SIZE, i)
  {
    Literals();
    QuotesOf(e, i + 13);
    if OccursAt(s, SIZE, i) {
      SizeChars(s, i);
    }
  }

  lemma SizeChars(s: string, i: nat)
    requires OccursAt(s, SIZE, i)
    ensures i + 14 <= |s| && s[i] == 'o' && s[i + 11] == 'e' && s[i + 12] == '=' && s[i + 13] == '\''
  {
    Literals();
    CharOf(s, SIZE, i, 0);
    CharOf(s, SIZE, i, 11);
    CharOf(s, SIZE, i, 12);
    CharOf(s, SIZE, i, 13);
  }

  /** No attribute starting inside the compressed data can be taken for the original size. */
  lemma NoSizeInside(bs: seq<byte>)
    ensures !Occurs(DATA + Encode(bs) + "'", SIZE)
  {
    var e := Encode(bs);
    EncodingIsQuotable(bs);
    EncodedLength(bs);
    if |e| >= 2 && e[|e| - 1] == '=' {
      SinglePadding(bs);
    }
    forall i ensures !OccursAt(DATA + e + "'", SIZE, i) {
      if 0 <= i && i + 14 <= |DATA + e + "'"| {
        NoSizeAt(bs, e, DATA + e + "'", i);
      } else {
        Literals();
      }
    }
  }

  /** Where the quotes are. */
  lemma QuotesOf(e: string, j: nat)
    requires '\'' !in e && j < |DATA + e + "'"|
    ensures (DATA + e + "'")[j] == '\'' ==> j == 15 || j == 16 + |e|
  {
    Literals();
    assert j < 15 ==> DATA[..15][j] == (DATA + e + "'")[j];
    assert 16 <= j < 16 + |e| ==> (DATA + e + "'")[j] == e[j - 16];
  }

  /** The first occurrence after a head that has none, when a blank stands in between. */
  lemma AfterBlank(head: string, rest: string, p: string)
    requires p != "" && ' ' !in p && !Occurs(head, p)
    ensures Strstr(rest, p).None? ==> Strstr(head + [' '] + rest, p).None?
    ensures Strstr(rest, p).Some? ==> Strstr(head + [' '] + rest, p) == Some(|head| + 1 + Strstr(rest, p).value)
  {
    NoStartAcross(head, ' ', rest, p);
    StrstrSkip(head + [' '], rest, p);
  }

  lemma AtStart(p: string, rest: string)
    ensures Strstr(p + rest, p) == Some(0)
  {
    assert (p + rest)[0..|p|] == p;
    StrstrIs(p + rest, p, 0);
  }

  lemma FirstAttribute(head: string, p: string, rest: string)
    requires p != "" && ' ' !in p && !Occurs(head, p)
    ensures var msg := head + [' '] + (p + rest);
      Strstr(msg, p) == Some(|head| + 1) && msg[|head| + 1 + |p|..] == rest
  {
    AtStart(p, rest);
    AfterBlank(head, p + rest, p);
  }

  lemma SecondAttribute(head: string, mid: string, p: string, rest: string)
    requires p != "" && ' ' !in p && !Occurs(head, p) && !Occurs(mid, p)
    ensures var msg := head + [' '] + (mid + [' '] + (p + rest));
      Strstr(msg, p) == Some(|head| + |mid| + 2) && msg[|head| + |mid| + 2 + |p|..] == rest
  {
    FirstAttribute(mid, p, rest);
    AfterBlank(head, mid + [' '] + (p + rest), p);
    var inner := mid + [' '] + (p + rest);
    assert (head + [' '] + inner)[|head| + 1..] == inner;
    assert inner[|mid| + 1 + |p|..] == rest;
  }

  lemma QuoteFound(e: string, rest: string)
    requires '\'' !in e
    ensures Strstr(e + ("'" + rest), "'") == Some(|e|)
  {
    AtStart("'", rest);
    NoStartWithoutFirst(e, "'" + rest, "'");
    StrstrSkip(e, "'" + rest, "'");
  }

  /**
    Decoding the data attribute in place, from its first character to whatever follows the message:
    the compressed bytes come out first and the block allocated from the attribute's length holds
    everything.
   */
  lemma DataDecodes(bs: seq<byte>, name: string, tail: string)
    requires |name| == 14 && '=' !in name
    ensures var data := Encode(bs) + (name + ("=" + tail));
      && StaysInside(data)
      && |Decode(data)| <= DecodeCapacity(|Encode(bs)| + 1)
      && |bs| <= |Decode(data)| && Decode(data)[..|bs|] == bs
  {
    if |bs| % 3 == 0 {
      UnpaddedThenName(bs, name, tail);
      Associates(Encode(bs), name, "=" + tail);
    } else {
      PaddedThenText(bs, name + ("=" + tail));
      RoomForOneMore(bs);
    }
  }

  lemma RoomForOneMore(bs: seq<byte>)
    ensures |bs| <= DecodeCapacity(|Encode(bs)| + 1)
  {
    EncodedLength(bs);
  }

  /** Inflating the bytes that come out of the data attribute. */
  lemma Inflates(z: Zlib, query: string, name: string, tail: string)
    requires z.Good() && IsCString(query)
    requires |name| == 14 && '=' !in name
    ensures var e := ZlibB64Encode(z, query);
      ZlibB64Decode(z, e + (name + ("=" + tail)), |e| + 1, |query|) == Text(query)
  {
    var bs := z.compress(ToBytes(query));
    var data := Encode(bs) + (name + ("=" + tail));
    DataDecodes(bs, name, tail);
    BytesRoundTrip(query);
    InflatesDecoded(z, query, data, |Encode(bs)| + 1);
  }

  lemma InflatesDecoded(z: Zlib, query: string, data: string, inlength: nat)
    requires z.Good() && IsCString(query) && FromBytes(ToBytes(query)) == query
    requires StaysInside(data) && |Decode(data)| <= DecodeCapacity(inlength)
    requires var bs := z.compress(ToBytes(query)); |bs| <= |Decode(data)| && Decode(data)[..|bs|] == bs
    ensures ZlibB64Decode(z, data, inlength, |query|) == Text(query)
  {
    var bs := z.compress(ToBytes(query));
    var decoded := Decode(data);
    assert decoded == bs + decoded[|bs|..];
    assert query[..Span(query, "\0")] == query;
  }

  /** The text behind a quote and a blank, seen as the end of one attribute and a second one. */
  lemma SizeAttribute(tail: string)
    ensures var name := "' originalSize";
      |name| == 14 && '=' !in name && "'" + ([' '] + (SIZE + tail)) == name + ("=" + ("'" + tail))
  {
  }

  /** A packed query gives its content back, with double quotes turned into single ones. */
  lemma PackedContent(z: Zlib, p: Parts)
    requires z.Good() && IsCString(p.query) && |p.query| <= LONG_MAX
    requires !Occurs(Head(p), DATA) && !Occurs(Head(p), SIZE)
    ensures QueryContent(z, Pack(z, p)) == Text(Requote(p.query))
  {
    PackedAttributes(z, Head(p), p.query, After(p));
  }

  /** A message with both attributes, and the text that follows the opening quote of the first. */
  function Message(head: string, e: string, tail: string): string
  {
    head + [' '] + (DATA + e + "'" + [' '] + (SIZE + tail))
  }

  function DataText(e: string, tail: string): string { e + ("'" + ([' '] + (SIZE + tail))) }

  lemma DataFound(z: Zlib, head: string, e: string, tail: string)
    requires !Occurs(head, DATA)
    ensures var msg := Message(head, e, tail);
      QueryContent(z, msg) == CompressedContent(z, msg, DataText(e, tail))
  {
    Literals();
    assert DATA + e + "'" + [' '] + (SIZE + tail) == DATA + DataText(e, tail);
    FirstAttribute(head, DATA, DataText(e, tail));
  }

  lemma SizeFound(z: Zlib, head: string, bs: seq<byte>, tail: string, data: string)
    requires !Occurs(head, SIZE)
    ensures CompressedContent(z, Message(head, Encode(bs), tail), data) == ReadData(z, data, Strtol(tail))
  {
    SizeAttributeFound(head, bs, tail);
  }

  lemma SizeAttributeFound(head: string, bs: seq<byte>, tail: string)
    requires !Occurs(head, SIZE)
    ensures var msg := Message(head, Encode(bs), tail);
      Strstr(msg, SIZE).Some? && msg[Strstr(msg, SIZE).value + |SIZE|..] == tail
  {
    Literals();
    NoSizeInside(bs);
    SecondAttribute(head, DATA + Encode(bs) + "'", SIZE, tail);
  }

  lemma DataReads(z: Zlib, query: string, tail: string)
    requires z.Good() && IsCString(query)
    ensures ReadData(z, DataText(ZlibB64Encode(z, query), tail), |query|) == Text(Requote(query))
  {
    EncodingIsQuotable(z.compress(ToBytes(query)));
    QuoteFound(ZlibB64Encode(z, query), [' '] + (SIZE + tail));
    SizeAttribute(tail);
    Inflates(z, query, "' originalSize", "'" + tail);
  }

  lemma PackedAttributes(z: Zlib, head: string, query: string, after: string)
    requires z.Good() && IsCString(query) && |query| <= LONG_MAX
    requires !Occurs(head, DATA) && !Occurs(head, SIZE)
    requires after == "" || !IsDigit(after[0])
    ensures QueryContent(z, Message(head, ZlibB64Encode(z, query), Dec(|query|) + after)) == Text(Requote(query))
  {
    var e, tail := ZlibB64Encode(z, query), Dec(|query|) + after;
    DataFound(z, head, e, tail);
    SizeFound(z, head, z.compress(ToBytes(query)), tail, DataText(e, tail));
    StrtolOfDec(|query|, after);
    DataReads(z, query, tail);
  }

  /**
    Compression preserves content. When the query is compressed and the text that comes before the
    compressed data holds neither attribute, reading the message gives the query content with
    double quotes turned into single ones; otherwise the message is unchanged.
   */
  lemma CompressionPreservesContent(z: Zlib, iq: string)
    requires z.Good() && IsCString(iq) && |iq| <= LONG_MAX
    requires Plan(iq).Some? ==> !Occurs(Head(Plan(iq).value), DATA) && !Occurs(Head(Plan(iq).value), SIZE)
    ensures Plan(iq).None? ==> CompressQuery(z, iq) == iq
    ensures Plan(iq).Some? ==> GetInfo(iq, NS, END_QUERY).Some?
    ensures Plan(iq).Some? ==>
            QueryContent(z, CompressQuery(z, iq)) == Text(Requote(GetInfo(iq, NS, END_QUERY).value))
  {
    if Plan(iq).Some? {
      QueryIsCString(iq);
      PackedContent(z, Plan(iq).value);
    }
  }

  /* ---- the text of a packed message ---- */

  /** What the arguments become: nothing if they are longer than 512, else themselves without a '/' at the end. */
  function ShortArgs(args: string): string
  {
    if |args| > 512 then "" else if args != "" && args[|args| - 1] == '/' then args[..|args| - 1] else args
  }

  /** The three attributes that compression adds to the data tag. */
  function NewAttributes(name: string, data: string, size: nat): string
  {
    " query_name='" + name + "'" + " compressedData='" + data + "'" + " originalSize='" + Dec(size) + "'"
  }

  lemma PackSplits(z: Zlib, p: Parts, args: string)
    requires IsCString(p.query) && TrimArgs(p.args) == ShortArgs(args)
    ensures Pack(z, p) ==
      ("<" + p.prologue + "urn:cryonline:k01'>" + "<data")
      + (NewAttributes(p.name, ZlibB64Encode(z, p.query), |p.query|)
      + (" " + ShortArgs(args) + (" />" + ("</query>" + p.epilogue + "</iq>"))))
  {
    var h := "<" + p.prologue + NS + OPEN_DATA;
    var e, d := ZlibB64Encode(z, p.query), Dec(|p.query|);
    AttributesSplit(h, NAME, p.name, DATA, e, SIZE, d, ShortArgs(args), END_QUERY, p.epilogue, END_IQ);
    SpacedNames();
  }

  lemma SpacedNames()
    ensures " query_name='" == " " + NAME && " compressedData='" == [' '] + DATA && " originalSize='" == [' '] + SIZE
  {
  }

  lemma AttributesSplit(h: string, n: string, name: string, d: string, e: string, s: string, size: string,
      t: string, eq: string, epilogue: string, ei: string)
    ensures h + (" " + n + name + "'") + [' '] +
              (d + e + "'" + [' '] + (s + (size + ("' " + t + " />" + eq + epilogue + ei)))) ==
            h + ((" " + n) + name + "'" + ([' '] + d) + e + "'" + ([' '] + s) + size + "'"
              + (" " + t + (" />" + (eq + epilogue + ei))))
  {
    var tail := "' " + t + " />" + eq + epilogue + ei;
    assert tail == "'" + (" " + t + (" />" + (eq + epilogue + ei)));
  }

  /** The arguments of a query that starts with its name and with them. */
  lemma ArgsAre(query: string, name: string, args: string, rest: string)
    requires query == "<" + (name + (args + (">" + rest))) && '>' !in args
    requires name != "" && !OccursAt(query, name, 0)
    ensures GetInfoFirst(query, name, ">") == Some(args)
  {
    var behind := args + (">" + rest);
    FirstBehind("<", name, behind);
    DropFront("<", name, behind);
    SpanOf(args, '>', rest, ">");
    assert args + ['>'] + rest == behind;
    assert behind[..|args|] == args;
    ReadsTo(query, name, ">", behind);
  }

  lemma ReadsTo(input: string, open: string, stops: string, rest: string)
    requires Strstr(input, open).Some? && input[Strstr(input, open).value + |open|..] == rest
    requires Span(rest, stops) < |rest|
    ensures GetInfoFirst(input, open, stops) == Some(rest[..Span(rest, stops)])
  {
  }

  lemma PlanPieces(iq: string)
    requires Plan(iq).Some?
    ensures var p := Plan(iq).value;
      && 512 <= |iq| && p.name != "data"
      && GetInfo(iq, "<", "urn:cryonline:k01'>") == Some(p.prologue)
      && GetInfo(iq, "urn:cryonline:k01'>", "</query>") == Some(p.query)
      && GetInfoFirst(p.query, "<", " />") == Some(p.name)
      && GetInfoFirst(p.query, p.name, ">") == Some(p.args)
      && GetInfo(iq, "</query>", "</iq>") == Some(p.epilogue)
  {
  }

  /** Exactly which messages are packed. */
  lemma PackedWhen(iq: string)
    ensures Plan(iq).Some? <==>
      && 512 <= |iq| && !Occurs(iq, "/></query>")
      && GetInfo(iq, "<", "urn:cryonline:k01'>").Some? && GetInfo(iq, "</query>", "</iq>").Some?
      && var query := GetInfo(iq, "urn:cryonline:k01'>", "</query>");
      && query.Some?
      && var name := GetInfoFirst(query.value, "<", " />");
      && name.Some? && name.value != "data" && GetInfoFirst(query.value, name.value, ">").Some?
  {
  }

  /**
    The packed message, character by character: the text up to the namespace, a data tag with the name of
    the first tag, its content in zlib and base64, its length and the arguments of the first tag, and the
    text behind the query. Messages below 512 characters are not packed.
   */
  lemma PackedText(z: Zlib, iq: string, args: string, rest: string)
    requires IsCString(iq) && Plan(iq).Some?
    requires var p := Plan(iq).value;
      && p.query == "<" + (p.name + (args + (">" + rest))) && '>' !in args
      && p.name != "" && !OccursAt(p.query, p.name, 0)
    ensures 512 <= |iq|
    ensures var p := Plan(iq).value;
      && GetInfo(iq, "<", "urn:cryonline:k01'>") == Some(p.prologue)
      && GetInfo(iq, "urn:cryonline:k01'>", "</query>") == Some(p.query) && IsCString(p.query)
      && GetInfo(iq, "</query>", "</iq>") == Some(p.epilogue)
      && CompressQuery(z, iq) ==
         ("<" + p.prologue + "urn:cryonline:k01'>" + "<data")
         + (NewAttributes(p.name, ZlibB64Encode(z, p.query), |p.query|)
         + (" " + ShortArgs(args) + (" />" + ("</query>" + p.epilogue + "</iq>"))))
  {
    var p := Plan(iq).value;
    PlanPieces(iq);
    PackOf(z, iq, p);
    ArgsAre(p.query, p.name, args, rest);
    TrimIs(args);
    PackSplits(z, p, args);
  }

  lemma PackOf(z: Zlib, iq: string, p: Parts)
    requires IsCString(iq) && Plan(iq) == Some(p)
    ensures IsCString(p.query) && CompressQuery(z, iq) == Pack(z, p)
  {
    QueryIsCString(iq);
  }

  lemma TrimIs(args: string)
    ensures TrimArgs(args) == ShortArgs(args)
  {
  }

  /**
    An attribute of the first tag of the query reads the same on the data tag, if its pattern does not
    start in one of the new attributes and the arguments are not too long.
   */
  lemma AttributeKept(args: string, lead: string, more: string, open: string)
    requires |args| <= 512 && GetInfo(args, open, "'").Some?
    requires var behind := " " + ShortArgs(args) + (" />" + more);
      forall i :: 0 <= i < |lead| + 1 ==> !OccursAt(lead + behind, open, i)
    ensures GetInfo(lead + (" " + ShortArgs(args) + (" />" + more)), open, "'") == GetInfo(args, open, "'")
  {
    var t, u := ShortArgs(args), " />" + more;
    ShortReads(args, open);
    InfoStable(t, u, open, "'");
    Regrouped(lead, t, u);
    InfoBehind(lead + " ", t + u, open, "'");
  }

  lemma Regrouped(lead: string, t: string, u: string)
    ensures lead + (" " + t + u) == (lead + " ") + (t + u)
  {
  }

  /** Leaving out the '/' at the end of the arguments makes no difference to their attributes. */
  lemma ShortReads(args: string, open: string)
    requires |args| <= 512 && GetInfo(args, open, "'").Some?
    ensures GetInfo(ShortArgs(args), open, "'") == GetInfo(args, open, "'")
  {
    if ShortArgs(args) != args {
      assert args == ShortArgs(args) + ['/'];
      InfoWithoutLast(ShortArgs(args), '/', open, "'");
    }
  }

  /** Two names in front of the same "='" are the same. */
  lemma SameKey(k: string, key: string, u: string, v: string)
    requires '=' !in k && '=' !in key && k + ("=" + u) == key + ("=" + v)
    ensures k == key
  {
    var s := k + ("=" + u);
    assert s[|k|] == '=' && s[|key|] == '=';
    assert forall i :: 0 <= i < |k| ==> s[i] == k[i];
    assert forall i :: 0 <= i < |key| ==> s[i] == key[i];
    assert s[..|k|] == k && s[..|key|] == key;
  }

  /** A pattern for another name does not start in an attribute with blanks only in front. */
  lemma OtherAttribute(k: string, key: string, value: string, u: string)
    requires '=' !in k && '=' !in key && ' ' !in key && ' ' !in value && k != key
    ensures forall i :: 0 <= i < |" " + key + "='" + value + "'"| ==>
      !OccursAt((" " + key + "='" + value + "'") + u, " " + k + "='", i)
  {
    var a, open := " " + key + "='" + value + "'", " " + k + "='";
    var s := a + u;
    forall i | 0 <= i < |a| ensures !OccursAt(s, open, i) {
      assert s[i] == a[i] && (0 < i ==> a[i] != ' ');
      if OccursAt(s, open, i) {
        CharOf(s, open, i, 0);
        NotTheKey(k, key, value + "'" + u, s);
      }
    }
  }

  lemma NotTheKey(k: string, key: string, v: string, s: string)
    requires '=' !in k && '=' !in key && k != key && s == " " + key + "='" + v
    ensures !OccursAt(s, " " + k + "='", 0)
  {
    var open := " " + k + "='";
    if OccursAt(s, open, 0) {
      var rest := s[|open|..];
      assert s == s[0..|open|] + rest;
      assert s[1..] == k + ("=" + ("'" + rest)) && s[1..] == key + ("=" + ("'" + v));
      SameKey(k, key, "'" + rest, "'" + v);
    }
  }

  lemma NoStartJoined(a: string, b: string, u: string, p: string)
    requires forall i :: 0 <= i < |a| ==> !OccursAt(a + (b + u), p, i)
    requires forall i :: 0 <= i < |b| ==> !OccursAt(b + u, p, i)
    ensures forall i :: 0 <= i < |a + b| ==> !OccursAt((a + b) + u, p, i)
  {
    assert (a + b) + u == a + (b + u);
    forall i | |a| <= i < |a + b| ensures !OccursAt((a + b) + u, p, i) {
      OccursShift(a, b + u, p, i - |a|);
    }
  }

  lemma NewKeys()
    ensures '=' !in "query_name" && '=' !in "compressedData" && '=' !in "originalSize"
    ensures ' ' !in "query_name" && ' ' !in "compressedData" && ' ' !in "originalSize"
  {
  }

  lemma NewAttributesAre(name: string, data: string, size: nat)
    ensures NewAttributes(name, data, size) ==
      ((" " + "query_name" + "='" + name + "'") + (" " + "compressedData" + "='" + data + "'"))
      + (" " + "originalSize" + "='" + Dec(size) + "'")
  {
    NewPatterns();
    ThreeInRow(" query_name='", name, " compressedData='", data, " originalSize='", Dec(size));
  }

  lemma NewPatterns()
    ensures " query_name='" == " " + "query_name" + "='" && " compressedData='" == " " + "compressedData" + "='"
    ensures " originalSize='" == " " + "originalSize" + "='"
  {
  }

  lemma ThreeInRow(a: string, x: string, b: string, y: string, c: string, z: string)
    ensures a + x + "'" + b + y + "'" + c + z + "'" == ((a + x + "'") + (b + y + "'")) + (c + z + "'")
  {
  }

  /** The pattern of any other attribute, with the blank in front, does not start in the new attributes. */
  lemma OnlyNewNames(k: string, name: string, data: string, size: nat, u: string)
    requires '=' !in k && ' ' !in name && ' ' !in data
    requires k != "query_name" && k != "compressedData" && k != "originalSize"
    ensures var lead := NewAttributes(name, data, size);
      forall i :: 0 <= i < |lead| ==> !OccursAt(lead + u, " " + k + "='", i)
  {
    var open := " " + k + "='";
    var a, b := " " + "query_name" + "='" + name + "'", " " + "compressedData" + "='" + data + "'";
    var c := " " + "originalSize" + "='" + Dec(size) + "'";
    NewKeys();
    NewAttributesAre(name, data, size);
    OtherAttribute(k, "originalSize", Dec(size), u);
    OtherAttribute(k, "compressedData", data, c + u);
    OtherAttribute(k, "query_name", name, b + (c + u));
    NoStartJoined(a, b, c + u, open);
    NoStartJoined(a + b, c, u, open);
  }

  lemma NotAtBlank(k: string, lead: string, t: string)
    requires k != "" && k[0] != ' ' && t != "" && t[0] == ' '
    ensures !OccursAt(lead + (" " + t), " " + k + "='", |lead|)
  {
    var s, open := lead + (" " + t), " " + k + "='";
    assert s[|lead| + 1] == ' ' && open[1] == k[0];
    if OccursAt(s, open, |lead|) {
      CharOf(s, open, |lead|, 1);
    }
  }

  lemma BehindIsBlank(args: string, more: string)
    requires args == "" || args[0] == ' ' || args == "/"
    ensures var t := ShortArgs(args) + (" />" + more);
      t != "" && t[0] == ' ' && " " + ShortArgs(args) + (" />" + more) == " " + t
  {
  }

  /**
    So every attribute of the first tag, other than the three that are added, reads the same on the data
    tag when it is looked for with the blank in front.
   */
  lemma AttributesKept(k: string, name: string, data: string, size: nat, args: string, more: string)
    requires k != "" && '=' !in k && ' ' !in k && ' ' !in name && ' ' !in data
    requires k != "query_name" && k != "compressedData" && k != "originalSize"
    requires |args| <= 512 && args != "" && args[0] == ' ' && GetInfo(args, " " + k + "='", "'").Some?
    ensures GetInfo(NewAttributes(name, data, size) + (" " + ShortArgs(args) + (" />" + more)), " " + k + "='", "'") ==
            GetInfo(args, " " + k + "='", "'")
  {
    var lead := NewAttributes(name, data, size);
    BehindIsBlank(args, more);
    OnlyNewNames(k, name, data, size, " " + ShortArgs(args) + (" />" + more));
    NotAtBlank(k, lead, ShortArgs(args) + (" />" + more));
    AttributeKept(args, lead, more, " " + k + "='");
  }

  /** On the packed message: the data tag gives every other attribute of the first tag of the query. */
  lemma PackedKeepsAttributes(z: Zlib, iq: string, k: string, args: string, rest: string)
    returns (front: string, tag: string)
    requires IsCString(iq) && Plan(iq).Some?
    requires var p := Plan(iq).value;
      && p.query == "<" + (p.name + (args + (">" + rest))) && '>' !in args
      && p.name != "" && !OccursAt(p.query, p.name, 0)
    requires k != "" && '=' !in k && ' ' !in k
    requires k != "query_name" && k != "compressedData" && k != "originalSize"
    requires |args| <= 512 && args != "" && args[0] == ' ' && GetInfo(args, " " + k + "='", "'").Some?
    ensures front == "<" + Plan(iq).value.prologue + "urn:cryonline:k01'>" + "<data"
    ensures CompressQuery(z, iq) == front + tag
    ensures GetInfo(tag, " " + k + "='", "'") == GetInfo(args, " " + k + "='", "'")
  {
    var p := Plan(iq).value;
    PackedText(z, iq, args, rest);
    front := "<" + p.prologue + "urn:cryonline:k01'>" + "<data";
    var more := "</query>" + p.epilogue + "</iq>";
    tag := NewAttributes(p.name, ZlibB64Encode(z, p.query), |p.query|) + (" " + ShortArgs(args) + (" />" + more));
    NameHasNoBlank(p.query, p.name);
    EncodingIsQuotable(z.compress(ToBytes(p.query)));
    AttributesKept(k, p.name, ZlibB64Encode(z, p.query), |p.query|, args, more);
  }

  lemma NameHasNoBlank(query: string, name: string)
    requires GetInfoFirst(query, "<", " />") == Some(name)
    ensures ' ' !in name
  {
    assert "<" == ['<'] && ' ' in " />";
    GetInfoFirstHas(query, '<', " />");
  }

  /* ---- the readers that route a message ---- */

  datatype MsgType = Error | Get | Result

  /** The attributes of the first tag. */
  function FirstTag(msg: string): Option<string> { GetInfo(msg, "<", ">") }

  /** get_msg_id */
  function MsgId(msg: string): Option<string>
  {
    match FirstTag(msg)
    case None => None
    case Some(first) => GetInfo(first, "id='", "'")
  }

  function TypeAttribute(msg: string): Option<string>
  {
    match FirstTag(msg)
    case None => None
    case Some(first) => GetInfo(first, "type='", "'")
  }

  /** get_msg_type: anything but a result or an error counts as a get. */
  function MsgTypeOf(msg: string): MsgType
  {
    var t := TypeAttribute(msg);
    if t == Some("result") then (if Strstr(msg, "<error").None? then Result else Error)
    else if t == Some("error") then Error
    else Get
  }

  function NonEmpty(s: Option<string>): Option<string>
  {
    if s == Some("") then None else s
  }

  /** get_query_tag_name, after "<query": a data tag names the query it carries. */
  function NameInQuery(after: string): Option<string>
  {
    match Strstr(after, OPEN_DATA)
    case Some(k) => GetInfo(after[k + |OPEN_DATA|..], NAME, "'")
    case None => GetInfoFirst(after, "<", "/> ")
  }

  /** get_query_tag_name */
  function QueryTagName(msg: string): Option<string>
  {
    match Strstr(msg, "<iq")
    case None => NonEmpty(GetInfoFirst(msg, "<", "/> "))
    case Some(i) =>
      var inIq := msg[i + 3..];
      match Strstr(inIq, "<query")
      case None => NonEmpty(GetInfoFirst(inIq, "<", "/> "))
      case Some(q) => NonEmpty(NameInQuery(inIq[q + 6..]))
  }

  /** The name of the first tag behind the query tag. */
  lemma TagNameReads(msg: string, inIq: string, after: string, a: string, name: string, c: char, b: string)
    requires Strstr(msg, "<iq").Some? && msg[Strstr(msg, "<iq").value + 3..] == inIq
    requires Strstr(inIq, "<query").Some? && inIq[Strstr(inIq, "<query").value + 6..] == after
    requires after == a + ("<" + (name + [c] + b)) && '<' !in a && !Occurs(after, "<data")
    requires name != "" && c in "/> " && forall i :: 0 <= i < |name| ==> name[i] !in "/> "
    ensures QueryTagName(msg) == Some(name)
  {
    TagNameIs(after, a, name, c, b);
    NameBehindTags(msg, inIq, after);
  }

  lemma TagNameIs(after: string, a: string, name: string, c: char, b: string)
    requires after == a + ("<" + (name + [c] + b)) && '<' !in a && !Occurs(after, "<data")
    requires c in "/> " && forall i :: 0 <= i < |name| ==> name[i] !in "/> "
    ensures NameInQuery(after) == Some(name)
  {
    FirstNameIs(after, a, name, c, b);
  }

  lemma NameUpTo(name: string, c: char, b: string)
    ensures (name + [c] + b)[..|name|] == name
  {
  }

  /** Without a query tag, or outside an iq, the name is that of the first tag there. */
  lemma OtherNameReads(msg: string, after: string, a: string, name: string, c: char, b: string)
    requires after == a + ("<" + (name + [c] + b)) && '<' !in a
    requires name != "" && c in "/> " && forall i :: 0 <= i < |name| ==> name[i] !in "/> "
    requires (!Occurs(msg, "<iq") && msg == after) ||
      (Strstr(msg, "<iq").Some? && msg[Strstr(msg, "<iq").value + 3..] == after && !Occurs(after, "<query"))
    ensures QueryTagName(msg) == Some(name)
  {
    FirstNameIs(after, a, name, c, b);
  }

  lemma FirstNameIs(after: string, a: string, name: string, c: char, b: string)
    requires after == a + ("<" + (name + [c] + b)) && '<' !in a
    requires c in "/> " && forall i :: 0 <= i < |name| ==> name[i] !in "/> "
    ensures GetInfoFirst(after, "<", "/> ") == Some(name)
  {
    FoundBehind(a, "<", name + [c] + b);
    DropFront(a, "<", name + [c] + b);
    SpanOf(name, c, b, "/> ");
    NameUpTo(name, c, b);
    ReadsTo(after, "<", "/> ", name + [c] + b);
  }

  /** The name in a data tag is the one it was packed with. */
  lemma DataNameReads(msg: string, inIq: string, after: string, a: string, name: string, b: string)
    requires Strstr(msg, "<iq").Some? && msg[Strstr(msg, "<iq").value + 3..] == inIq
    requires Strstr(inIq, "<query").Some? && inIq[Strstr(inIq, "<query").value + 6..] == after
    requires Strstr(after, "<data").Some?
    requires after[Strstr(after, "<data").value + 5..] == a + ("query_name='" + (name + ("'" + b)))
    requires name != "" && '\'' !in name
    requires forall i :: 0 <= i < |a| ==> !OccursAt(a + ("query_name='" + (name + ("'" + b))), "query_name='", i)
    ensures QueryTagName(msg) == Some(name)
  {
    NoStartWithoutFirst(name, "'" + b, "'");
    GetInfoOf(a, "query_name='", name, "'", b);
    NameBehindTags(msg, inIq, after);
  }

  /** The first tag is what stands between the first '<' and the next '>'. */
  lemma FirstTagReads(front: string, tag: string, behind: string)
    requires '<' !in front && '>' !in tag
    ensures FirstTag(front + ("<" + (tag + (">" + behind)))) == Some(tag)
  {
    NoStartWithoutFirst(front, "<" + (tag + (">" + behind)), "<");
    NoStartWithoutFirst(tag, ">" + behind, ">");
    GetInfoOf(front, "<", tag, ">", behind);
  }

  /** The identifier is the first one of the first tag. */
  lemma IdReads(msg: string, a: string, id: string, b: string)
    requires FirstTag(msg) == Some(a + ("id='" + (id + ("'" + b)))) && '\'' !in id
    requires forall i :: 0 <= i < |a| ==> !OccursAt(a + ("id='" + (id + ("'" + b))), "id='", i)
    ensures MsgId(msg) == Some(id)
  {
    NoStartWithoutFirst(id, "'" + b, "'");
    GetInfoOf(a, "id='", id, "'", b);
  }

  /** A result is one without an error tag, an error says so, and everything else is a get. */
  lemma TypeReads(msg: string, a: string, kind: string, b: string)
    requires FirstTag(msg) == Some(a + ("type='" + (kind + ("'" + b)))) && '\'' !in kind
    requires forall i :: 0 <= i < |a| ==> !OccursAt(a + ("type='" + (kind + ("'" + b))), "type='", i)
    ensures MsgTypeOf(msg) ==
      if kind == "error" || (kind == "result" && Occurs(msg, "<error")) then Error
      else if kind == "result" then Result else Get
  {
    NoStartWithoutFirst(kind, "'" + b, "'");
    GetInfoOf(a, "type='", kind, "'", b);
  }

  /** The first tag, when the text behind the first '<' starts with x and x closes the tag. */
  lemma FirstTagIs(msg: string, k: nat, x: string, u: string)
    requires Strstr(msg, "<") == Some(k) && k + 1 <= |msg| && msg[k + 1..] == x + u
    requires Span(x, ">") < |x|
    ensures FirstTag(msg) == Some(x[..Span(x, ">")])
  {
    SpanStable(x, u, ">");
    StrstrChar(x + u, '>');
    assert ">" == ['>'];
    assert (x + u)[..Span(x, ">")] == x[..Span(x, ">")];
  }

  lemma ClosesTag(prologue: string)
    ensures Span(prologue + NS, ">") < |prologue + NS|
  {
    var x := prologue + NS;
    assert NS[18] == '>' && x[|prologue| + 18] == NS[18];
  }

  /** What stands between the namespace and the compressed data. */
  function DataTag(p: Parts): string { OPEN_DATA + (" " + NAME + p.name + "'") }

  lemma HeadStarts(c: string, prologue: string, n: string, o: string, a: string, b: string, x: string)
    ensures (c + prologue + n + o + a) + b + x == c + (prologue + n + ((o + a) + (b + x)))
  {
  }

  lemma PackStarts(z: Zlib, p: Parts) returns (u: string)
    requires IsCString(p.query)
    ensures Pack(z, p) == "<" + (p.prologue + NS + (DataTag(p) + u))
  {
    var attributes := DATA + ZlibB64Encode(z, p.query) + "'" + [' '] + Tail(p);
    u := [' '] + attributes;
    HeadStarts("<", p.prologue, NS, OPEN_DATA, " " + NAME + p.name + "'", [' '], attributes);
  }

  /** Both messages start with the same tag. */
  lemma FirstTagKept(z: Zlib, iq: string)
    requires IsCString(iq)
    ensures FirstTag(CompressQuery(z, iq)) == FirstTag(iq)
  {
    if Plan(iq).Some? {
      var p := Plan(iq).value;
      var k, rest := GetInfoSplits(iq, "<", NS);
      Associates(p.prologue, NS, rest);
      ClosesTag(p.prologue);
      FirstTagIs(iq, k, p.prologue + NS, rest);
      QueryIsCString(iq);
      var u := PackStarts(z, p);
      var packed := p.prologue + NS + (DataTag(p) + u);
      AtStart("<", packed);
      assert ("<" + packed)[1..] == packed;
      FirstTagIs("<" + packed, 0, p.prologue + NS, DataTag(p) + u);
    }
  }

  /** Compression keeps the identifier a reply is matched by, whatever the message. */
  lemma CompressionKeepsId(z: Zlib, iq: string)
    requires IsCString(iq)
    ensures MsgId(CompressQuery(z, iq)) == MsgId(iq)
  {
    FirstTagKept(z, iq);
  }

  const ERROR_TAG: string := "<error"

  /** A pattern without x occurs around an x exactly when it occurs on one of its sides. */
  lemma OccursAround(a: string, x: char, b: string, p: string)
    requires p != "" && x !in p
    ensures Occurs(a + [x] + b, p) <==> Occurs(a, p) || Occurs(b, p)
  {
    var s := a + [x] + b;
    if Occurs(a, p) {
      var i :| OccursAt(a, p, i);
      assert s[i..i + |p|] == a[i..i + |p|];
      assert OccursAt(s, p, i);
    }
    if Occurs(b, p) {
      var i :| OccursAt(b, p, i);
      OccursShift(a + [x], b, p, i);
    }
    if Occurs(s, p) && !Occurs(a, p) {
      var i :| OccursAt(s, p, i);
      NoStartAcross(a, x, b, p);
      OccursShift(a + [x], b, p, i - |a| - 1);
    }
  }

  lemma NoTag(s: string)
    requires '<' !in s
    ensures !Occurs(s, ERROR_TAG)
  {
    forall i | 0 <= i && i + 6 <= |s| ensures !OccursAt(s, ERROR_TAG, i) {
      assert s[i..i + 6][0] == s[i];
    }
  }

  lemma PlainAttributes(bs: seq<byte>, n: nat)
    ensures '<' !in DATA + Encode(bs) + "'" && '<' !in SIZE + Dec(n)
  {
    EncodingIsQuotable(bs);
  }

  /** An error element shows in the packed message exactly if it stands outside the compressed content. */
  lemma PackedShowsError(z: Zlib, p: Parts)
    requires IsCString(p.query)
    ensures Occurs(Pack(z, p), ERROR_TAG) <==> Occurs(Head(p), ERROR_TAG) || Occurs(After(p), ERROR_TAG)
  {
    var data := DATA + ZlibB64Encode(z, p.query) + "'";
    var size := SIZE + Dec(|p.query|);
    PlainAttributes(z.compress(ToBytes(p.query)), |p.query|);
    NoTag(data);
    NoTag(size);
    TailShows(size, After(p));
    assert Tail(p) == size + After(p);
    OccursAround(data, ' ', Tail(p), ERROR_TAG);
    OccursAround(Head(p), ' ', data + [' '] + Tail(p), ERROR_TAG);
  }

  lemma TailShows(size: string, after: string)
    requires !Occurs(size, ERROR_TAG) && after != "" && after[0] == '\''
    ensures Occurs(size + after, ERROR_TAG) <==> Occurs(after, ERROR_TAG)
  {
    OccursAround(size, '\'', after[1..], ERROR_TAG);
    OccursAround("", '\'', after[1..], ERROR_TAG);
    NoTag("");
    assert size + ['\''] + after[1..] == size + after;
    assert "" + ['\''] + after[1..] == after;
  }

  /**
    Compression keeps the type of a message exactly when it is not a packed result that shows its error
    element only inside the content: such a result no longer reads as an error.
   */
  lemma CompressionKeepsType(z: Zlib, iq: string)
    requires IsCString(iq)
    ensures MsgTypeOf(CompressQuery(z, iq)) == MsgTypeOf(iq) <==>
      (TypeAttribute(iq) == Some("result") && Plan(iq).Some? ==>
         var p := Plan(iq).value;
         Occurs(iq, ERROR_TAG) <==> Occurs(Head(p), ERROR_TAG) || Occurs(After(p), ERROR_TAG))
  {
    FirstTagKept(z, iq);
    if Plan(iq).Some? {
      QueryIsCString(iq);
      PackedShowsError(z, Plan(iq).value);
    }
  }

  /* ---- the name a message is dispatched by ---- */

  /** The end of a head h whose last open tag is the query tag of an iq; None for any other head. */
  function BehindQueryTag(h: string): (b: Option<string>)
    ensures b.Some? ==> '<' !in b.value
  {
    match Strstr(h, "<iq")
    case None => None
    case Some(i) =>
      var inIq := h[i + 3..];
      match Strstr(inIq, "<query")
      case None => None
      case Some(q) => if '<' in inIq[q + 6..] then None else Some(inIq[q + 6..])
  }

  /** A match inside x leaves what follows x behind it. */
  lemma FoundInside(x: string, u: string, p: string)
    requires Strstr(x, p).Some?
    ensures Strstr(x + u, p) == Strstr(x, p)
    ensures (x + u)[Strstr(x, p).value + |p|..] == x[Strstr(x, p).value + |p|..] + u
  {
    StrstrStable(x, u, p);
  }

  lemma NameBehindTags(msg: string, inIq: string, after: string)
    requires Strstr(msg, "<iq").Some? && msg[Strstr(msg, "<iq").value + 3..] == inIq
    requires Strstr(inIq, "<query").Some? && inIq[Strstr(inIq, "<query").value + 6..] == after
    ensures QueryTagName(msg) == NonEmpty(NameInQuery(after))
  {
  }

  /** The name of a message with such a head is read behind the query tag. */
  lemma NameBehindHead(h: string, u: string, b: string)
    requires BehindQueryTag(h) == Some(b)
    ensures QueryTagName(h + u) == NonEmpty(NameInQuery(b + u))
  {
    FoundInside(h, u, "<iq");
    NameInIq(h + u, h[Strstr(h, "<iq").value + 3..], u, b);
  }

  lemma NameInIq(msg: string, inIq: string, u: string, b: string)
    requires Strstr(msg, "<iq").Some? && msg[Strstr(msg, "<iq").value + 3..] == inIq + u
    requires Strstr(inIq, "<query").Some? && inIq[Strstr(inIq, "<query").value + 6..] == b
    ensures QueryTagName(msg) == NonEmpty(NameInQuery(b + u))
  {
    FoundInside(inIq, u, "<query");
    NameBehindTags(msg, inIq + u, b + u);
  }

  /** The name a data tag announces for a query: the attribute ends at the first quote. */
  function Announced(name: string): (r: string)
    ensures '\'' !in name <==> r == name
  {
    name[..Span(name, "'")]
  }

  lemma AnnouncedSplits(name: string, u: string) returns (v: string)
    ensures name + ("'" + u) == Announced(name) + ("'" + v)
  {
    var n := Span(name, "'");
    if n < |name| {
      v := name[n + 1..] + ("'" + u);
      QuoteAt(name, n);
    } else {
      v := u;
    }
  }

  lemma QuoteAt(name: string, n: nat)
    requires n < |name| && name[n] == '\''
    ensures forall u: string :: name + u == name[..n] + ("'" + (name[n + 1..] + u))
  {
  }

  /** The name announced by the data tag of a packed query. */
  lemma NameOfDataTag(gap: string, name: string, u: string)
    requires '<' !in gap
    ensures NameInQuery(gap + (OPEN_DATA + (" " + NAME + name + "'") + u)) == Some(Announced(name))
  {
    var v := AnnouncedSplits(name, u);
    var behind := " " + (NAME + (Announced(name) + ("'" + v)));
    assert OPEN_DATA + (" " + NAME + name + "'") + u == OPEN_DATA + (" " + (NAME + (name + ("'" + u))));
    assert OPEN_DATA[0] == '<' && NAME[0] == 'q';
    FoundBehind(gap, OPEN_DATA, behind);
    assert (gap + (OPEN_DATA + behind))[|gap| + |OPEN_DATA|..] == behind;
    NoStartWithoutFirst(" ", NAME + (Announced(name) + ("'" + v)), NAME);
    NoStartWithoutFirst(Announced(name), "'" + v, "'");
    GetInfoOf(" ", NAME, Announced(name), "'", v);
  }

  /** The name a text y gives to a query whose first tag is called name: a data tag comes first. */
  function NameFrom(y: string, name: string): Option<string>
  {
    match Strstr(y, OPEN_DATA)
    case Some(k) => GetInfo(y[k + |OPEN_DATA|..], NAME, "'")
    case None => Some(name)
  }

  /** Text without an opening angle bracket only shifts the search for a data tag. */
  lemma DataTagBehind(gap: string, y: string)
    requires '<' !in gap
    ensures Strstr(y, OPEN_DATA).None? ==> Strstr(gap + y, OPEN_DATA).None?
    ensures Strstr(y, OPEN_DATA).Some? ==>
      && Strstr(gap + y, OPEN_DATA).Some?
      && (gap + y)[Strstr(gap + y, OPEN_DATA).value + |OPEN_DATA|..] ==
         y[Strstr(y, OPEN_DATA).value + |OPEN_DATA|..]
  {
    assert OPEN_DATA[0] == '<';
    NoStartWithoutFirst(gap, y, OPEN_DATA);
    StrstrSkip(gap, y, OPEN_DATA);
    if Strstr(y, OPEN_DATA).Some? {
      DropBehind(gap, y, Strstr(y, OPEN_DATA).value + |OPEN_DATA|);
    }
  }

  lemma DropBehind(gap: string, y: string, n: nat)
    requires n <= |y|
    ensures (gap + y)[|gap| + n..] == y[n..]
  {
  }

  lemma NameInData(after: string, y: string, name: string)
    requires Strstr(after, OPEN_DATA).Some? && Strstr(y, OPEN_DATA).Some?
    requires after[Strstr(after, OPEN_DATA).value + |OPEN_DATA|..] == y[Strstr(y, OPEN_DATA).value + |OPEN_DATA|..]
    ensures NameInQuery(after) == NameFrom(y, name)
  {
  }

  lemma NameInTag(after: string, y: string, name: string)
    requires Strstr(after, OPEN_DATA).None? && Strstr(y, OPEN_DATA).None?
    requires GetInfoFirst(after, "<", "/> ") == Some(name)
    ensures NameInQuery(after) == NameFrom(y, name)
  {
  }

  /** The name read where no tag is open: that of the first data tag, else that of the first tag. */
  lemma NameOfQuery(gap: string, query: string, rest: string, name: string)
    requires '<' !in gap && GetInfoFirst(query, "<", " />") == Some(name)
    ensures NameInQuery(gap + (query + rest)) == NameFrom(query + rest, name)
  {
    DataTagBehind(gap, query + rest);
    if Strstr(query + rest, OPEN_DATA).Some? {
      NameInData(gap + (query + rest), query + rest, name);
    } else {
      assert "<" == ['<'];
      GetInfoFirstBehind(gap, query, rest, '<', " />", "/> ");
      NameInTag(gap + (query + rest), query + rest, name);
    }
  }

  /** The text of a message behind the namespace of its query. */
  function BehindNamespace(iq: string): string
  {
    match Strstr(iq, NS)
    case None => ""
    case Some(k) => iq[k + |NS|..]
  }

  /** The text before the first tag. */
  function BeforeTag(iq: string): (pre: string)
    ensures '<' !in pre
  {
    match Strstr(iq, "<")
    case None => ""
    case Some(k) => NoTagBefore(iq, k); iq[..k]
  }

  lemma NoTagBefore(iq: string, k: nat)
    requires Strstr(iq, "<") == Some(k)
    ensures k < |iq| && '<' !in iq[..k]
  {
    StrstrChar(iq, '<');
  }

  /** The first namespace is not before the first tag. */
  predicate NamespaceInside(iq: string)
  {
    Strstr(iq, "<").Some? && Strstr(iq, NS).Some? && Strstr(iq, "<").value < Strstr(iq, NS).value
  }

  /** So it is in every message that starts with its tag. */
  lemma StartsWithTag(iq: string)
    requires iq != "" && iq[0] == '<' && Strstr(iq, NS).Some?
    ensures NamespaceInside(iq)
  {
    assert iq[0..1] == "<" && NS[0] == 'u';
    StrstrIs(iq, "<", 0);
    CharOf(iq, NS, Strstr(iq, NS).value, 0);
  }

  /** A match behind a that is the first one there is the first one at all, if none starts in a. */
  lemma FirstBehindText(a: string, t: string, p: string, n: nat)
    requires Strstr(t, p) == Some(n) && Strstr(a + t, p).Some? && |a| <= Strstr(a + t, p).value
    ensures Strstr(a + t, p).value == |a| + n
  {
    OccursShift(a, t, p, n);
    OccursShift(a, t, p, Strstr(a + t, p).value - |a|);
  }

  lemma FirstAfterOpen(iq: string, close: string, prologue: string, k: nat)
    requires Strstr(iq, "<") == Some(k) && GetInfo(iq, "<", close) == Some(prologue) && k + 1 <= |iq|
    ensures Strstr(iq[k + 1..], close) == Some(|prologue|)
  {
  }

  lemma OpensAt(iq: string, k: nat)
    requires Strstr(iq, "<") == Some(k)
    ensures k < |iq| && iq == (iq[..k] + "<") + iq[k + 1..]
  {
    assert iq[k..k + 1] == "<";
  }

  /** A message around its first tag and the namespace. */
  lemma SplitsAtNamespace(iq: string, prologue: string)
    requires NamespaceInside(iq) && GetInfo(iq, "<", NS) == Some(prologue)
    ensures iq == (BeforeTag(iq) + "<") + (prologue + (NS + BehindNamespace(iq)))
  {
    var k, tail := GetInfoSplits(iq, "<", NS);
    OpensAt(iq, k);
    FirstAfterOpen(iq, NS, prologue, k);
    FirstBehindText(iq[..k] + "<", prologue + (NS + tail), NS, |prologue|);
    Associates(iq[..k] + "<", prologue, NS + tail);
    DropFront((iq[..k] + "<") + prologue, NS, tail);
  }

  /** The query stands behind the namespace. */
  lemma QueryBehind(iq: string, query: string) returns (rest: string)
    requires GetInfo(iq, NS, END_QUERY) == Some(query)
    ensures BehindNamespace(iq) == query + rest
  {
    var k, close := GetInfoSplits(iq, NS, END_QUERY);
    rest := END_QUERY + close;
  }

  lemma Regroup(c: string, prologue: string, n: string, y: string)
    ensures c + (prologue + (n + y)) == (c + prologue) + (n + y)
    ensures c + (prologue + n + y) == (c + prologue) + (n + y)
  {
  }

  lemma HeadOfTags(h: string, inIq: string, b: string)
    requires Strstr(h, "<iq").Some? && h[Strstr(h, "<iq").value + 3..] == inIq
    requires Strstr(inIq, "<query").Some? && inIq[Strstr(inIq, "<query").value + 6..] == b
    requires '<' !in b
    ensures BehindQueryTag(h) == Some(b)
  {
  }

  /** Text without tags in front of a head does not matter. */
  lemma HeadBehindText(pre: string, h: string)
    requires '<' !in pre && BehindQueryTag(h).Some?
    ensures BehindQueryTag(pre + h) == BehindQueryTag(h)
  {
    assert "<iq"[0] == '<';
    NoStartWithoutFirst(pre, h, "<iq");
    StrstrSkip(pre, h, "<iq");
    DropBehind(pre, h, Strstr(h, "<iq").value + 3);
    HeadOfTags(pre + h, h[Strstr(h, "<iq").value + 3..], BehindQueryTag(h).value);
  }

  /** The name read behind a plain head and the namespace. */
  lemma NameBehindNamespace(h: string, y: string) returns (gap: string)
    requires BehindQueryTag(h).Some?
    ensures '<' !in gap && QueryTagName(h + (NS + y)) == NonEmpty(NameInQuery(gap + y))
  {
    var b := BehindQueryTag(h).value;
    NameBehindHead(h, NS + y, b);
    gap := b + NS;
    assert '<' !in NS;
    Associates(b, NS, y);
  }

  /** A message in which the query tag of an iq is the last one open at the namespace. */
  predicate PlainHead(iq: string)
  {
    && NamespaceInside(iq)
    && GetInfo(iq, "<", NS).Some?
    && BehindQueryTag("<" + GetInfo(iq, "<", NS).value).Some?
  }

  /** The text of a data tag calls its query n: the first attribute with a name holds n, or n is empty. */
  predicate Names(tag: string, n: string)
  {
    match Strstr(tag, NAME)
    case None => n == ""
    case Some(k) => n + "'" <= tag[k + |NAME|..] || (n == "" && '\'' !in tag[k + |NAME|..])
  }

  /** A text up to its first quote is n exactly when it starts with n and a quote. */
  lemma QuotedIs(v: string, n: string)
    requires '\'' !in n
    ensures Strstr(v, "'").Some? ==> (v[..Strstr(v, "'").value] == n <==> n + "'" <= v)
    ensures Strstr(v, "'").None? <==> '\'' !in v
  {
    StrstrChar(v, '\'');
    if n + "'" <= v {
      assert v[..|n| + 1] == n + "'" && v[|n|] == '\'' && v[..|n|] == n;
      assert forall i :: 0 <= i < |n| ==> v[i] == n[i];
    }
    if Strstr(v, "'").Some? && v[..Strstr(v, "'").value] == n {
      assert v[..|n| + 1] == n + "'";
    }
  }

  lemma NameRead(tag: string, v: string)
    requires Strstr(tag, NAME).Some? && tag[Strstr(tag, NAME).value + |NAME|..] == v
    ensures GetInfo(tag, NAME, "'") == if Strstr(v, "'").Some? then Some(v[..Strstr(v, "'").value]) else None
  {
  }

  lemma NamesIs(tag: string, n: string)
    requires '\'' !in n
    ensures NonEmpty(GetInfo(tag, NAME, "'")) == NonEmpty(Some(n)) <==> Names(tag, n)
  {
    if Strstr(tag, NAME).Some? {
      var v := tag[Strstr(tag, NAME).value + |NAME|..];
      NameRead(tag, v);
      QuotedIs(v, n);
      assert '\'' !in v ==> !(n + "'" <= v) by {
        assert n + "'" <= v ==> v[|n|] == '\'';
      }
    }
  }

  /**
    The name announced for a query is the one read from the text y: without any data tag in y this is a
    matter of quotes, otherwise the first data tag must name the query so.
   */
  predicate StaysIn(y: string, name: string)
  {
    match Strstr(y, OPEN_DATA)
    case None => '\'' !in name
    case Some(k) => Names(y[k + |OPEN_DATA|..], Announced(name))
  }

  lemma StaysInIs(y: string, name: string)
    ensures NonEmpty(Some(Announced(name))) == NonEmpty(NameFrom(y, name)) <==> StaysIn(y, name)
  {
    if Strstr(y, OPEN_DATA).Some? {
      assert '\'' !in Announced(name);
      NamesIs(y[Strstr(y, OPEN_DATA).value + |OPEN_DATA|..], Announced(name));
    }
  }

  /** The name announced for the query is the one the message has, by the text behind its namespace. */
  predicate NameStays(iq: string, name: string) { StaysIn(BehindNamespace(iq), name) }

  /** The name of a packed query is the one its data tag announces. */
  lemma PackedTagName(z: Zlib, p: Parts)
    requires IsCString(p.query) && BehindQueryTag("<" + p.prologue).Some?
    ensures QueryTagName(Pack(z, p)) == NonEmpty(Some(Announced(p.name)))
  {
    var u := PackStarts(z, p);
    Regroup("<", p.prologue, NS, DataTag(p) + u);
    var gap := NameBehindNamespace("<" + p.prologue, DataTag(p) + u);
    Associates(gap, DataTag(p), u);
    NameOfDataTag(gap, p.name, u);
  }

  /** The name of a message before compression. */
  lemma OriginalTagName(iq: string, query: string, name: string)
    requires PlainHead(iq)
    requires GetInfo(iq, NS, END_QUERY) == Some(query) && GetInfoFirst(query, "<", " />") == Some(name)
    ensures QueryTagName(iq) == NonEmpty(NameFrom(BehindNamespace(iq), name))
  {
    var prologue := GetInfo(iq, "<", NS).value;
    SplitsAtNamespace(iq, prologue);
    var rest := QueryBehind(iq, query);
    Regroup(BeforeTag(iq) + "<", prologue, NS, query + rest);
    Associates(BeforeTag(iq), "<", prologue);
    HeadBehindText(BeforeTag(iq), "<" + prologue);
    var gap := NameBehindNamespace(BeforeTag(iq) + ("<" + prologue), query + rest);
    NameOfQuery(gap, query, rest, name);
  }

  lemma PlanParts(iq: string)
    requires Plan(iq).Some?
    ensures var p := Plan(iq).value;
      && GetInfo(iq, "<", NS) == Some(p.prologue)
      && GetInfo(iq, NS, END_QUERY) == Some(p.query)
      && GetInfoFirst(p.query, "<", " />") == Some(p.name)
  {
  }

  lemma SameName(a: Option<string>, b: Option<string>, y: string, name: string)
    requires a == NonEmpty(Some(Announced(name))) && b == NonEmpty(NameFrom(y, name))
    ensures a == b <==> StaysIn(y, name)
  {
    StaysInIs(y, name);
  }

  lemma PackedKeepsTagName(z: Zlib, iq: string, p: Parts)
    requires PlainHead(iq) && IsCString(p.query) && GetInfo(iq, "<", NS) == Some(p.prologue)
    requires GetInfo(iq, NS, END_QUERY) == Some(p.query) && GetInfoFirst(p.query, "<", " />") == Some(p.name)
    ensures QueryTagName(Pack(z, p)) == QueryTagName(iq) <==> NameStays(iq, p.name)
  {
    OriginalTagName(iq, p.query, p.name);
    PackedTagName(z, p);
    SameName(QueryTagName(Pack(z, p)), QueryTagName(iq), BehindNamespace(iq), p.name);
  }

  /**
    Compression keeps the query name a message is dispatched by exactly when the name announced by
    the data tag is the one that was read before.
   */
  lemma CompressionKeepsTagName(z: Zlib, iq: string)
    requires IsCString(iq) && (Plan(iq).Some? ==> PlainHead(iq))
    ensures QueryTagName(CompressQuery(z, iq)) == QueryTagName(iq) <==>
      (Plan(iq).Some? ==> NameStays(iq, Plan(iq).value.name))
  {
    if Plan(iq).Some? {
      PlanParts(iq);
      QueryIsCString(iq);
      PackedKeepsTagName(z, iq, Plan(iq).value);
    }
  }
}
