/**
  XML character data as src/xml/serializer.c writes and reads it, both into a fresh buffer and in
  place. Escaping replaces the five characters that section 4.6 of XML 1.0 predefines entities for.
 */
module XmlSerializer {

  /** What one character becomes. */
  function Entity(c: char): (e: string)
    ensures |e| >= 1
  {
    match c
    case '&' => "&amp;"
    case '<' => "&lt;"
    case '>' => "&gt;"
    case '\'' => "&apos;"
    case '"' => "&quot;"
    case _ => [c]
  }

  /** Replaces every character by its own text. */
  function Expand(f: char -> string, s: string): string
  {
    if s == "" then "" else f(s[0]) + Expand(f, s[1..])
  }

  function Escape(s: string): string { Expand(Entity, s) }

  predicate StartsWith(s: string, p: string) { |p| <= |s| && s[..|p|] == p }

  /** The five characters with an entity, in the order the reader compares them. */
  function Special(i: nat): char
    requires i < 5
  {
    match i case 0 => '&' case 1 => '<' case 2 => '>' case 3 => '\'' case _ => '"'
  }

  /** The comparisons of the reader from the i-th on. */
  function UnitFrom(s: string, i: nat): (u: (char, nat))
    requires s != "" && i <= 5
    ensures 1 <= u.1 <= |s|
    decreases 5 - i
  {
    if i == 5 then (s[0], 1)
    else if StartsWith(s, Entity(Special(i))) then (Special(i), |Entity(Special(i))|)
    else UnitFrom(s, i + 1)
  }

  /** The character read at the start of s, and how much text it takes. */
  function Unit(s: string): (u: (char, nat))
    requires s != ""
    ensures 1 <= u.1 <= |s|
  {
    UnitFrom(s, 0)
  }

  function Unescape(s: string): (r: string)
    ensures |r| <= |s|
    decreases |s|
  {
    if s == "" then "" else [Unit(s).0] + Unescape(s[Unit(s).1..])
  }

  /* ---- the laws of the pair ---- */

  /** No entity starts another, and none starts with an ordinary character. */
  lemma EntitiesPrefixFree(c: char, rest: string, i: nat)
    requires i < 5 && StartsWith(Entity(c) + rest, Entity(Special(i)))
    ensures c == Special(i)
  {
    var s, e := Entity(c) + rest, Entity(Special(i));
    assert s[0] == s[..|e|][0] == '&';
    assert s[1] == s[..|e|][1] && s[2] == s[..|e|][2];
    assert s[0] == Entity(c)[0];
    if |Entity(c)| > 1 {
      assert s[1] == Entity(c)[1] && s[2] == Entity(c)[2];
    }
  }

  lemma {:induction false} UnitOfEntityFrom(c: char, rest: string, i: nat)
    requires i <= 5 && forall j :: 0 <= j < i ==> c != Special(j)
    ensures UnitFrom(Entity(c) + rest, i) == (c, |Entity(c)|)
    decreases 5 - i
  {
    var s := Entity(c) + rest;
    if i == 5 {
      assert c != Special(0) && c != Special(1) && c != Special(2) && c != Special(3) && c != Special(4);
    } else if c == Special(i) {
      assert s[..|Entity(c)|] == Entity(c);
    } else {
      if StartsWith(s, Entity(Special(i))) {
        EntitiesPrefixFree(c, rest, i);
      }
      UnitOfEntityFrom(c, rest, i + 1);
    }
  }

  lemma UnitOfEntity(c: char, rest: string)
    ensures Unit(Entity(c) + rest) == (c, |Entity(c)|)
  {
    UnitOfEntityFrom(c, rest, 0);
  }

  /** Reading back an escaped text gives the text. */
  lemma {:induction false} RoundTrip(s: string)
    ensures Unescape(Escape(s)) == s
  {
    if s != "" {
      UnitOfEntity(s[0], Escape(s[1..]));
      RoundTrip(s[1..]);
      assert Escape(s)[|Entity(s[0])|..] == Escape(s[1..]);
    }
  }

  /** Two texts with the same escaped form are the same text. */
  lemma EscapeInjective(s: string, t: string)
    requires Escape(s) == Escape(t)
    ensures s == t
  {
    RoundTrip(s);
    RoundTrip(t);
  }

  lemma {:induction false} ExpandAvoids(f: char -> string, s: string, x: char)
    requires forall i :: 0 <= i < |s| ==> x !in f(s[i])
    ensures x !in Expand(f, s)
  {
    if s != "" {
      ExpandAvoids(f, s[1..], x);
    }
  }

  lemma AppendAssociates(a: string, b: string, c: string)
    ensures a + (b + c) == (a + b) + c
  {
  }

  lemma {:induction false} ExpandConcat(f: char -> string, a: string, b: string)
    ensures Expand(f, a + b) == Expand(f, a) + Expand(f, b)
  {
    if a == "" {
      assert a + b == b;
    } else {
      ExpandConcat(f, a[1..], b);
      assert (a + b)[1..] == a[1..] + b && (a + b)[0] == a[0];
      AppendAssociates(f(a[0]), Expand(f, a[1..]), Expand(f, b));
    }
  }

  /** Escaped text can stand between tags and quotes, and stays free of terminators. */
  lemma EscapedIsInert(s: string, x: char)
    requires x in "<>'\"" || (x == '\0' && '\0' !in s)
    ensures x !in Escape(s)
  {
    forall i | 0 <= i < |s| ensures x !in Entity(s[i]) {
    }
    ExpandAvoids(Entity, s, x);
  }

  /** Escaping never shortens a text. */
  lemma {:induction false} EscapeLonger(s: string)
    ensures |Escape(s)| >= |s|
  {
    if s != "" {
      EscapeLonger(s[1..]);
    }
  }

  lemma EscapeConcat(a: string, b: string)
    ensures Escape(a + b) == Escape(a) + Escape(b)
  {
    ExpandConcat(Entity, a, b);
  }

  lemma EscapeSingle(c: char)
    ensures Escape([c]) == Entity(c)
  {
    assert [c][1..] == "";
    assert Expand(Entity, [c]) == Entity([c][0]) + Expand(Entity, [c][1..]);
  }

  /* ---- the texts of XML 1.0, section 4.6 ---- */

  lemma EscapeBetween(a: string, c: char, b: string)
    ensures Escape(a + [c] + b) == Escape(a) + Entity(c) + Escape(b)
  {
    EscapeConcat(a + [c], b);
    EscapeConcat(a, [c]);
    EscapeSingle(c);
  }

  /** What stands for each of the five characters, wherever it is in the text. */
  lemma EscapeWrites(a: string, b: string)
    ensures Escape(a + "&" + b) == Escape(a) + "&amp;" + Escape(b)
    ensures Escape(a + "<" + b) == Escape(a) + "&lt;" + Escape(b)
    ensures Escape(a + ">" + b) == Escape(a) + "&gt;" + Escape(b)
    ensures Escape(a + "'" + b) == Escape(a) + "&apos;" + Escape(b)
    ensures Escape(a + "\"" + b) == Escape(a) + "&quot;" + Escape(b)
  {
    EscapeBetween(a, '&', b);
    EscapeBetween(a, '<', b);
    EscapeBetween(a, '>', b);
    EscapeBetween(a, '\'', b);
    EscapeBetween(a, '"', b);
  }

  /** Every other character stands for itself. */
  lemma EscapeKeeps(a: string, c: char, b: string)
    requires c != '&' && c != '<' && c != '>' && c != '\'' && c != '"'
    ensures Escape(a + [c] + b) == Escape(a) + [c] + Escape(b)
  {
    EscapeBetween(a, c, b);
  }

  lemma UnescapeEntity(c: char, s: string)
    ensures Unescape(Entity(c) + s) == [c] + Unescape(s)
  {
    UnitOfEntity(c, s);
    assert (Entity(c) + s)[|Entity(c)|..] == s;
  }

  /** What each of the five entities is read as, whatever follows. */
  lemma UnescapeReads(s: string)
    ensures Unescape("&amp;" + s) == "&" + Unescape(s)
    ensures Unescape("&lt;" + s) == "<" + Unescape(s)
    ensures Unescape("&gt;" + s) == ">" + Unescape(s)
    ensures Unescape("&apos;" + s) == "'" + Unescape(s)
    ensures Unescape("&quot;" + s) == "\"" + Unescape(s)
  {
    UnescapeEntity('&', s);
    UnescapeEntity('<', s);
    UnescapeEntity('>', s);
    UnescapeEntity('\'', s);
    UnescapeEntity('"', s);
  }

  /** Every other character is read as itself, an '&' that opens none of the five entities included. */
  lemma UnescapeKeeps(c: char, s: string)
    requires c == '&' ==>
      !("amp;" <= s) && !("lt;" <= s) && !("gt;" <= s) && !("apos;" <= s) && !("quot;" <= s)
    ensures Unescape([c] + s) == [c] + Unescape(s)
  {
    UnitOfOther(c, s);
    assert ([c] + s)[1..] == s;
  }

  lemma SameText(c: char, x: string, rest: string)
    ensures [c] + x == "&" + rest <==> c == '&' && x == rest
  {
    assert ([c] + x)[1..] == x && ("&" + rest)[1..] == rest;
    assert ([c] + x)[0] == c && ("&" + rest)[0] == '&';
  }

  lemma Opens(c: char, s: string, e: string, rest: string)
    requires e == "&" + rest
    ensures StartsWith([c] + s, e) <==> c == '&' && rest <= s
  {
    if |rest| <= |s| {
      assert ([c] + s)[..|e|] == [c] + s[..|rest|];
      SameText(c, s[..|rest|], rest);
    }
  }

  lemma UnitOfOther(c: char, s: string)
    requires c == '&' ==>
      !("amp;" <= s) && !("lt;" <= s) && !("gt;" <= s) && !("apos;" <= s) && !("quot;" <= s)
    ensures Unit([c] + s) == (c, 1)
  {
    Opens(c, s, "&amp;", "amp;");
    Opens(c, s, "&lt;", "lt;");
    Opens(c, s, "&gt;", "gt;");
    Opens(c, s, "&apos;", "apos;");
    Opens(c, s, "&quot;", "quot;");
    ComparisonChain([c] + s);
  }

  /** Escaping one character after a prefix. */
  lemma EscapeOfPrefix(s: string, k: nat)
    requires 0 < k <= |s|
    ensures Escape(s[..k]) == Escape(s[..k - 1]) + Entity(s[k - 1])
  {
    EscapeConcat(s[..k - 1], [s[k - 1]]);
    assert s[..k] == s[..k - 1] + [s[k - 1]];
    EscapeSingle(s[k - 1]);
  }

  function Count(s: string, c: char): nat
  {
    if s == "" then 0 else (if s[|s| - 1] == c then 1 else 0) + Count(s[..|s| - 1], c)
  }

  /** The size computed before any character is written. */
  function OutSize(s: string): nat
  {
    |s| + 4 * Count(s, '&') + 3 * Count(s, '<') + 3 * Count(s, '>') + 5 * Count(s, '\'') + 5 * Count(s, '"')
  }

  /** The precomputed size is exactly the size of the escaped text. */
  lemma {:induction false} OutSizeExact(s: string)
    ensures OutSize(s) == |Escape(s)|
  {
    if s != "" {
      OutSizeExact(s[..|s| - 1]);
      EscapeOfPrefix(s, |s|);
      assert s[..|s|] == s;
    }
  }

  /* ---- the buffers ---- */

  /** The text before the terminator of a buffer. */
  ghost predicate Holds(buf: array<char>, s: string)
    reads buf
  {
    |s| < buf.Length && buf[..|s|] == s && buf[|s|] == '\0' && '\0' !in s
  }

  /** Counts the characters to replace and the length, as the first loop does, and sums up the size. */
  method MeasureOut(str: array<char>, ghost s: string) returns (inSize: nat, outSize: nat)
    requires Holds(str, s)
    ensures inSize == |s| && outSize == |Escape(s)|
  {
    var amp, lt, gt, apos, quot := 0, 0, 0, 0, 0;
    inSize := 0;
    while str[inSize] != '\0'
      invariant inSize <= |s|
      invariant amp == Count(s[..inSize], '&') && lt == Count(s[..inSize], '<') && gt == Count(s[..inSize], '>')
      invariant apos == Count(s[..inSize], '\'') && quot == Count(s[..inSize], '"')
      decreases |s| - inSize
    {
      assert s[..inSize + 1][..inSize] == s[..inSize];
      match str[inSize] {
        case '&' => amp := amp + 1;
        case '<' => lt := lt + 1;
        case '>' => gt := gt + 1;
        case '\'' => apos := apos + 1;
        case '"' => quot := quot + 1;
        case _ =>
      }
      inSize := inSize + 1;
    }
    assert s[..inSize] == s;
    OutSizeExact(s);
    outSize := inSize + 4 * amp + 3 * lt + 3 * gt + 5 * apos + 5 * quot;
  }

  /**
    The writing loop of xml_serialize_, from the end. str and out may be one buffer: every write
    lands at or after the characters already read, so the unread prefix is intact, and the text
    comes out the same.
   */
  method WriteBackward(str: array<char>, inSize: nat, out: array<char>, outSize: nat, ghost s: string)
    requires |s| == inSize <= str.Length && outSize == |Escape(s)| < out.Length
    requires str[..inSize] == s && out[outSize] == '\0' && '\0' !in s
    modifies out
    ensures Holds(out, Escape(s))
    ensures str != out ==> str[..] == old(str[..])
  {
    var k, o := inSize, outSize;
    assert s[..k] == s;
    while k > 0
      invariant k <= inSize && o == |Escape(s[..k])| <= outSize
      invariant str[..k] == s[..k]
      invariant out[outSize] == '\0' && Escape(s[..k]) + out[o..outSize] == Escape(s)
      invariant str != out ==> str[..] == old(str[..])
    {
      o := WriteUnit(str, k, out, o, outSize, s);
      k := k - 1;
    }
    assert out[..outSize] == Escape(s);
    EscapedIsInert(s, '\0');
  }

  /** One turn of the writing loop. */
  method WriteUnit(str: array<char>, k: nat, out: array<char>, o: nat, outSize: nat, ghost s: string)
    returns (next: nat)
    requires 0 < k <= |s| && k <= str.Length && str[..k] == s[..k]
    requires o == |Escape(s[..k])| <= outSize < out.Length
    modifies out
    ensures next == |Escape(s[..k - 1])| <= o && str[..k - 1] == s[..k - 1]
    ensures Escape(s[..k - 1]) + out[next..outSize] == Escape(s[..k]) + old(out[o..outSize])
    ensures out[outSize] == old(out[outSize])
    ensures str != out ==> str[..] == old(str[..])
  {
    EscapeOfPrefix(s, k);
    EscapeLonger(s[..k - 1]);
    assert str[..k - 1] == s[..k - 1];
    ghost var e, behind := Entity(str[k - 1]), out[o..outSize];
    next := PutEntity(out, o, outSize, Entity(str[k - 1]));
    EntityJoins(Escape(s[..k - 1]), e, behind);
  }

  lemma EntityJoins(a: string, e: string, b: string)
    ensures a + (e + b) == (a + e) + b
  {
  }

  method PutEntity(out: array<char>, o: nat, outSize: nat, e: string) returns (next: nat)
    requires |e| <= o <= outSize < out.Length
    modifies out
    ensures next == o - |e| && out[next..outSize] == e + old(out[o..outSize])
    ensures out[..next] == old(out[..next]) && out[outSize] == old(out[outSize])
  {
    ghost var behind := out[o..];
    next := WriteEntity(out, o, e);
    FilledFront(out[..], next, o, outSize, e, behind);
  }

  /** The buffer from the entity on, split at its old end. */
  lemma FilledFront(buf: seq<char>, next: nat, o: nat, outSize: nat, e: string, behind: seq<char>)
    requires next <= o <= outSize < |buf| && buf[next..o] == e && buf[o..] == behind
    ensures buf[next..outSize] == e + behind[..outSize - o] && buf[outSize] == behind[outSize - o]
  {
    assert buf[next..outSize] == buf[next..o] + buf[o..outSize];
    assert buf[o..outSize] == buf[o..][..outSize - o];
  }

  /** *(o--) = c for the characters of e, last first. */
  method WriteEntity(out: array<char>, o: nat, e: string) returns (next: nat)
    requires |e| <= o <= out.Length
    modifies out
    ensures next == o - |e| && out[next..o] == e
    ensures out[..next] == old(out[..next]) && out[o..] == old(out[o..])
  {
    next := o;
    var n := |e|;
    while n > 0
      invariant 0 <= n <= |e| && next == o - |e| + n
      invariant out[next..o] == e[n..]
      invariant out[..next] == old(out[..next]) && out[o..] == old(out[o..])
    {
      n, next := n - 1, next - 1;
      out[next] := e[n];
    }
  }

  /** xml_serialize: a fresh buffer, exactly filled. */
  method Serialize(str: array<char>, ghost s: string) returns (out: array<char>)
    requires Holds(str, s)
    ensures fresh(out) && out.Length == |Escape(s)| + 1 && Holds(out, Escape(s))
    ensures Holds(str, s)
  {
    var inSize, outSize := MeasureOut(str, s);
    out := new char[outSize + 1];
    out[outSize] := '\0';
    WriteBackward(str, inSize, out, outSize, s);
  }

  /** realloc: a block of the new size that starts with what the old one held. */
  method Realloc(buf: array<char>, keep: nat, size: nat) returns (out: array<char>)
    requires keep <= buf.Length && keep <= size
    ensures fresh(out) && out.Length == size && out[..keep] == buf[..keep]
  {
    out := new char[size];
    forall i | 0 <= i < keep {
      out[i] := buf[i];
    }
  }

  /** xml_serialize_inplace: the escaped text overwrites the text it is made from. */
  method SerializeInplace(str: array<char>, ghost s: string) returns (out: array<char>)
    requires Holds(str, s)
    ensures fresh(out) && out.Length == |Escape(s)| + 1 && Holds(out, Escape(s))
  {
    var inSize, outSize := MeasureOut(str, s);
    EscapeLonger(s);
    out := Realloc(str, inSize, outSize + 1);
    out[outSize] := '\0';
    WriteBackward(out, inSize, out, outSize, s);
  }

  lemma {:induction false} UnescapeClean(s: string)
    requires '\0' !in s
    ensures '\0' !in Unescape(s)
    decreases |s|
  {
    if s != "" {
      UnescapeClean(s[Unit(s).1..]);
    }
  }

  /** strncmp(s, p, strlen(p)) == 0: the terminator stops a match that would run past the text. */
  lemma MatchInBuffer(buf: seq<char>, s: string, k: nat, p: string)
    requires k <= |s| < |buf| && '\0' !in p && p != ""
    requires buf[k..|s|] == s[k..] && buf[|s|] == '\0'
    ensures StartsWith(buf[k..], p) <==> StartsWith(s[k..], p)
  {
    var n := |p|;
    if k + n <= |s| {
      assert buf[k..][..n] == buf[k..|s|][..n];
    } else if k + n <= |buf| {
      assert buf[k..][..n][|s| - k] == '\0';
      assert p[|s| - k] != '\0';
    }
  }

  /** The entity at one position of a buffer, by the five comparisons of the source. */
  method UnitAt(str: array<char>, k: nat, ghost s: string) returns (c: char, n: nat)
    requires k < |s| < str.Length && '\0' !in s
    requires str[k..|s|] == s[k..] && str[|s|] == '\0'
    ensures (c, n) == Unit(s[k..])
  {
    assert str[..][k..] == str[k..] && s[k..][0] == str[k];
    if str[k] != '&' {
      OnlyAmpersandOpens(s[k..], 0);
      return str[k], 1;
    }
    ComparisonChain(s[k..]);
    forall i: nat | i < 5
      ensures StartsWith(str[k..], Entity(Special(i))) <==> StartsWith(s[k..], Entity(Special(i)))
    {
      MatchInBuffer(str[..], s, k, Entity(Special(i)));
    }
    if StartsWith(str[k..], Entity(Special(0))) {
      c, n := '&', 5;
    } else if StartsWith(str[k..], Entity(Special(1))) {
      c, n := '<', 4;
    } else if StartsWith(str[k..], Entity(Special(2))) {
      c, n := '>', 4;
    } else if StartsWith(str[k..], Entity(Special(3))) {
      c, n := '\'', 6;
    } else if StartsWith(str[k..], Entity(Special(4))) {
      c, n := '"', 6;
    } else {
      c, n := str[k], 1;
    }
  }

  lemma ComparisonChain(s: string)
    requires s != ""
    ensures Unit(s) ==
            if StartsWith(s, Entity(Special(0))) then ('&', 5)
            else if StartsWith(s, Entity(Special(1))) then ('<', 4)
            else if StartsWith(s, Entity(Special(2))) then ('>', 4)
            else if StartsWith(s, Entity(Special(3))) then ('\'', 6)
            else if StartsWith(s, Entity(Special(4))) then ('"', 6)
            else (s[0], 1)
  {
    var last := UnitFrom(s, 5);
    var fourth := UnitFrom(s, 4);
    var third := UnitFrom(s, 3);
    var second := UnitFrom(s, 2);
    var first := UnitFrom(s, 1);
  }

  lemma {:induction false} OnlyAmpersandOpens(s: string, i: nat)
    requires s != "" && s[0] != '&' && i <= 5
    ensures UnitFrom(s, i) == (s[0], 1)
    decreases 5 - i
  {
    if i < 5 {
      assert StartsWith(s, Entity(Special(i))) ==> s[..|Entity(Special(i))|][0] == s[0];
      OnlyAmpersandOpens(s, i + 1);
    }
  }

  /** One unit of the text is one character of the result. */
  lemma UnescapeStep(s: string, k: nat, c: char, n: nat)
    requires k < |s| && (c, n) == Unit(s[k..])
    ensures 1 <= n <= |s| - k && Unescape(s[k..]) == [c] + Unescape(s[k + n..])
  {
    assert s[k..][n..] == s[k + n..];
  }

  /** The function gives what a text is read as. */
  ghost predicate Reading(read: string -> string)
  {
    forall x: string {:trigger Unescape(x)} :: read(x) == Unescape(x)
  }

  /** The next character of the result, and the length of what it is read from. */
  method FetchUnit(str: array<char>, k: nat, ghost s: string, ghost read: string -> string)
    returns (c: char, n: nat)
    requires k < |s| < str.Length && '\0' !in s && Reading(read)
    requires str[k..|s|] == s[k..] && str[|s|] == '\0'
    ensures 0 < n <= |s| - k && read(s[k..]) == [c] + read(s[k + n..])
  {
    c, n := UnitAt(str, k, s);
    UnescapeStep(s, k, c, n);
  }

  lemma LaterInArray(a: array<char>, s: string, k: nat, next: nat)
    requires k <= next <= |s| < a.Length && a[k..|s|] == s[k..]
    ensures a[next..|s|] == s[next..]
  {
    SuffixLater(a[..], s, k, next);
  }

  /** The next character of the result, and where the reading goes on. */
  method Fetch(str: array<char>, k: nat, ghost s: string, ghost read: string -> string)
    returns (c: char, next: nat)
    requires k < |s| < str.Length && '\0' !in s && Reading(read)
    requires str[k..|s|] == s[k..] && str[|s|] == '\0'
    ensures k < next <= |s| && str[next..|s|] == s[next..]
    ensures read(s[k..]) == [c] + read(s[next..])
  {
    var n;
    c, n := FetchUnit(str, k, s, read);
    next := k + n;
    LaterInArray(str, s, k, next);
  }

  /** One turn of the reading loop. */
  method ReadUnit(str: array<char>, k: nat, out: array<char>, o: nat, ghost s: string)
    returns (next: nat)
    requires o <= k < |s| < str.Length && '\0' !in s && |s| < out.Length
    requires str[k..|s|] == s[k..] && str[|s|] == '\0'
    modifies out
    ensures k < next <= |s| && str[next..|s|] == s[next..] && str[|s|] == '\0'
    ensures out[..o + 1] + Unescape(s[next..]) == old(out[..o]) + Unescape(s[k..])
    ensures str != out ==> str[..] == old(str[..])
  {
    var c;
    ghost var read := (x: string) => Unescape(x);
    c, next := Fetch(str, k, s, read);
    assert Unescape(s[k..]) == [c] + Unescape(s[next..]);
    ghost var was, text := out[..], str[..];
    out[o] := c;
    assert out[..] == was[o := c];
    assert str[..] == if str == out then text[o := c] else text;
    OneWritten(was, o, c);
    SuffixKept(text, s, o, c, next);
    AppendOne(was[..o], c, Unescape(s[next..]));
  }

  lemma OneWritten(buf: seq<char>, o: nat, c: char)
    requires o < |buf|
    ensures buf[o := c][..o + 1] == buf[..o] + [c]
  {
  }

  lemma SuffixKept(buf: seq<char>, s: string, o: nat, c: char, next: nat)
    requires o < next <= |s| < |buf| && buf[next..|s|] == s[next..]
    ensures buf[o := c][next..|s|] == s[next..] && buf[o := c][|s|] == buf[|s|]
  {
  }

  lemma SuffixLater(buf: seq<char>, s: string, k: nat, next: nat)
    requires k <= next <= |s| < |buf| && buf[k..|s|] == s[k..]
    ensures buf[next..|s|] == s[next..]
  {
    assert buf[next..|s|] == buf[k..|s|][next - k..];
  }

  lemma AppendOne(a: string, c: char, b: string)
    ensures (a + [c]) + b == a + ([c] + b)
  {
  }

  /**
    The loop of xml_deserialize_. str and out may be one buffer: every write lands at or before the
    character just read, so the unread suffix is intact, and the text comes out the same.
   */
  method ReadForward(str: array<char>, out: array<char>, ghost s: string) returns (o: nat)
    requires Holds(str, s) && |s| < out.Length
    modifies out
    ensures o == |Unescape(s)| && Holds(out, Unescape(s))
    ensures str != out ==> str[..] == old(str[..])
  {
    var k := 0;
    o := 0;
    assert s[k..] == s;
    EndOfText(str[..], s, k);
    while str[k] != '\0'
      invariant o <= k <= |s| && (str[k] != '\0' <==> k < |s|)
      invariant str[k..|s|] == s[k..] && str[|s|] == '\0'
      invariant out[..o] + Unescape(s[k..]) == Unescape(s)
      invariant str != out ==> str[..] == old(str[..])
      decreases |s| - k
    {
      k := ReadUnit(str, k, out, o, s);
      o := o + 1;
      EndOfText(str[..], s, k);
    }
    NothingLeft(out[..o], s, k);
    ghost var done := out[..o];
    out[o] := '\0';
    assert out[..o] == done;
  }

  lemma EndOfText(buf: seq<char>, s: string, k: nat)
    requires k <= |s| < |buf| && '\0' !in s && buf[k..|s|] == s[k..] && buf[|s|] == '\0'
    ensures buf[k] != '\0' <==> k < |s|
  {
    assert k < |s| ==> buf[k] == buf[k..|s|][0] == s[k];
  }

  lemma NothingLeft(done: string, s: string, k: nat)
    requires k == |s| && done + Unescape(s[k..]) == Unescape(s) && '\0' !in s
    ensures done == Unescape(s) && '\0' !in Unescape(s)
  {
    assert s[k..] == "" && done + "" == done;
    UnescapeClean(s);
  }

  /** xml_deserialize: a fresh buffer as large as the escaped text. */
  method Deserialize(str: array<char>, size: nat, ghost s: string) returns (out: array<char>)
    requires Holds(str, s) && size == |s|
    ensures fresh(out) && Holds(out, Unescape(s)) && Holds(str, s)
  {
    out := new char[size + 1];
    var _ := ReadForward(str, out, s);
  }

  /** xml_deserialize_inplace: the text overwrites its escaped form, then the block is cut to size. */
  method DeserializeInplace(str: array<char>, ghost s: string) returns (out: array<char>)
    requires Holds(str, s)
    modifies str
    ensures fresh(out) && out.Length == |Unescape(s)| + 1 && Holds(out, Unescape(s))
  {
    var o := ReadForward(str, str, s);
    out := Realloc(str, o + 1, o + 1);
  }

  /** Escaping and unescaping one buffer in place leaves the original text in it. */
  method InplaceRoundTrip(str: array<char>, ghost s: string) returns (out: array<char>)
    requires Holds(str, s)
    ensures Holds(out, s)
  {
    var escaped := SerializeInplace(str, s);
    out := DeserializeInplace(escaped, Escape(s));
    RoundTrip(s);
  }
}
