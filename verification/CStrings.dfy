/**
  C strings as sequences of characters (the terminating NUL is implicit), the libc searches the
  bot relies on, and the tag readers of src/tools/get_info.c built on top of them.
 */
module CStrings {

  datatype Option<+T> = None | Some(value: T)

  /** The pattern p occurs in s at offset i. */
  predicate OccursAt(s: string, p: string, i: int)
  {
    0 <= i && i + |p| <= |s| && s[i..i + |p|] == p
  }

  ghost predicate Occurs(s: string, p: string)
  {
    exists i :: OccursAt(s, p, i)
  }

  function StrstrFrom(s: string, p: string, i: nat): (r: Option<nat>)
    requires i <= |s|
    ensures r.Some? ==> i <= r.value && OccursAt(s, p, r.value)
    ensures r.Some? ==> forall j :: i <= j < r.value ==> !OccursAt(s, p, j)
    ensures r.None? ==> forall j :: i <= j ==> !OccursAt(s, p, j)
    decreases |s| - i
  {
    if OccursAt(s, p, i) then Some(i)
    else if i == |s| then None
    else StrstrFrom(s, p, i + 1)
  }

  /** strstr: the offset of the first occurrence of p in s. */
  function Strstr(s: string, p: string): (r: Option<nat>)
    ensures r.Some? ==> OccursAt(s, p, r.value)
    ensures r.Some? ==> forall j :: 0 <= j < r.value ==> !OccursAt(s, p, j)
    ensures r.None? <==> !Occurs(s, p)
  {
    StrstrFrom(s, p, 0)
  }

  /** The text between the first `open` and the first `close` after it; None when either is missing. */
  function GetInfo(input: string, open: string, close: string): Option<string>
  {
    match Strstr(input, open)
    case None => None
    case Some(k) =>
      var rest := input[k + |open|..];
      match Strstr(rest, close)
      case None => None
      case Some(e) => Some(rest[..e])
  }

  /** The length of the longest prefix of s free of the characters in stops. */
  function Span(s: string, stops: string): (n: nat)
    ensures n <= |s|
    ensures forall i :: 0 <= i < n ==> s[i] !in stops
    ensures n < |s| ==> s[n] in stops
  {
    if s == "" || s[0] in stops then 0 else 1 + Span(s[1..], stops)
  }

  /** The text between the first `open` and the nearest character of `stops` after it. */
  function GetInfoFirst(input: string, open: string, stops: string): Option<string>
  {
    match Strstr(input, open)
    case None => None
    case Some(k) =>
      var rest := input[k + |open|..];
      var n := Span(rest, stops);
      if n < |rest| then Some(rest[..n]) else None
  }

  /** strchr: the offset of the first c in s. */
  function Strchr(s: string, c: char): (r: Option<nat>)
    ensures r.Some? ==> r.value < |s| && s[r.value] == c
    ensures r.Some? ==> forall j :: 0 <= j < r.value ==> s[j] != c
    ensures r.None? ==> c !in s
  {
    var n := Span(s, [c]);
    if n < |s| then Some(n) else None
  }

  /** The scan of get_info_first: one strchr per stop character, keeping the nearest hit. */
  method GetInfoFirstScan(input: string, open: string, stops: string) returns (r: Option<string>)
    ensures r == GetInfoFirst(input, open, stops)
  {
    var start := Strstr(input, open);
    if start.None? {
      return None;
    }
    var rest := input[start.value + |open|..];
    var end: Option<nat> := None;
    var i := 0;
    while i < |stops|
      invariant i <= |stops|
      invariant end.Some? ==> end.value < |rest| && rest[end.value] in stops[..i]
      invariant end.Some? ==> forall j :: 0 <= j < end.value ==> rest[j] !in stops[..i]
      invariant end.None? ==> forall j :: 0 <= j < |rest| ==> rest[j] !in stops[..i]
    {
      var nend := Strchr(rest, stops[i]);
      assert stops[..i + 1] == stops[..i] + [stops[i]];
      if end.None? {
        end := nend;
      } else if nend.Some? && nend.value < end.value {
        end := nend;
      }
      i := i + 1;
    }
    assert stops[..i] == stops;
    if end.Some? {
      r := Some(rest[..end.value]);
    } else {
      r := None;
    }
  }

  /* ---- locating a first occurrence inside a concatenation ---- */

  /** The first occurrence is the offset with an occurrence and none before it. */
  lemma StrstrIs(s: string, p: string, k: nat)
    requires OccursAt(s, p, k)
    requires forall j :: 0 <= j < k ==> !OccursAt(s, p, j)
    ensures Strstr(s, p) == Some(k)
  {
  }

  lemma OccursShift(a: string, b: string, p: string, j: int)
    requires 0 <= j
    ensures OccursAt(a + b, p, |a| + j) <==> OccursAt(b, p, j)
  {
    if j + |p| <= |b| {
      assert (a + b)[|a| + j..|a| + j + |p|] == b[j..j + |p|];
    }
  }

  /** A prefix in which no occurrence starts only shifts the search. */
  lemma StrstrSkip(a: string, b: string, p: string)
    requires forall i :: 0 <= i < |a| ==> !OccursAt(a + b, p, i)
    ensures Strstr(b, p).None? ==> Strstr(a + b, p).None?
    ensures Strstr(b, p).Some? ==> Strstr(a + b, p) == Some(|a| + Strstr(b, p).value)
  {
    forall i | |a| <= i ensures OccursAt(a + b, p, i) <==> OccursAt(b, p, i - |a|) {
      OccursShift(a, b, p, i - |a|);
    }
    if Strstr(b, p).Some? {
      StrstrIs(a + b, p, |a| + Strstr(b, p).value);
    }
  }

  /** No occurrence can start in a when a lacks the first character of the pattern. */
  lemma NoStartWithoutFirst(a: string, b: string, p: string)
    requires |p| > 0 && p[0] !in a
    ensures forall i :: 0 <= i < |a| ==> !OccursAt(a + b, p, i)
  {
  }

  /** An occurrence that starts in a cannot run across a character that the pattern lacks. */
  lemma NoStartAcross(a: string, x: char, b: string, p: string)
    requires |p| > 0 && x !in p && !Occurs(a, p)
    ensures forall i :: 0 <= i < |a| + 1 ==> !OccursAt(a + [x] + b, p, i)
  {
    var s := a + [x] + b;
    forall i | 0 <= i < |a| + 1 ensures !OccursAt(s, p, i) {
      assert i + |p| <= |a| ==> s[i..i + |p|] == a[i..i + |p|];
      assert !OccursAt(a, p, i);
      assert |a| < i + |p| <= |s| ==> s[i..i + |p|][|a| - i] == x;
    }
  }

  lemma FirstBehind(a: string, p: string, rest: string)
    requires forall i :: 0 <= i < |a| ==> !OccursAt(a + (p + rest), p, i)
    ensures Strstr(a + (p + rest), p) == Some(|a|)
  {
    assert OccursAt(p + rest, p, 0);
    StrstrIs(p + rest, p, 0);
    StrstrSkip(a, p + rest, p);
  }

  /** What the first tag reader returns on text built around its two patterns. */
  lemma GetInfoOf(a: string, open: string, mid: string, close: string, b: string)
    requires forall i :: 0 <= i < |a| ==> !OccursAt(a + (open + (mid + (close + b))), open, i)
    requires forall i :: 0 <= i < |mid| ==> !OccursAt(mid + (close + b), close, i)
    ensures GetInfo(a + (open + (mid + (close + b))), open, close) == Some(mid)
  {
    var rest := mid + (close + b);
    var s := a + (open + rest);
    FirstBehind(a, open, rest);
    assert s[|a| + |open|..] == rest;
    FirstBehind(mid, close, b);
    assert rest[..|mid|] == mid;
  }

  lemma SpanOf(a: string, x: char, b: string, stops: string)
    requires x in stops
    requires forall i :: 0 <= i < |a| ==> a[i] !in stops
    ensures Span(a + [x] + b, stops) == |a|
  {
    var s := a + [x] + b;
    assert s[|a|] == x;
    assert s[..|a|] == a;
  }

  lemma Associates(a: string, b: string, c: string)
    ensures a + (b + c) == (a + b) + c
  {
  }

  lemma SameRest(a: string, s: string, t: string)
    requires a + s == a + t
    ensures s == t
  {
    assert (a + s)[|a|..] == s && (a + t)[|a|..] == t;
  }

  /** Searching for a single character. */
  lemma StrstrChar(s: string, c: char)
    ensures Strstr(s, [c]) == Strchr(s, c)
  {
    forall j | 0 <= j < |s| ensures OccursAt(s, [c], j) <==> s[j] == c {
      assert s[j..j + 1] == [s[j]];
    }
    if c in s {
      StrstrIs(s, [c], Span(s, [c]));
    }
  }

  /** What follows a text that contains a stop character does not matter. */
  lemma {:induction false} SpanStable(x: string, u: string, stops: string)
    requires Span(x, stops) < |x|
    ensures Span(x + u, stops) == Span(x, stops)
  {
    if x[0] in stops {
      assert (x + u)[0] == x[0];
    } else {
      assert (x + u)[0] == x[0] && (x + u)[1..] == x[1..] + u;
      SpanStable(x[1..], u, stops);
    }
  }

  /** The first match of a pattern whose first character is absent from the text before it. */
  lemma FoundBehind(a: string, p: string, rest: string)
    requires p != "" && p[0] !in a
    ensures Strstr(a + (p + rest), p) == Some(|a|)
  {
    assert (p + rest)[0..|p|] == p;
    StrstrIs(p + rest, p, 0);
    NoStartWithoutFirst(a, p + rest, p);
    StrstrSkip(a, p + rest, p);
  }

  /** What follows a text that contains the pattern does not matter. */
  lemma StrstrStable(x: string, u: string, p: string)
    requires Strstr(x, p).Some?
    ensures Strstr(x + u, p) == Strstr(x, p)
  {
    var k := Strstr(x, p).value;
    forall j | 0 <= j <= k ensures OccursAt(x + u, p, j) <==> OccursAt(x, p, j) {
      assert (x + u)[j..j + |p|] == x[j..j + |p|];
    }
    StrstrIs(x + u, p, k);
  }

  lemma {:induction false} SpanSameStops(s: string, x: string, y: string)
    requires forall c :: c in x <==> c in y
    ensures Span(s, x) == Span(s, y)
  {
    if s != "" {
      SpanSameStops(s[1..], x, y);
    }
  }

  lemma {:induction false} SpanBehind(gap: string, y: string, stops: string)
    requires forall i :: 0 <= i < |gap| ==> gap[i] !in stops
    ensures Span(gap + y, stops) == |gap| + Span(y, stops)
  {
    if gap == "" {
      assert gap + y == y;
    } else {
      assert (gap + y)[0] == gap[0] && (gap + y)[1..] == gap[1..] + y;
      SpanBehind(gap[1..], y, stops);
    }
  }

  /** The name reader on a text known to have the opening character and then a stop. */
  lemma GetInfoFirstAt(input: string, c: char, stops: string, n: nat, t: string)
    requires Span(input, [c]) == n < |input| && input[n + 1..] == t && Span(t, stops) < |t|
    ensures GetInfoFirst(input, [c], stops) == Some(t[..Span(t, stops)])
  {
    StrstrChar(input, c);
  }

  lemma GetInfoFirstHas(input: string, c: char, stops: string)
    requires GetInfoFirst(input, [c], stops).Some?
    ensures var n := Span(input, [c]);
      && n < |input| && Span(input[n + 1..], stops) < |input| - n - 1
      && GetInfoFirst(input, [c], stops).value == input[n + 1..][..Span(input[n + 1..], stops)]
  {
    StrstrChar(input, c);
  }

  /** The name reader gives the same name when text is put around and the stops are listed differently. */
  lemma GetInfoFirstBehind(gap: string, x: string, rest: string, c: char, stops: string, stops': string)
    requires c !in gap && GetInfoFirst(x, [c], stops).Some?
    requires forall d :: d in stops <==> d in stops'
    ensures GetInfoFirst(gap + (x + rest), [c], stops') == GetInfoFirst(x, [c], stops)
  {
    GetInfoFirstHas(x, c, stops);
    var n := Span(x, [c]);
    SpanBehindPrefix(gap, x, rest, c);
    SliceBehind(gap, x, rest, n);
    SameNameSpan(x[n + 1..], rest, stops, stops');
    GetInfoFirstAt(gap + (x + rest), c, stops', |gap| + n, x[n + 1..] + rest);
  }

  lemma SpanBehindPrefix(gap: string, x: string, rest: string, c: char)
    requires c !in gap && Span(x, [c]) < |x|
    ensures Span(gap + (x + rest), [c]) == |gap| + Span(x, [c])
  {
    SpanStable(x, rest, [c]);
    SpanBehind(gap, x + rest, [c]);
  }

  lemma SameNameSpan(t: string, rest: string, stops: string, stops': string)
    requires Span(t, stops) < |t| && forall d :: d in stops <==> d in stops'
    ensures Span(t + rest, stops') == Span(t, stops)
    ensures (t + rest)[..Span(t, stops)] == t[..Span(t, stops)]
  {
    SpanStable(t, rest, stops);
    SpanSameStops(t + rest, stops, stops');
    PrefixOfConcat(t, rest, Span(t, stops));
  }

  lemma SliceBehind(gap: string, x: string, rest: string, n: nat)
    requires n < |x|
    ensures (gap + (x + rest))[|gap| + n + 1..] == x[n + 1..] + rest
  {
  }

  lemma PrefixOfConcat(t: string, rest: string, n: nat)
    requires n <= |t|
    ensures (t + rest)[..n] == t[..n]
  {
  }

  /** A pattern does not occur in a text that lacks one of its characters. */
  lemma Absent(s: string, p: string, c: char)
    requires c in p && c !in s
    ensures !Occurs(s, p)
  {
    var j :| 0 <= j < |p| && p[j] == c;
    forall i ensures !OccursAt(s, p, i) {
      if OccursAt(s, p, i) {
        CharOf(s, p, i, j);
      }
    }
  }

  lemma CharOf(s: string, p: string, i: int, j: nat)
    requires OccursAt(s, p, i) && j < |p|
    ensures s[i + j] == p[j]
  {
    assert s[i..i + |p|][j] == s[i + j];
  }

  /** The tag reader finds something where both patterns stand in this order. */
  lemma HasInfo(a: string, open: string, mid: string, close: string, b: string)
    ensures GetInfo(a + (open + (mid + (close + b))), open, close).Some?
  {
    var s := a + (open + (mid + (close + b)));
    var q := |a| + |open| + |mid|;
    assert s[|a|..|a| + |open|] == open && s[q..q + |close|] == close;
    assert OccursAt(s, open, |a|);
    var k := Strstr(s, open).value;
    var rest := s[k + |open|..];
    assert rest[q - k - |open|..q - k - |open| + |close|] == close;
    assert OccursAt(rest, close, q - k - |open|);
  }

  /** The text around what the tag reader returns. */
  lemma GetInfoSplits(input: string, open: string, close: string) returns (k: nat, rest: string)
    requires GetInfo(input, open, close).Some?
    ensures Strstr(input, open) == Some(k) && k + |open| <= |input|
    ensures input[k + |open|..] == GetInfo(input, open, close).value + (close + rest)
  {
    k := Strstr(input, open).value;
    var t := input[k + |open|..];
    var e := Strstr(t, close).value;
    rest := t[e + |close|..];
    assert t[e..e + |close|] == close;
    assert t == t[..e] + (t[e..e + |close|] + t[e + |close|..]);
  }

  /** A text without the closing pattern has nothing for the tag reader. */
  lemma NoEnd(data: string, open: string, close: string)
    requires !Occurs(data, close)
    ensures GetInfo(data, open, close).None?
  {
    if GetInfo(data, open, close).Some? {
      var k := Strstr(data, open).value;
      var e := Strstr(data[k + |open|..], close).value;
      InSuffix(data, k + |open|, close, e);
    }
  }

  lemma InSuffix(data: string, k: nat, close: string, e: nat)
    requires k <= |data| && OccursAt(data[k..], close, e)
    ensures Occurs(data, close)
  {
    assert data[k..][e..e + |close|] == data[k + e..k + e + |close|];
    assert OccursAt(data, close, k + e);
  }

  lemma NotInSuffix(data: string, k: nat, p: string)
    requires k <= |data| && !Occurs(data, p)
    ensures !Occurs(data[k..], p)
  {
    forall e ensures !OccursAt(data[k..], p, e) {
      if OccursAt(data[k..], p, e) {
        InSuffix(data, k, p, e);
      }
    }
  }

  /* ---- decimal numbers ---- */

  function Digit(d: nat): char
    requires d < 10
  {
    '0' + d as char
  }

  predicate IsDigit(c: char) { '0' <= c <= '9' }

  /** printf("%ld") of a non-negative number. */
  function Dec(n: nat): (r: string)
    ensures |r| > 0 && forall i :: 0 <= i < |r| ==> IsDigit(r[i])
  {
    if n < 10 then [Digit(n)] else Dec(n / 10) + [Digit(n % 10)]
  }

  /** The number spelled by a run of decimal digits. */
  function DigitsValue(s: string): nat
    requires forall i :: 0 <= i < |s| ==> IsDigit(s[i])
  {
    if s == "" then 0
    else
      assert IsDigit(s[|s| - 1]);
      10 * DigitsValue(s[..|s| - 1]) + (s[|s| - 1] as nat - '0' as nat)
  }

  function DigitRun(s: string): (n: nat)
    ensures n <= |s| && forall i :: 0 <= i < n ==> IsDigit(s[i])
    ensures n < |s| ==> !IsDigit(s[n])
  {
    if s == "" || !IsDigit(s[0]) then 0 else 1 + DigitRun(s[1..])
  }

  function SkipSpace(s: string): (r: string)
    ensures |r| <= |s|
  {
    if s != "" && (s[0] == ' ' || '\t' <= s[0] <= '\r') then SkipSpace(s[1..]) else s
  }

  const LONG_MAX: int := 0x7fff_ffff_ffff_ffff

  /** strtol and strtoll in base 10: blanks, a sign, a digit run, clamped to 64 bits. */
  function Strtol(s: string): (r: int)
    ensures -LONG_MAX - 1 <= r <= LONG_MAX
  {
    var t := SkipSpace(s);
    var neg := t != "" && t[0] == '-';
    var u := if t != "" && (t[0] == '-' || t[0] == '+') then t[1..] else t;
    var v: int := DigitsValue(u[..DigitRun(u)]);
    if neg then (if v > LONG_MAX + 1 then -LONG_MAX - 1 else -v)
    else if v > LONG_MAX then LONG_MAX else v
  }

  /** The decimal reader of attributes: 0 when the attribute is missing. */
  function GetInfoInt(input: string, open: string, close: string): int
  {
    match Strstr(input, open)
    case None => 0
    case Some(k) =>
      var rest := input[k + |open|..];
      if Strstr(rest, close).Some? then Strtol(rest) else 0
  }

  /** Storing a 64-bit value into an int. */
  function ToInt32(x: int): (r: int)
    ensures -0x8000_0000 <= r < 0x8000_0000
  {
    var m := x % 0x1_0000_0000;
    if m < 0x8000_0000 then m else m - 0x1_0000_0000
  }

  lemma {:induction false} DecValue(n: nat)
    ensures DigitsValue(Dec(n)) == n
  {
    if n >= 10 {
      DecValue(n / 10);
      assert Dec(n)[..|Dec(n)| - 1] == Dec(n / 10);
    }
  }

  lemma DecInjective(m: nat, n: nat)
    requires Dec(m) == Dec(n)
    ensures m == n
  {
    DecValue(m);
    DecValue(n);
  }

  lemma DigitRunOf(d: string, rest: string)
    requires forall i :: 0 <= i < |d| ==> IsDigit(d[i])
    requires rest == "" || !IsDigit(rest[0])
    ensures DigitRun(d + rest) == |d|
  {
    assert rest != "" ==> (d + rest)[|d|] == rest[0];
    assert (d + rest)[..|d|] == d;
  }

  /** Reading back a printed number, whatever non-digit follows it. */
  lemma StrtolOfDec(n: nat, rest: string)
    requires n <= LONG_MAX
    requires rest == "" || !IsDigit(rest[0])
    ensures Strtol(Dec(n) + rest) == n
  {
    var s := Dec(n) + rest;
    assert s[0] == Dec(n)[0];
    DigitRunOf(Dec(n), rest);
    assert s[..|Dec(n)|] == Dec(n);
    DecValue(n);
  }

  lemma IntIs(input: string, open: string, close: string, rest: string)
    requires Strstr(input, open).Some? && input[Strstr(input, open).value + |open|..] == rest
    requires Strstr(rest, close).Some?
    ensures GetInfoInt(input, open, close) == Strtol(rest)
  {
  }

  lemma QuoteBehind(d: string, rest: string)
    ensures Strstr(d + ("'" + rest), "'").Some?
  {
    var s := d + ("'" + rest);
    assert s[|d|..|d| + 1] == "'";
    assert OccursAt(s, "'", |d|);
  }

  lemma DropFront(a: string, p: string, rest: string)
    ensures (a + (p + rest))[|a| + |p|..] == rest
  {
  }

  /** The number reader returns a printed number between its pattern and a quote. */
  lemma IntBehind(a: string, open: string, n: nat, rest: string)
    requires open != "" && open[0] !in a && n <= LONG_MAX
    ensures GetInfoInt(a + (open + (Dec(n) + ("'" + rest))), open, "'") == n
  {
    QuoteBehind(Dec(n), rest);
    StrtolOfDec(n, "'" + rest);
    IntBefore(a, open, Dec(n) + ("'" + rest), n);
  }

  lemma IntBefore(a: string, open: string, behind: string, v: int)
    requires open != "" && open[0] !in a && Strstr(behind, "'").Some? && Strtol(behind) == v
    ensures GetInfoInt(a + (open + behind), open, "'") == v
  {
    FoundBehind(a, open, behind);
    DropFront(a, open, behind);
    IntIs(a + (open + behind), open, "'", behind);
  }

  lemma IntAfter(a: string, open: string, behind: string)
    requires forall i :: 0 <= i < |a| ==> !OccursAt(a + (open + behind), open, i)
    requires Strstr(behind, "'").Some?
    ensures GetInfoInt(a + (open + behind), open, "'") == Strtol(behind)
  {
    FirstBehind(a, open, behind);
    DropFront(a, open, behind);
    IntIs(a + (open + behind), open, "'", behind);
  }

  /** The same for any text before the first place of the pattern. */
  lemma IntOf(a: string, open: string, n: nat, rest: string)
    requires n <= LONG_MAX
    requires forall i :: 0 <= i < |a| ==> !OccursAt(a + (open + (Dec(n) + ("'" + rest))), open, i)
    ensures GetInfoInt(a + (open + (Dec(n) + ("'" + rest))), open, "'") == n
  {
    QuoteBehind(Dec(n), rest);
    StrtolOfDec(n, "'" + rest);
    IntAfter(a, open, Dec(n) + ("'" + rest));
  }

  /** A number in range is stored as it is. */
  lemma FitsInt32(n: int)
    requires -0x8000_0000 <= n < 0x8000_0000
    ensures ToInt32(n) == n
  {
  }

  // ---- the other numbers of strtol

  /** Blanks in front of a number do not matter. */
  lemma SpaceSkips(c: char, s: string)
    requires c == ' ' || c == '\t' || c == '\n' || c == '\r'
    ensures Strtol([c] + s) == Strtol(s)
  {
    assert ([c] + s)[1..] == s;
  }

  lemma NoSpaceFirst(n: nat, rest: string)
    ensures SkipSpace(Dec(n) + rest) == Dec(n) + rest
  {
    assert (Dec(n) + rest)[0] == Dec(n)[0] && IsDigit(Dec(n)[0]);
  }

  lemma RunOf(n: nat, rest: string)
    requires rest == "" || !IsDigit(rest[0])
    ensures (Dec(n) + rest)[..DigitRun(Dec(n) + rest)] == Dec(n) && DigitsValue(Dec(n)) == n
  {
    DigitRunOf(Dec(n), rest);
    assert (Dec(n) + rest)[..|Dec(n)|] == Dec(n);
    DecValue(n);
  }

  lemma PlainReads(n: nat, rest: string)
    requires rest == "" || !IsDigit(rest[0])
    ensures Strtol(Dec(n) + rest) == if n > LONG_MAX then LONG_MAX else n
  {
    var d := Dec(n) + rest;
    NoSpaceFirst(n, rest);
    RunOf(n, rest);
    assert d[0] == Dec(n)[0] && IsDigit(d[0]);
  }

  /** Signs are read, and what does not fit 64 bits is cut to the nearest number that does. */
  lemma StrtolReads(n: nat, rest: string)
    requires rest == "" || !IsDigit(rest[0])
    ensures Strtol(Dec(n) + rest) == if n > 0x7fff_ffff_ffff_ffff then 0x7fff_ffff_ffff_ffff else n
    ensures Strtol("+" + (Dec(n) + rest)) == Strtol(Dec(n) + rest)
    ensures var v: int := n;
      Strtol("-" + (Dec(n) + rest)) == if v > 0x8000_0000_0000_0000 then -0x8000_0000_0000_0000 else -v
  {
    PlainReads(n, rest);
    RunOf(n, rest);
    SignedReads('+', Dec(n) + rest, n);
    SignedReads('-', Dec(n) + rest, n);
  }

  lemma SignedReads(c: char, d: string, n: nat)
    requires (c == '+' || c == '-') && d[..DigitRun(d)] == Dec(n) && DigitsValue(Dec(n)) == n
    ensures var v: int := n;
      Strtol([c] + d) ==
      if c == '-' then (if v > LONG_MAX + 1 then -LONG_MAX - 1 else -v)
      else if v > LONG_MAX then LONG_MAX else v
  {
    assert ([c] + d)[0] == c && ([c] + d)[1..] == d;
  }

  // ---- readers on a longer text

  /** What stands behind what the tag reader returns does not matter. */
  lemma InfoStable(x: string, u: string, open: string, close: string)
    requires GetInfo(x, open, close).Some?
    ensures GetInfo(x + u, open, close) == GetInfo(x, open, close)
  {
    var k := Strstr(x, open).value;
    var rest := x[k + |open|..];
    StrstrStable(x, u, open);
    assert (x + u)[k + |open|..] == rest + u;
    StrstrStable(rest, u, close);
    PrefixOfConcat(rest, u, Strstr(rest, close).value);
  }

  /** Nor does a text in front in which the opening pattern does not start. */
  lemma InfoBehind(a: string, x: string, open: string, close: string)
    requires forall i :: 0 <= i < |a| ==> !OccursAt(a + x, open, i)
    ensures GetInfo(a + x, open, close) == GetInfo(x, open, close)
  {
    StrstrSkip(a, x, open);
    if Strstr(x, open).Some? {
      var k := Strstr(x, open).value;
      assert (a + x)[|a| + k + |open|..] == x[k + |open|..];
    }
  }

  /** What the reader returns ends with its closing pattern before a last character that is not in it. */
  lemma ClosesBefore(x: string, c: char, k: nat, t: string, e: nat, close: string)
    requires k <= |x + [c]| && t == (x + [c])[k..] && OccursAt(t, close, e) && close != "" && c !in close
    ensures k + e + |close| <= |x| && t == x[k..] + [c]
  {
    assert t[e..e + |close|] == close;
    if e + |close| == |t| {
      assert t[e..] == close && (x + [c])[k + e..] == close;
      LastIn(x, c, k + e, close);
    }
  }

  lemma InfoIs(x: string, open: string, close: string, rest: string)
    requires Strstr(x, open).Some? && x[Strstr(x, open).value + |open|..] == rest && Strstr(rest, close).Some?
    ensures GetInfo(x, open, close) == Some(rest[..Strstr(rest, close).value])
  {
  }

  /** A last character that is not in the closing pattern can go. */
  lemma InfoWithoutLast(x: string, c: char, open: string, close: string)
    requires GetInfo(x + [c], open, close).Some? && close != "" && c !in close
    ensures GetInfo(x, open, close) == GetInfo(x + [c], open, close)
  {
    var k := Strstr(x + [c], open).value;
    var t := (x + [c])[k + |open|..];
    var e := Strstr(t, close).value;
    ClosesBefore(x, c, k + |open|, t, e, close);
    ShorterFound(x, [c], open, k);
    ShorterFound(x[k + |open|..], [c], close, e);
    PrefixOfConcat(x[k + |open|..], [c], e);
    InfoIs(x, open, close, x[k + |open|..]);
  }

  lemma LastIn(x: string, c: char, i: nat, close: string)
    requires i <= |x + [c]| && (x + [c])[i..] == close && close != ""
    ensures c in close
  {
    assert close[|close| - 1] == (x + [c])[|x|] == c;
  }

  /** A first match that lies inside x is the first match in x. */
  lemma ShorterFound(x: string, u: string, p: string, k: nat)
    requires Strstr(x + u, p) == Some(k) && k + |p| <= |x|
    ensures Strstr(x, p) == Some(k)
  {
    forall j | 0 <= j <= k ensures OccursAt(x + u, p, j) <==> OccursAt(x, p, j) {
      assert (x + u)[j..j + |p|] == x[j..j + |p|];
    }
    StrstrIs(x, p, k);
  }
}
