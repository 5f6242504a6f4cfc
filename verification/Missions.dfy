/**
  The names of missions (src/xmpp_wf/get/xmpp_iq_missions_get_list.c): every mission of the server's
  list gets a short name made from its type, with a number behind it when the name is taken.
 */
module Missions {
  import opened CStrings
  import opened LinkedList

  /** A mission: its name and the text of its element, from which the other fields are read. */
  datatype Mission = Mission(name: string, text: string)

  /** The part of a type before its first "mission". */
  function BaseName(kind: string): string
  {
    match Strstr(kind, "mission")
    case None => kind
    case Some(k) => kind[..k]
  }

  /** The names that are tried: the base, then base_2, base_3 and so on. */
  function Candidate(base: string, counter: nat): string
  {
    if counter <= 1 then base else base + ("_" + Dec(counter))
  }

  function Names(list: seq<Mission>): (r: seq<string>)
    ensures |r| == |list| && forall i :: 0 <= i < |r| ==> r[i] == list[i].name
  {
    seq(|list|, i requires 0 <= i < |list| => list[i].name)
  }

  // ---------------------------------------------------------------------------------------------
  // The search for a free name ends
  // ---------------------------------------------------------------------------------------------

  lemma CandidatesDiffer(base: string, i: nat, j: nat)
    requires 1 <= i < j
    ensures Candidate(base, i) != Candidate(base, j)
  {
    if i > 1 && Candidate(base, i) == Candidate(base, j) {
      SameRest(base, "_" + Dec(i), "_" + Dec(j));
      SameRest("_", Dec(i), Dec(j));
      DecInjective(i, j);
    }
  }

  /** The first candidates, as a set. */
  function Tried(base: string, n: nat): (r: set<string>)
  {
    if n == 0 then {} else Tried(base, n - 1) + {Candidate(base, n)}
  }

  lemma {:induction false} TriedHas(base: string, n: nat, name: string)
    ensures name in Tried(base, n) ==> exists i :: 1 <= i <= n && Candidate(base, i) == name
  {
    if n > 0 {
      TriedHas(base, n - 1, name);
    }
  }

  lemma {:induction false} TriedCount(base: string, n: nat)
    ensures |Tried(base, n)| == n
  {
    if n > 0 {
      TriedCount(base, n - 1);
      TriedHas(base, n - 1, Candidate(base, n));
      forall i | 1 <= i <= n - 1 ensures Candidate(base, i) != Candidate(base, n) {
        CandidatesDiffer(base, i, n);
      }
    }
  }

  function SetOf(names: seq<string>): (r: set<string>)
    ensures forall n :: n in r <==> n in names
  {
    set n | n in names
  }

  lemma {:induction false} SetOfCount(names: seq<string>)
    ensures |SetOf(names)| <= |names|
  {
    if names != [] {
      SetOfCount(names[1..]);
      assert names == [names[0]] + names[1..];
      assert SetOf(names) == {names[0]} + SetOf(names[1..]);
    } else {
      assert SetOf(names) == {};
    }
  }

  lemma {:induction false} SubsetCount(a: set<string>, b: set<string>)
    requires a <= b
    ensures |a| <= |b|
    decreases a
  {
    if a != {} {
      var x :| x in a;
      SubsetCount(a - {x}, b - {x});
    }
  }

  ghost predicate AllTaken(names: seq<string>, base: string, n: nat)
  {
    forall i :: 1 <= i <= n ==> Candidate(base, i) in names
  }

  /** Pigeonhole: no more candidates than names can be taken. */
  lemma Pigeonhole(names: seq<string>, base: string, n: nat)
    requires AllTaken(names, base, n)
    ensures n <= |names|
  {
    forall name | name in Tried(base, n) ensures name in SetOf(names) {
      TriedHas(base, n, name);
    }
    SubsetCount(Tried(base, n), SetOf(names));
    TriedCount(base, n);
    SetOfCount(names);
  }

  /** The first counter from c on whose candidate is free. */
  function FreeCounter(names: seq<string>, base: string, c: nat): (r: nat)
    requires 1 <= c && AllTaken(names, base, c - 1)
    ensures c <= r && Candidate(base, r) !in names && AllTaken(names, base, r - 1)
    decreases |names| + 1 - c
  {
    Pigeonhole(names, base, c - 1);
    if Candidate(base, c) !in names then c
    else
      Pigeonhole(names, base, c);
      FreeCounter(names, base, c + 1)
  }

  function FreeName(names: seq<string>, base: string): string { Candidate(base, FreeCounter(names, base, 1)) }

  lemma FreeCounterIs(names: seq<string>, base: string, c: nat, r: nat)
    requires 1 <= c <= r && AllTaken(names, base, r - 1) && Candidate(base, r) !in names
    ensures FreeCounter(names, base, c) == r
    decreases r - c
  {
    if c < r {
      assert Candidate(base, c) in names;
      FreeCounterIs(names, base, c + 1, r);
    }
  }

  /** A new name is new, is the first free candidate, and is found within one try more than there are names. */
  lemma FreeNameIsFirst(names: seq<string>, base: string)
    ensures var c := FreeCounter(names, base, 1);
      && FreeName(names, base) !in names
      && c <= |names| + 1
      && forall i :: 1 <= i < c ==> Candidate(base, i) in names
  {
    Pigeonhole(names, base, FreeCounter(names, base, 1) - 1);
  }

  // ---------------------------------------------------------------------------------------------
  // The list
  // ---------------------------------------------------------------------------------------------

  /** What the list holds, newest first, and whether the program met no null pointer and no end of string. */
  datatype Outcome = Outcome(list: seq<Mission>, ok: bool)

  const LIST: string := "<missions_get_list"
  const ELEMENT: string := "<mission"
  const OPEN: string := "<mission "
  const CLOSE: string := "</mission>"

  /** The next mission element: its type, its text, and where the search goes on. */
  datatype Element = End | Broken | Element(kind: string, text: string, rest: string)

  function NextElement(m: string): (e: Element)
    ensures e.Element? ==> |e.rest| < |m|
  {
    match Strstr(m, ELEMENT)
    case None => End
    case Some(k) =>
      var s := m[k..];
      match GetInfo(s, OPEN, CLOSE)
      case None => Broken
      case Some(text) =>
        match GetInfo(text, "type='", "'")
        case None => Broken
        case Some(kind) => Element(kind, text, s[|ELEMENT| + 1..])
  }

  function Added(list: seq<Mission>, kind: string, text: string): seq<Mission>
  {
    [Mission(FreeName(Names(list), BaseName(kind)), text)] + list
  }

  function MissionsFrom(m: string, list: seq<Mission>): Outcome
    decreases |m|
  {
    match NextElement(m)
    case End => Outcome(list, true)
    case Broken => Outcome(list, false)
    case Element(kind, text, rest) => MissionsFrom(rest, Added(list, kind, text))
  }

  /** The whole answer: nothing without the list element, then everything behind its name and one more. */
  function MissionsIn(data: string): Outcome
  {
    match Strstr(data, LIST)
    case None => Outcome([], true)
    case Some(k) =>
      if k + |LIST| + 1 > |data| then Outcome([], false) else MissionsFrom(data[k + |LIST| + 1..], [])
  }

  ghost predicate Distinct(list: seq<Mission>)
  {
    forall i, j :: 0 <= i < j < |list| ==> list[i].name != list[j].name
  }

  lemma NewNameKeepsDistinct(list: seq<Mission>, kind: string, text: string)
    requires Distinct(list)
    ensures Distinct(Added(list, kind, text))
  {
    var name := FreeName(Names(list), BaseName(kind));
    forall i | 0 <= i < |list| ensures list[i].name != name {
      assert Names(list)[i] in Names(list);
    }
  }

  lemma {:induction false} AddingKeepsDistinct(m: string, list: seq<Mission>)
    requires Distinct(list)
    ensures Distinct(MissionsFrom(m, list).list)
    decreases |m|
  {
    match NextElement(m) {
      case Element(kind, text, rest) =>
        NewNameKeepsDistinct(list, kind, text);
        AddingKeepsDistinct(rest, Added(list, kind, text));
      case _ =>
    }
  }

  /** The names are pairwise distinct, whatever the server's list contains. */
  lemma NamesAreDistinct(data: string)
    ensures Distinct(MissionsIn(data).list)
  {
    var k := Strstr(data, LIST);
    if k.Some? && k.value + |LIST| + 1 <= |data| {
      AddingKeepsDistinct(data[k.value + |LIST| + 1..], []);
    }
  }

  function Named(name: string): Mission -> bool { (m: Mission) => m.name == name }

  /** Looking a name up returns the mission that got it. */
  lemma LookupFinds(list: seq<Mission>, i: nat)
    requires Distinct(list) && i < |list|
    ensures Find(list, Named(list[i].name)) == Some(list[i])
  {
    FirstMatchIs(list, Named(list[i].name), i);
  }

  // ---- the loops of the program

  /** The loop that tries names until list_get finds none. */
  method ChooseName(list: List<Mission>, base: string) returns (newName: string)
    requires list.Valid()
    ensures newName == FreeName(Names(list.Values()), base)
  {
    newName := base;
    var counter := 1;
    ghost var names := Names(list.Values());
    var same := list.GetBy(Named(newName));
    FoundOrFree(list.Values(), newName);
    while same.Some?
      invariant 1 <= counter && newName == Candidate(base, counter) && AllTaken(names, base, counter - 1)
      invariant same.Some? <==> newName in names
      decreases |names| + 1 - counter
    {
      Pigeonhole(names, base, counter);
      counter := counter + 1;
      newName := base + ("_" + Dec(counter));
      same := list.GetBy(Named(newName));
      FoundOrFree(list.Values(), newName);
    }
    FreeCounterIs(names, base, 1, counter);
  }

  lemma FoundOrFree(list: seq<Mission>, name: string)
    ensures Find(list, Named(name)).Some? <==> name in Names(list)
  {
    var k := FirstMatch(list, Named(name));
    if k < |list| {
      assert Names(list)[k] == name;
    } else {
      assert forall i :: 0 <= i < |list| ==> !Named(name)(list[i]);
    }
  }

  method AddMission(list: List<Mission>, kind: string, text: string)
    requires list.Valid()
    modifies list, list.repr
    ensures list.Valid() && fresh(list.repr - old(list.repr))
    ensures list.Values() == Added(old(list.Values()), kind, text)
  {
    var name := ChooseName(list, BaseName(kind));
    list.Add(Mission(name, text));
  }

  method ReadElements(start: string, list: List<Mission>) returns (ok: bool)
    requires list.Valid()
    modifies list, list.repr
    ensures list.Valid()
    ensures Outcome(list.Values(), ok) == MissionsFrom(start, old(list.Values()))
  {
    ok := true;
    var m := start;
    ghost var goal := MissionsFrom(start, list.Values());
    var e := NextElement(m);
    while e.Element?
      invariant list.Valid() && fresh(list.repr - old(list.repr))
      invariant e == NextElement(m) && MissionsFrom(m, list.Values()) == goal
      decreases |m|
    {
      m := e.rest;
      AddMission(list, e.kind, e.text);
      e := NextElement(m);
    }
    ok := e.End?;
  }

  /** The list that the callback hands on, before the maps for player against player are appended. */
  method ReadMissions(data: string) returns (list: List<Mission>, ok: bool)
    ensures fresh(list) && list.Valid()
    ensures Outcome(list.Values(), ok) == MissionsIn(data)
    ensures Distinct(list.Values())
  {
    NamesAreDistinct(data);
    list := new List<Mission>();
    assert list.Values() == [];
    ok := true;
    var k := Strstr(data, LIST);
    if k.Some? {
      if k.value + |LIST| + 1 > |data| {
        ok := false;
      } else {
        ok := ReadElements(data[k.value + |LIST| + 1..], list);
      }
    }
  }

  // ---------------------------------------------------------------------------------------------
  // Which name a mission gets
  // ---------------------------------------------------------------------------------------------

  /** The names given to missions with these bases, in the order of the server's list. */
  function Given(bases: seq<string>): (r: seq<string>)
    ensures |r| == |bases|
    decreases |bases|
  {
    if bases == [] then []
    else
      var before := Given(bases[..|bases| - 1]);
      before + [FreeName(before, bases[|bases| - 1])]
  }

  function Occurrences(bases: seq<string>, base: string): nat
  {
    if bases == [] then 0
    else Occurrences(bases[..|bases| - 1], base) + (if bases[|bases| - 1] == base then 1 else 0)
  }

  /** The length of the run of digits at the end. */
  function DigitsAtEnd(s: string): (n: nat)
    ensures n <= |s|
  {
    if s == "" || !IsDigit(s[|s| - 1]) then 0 else 1 + DigitsAtEnd(s[..|s| - 1])
  }

  /** Looks like a base with a number behind it. */
  predicate LooksNumbered(s: string)
  {
    var n := DigitsAtEnd(s);
    0 < n < |s| && s[|s| - n - 1] == '_'
  }

  predicate Plain(bases: seq<string>) { forall b :: b in bases ==> !LooksNumbered(b) }

  lemma {:induction false} DigitsOf(a: string, d: string)
    requires a != "" && !IsDigit(a[|a| - 1]) && forall i :: 0 <= i < |d| ==> IsDigit(d[i])
    ensures DigitsAtEnd(a + d) == |d|
  {
    if d == "" {
      assert a + d == a;
    } else {
      assert (a + d)[..|a + d| - 1] == a + d[..|d| - 1];
      DigitsOf(a, d[..|d| - 1]);
    }
  }

  lemma NumberShows(base: string, c: nat)
    requires c >= 2
    ensures LooksNumbered(Candidate(base, c)) && DigitsAtEnd(Candidate(base, c)) == |Dec(c)|
    ensures Candidate(base, c)[..|Candidate(base, c)| - |Dec(c)| - 1] == base
  {
    Underscore(base, Dec(c));
    assert Candidate(base, c) == base + ("_" + Dec(c));
  }

  lemma Underscore(base: string, d: string)
    requires d != "" && forall i :: 0 <= i < |d| ==> IsDigit(d[i])
    ensures var s := base + ("_" + d);
      LooksNumbered(s) && DigitsAtEnd(s) == |d| && s[..|s| - |d| - 1] == base
  {
    DigitsOf(base + "_", d);
    var s := base + ("_" + d);
    assert s == (base + "_") + d;
    assert s[|base|] == '_' && |s| - |d| - 1 == |base|;
    assert s[..|base|] == base;
  }

  /** Candidates of different bases that do not look numbered are different. */
  lemma BasesApart(a: string, i: nat, b: string, j: nat)
    requires !LooksNumbered(a) && !LooksNumbered(b) && a != b
    ensures Candidate(a, i) != Candidate(b, j)
  {
    if i >= 2 {
      NumberShows(a, i);
    }
    if j >= 2 {
      NumberShows(b, j);
    }
  }

  lemma SameBaseDiffers(base: string, i: nat, j: nat)
    requires 1 <= i && 1 <= j && i != j
    ensures Candidate(base, i) != Candidate(base, j)
  {
    if i < j {
      CandidatesDiffer(base, i, j);
    } else {
      CandidatesDiffer(base, j, i);
    }
  }

  lemma GivenSplits(bases: seq<string>)
    requires bases != []
    ensures var n := |bases| - 1; Given(bases) == Given(bases[..n]) + [FreeName(Given(bases[..n]), bases[n])]
  {
  }

  lemma InFront<T>(s: seq<T>, x: T, y: T)
    ensures y in s + [x] <==> y in s || y == x
  {
  }

  /** Exactly the first candidates of a base are given, as many as the base occurs. */
  lemma {:induction false} GivenAre(bases: seq<string>, base: string, i: nat)
    requires Plain(bases) && !LooksNumbered(base) && 1 <= i
    ensures Candidate(base, i) in Given(bases) <==> i <= Occurrences(bases, base)
    decreases |bases|, 0
  {
    if bases != [] {
      var n := |bases| - 1;
      var before := bases[..n];
      var last := bases[n];
      assert last in bases && Plain(before);
      GivenAre(before, base, i);
      NextNumber(before, last);
      GivenSplits(bases);
      var c := Occurrences(before, last) + 1;
      InFront(Given(before), Candidate(last, c), Candidate(base, i));
      if last != base {
        BasesApart(base, i, last, c);
      } else if i != c {
        SameBaseDiffers(base, i, c);
      }
    }
  }

  /** The next mission of a type gets the next number. */
  lemma {:induction false} NextNumber(bases: seq<string>, base: string)
    requires Plain(bases) && !LooksNumbered(base)
    ensures FreeName(Given(bases), base) == Candidate(base, Occurrences(bases, base) + 1)
    decreases |bases|, 2
  {
    var c := Occurrences(bases, base) + 1;
    FirstFreeIs(bases, base, c);
    FreeCounterIs(Given(bases), base, 1, c);
  }

  lemma {:induction false} FirstFreeIs(bases: seq<string>, base: string, c: nat)
    requires Plain(bases) && !LooksNumbered(base) && c == Occurrences(bases, base) + 1
    ensures AllTaken(Given(bases), base, c - 1) && Candidate(base, c) !in Given(bases)
    decreases |bases|, 1
  {
    forall i | 1 <= i <= c ensures Candidate(base, i) in Given(bases) <==> i < c {
      GivenAre(bases, base, i);
    }
  }

  lemma GivenNext(bases: seq<string>, base: string)
    ensures Given(bases + [base]) == Given(bases) + [FreeName(Given(bases), base)]
  {
    GivenSplits(bases + [base]);
    assert (bases + [base])[..|bases|] == bases;
  }

  /** Later missions do not change the names of earlier ones. */
  lemma {:induction false} GivenExtends(a: seq<string>, b: seq<string>)
    ensures Given(a) <= Given(a + b)
    decreases |b|
  {
    if b == [] {
      assert a + b == a;
    } else {
      GivenNext(a, b[0]);
      GivenExtends(a + [b[0]], b[1..]);
      MoveBase(a, b[0], b[1..]);
      assert [b[0]] + b[1..] == b;
      PrefixOfPrefix(Given(a), Given(a + [b[0]]), Given(a + b));
    }
  }

  lemma PrefixOfPrefix(a: seq<string>, b: seq<string>, c: seq<string>)
    requires a <= b <= c
    ensures a <= c
  {
  }

  /**
    When no type looks numbered itself, the missions of one type are numbered in the order of the
    server's list: the first has the bare name, the k-th has _k behind it.
   */
  lemma NumberedInOrder(before: seq<string>, base: string, after: seq<string>)
    requires Plain(before) && !LooksNumbered(base)
    ensures Given((before + [base]) + after)[|before|] == Candidate(base, Occurrences(before, base) + 1)
  {
    NextNumber(before, base);
    GivenNext(before, base);
    GivenExtends(before + [base], after);
  }

  // ---- the list gives these names

  function Backwards(s: seq<string>): (r: seq<string>)
    ensures |r| == |s| && forall i :: 0 <= i < |r| ==> r[i] == s[|s| - 1 - i]
  {
    seq(|s|, i requires 0 <= i < |s| => s[|s| - 1 - i])
  }

  lemma BackwardsNext(s: seq<string>, n: string)
    ensures Backwards(s + [n]) == [n] + Backwards(s)
  {
  }

  lemma NamesNext(list: seq<Mission>, x: Mission)
    ensures Names([x] + list) == [x.name] + Names(list)
  {
  }

  lemma AddedName(list: seq<Mission>, bases: seq<string>, kind: string, text: string)
    requires Names(list) == Backwards(Given(bases))
    ensures Names(Added(list, kind, text)) == Backwards(Given(bases + [BaseName(kind)]))
  {
    var base := BaseName(kind);
    SameFreeName(Names(list), Given(bases), base);
    GivenNext(bases, base);
    BackwardsNext(Given(bases), FreeName(Given(bases), base));
    NamesNext(list, Mission(FreeName(Names(list), base), text));
  }

  /** Only which names are taken matters for the next one. */
  lemma SameFreeName(a: seq<string>, b: seq<string>, base: string)
    requires a == Backwards(b)
    ensures FreeName(a, base) == FreeName(b, base)
  {
    forall n ensures n in a <==> n in b {
      BackwardsHas(b, n);
    }
    var c := FreeCounter(b, base, 1);
    FreeCounterIs(a, base, 1, c);
  }

  lemma BackwardsHas(s: seq<string>, n: string)
    ensures n in Backwards(s) <==> n in s
  {
    if n in s {
      var i :| 0 <= i < |s| && s[i] == n;
      assert Backwards(s)[|s| - 1 - i] == n;
    }
  }

  /** The bases of the mission elements, in the order of the server's list. */
  function BasesFrom(m: string): seq<string>
    decreases |m|
  {
    match NextElement(m)
    case Element(kind, text, rest) => [BaseName(kind)] + BasesFrom(rest)
    case _ => []
  }

  lemma MoveBase(a: seq<string>, x: string, b: seq<string>)
    ensures (a + [x]) + b == a + ([x] + b)
  {
  }

  lemma {:induction false} ListIsGiven(m: string, list: seq<Mission>, bases: seq<string>)
    requires Names(list) == Backwards(Given(bases))
    ensures Names(MissionsFrom(m, list).list) == Backwards(Given(bases + BasesFrom(m)))
    decreases |m|
  {
    var e := NextElement(m);
    if e.Element? {
      var base := BaseName(e.kind);
      AddedName(list, bases, e.kind, e.text);
      ListIsGiven(e.rest, Added(list, e.kind, e.text), bases + [base]);
      MoveBase(bases, base, BasesFrom(e.rest));
    } else {
      assert bases + [] == bases;
    }
  }

  /** The names in the list, newest first, are those given to the bases of the server's elements. */
  lemma NamesInList(m: string)
    ensures Names(MissionsFrom(m, []).list) == Backwards(Given(BasesFrom(m)))
  {
    ListIsGiven(m, [], []);
    assert [] + BasesFrom(m) == BasesFrom(m);
  }

  // ---- the list as a text

  /** The base of a type: what stands before its first "mission", or all of it. */
  lemma BaseIs(a: string, b: string)
    requires forall i :: 0 <= i < |a| ==> !OccursAt(a + ("mission" + b), "mission", i)
    ensures BaseName(a + ("mission" + b)) == a
    ensures !Occurs(a, "mission") ==> BaseName(a) == a
  {
    FirstBehind(a, "mission", b);
  }

  /** The second and later missions of a type have their number behind the name. */
  lemma CandidateIs(base: string, c: nat)
    ensures Candidate(base, 1) == base
    ensures c >= 2 ==> Candidate(base, c) == base + "_" + Dec(c)
  {
  }

  /** An element of the list: what stands before its type, the type, and what follows it. */
  datatype Entry = Entry(front: string, kind: string, behind: string)

  function EntryText(e: Entry): string { e.front + ("type='" + (e.kind + ("'" + e.behind))) }

  /** No type before the type, no quote in it, and no other element inside. */
  ghost predicate IsEntry(e: Entry)
  {
    && (forall i :: 0 <= i < |e.front| ==> !OccursAt(EntryText(e), "type='", i)) && '\'' !in e.kind
    && (forall i :: 0 <= i < |EntryText(e)| ==> !OccursAt(EntryText(e) + "</mission>", "</mission>", i))
    && !Occurs(EntryText(e), "<mission")
  }

  function Listed(entries: seq<Entry>): string
    decreases |entries|
  {
    if entries == [] then "</missions_get_list>"
    else "<mission " + (EntryText(entries[0]) + ("</mission>" + Listed(entries[1..])))
  }

  lemma KindRead(e: Entry)
    requires IsEntry(e)
    ensures GetInfo(EntryText(e), "type='", "'") == Some(e.kind)
  {
    NoStartWithoutFirst(e.kind, "'" + e.behind, "'");
    GetInfoOf(e.front, "type='", e.kind, "'", e.behind);
  }

  /** No element starts in the text of an entry or across its end. */
  lemma NoElementInside(text: string, rest: string)
    requires !Occurs(text, "<mission")
    ensures forall i :: 0 <= i < |text + "</mission>"| ==> !OccursAt(text + "</mission>" + rest, "<mission", i)
  {
    forall i | 0 <= i < |text + "</mission>"| ensures !OccursAt(text + "</mission>" + rest, "<mission", i) {
      NoElementAt(text, rest, i);
    }
  }

  lemma NoElementAt(text: string, rest: string, i: nat)
    requires !Occurs(text, "<mission") && i < |text + "</mission>"|
    ensures !OccursAt(text + "</mission>" + rest, "<mission", i)
  {
    var s, p := text + "</mission>" + rest, "<mission";
    assert s == text + ("</mission>" + rest);
    if OccursAt(s, p, i) {
      CharOf(s, p, i, 0);
      CharOf(s, p, i, 1);
      if i + |p| <= |text| {
        Inside(text, "</mission>" + rest, p, i);
      } else if i < |text| {
        CharOf(s, p, i, |text| - i);
      }
    }
  }

  /** A text in which no element starts is passed over. */
  lemma Passed(x: string, y: string)
    requires forall i :: 0 <= i < |x| ==> !OccursAt(x + y, "<mission", i)
    ensures NextElement(x + y) == NextElement(y)
  {
    StrstrSkip(x, y, "<mission");
    if Strstr(y, "<mission").Some? {
      var k := Strstr(y, "<mission").value;
      assert (x + y)[|x| + k..] == y[k..];
    }
  }

  lemma BasesStep(m: string)
    ensures BasesFrom(m) == match NextElement(m) {
      case Element(kind, text, rest) => [BaseName(kind)] + BasesFrom(rest)
      case _ => [] }
  {
  }

  lemma SameBases(x: string, y: string)
    requires NextElement(x) == NextElement(y)
    ensures BasesFrom(x) == BasesFrom(y)
  {
    BasesStep(x);
    BasesStep(y);
  }

  lemma Inside(x: string, u: string, p: string, i: nat)
    requires OccursAt(x + u, p, i) && i + |p| <= |x|
    ensures Occurs(x, p)
  {
    assert (x + u)[i..i + |p|] == x[i..i + |p|];
    assert OccursAt(x, p, i);
  }

  lemma TextEnds(text: string, rest: string)
    requires forall i :: 0 <= i < |text| ==> !OccursAt(text + "</mission>", "</mission>", i)
    ensures GetInfo("<mission " + (text + ("</mission>" + rest)), "<mission ", "</mission>") == Some(text)
  {
    forall i | 0 <= i < |text| ensures !OccursAt(text + ("</mission>" + rest), "</mission>", i) {
      assert text + ("</mission>" + rest) == text + "</mission>" + rest;
      StartStable(text + "</mission>", rest, "</mission>", i);
    }
    GetInfoOf("", "<mission ", text, "</mission>", rest);
    assert "" + ("<mission " + (text + ("</mission>" + rest))) == "<mission " + (text + ("</mission>" + rest));
  }

  lemma StartStable(x: string, u: string, p: string, i: nat)
    requires i + |p| <= |x| && !OccursAt(x, p, i)
    ensures !OccursAt(x + u, p, i)
  {
    assert (x + u)[i..i + |p|] == x[i..i + |p|];
  }

  lemma ElementIs(s: string, text: string, kind: string, rest: string)
    requires Strstr(s, ELEMENT) == Some(0) && |s| >= |ELEMENT| + 1 && s[|ELEMENT| + 1..] == rest
    requires GetInfo(s, OPEN, CLOSE) == Some(text) && GetInfo(text, "type='", "'") == Some(kind)
    ensures NextElement(s) == Element(kind, text, rest)
  {
    assert s[0..] == s;
  }

  lemma StartsElement(rest: string)
    ensures Strstr("<mission " + rest, ELEMENT) == Some(0) && ("<mission " + rest)[|ELEMENT| + 1..] == rest
  {
    assert OccursAt("<mission " + rest, ELEMENT, 0);
    StrstrIs("<mission " + rest, ELEMENT, 0);
  }

  lemma FirstEntry(e: Entry, rest: string)
    requires IsEntry(e)
    ensures var behind := EntryText(e) + ("</mission>" + rest);
      && NextElement("<mission " + behind) == Element(e.kind, EntryText(e), behind)
      && NextElement(behind) == NextElement(rest)
  {
    var text := EntryText(e);
    var behind := text + ("</mission>" + rest);
    KindRead(e);
    TextEnds(text, rest);
    StartsElement(behind);
    ElementIs("<mission " + behind, text, e.kind, behind);
    NoElementInside(text, rest);
    Passed(text + "</mission>", rest);
    Associates(text, "</mission>", rest);
  }

  function Bases(entries: seq<Entry>): seq<string>
  {
    seq(|entries|, i requires 0 <= i < |entries| => BaseName(entries[i].kind))
  }

  lemma NoMoreElements()
    ensures NextElement("</missions_get_list>") == End
  {
    assert '<' !in "/missions_get_list>";
    OnlyEndTag("/missions_get_list>", ELEMENT);
    assert "<" + "/missions_get_list>" == "</missions_get_list>";
  }

  lemma OnlyEndTag(s: string, p: string)
    requires '<' !in s && |s| > 0 && s[0] == '/' && |p| > 1 && p[0] == '<' && p[1] != '/'
    ensures !Occurs("<" + s, p)
  {
    forall i ensures !OccursAt("<" + s, p, i) {
      if OccursAt("<" + s, p, i) {
        CharOf("<" + s, p, i, 0);
        CharOf("<" + s, p, i, 1);
      }
    }
  }

  lemma FirstBase(e: Entry, rest: string, m: string)
    requires IsEntry(e) && m == "<mission " + (EntryText(e) + ("</mission>" + rest))
    ensures BasesFrom(m) == [BaseName(e.kind)] + BasesFrom(rest)
  {
    var behind := EntryText(e) + ("</mission>" + rest);
    FirstEntry(e, rest);
    BasesStep(m);
    SameBases(behind, rest);
  }

  ghost predicate AreEntries(entries: seq<Entry>) { forall i :: 0 <= i < |entries| ==> IsEntry(entries[i]) }

  lemma BasesFront(entries: seq<Entry>)
    requires entries != []
    ensures Bases(entries) == [BaseName(entries[0].kind)] + Bases(entries[1..])
  {
  }

  lemma NoBases()
    ensures BasesFrom("</missions_get_list>") == []
  {
    NoMoreElements();
    BasesStep("</missions_get_list>");
  }

  /** The bases of a list written as a text are those of the types of its entries. */
  lemma {:induction false} BasesOfText(entries: seq<Entry>)
    requires AreEntries(entries)
    ensures BasesFrom(Listed(entries)) == Bases(entries)
    decreases |entries|
  {
    if entries == [] {
      NoBases();
    } else {
      assert IsEntry(entries[0]) && AreEntries(entries[1..]);
      BasesOfText(entries[1..]);
      FirstBase(entries[0], Listed(entries[1..]), Listed(entries));
      BasesFront(entries);
    }
  }

  /** The missions of a list written as a text get the names given to the types of its entries, in their order. */
  lemma TextIsNamed(entries: seq<Entry>)
    requires AreEntries(entries)
    ensures var r := MissionsIn("<missions_get_list" + (">" + Listed(entries)));
      r.ok && Names(r.list) == Backwards(Given(Bases(entries)))
  {
    var data, m := "<missions_get_list" + (">" + Listed(entries)), Listed(entries);
    ListStarts(m);
    MissionsBehind(data, m);
    BasesOfText(entries);
    ListedIsRead(entries, []);
    NamesInList(m);
  }

  lemma OkStep(m: string, list: seq<Mission>)
    ensures var e := NextElement(m);
      MissionsFrom(m, list).ok ==
        if e.Element? then MissionsFrom(e.rest, Added(list, e.kind, e.text)).ok else e.End?
  {
  }

  lemma FirstOk(e: Entry, rest: string, m: string, list: seq<Mission>)
    requires IsEntry(e) && m == "<mission " + (EntryText(e) + ("</mission>" + rest))
    ensures MissionsFrom(m, list).ok == MissionsFrom(rest, Added(list, e.kind, EntryText(e))).ok
  {
    var behind, next := EntryText(e) + ("</mission>" + rest), Added(list, e.kind, EntryText(e));
    FirstEntry(e, rest);
    OkStep(m, list);
    OkStep(behind, next);
    OkStep(rest, next);
  }

  lemma EndOk(list: seq<Mission>)
    ensures MissionsFrom("</missions_get_list>", list).ok
  {
    NoMoreElements();
    OkStep("</missions_get_list>", list);
  }

  lemma {:induction false} ListedIsRead(entries: seq<Entry>, list: seq<Mission>)
    requires AreEntries(entries)
    ensures MissionsFrom(Listed(entries), list).ok
    decreases |entries|
  {
    if entries == [] {
      EndOk(list);
    } else {
      assert IsEntry(entries[0]) && AreEntries(entries[1..]);
      ListedIsRead(entries[1..], Added(list, entries[0].kind, EntryText(entries[0])));
      FirstOk(entries[0], Listed(entries[1..]), Listed(entries), list);
    }
  }

  lemma ListStarts(m: string)
    ensures var data := "<missions_get_list" + (">" + m);
      Strstr(data, LIST) == Some(0) && |LIST| + 1 <= |data| && data[|LIST| + 1..] == m
  {
    var data := LIST + (">" + m);
    assert "" + data == data;
    FoundBehind("", LIST, ">" + m);
  }

  lemma MissionsBehind(data: string, m: string)
    requires Strstr(data, LIST) == Some(0) && |LIST| + 1 <= |data| && data[|LIST| + 1..] == m
    ensures MissionsIn(data) == MissionsFrom(m, [])
  {
  }

  /** A list with an element that does not end is a null pointer for the program. */
  lemma UnclosedElement(m: string, list: seq<Mission>)
    requires Occurs(m, "<mission") && !Occurs(m, "</mission>")
    ensures !MissionsFrom(m, list).ok
  {
    var k := Strstr(m, ELEMENT).value;
    NotInSuffix(m, k, CLOSE);
    NoEnd(m[k..], OPEN, CLOSE);
  }
}
