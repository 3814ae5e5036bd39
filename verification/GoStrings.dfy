/** The string functions of the Go standard library that the parsers use, on sequences of characters. */
module GoStrings {
  /** Unicode White_Space, which is what strings.TrimSpace removes. */
  predicate IsSpace(c: char) {
    var n := c as int;
    || 9 <= n <= 13 || n == 32 || n == 0x85 || n == 0xA0 || n == 0x1680
    || 0x2000 <= n <= 0x200A || n == 0x2028 || n == 0x2029 || n == 0x202F || n == 0x205F || n == 0x3000
  }

  predicate IsBlank(c: char) { c == ' ' }

  predicate IsQuote(c: char) { c == '"' || c == '\'' }

  function TrimLeft(s: string, p: char -> bool): (r: string)
    ensures |r| <= |s|
  {
    if s != [] && p(s[0]) then TrimLeft(s[1..], p) else s
  }

  function TrimRight(s: string, p: char -> bool): string {
    if s != [] && p(s[|s| - 1]) then TrimRight(s[..|s| - 1], p) else s
  }

  function Trim(s: string, p: char -> bool): string {
    TrimRight(TrimLeft(s, p), p)
  }

  function TrimSpace(s: string): string {
    Trim(s, IsSpace)
  }

  /** No character of `p` at either edge. */
  predicate Bare(s: string, p: char -> bool) {
    s != [] ==> !p(s[0]) && !p(s[|s| - 1])
  }

  predicate All(s: string, p: char -> bool) {
    forall i :: 0 <= i < |s| ==> p(s[i])
  }

  lemma {:induction false} TrimLeftPast(a: string, s: string, p: char -> bool)
    requires All(a, p) && (s != [] ==> !p(s[0]))
    ensures TrimLeft(a + s, p) == s
  {
    if a == [] {
      assert a + s == s;
    } else {
      assert (a + s)[1..] == a[1..] + s;
      TrimLeftPast(a[1..], s, p);
    }
  }

  lemma {:induction false} TrimRightPast(s: string, b: string, p: char -> bool)
    requires All(b, p) && (s != [] ==> !p(s[|s| - 1]))
    ensures TrimRight(s + b, p) == s
  {
    if b == [] {
      assert s + b == s;
    } else {
      assert (s + b)[..|s + b| - 1] == s + b[..|b| - 1];
      TrimRightPast(s, b[..|b| - 1], p);
    }
  }

  /** Trimming removes edges made of `p` characters around a bare middle, empty or not. */
  lemma TrimAround(a: string, s: string, b: string, p: char -> bool)
    requires All(a, p) && Bare(s, p) && All(b, p)
    ensures Trim(a + s + b, p) == s
  {
    if s == [] {
      assert a + s + b == a + b + [];
      TrimLeftPast(a + b, [], p);
    } else {
      assert a + s + b == a + (s + b);
      TrimLeftPast(a, s + b, p);
      TrimRightPast(s, b, p);
    }
  }

  lemma {:induction false} TrimLeftEmpty(s: string, p: char -> bool)
    requires TrimLeft(s, p) == ""
    ensures All(s, p)
  {
    if s != [] {
      TrimLeftEmpty(s[1..], p);
      assert s == [s[0]] + s[1..];
    }
  }

  lemma {:induction false} TrimRightEmpty(s: string, p: char -> bool)
    requires TrimRight(s, p) == ""
    ensures All(s, p)
  {
    if s != [] {
      TrimRightEmpty(s[..|s| - 1], p);
      assert s == s[..|s| - 1] + [s[|s| - 1]];
    }
  }

  /** Trimming leaves nothing if and only if there is nothing but `p` characters. */
  lemma TrimEmptyIff(s: string, p: char -> bool)
    ensures Trim(s, p) == "" <==> All(s, p)
  {
    if All(s, p) {
      TrimAround(s, "", "", p);
      assert s + "" + "" == s;
    }
    if Trim(s, p) == "" {
      var l := TrimLeft(s, p);
      TrimRightEmpty(l, p);
      TrimLeftStops(s, p);
      NothingLeft(l, p);
      TrimLeftEmpty(s, p);
    }
  }

  lemma NothingLeft(s: string, p: char -> bool)
    requires All(s, p) && (s != "" ==> !p(s[0]))
    ensures s == ""
  {
  }

  lemma {:induction false} TrimLeftStops(s: string, p: char -> bool)
    ensures TrimLeft(s, p) != "" ==> !p(TrimLeft(s, p)[0])
  {
    if s != [] && p(s[0]) {
      TrimLeftStops(s[1..], p);
    }
  }

  lemma {:induction false} TrimLeftParts(s: string, p: char -> bool) returns (a: string)
    ensures All(a, p) && s == a + TrimLeft(s, p)
  {
    if s != [] && p(s[0]) {
      var rest := TrimLeftParts(s[1..], p);
      a := [s[0]] + rest;
    } else {
      a := "";
    }
  }

  lemma {:induction false} TrimRightParts(s: string, p: char -> bool) returns (b: string)
    ensures All(b, p) && s == TrimRight(s, p) + b
    ensures TrimRight(s, p) != "" ==> !p(TrimRight(s, p)[|TrimRight(s, p)| - 1])
  {
    if s != [] && p(s[|s| - 1]) {
      var rest := TrimRightParts(s[..|s| - 1], p);
      b := rest + [s[|s| - 1]];
    } else {
      b := "";
    }
  }

  /** What trimming takes away on either side. */
  lemma TrimParts(s: string, p: char -> bool) returns (a: string, b: string)
    ensures All(a, p) && All(b, p) && s == a + Trim(s, p) + b
  {
    a := TrimLeftParts(s, p);
    b := TrimRightParts(TrimLeft(s, p), p);
  }

  /** In ASCII: blanks, tabs and the ends of lines go, and what begins and ends with a graphic character stays. */
  lemma TrimSpaceAscii(a: string, s: string, b: string)
    requires forall i :: 0 <= i < |a| ==> a[i] in {' ', '\t', '\n', '\r'}
    requires forall i :: 0 <= i < |b| ==> b[i] in {' ', '\t', '\n', '\r'}
    requires s != "" ==> '!' <= s[0] <= '~' && '!' <= s[|s| - 1] <= '~'
    ensures TrimSpace(a + s + b) == s
  {
    TrimAround(a, s, b, IsSpace);
  }

  predicate HasPrefix(s: string, prefix: string) {
    |prefix| <= |s| && s[..|prefix|] == prefix
  }

  predicate HasSuffix(s: string, suffix: string) {
    |suffix| <= |s| && s[|s| - |suffix|..] == suffix
  }

  function TrimPrefix(s: string, prefix: string): string {
    if HasPrefix(s, prefix) then s[|prefix|..] else s
  }

  function TrimSuffix(s: string, suffix: string): string {
    if HasSuffix(s, suffix) then s[..|s| - |suffix|] else s
  }

  predicate Contains(s: string, part: string) {
    HasPrefix(s, part) || (s != [] && Contains(s[1..], part))
  }

  lemma {:induction false} ContainsMiddle(before: string, part: string, after: string)
    ensures Contains(before + part + after, part)
  {
    var s := before + part + after;
    if before == "" {
      assert s[..|part|] == part;
    } else {
      assert s[1..] == before[1..] + part + after;
      ContainsMiddle(before[1..], part, after);
    }
  }

  lemma {:induction false} ContainsParts(s: string, part: string) returns (before: string, after: string)
    requires Contains(s, part)
    ensures s == before + part + after
  {
    if HasPrefix(s, part) {
      before, after := "", s[|part|..];
    } else {
      before, after := ContainsParts(s[1..], part);
      before := [s[0]] + before;
    }
  }

  lemma InMiddle(before: string, part: string, after: string, c: char)
    requires c in part
    ensures c in before + part + after
  {
    assert c in before + part;
  }

  lemma LacksPart(s: string, part: string, c: char)
    requires c in part && c !in s
    ensures !Contains(s, part)
  {
    if Contains(s, part) {
      var before, after := ContainsParts(s, part);
      InMiddle(before, part, after, c);
    }
  }

  /** The parts before and after the first `sep`; without one, the whole and nothing. */
  function Cut<T(==)>(s: seq<T>, sep: T): (r: (seq<T>, seq<T>, bool))
    ensures r.2 ==> |r.1| < |s|
  {
    if s == [] then (s, [], false)
    else if s[0] == sep then ([], s[1..], true)
    else
      var (before, after, found) := Cut(s[1..], sep);
      ([s[0]] + before, after, found)
  }

  lemma {:induction false} CutMeans<T>(s: seq<T>, sep: T)
    ensures
      var (before, after, found) := Cut(s, sep);
      && sep !in before
      && (found <==> sep in s)
      && (found ==> s == before + [sep] + after)
      && (!found ==> s == before && after == [])
  {
    if s != [] && s[0] != sep {
      CutMeans(s[1..], sep);
      assert s == [s[0]] + s[1..];
    }
  }

  lemma CutNone<T>(s: seq<T>, sep: T)
    requires sep !in s
    ensures Cut(s, sep) == (s, [], false)
  {
    CutMeans(s, sep);
  }

  lemma {:induction false} CutAt<T>(a: seq<T>, sep: T, b: seq<T>)
    requires sep !in a
    ensures Cut(a + [sep] + b, sep) == (a, b, true)
  {
    var s := a + [sep] + b;
    if a == [] {
      assert s[1..] == b;
    } else {
      assert s[1..] == a[1..] + [sep] + b;
      CutAt(a[1..], sep, b);
      assert [a[0]] + a[1..] == a;
    }
  }

  function Split<T(==)>(s: seq<T>, sep: T): (parts: seq<seq<T>>)
    ensures |parts| > 0
    decreases |s|
  {
    var (before, after, found) := Cut(s, sep);
    if found then [before] + Split(after, sep) else [before]
  }

  /** Each part followed by a separator. */
  function Terminated<T>(parts: seq<seq<T>>, sep: T): seq<T> {
    if parts == [] then [] else parts[0] + [sep] + Terminated(parts[1..], sep)
  }

  /** The parts with separators in between: what Split takes apart. */
  function Joined<T>(parts: seq<seq<T>>, sep: T): seq<T>
    requires parts != []
  {
    if |parts| == 1 then parts[0] else parts[0] + [sep] + Joined(parts[1..], sep)
  }

  lemma {:induction false} SplitJoined<T>(parts: seq<seq<T>>, sep: T)
    requires parts != [] && forall i :: 0 <= i < |parts| ==> sep !in parts[i]
    ensures Split(Joined(parts, sep), sep) == parts
  {
    if |parts| == 1 {
      CutNone(parts[0], sep);
    } else {
      CutAt(parts[0], sep, Joined(parts[1..], sep));
      SplitJoined(parts[1..], sep);
    }
  }

  lemma {:induction false} JoinedSplit<T>(s: seq<T>, sep: T)
    ensures Joined(Split(s, sep), sep) == s
    decreases |s|
  {
    var (before, after, found) := Cut(s, sep);
    CutMeans(s, sep);
    if found {
      JoinedSplit(after, sep);
      assert ([before] + Split(after, sep))[1..] == Split(after, sep);
    }
  }

  lemma {:induction false} SplitHasNone<T>(s: seq<T>, sep: T)
    ensures forall i :: 0 <= i < |Split(s, sep)| ==> sep !in Split(s, sep)[i]
    decreases |s|
  {
    var (before, after, found) := Cut(s, sep);
    CutMeans(s, sep);
    if found {
      SplitHasNone(after, sep);
    }
  }

  lemma {:induction false} TerminatedIsJoined<T>(parts: seq<seq<T>>, sep: T)
    ensures Terminated(parts, sep) == Joined(parts + [[]], sep)
  {
    if parts != [] {
      TerminatedIsJoined(parts[1..], sep);
      assert (parts + [[]])[1..] == parts[1..] + [[]];
    }
  }

  /** A text made of lines that each end with the separator splits into them and a last empty part. */
  lemma SplitTerminated<T>(parts: seq<seq<T>>, sep: T)
    requires forall i :: 0 <= i < |parts| ==> sep !in parts[i]
    ensures Split(Terminated(parts, sep), sep) == parts + [[]]
  {
    TerminatedIsJoined(parts, sep);
    SplitJoined(parts + [[]], sep);
  }

  /** A separator between two texts puts the parts of the one before the parts of the other. */
  lemma {:induction false} SplitMiddle<T>(a: seq<T>, sep: T, b: seq<T>)
    ensures Split(a + [sep] + b, sep) == Split(a, sep) + Split(b, sep)
    decreases |a|
  {
    var (before, after, found) := Cut(a, sep);
    CutMeans(a, sep);
    if found {
      assert a + [sep] + b == before + [sep] + (after + [sep] + b);
      CutAt(before, sep, after + [sep] + b);
      SplitMiddle(after, sep, b);
    } else {
      CutAt(a, sep, b);
    }
  }

  /** The last part ends as the whole does, as long as no separator is in that ending. */
  lemma {:induction false} SplitEnd(s: string, ending: string, sep: char)
    requires sep !in ending
    ensures
      var parts := Split(s + ending, sep);
      HasSuffix(parts[|parts| - 1], ending)
    decreases |s|
  {
    var (before, after, found) := Cut(s + ending, sep);
    CutMeans(s + ending, sep);
    if found {
      var k := |before| + 1;
      SeparatorBefore(s, ending, sep, |before|);
      assert after == (s + ending)[k..] == s[k..] + ending;
      SplitEnd(s[k..], ending, sep);
    }
  }

  lemma SeparatorBefore(s: string, ending: string, sep: char, i: nat)
    requires sep !in ending && i < |s + ending| && (s + ending)[i] == sep
    ensures i < |s|
  {
  }

  lemma AllAppend(a: string, b: string, p: char -> bool)
    ensures All(a + b, p) <==> All(a, p) && All(b, p)
  {
    if All(a + b, p) {
      assert forall i :: 0 <= i < |a| ==> a[i] == (a + b)[i];
      assert forall i :: 0 <= i < |b| ==> b[i] == (a + b)[|a| + i];
    }
  }

  /** A text is all `p` characters if and only if its parts are, as long as the separator is one. */
  lemma {:induction false} AllJoined(parts: seq<string>, sep: char, p: char -> bool)
    requires parts != [] && p(sep)
    ensures All(Joined(parts, sep), p) <==> forall i :: 0 <= i < |parts| ==> All(parts[i], p)
  {
    if |parts| > 1 {
      AllJoined(parts[1..], sep, p);
      AllAppend(parts[0] + [sep], Joined(parts[1..], sep), p);
      AllAppend(parts[0], [sep], p);
      assert parts == [parts[0]] + parts[1..];
    }
  }
}
