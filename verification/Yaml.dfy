/** The line-oriented reader shared by the two manifest parsers: it strips '#' comments, ignores blank
    lines, and recognises by indentation a top-level header, items below it and fields below an item. */
module Yaml {
  import opened Wrappers
  import opened GoStrings

  function StripComment(line: string): string {
    Cut(line, '#').0
  }

  function Unquote(value: string): string {
    Trim(TrimSpace(value), IsQuote)
  }

  function Indent(line: string): nat {
    |line| - |TrimLeft(line, IsBlank)|
  }

  // Keys.

  predicate KeyLine(line: string, key: string) {
    var trimmed := TrimSpace(StripComment(line));
    trimmed == key + ":" || HasPrefix(trimmed, key + ": ")
  }

  predicate KeyIn(lines: seq<string>, key: string) {
    lines != [] && (KeyLine(lines[|lines| - 1], key) || KeyIn(lines[..|lines| - 1], key))
  }

  predicate HasKey(content: string, key: string) {
    KeyIn(Split(content, '\n'), key)
  }

  lemma {:induction false} KeyInMeans(lines: seq<string>, key: string)
    ensures KeyIn(lines, key) <==> exists i :: 0 <= i < |lines| && KeyLine(lines[i], key)
  {
    if lines != [] {
      KeyInMeans(lines[..|lines| - 1], key);
    }
  }

  method ContainsKey(content: string, key: string) returns (found: bool)
    ensures found == HasKey(content, key)
  {
    var lines := Split(content, '\n');
    KeyInMeans(lines, key);
    for i := 0 to |lines|
      invariant forall j :: 0 <= j < i ==> !KeyLine(lines[j], key)
    {
      if KeyLine(lines[i], key) {
        return true;
      }
    }
    return false;
  }

  /** A line without its comment: white space, the key, a colon, and then a blank and anything, or only white
      space. */
  predicate IsKeyText(stripped: string, indent: string, key: string, rest: string) {
    && All(indent, IsSpace) && stripped == indent + key + ":" + rest
    && (All(rest, IsSpace) || (rest != "" && rest[0] == ' '))
  }

  ghost predicate KeyText(line: string, key: string) {
    exists indent, rest :: IsKeyText(StripComment(line), indent, key, rest)
  }

  lemma KeyAlone(indent: string, key: string, rest: string)
    requires All(indent, IsSpace) && Bare(key, IsSpace) && All(rest, IsSpace)
    ensures TrimSpace(indent + key + ":" + rest) == key + ":"
  {
    var text := key + ":";
    assert Bare(text, IsSpace);
    TrimAround(indent, text, rest, IsSpace);
    assert indent + key + ":" + rest == indent + text + rest;
  }

  lemma KeyAndMore(indent: string, key: string, rest: string)
    requires All(indent, IsSpace) && Bare(key, IsSpace) && !All(rest, IsSpace) && rest[0] == ' '
    ensures HasPrefix(TrimSpace(indent + key + ":" + rest), key + ": ")
  {
    var b := TrimRightParts(rest, IsSpace);
    var value := TrimRight(rest, IsSpace);
    if value == "" {
      TrimRightEmpty(rest, IsSpace);
    }
    var text := key + ":" + value;
    assert Bare(text, IsSpace);
    TrimAround(indent, text, b, IsSpace);
    assert indent + key + ":" + rest == indent + text + b;
    assert text[..|key + ": "|] == key + ": ";
  }

  lemma KeyLineIfText(line: string, indent: string, key: string, rest: string)
    requires Bare(key, IsSpace) && IsKeyText(StripComment(line), indent, key, rest)
    ensures KeyLine(line, key)
  {
    if All(rest, IsSpace) {
      KeyAlone(indent, key, rest);
    } else {
      KeyAndMore(indent, key, rest);
    }
  }

  lemma TextOfKeyPrefix(a: string, trimmed: string, b: string, key: string)
    requires All(a, IsSpace) && HasPrefix(trimmed, key + ": ")
    ensures IsKeyText(a + trimmed + b, a, key, trimmed[|key| + 1..] + b)
  {
    assert trimmed[|key| + 1] == (key + ": ")[|key| + 1];
    assert trimmed[..|key| + 1] == trimmed[..|key + ": "|][..|key| + 1] == key + ":";
    assert trimmed == key + ":" + trimmed[|key| + 1..];
  }

  lemma TextIfKeyLine(line: string, key: string)
    requires KeyLine(line, key)
    ensures KeyText(line, key)
  {
    var stripped := StripComment(line);
    var a, b := TrimParts(stripped, IsSpace);
    var trimmed := TrimSpace(stripped);
    if trimmed == key + ":" {
      assert IsKeyText(stripped, a, key, b);
    } else {
      TextOfKeyPrefix(a, trimmed, b, key);
    }
  }

  lemma KeyLineIff(line: string, key: string)
    requires Bare(key, IsSpace)
    ensures KeyLine(line, key) <==> KeyText(line, key)
  {
    if KeyLine(line, key) {
      TextIfKeyLine(line, key);
    }
    if KeyText(line, key) {
      var indent, rest :| IsKeyText(StripComment(line), indent, key, rest);
      KeyLineIfText(line, indent, key, rest);
    }
  }

  ghost predicate KeyTextIn(lines: seq<string>, key: string) {
    exists i :: 0 <= i < |lines| && KeyText(lines[i], key)
  }

  /** A file has a key if and only if one of its lines gives it, alone or with a value after a blank. */
  lemma HasKeyMeans(content: string, key: string)
    requires Bare(key, IsSpace)
    ensures HasKey(content, key) <==> KeyTextIn(Split(content, '\n'), key)
  {
    var lines := Split(content, '\n');
    KeyInMeans(lines, key);
    if KeyIn(lines, key) {
      var i :| 0 <= i < |lines| && KeyLine(lines[i], key);
      KeyLineIff(lines[i], key);
    }
    if KeyTextIn(lines, key) {
      var i :| 0 <= i < |lines| && KeyText(lines[i], key);
      KeyLineIff(lines[i], key);
    }
  }

  lemma StripAfter(a: string, b: string)
    requires '#' !in a
    ensures StripComment(a + b) == a + StripComment(b)
  {
    var (before, after, found) := Cut(b, '#');
    CutMeans(b, '#');
    if found {
      assert a + b == (a + before) + ['#'] + after;
      CutAt(a + before, '#', after);
    } else {
      CutNone(a + b, '#');
    }
  }

  /** A line that gives a key: alone, or with a value after a blank, comments and all. */
  lemma GivesKey(indent: string, key: string, rest: string)
    requires All(indent, IsSpace) && Bare(key, IsSpace) && '#' !in key
    requires rest == "" || rest[0] == ' ' || rest[0] == '#'
    ensures KeyLine(indent + key + ":" + rest, key)
  {
    var line := indent + key + ":" + rest;
    StripAfter(indent + key + ":", rest);
    CutMeans(rest, '#');
    assert IsKeyText(StripComment(line), indent, key, StripComment(rest));
    KeyLineIff(line, key);
  }

  // Items.

  /** An item with its fields in file order; a repeated field appears each time. */
  datatype Item = Item(name: string, fields: seq<(string, string)>)

  /** What sort of file: its header line, and whether "- name" opens an item. */
  datatype Kind = Kind(header: string, dashes: bool)

  /** `inside` once the header has been seen, `ended` at the next unindented line. */
  datatype Reader = Reader(inside: bool, ended: bool, current: Option<Item>, items: seq<Item>)

  const START := Reader(false, false, None, [])

  function Flush(r: Reader): Reader {
    if r.current.Some? then r.(items := r.items + [r.current.value], current := None) else r
  }

  /** What a line can mean to the reader; which of it counts depends on where the reader is. */
  datatype Token = Ignored | Text(header: bool, role: Role)

  datatype Role = Unindented | Opens(name: string) | Field(key: string, value: string) | Other

  function RoleOf(kind: Kind, indent: nat, trimmed: string): Role {
    if indent == 0 then Unindented
    else if kind.dashes && indent == 2 && HasPrefix(trimmed, "- ") then
      Opens(Unquote(TrimSpace(TrimPrefix(trimmed, "- "))))
    else if indent == 2 && HasSuffix(trimmed, ":") then
      Opens(Unquote(TrimSuffix(trimmed, ":")))
    else if indent < 4 then Other
    else
      var (key, value, found) := Cut(trimmed, ':');
      if found then Field(TrimSpace(key), Unquote(TrimSpace(value))) else Other
  }

  function Classify(kind: Kind, raw: string): Token {
    var line := StripComment(raw);
    var trimmed := TrimSpace(line);
    if trimmed == "" then Ignored else Text(trimmed == kind.header, RoleOf(kind, Indent(line), trimmed))
  }

  function Read(r: Reader, t: Token): Reader {
    if t.Ignored? || r.ended then r
    else if !r.inside then r.(inside := t.header)
    else
      match t.role
      case Unindented => Flush(r).(ended := true)
      case Opens(name) => Flush(r).(current := Some(Item(name, [])))
      case Field(key, value) =>
        if r.current.None? then r
        else
          var item := r.current.value;
          r.(current := Some(item.(fields := item.fields + [(key, value)])))
      case Other => r
  }

  function ReadAll(kind: Kind, r: Reader, lines: seq<string>): Reader {
    if lines == [] then r else Read(ReadAll(kind, r, lines[..|lines| - 1]), Classify(kind, lines[|lines| - 1]))
  }

  function Items(kind: Kind, content: string): seq<Item> {
    Flush(ReadAll(kind, START, Split(content, '\n'))).items
  }

  lemma ReadOneMore(kind: Kind, r: Reader, lines: seq<string>, line: string)
    ensures ReadAll(kind, r, lines + [line]) == Read(ReadAll(kind, r, lines), Classify(kind, line))
  {
  }

  lemma {:induction false} ReadAppend(kind: Kind, r: Reader, a: seq<string>, b: seq<string>)
    ensures ReadAll(kind, r, a + b) == ReadAll(kind, ReadAll(kind, r, a), b)
  {
    if b == [] {
      assert a + b == a;
    } else {
      assert (a + b)[..|a + b| - 1] == a + b[..|b| - 1];
      ReadAppend(kind, r, a, b[..|b| - 1]);
    }
  }

  lemma EndedStays(kind: Kind, r: Reader, lines: seq<string>, line: string)
    requires ReadAll(kind, r, lines).ended
    ensures ReadAll(kind, r, lines + [line]) == ReadAll(kind, r, lines)
  {
    ReadOneMore(kind, r, lines, line);
  }

  lemma {:induction false} ReadEnded(kind: Kind, r: Reader, a: seq<string>, b: seq<string>)
    requires ReadAll(kind, r, a).ended
    ensures ReadAll(kind, r, a + b) == ReadAll(kind, r, a)
  {
    if b == [] {
      assert a + b == a;
    } else {
      var init, last := b[..|b| - 1], b[|b| - 1];
      ReadEnded(kind, r, a, init);
      EndedStays(kind, r, a + init, last);
      assert a + b == a + init + [last];
    }
  }

  /** The reader after the first `i` lines of a file. */
  function ReadTo(kind: Kind, lines: seq<string>, i: nat): Reader
    requires i <= |lines|
  {
    ReadAll(kind, START, lines[..i])
  }

  lemma ReadNext(kind: Kind, lines: seq<string>, i: nat)
    requires i < |lines|
    ensures ReadTo(kind, lines, i + 1) == Read(ReadTo(kind, lines, i), Classify(kind, lines[i]))
  {
    ReadOneMore(kind, START, lines[..i], lines[i]);
    assert lines[..i] + [lines[i]] == lines[..i + 1];
  }

  lemma ReadStops(kind: Kind, lines: seq<string>, i: nat)
    requires i <= |lines| && (i == |lines| || ReadTo(kind, lines, i).ended)
    ensures ReadAll(kind, START, lines) == ReadTo(kind, lines, i)
  {
    if i < |lines| {
      ReadEnded(kind, START, lines[..i], lines[i..]);
      assert lines[..i] + lines[i..] == lines;
    } else {
      assert lines[..i] == lines;
    }
  }

  // Comments and blank lines do not matter.

  /** The lines that count, stripped. */
  function Significant(lines: seq<string>): seq<string> {
    if lines == [] then []
    else
      var line := StripComment(lines[|lines| - 1]);
      Significant(lines[..|lines| - 1]) + if TrimSpace(line) == "" then [] else [line]
  }

  lemma {:induction false} SignificantAppend(a: seq<string>, b: seq<string>)
    ensures Significant(a + b) == Significant(a) + Significant(b)
  {
    if b == [] {
      assert a + b == a;
    } else {
      assert (a + b)[..|a + b| - 1] == a + b[..|b| - 1];
      SignificantAppend(a, b[..|b| - 1]);
    }
  }

  lemma StripTwice(line: string)
    ensures StripComment(StripComment(line)) == StripComment(line)
  {
    CutMeans(line, '#');
    CutNone(StripComment(line), '#');
  }

  lemma {:induction false} OnlySignificantRead(kind: Kind, r: Reader, lines: seq<string>)
    ensures ReadAll(kind, r, lines) == ReadAll(kind, r, Significant(lines))
  {
    if lines != [] {
      var k := |lines| - 1;
      var line, before := StripComment(lines[k]), Significant(lines[..k]);
      OnlySignificantRead(kind, r, lines[..k]);
      ClassifyStripped(kind, lines[k]);
      if TrimSpace(line) == "" {
        assert before + [] == before;
      } else {
        assert (before + [line])[..|before|] == before;
      }
    }
  }

  lemma KeyLineStripped(line: string, key: string)
    ensures KeyLine(StripComment(line), key) == KeyLine(line, key)
    ensures TrimSpace(StripComment(line)) == "" ==> !KeyLine(line, key)
  {
    StripTwice(line);
  }

  lemma {:induction false} OnlySignificantKeys(lines: seq<string>, key: string)
    ensures KeyIn(lines, key) == KeyIn(Significant(lines), key)
  {
    if lines != [] {
      var k := |lines| - 1;
      var line, before := StripComment(lines[k]), Significant(lines[..k]);
      OnlySignificantKeys(lines[..k], key);
      KeyLineStripped(lines[k], key);
      if TrimSpace(line) == "" {
        assert before + [] == before;
      } else {
        assert (before + [line])[..|before|] == before;
      }
    }
  }

  lemma ClassifyStripped(kind: Kind, line: string)
    ensures Classify(kind, StripComment(line)) == Classify(kind, line)
    ensures Classify(kind, line).Ignored? <==> TrimSpace(StripComment(line)) == ""
  {
    StripTwice(line);
  }

  /** Two files with the same significant lines. */
  predicate SameText(a: string, b: string) {
    Significant(Split(a, '\n')) == Significant(Split(b, '\n'))
  }

  lemma SameTextReadsSame(a: string, b: string, kind: Kind, key: string)
    requires SameText(a, b)
    ensures Items(kind, a) == Items(kind, b)
    ensures HasKey(a, key) == HasKey(b, key)
  {
    OnlySignificantRead(kind, START, Split(a, '\n'));
    OnlySignificantRead(kind, START, Split(b, '\n'));
    OnlySignificantKeys(Split(a, '\n'), key);
    OnlySignificantKeys(Split(b, '\n'), key);
  }

  /** Nothing but white space. */
  predicate IsBlankFile(content: string) {
    TrimSpace(content) == ""
  }

  predicate AllBlank(lines: seq<string>) {
    forall i :: 0 <= i < |lines| ==> All(lines[i], IsSpace)
  }

  /** A text is blank if and only if all its lines are. */
  lemma BlankLines(content: string)
    ensures IsBlankFile(content) <==> AllBlank(Split(content, '\n'))
  {
    TrimEmptyIff(content, IsSpace);
    JoinedSplit(content, '\n');
    AllJoined(Split(content, '\n'), '\n', IsSpace);
  }

  /** A file of white space has no key. */
  lemma BlankHasNoKey(content: string, key: string)
    requires IsBlankFile(content)
    ensures !HasKey(content, key)
  {
    BlankLines(content);
    var lines := Split(content, '\n');
    forall i | 0 <= i < |lines| ensures !KeyLine(lines[i], key) {
      var line := StripComment(lines[i]);
      CutMeans(lines[i], '#');
      assert All(line, IsSpace) by {
        assert All(lines[i], IsSpace);
        assert forall j :: 0 <= j < |line| ==> line[j] == lines[i][j];
      }
      TrimEmptyIff(line, IsSpace);
      KeyLineStripped(lines[i], key);
    }
    KeyInMeans(lines, key);
  }

  predicate OneLineEach(lines: seq<string>) {
    forall i :: 0 <= i < |lines| ==> '\n' !in lines[i]
  }

  lemma OneLineEachAppend(a: seq<string>, b: seq<string>)
    requires OneLineEach(a) && OneLineEach(b)
    ensures OneLineEach(a + b)
  {
  }

  lemma SignificantMiddle(pre: seq<string>, line: string, post: seq<string>)
    ensures Significant(pre + [line] + post) == Significant(pre) + Significant([line]) + Significant(post)
    ensures Significant([line]) == if TrimSpace(StripComment(line)) == "" then [] else [StripComment(line)]
  {
    SignificantAppend(pre + [line], post);
    SignificantAppend(pre, [line]);
    assert [line][..0] == [];
  }

  /** The text with a line put before line `i`, or at its end. */
  function WithLine(content: string, i: nat, line: string): string
    requires i <= |Split(content, '\n')|
  {
    var lines := Split(content, '\n');
    Joined(lines[..i] + [line] + lines[i..], '\n')
  }

  /** The text with a comment put after line `i`. */
  function WithComment(content: string, i: nat, comment: string): string
    requires i < |Split(content, '\n')|
  {
    var lines := Split(content, '\n');
    Joined(lines[..i] + [lines[i] + "#" + comment] + lines[i + 1..], '\n')
  }

  lemma MiddleOneLineEach(lines: seq<string>, i: nat, line: string, k: nat)
    requires i <= k <= |lines| && OneLineEach(lines) && '\n' !in line
    ensures OneLineEach(lines[..i] + [line] + lines[k..])
  {
    OneLineEachAppend(lines[..i], [line]);
    OneLineEachAppend(lines[..i] + [line], lines[k..]);
  }

  lemma SplitWithLine(content: string, i: nat, line: string) returns (pre: seq<string>, post: seq<string>)
    requires i <= |Split(content, '\n')| && '\n' !in line
    ensures Split(content, '\n') == pre + post
    ensures Split(WithLine(content, i, line), '\n') == pre + [line] + post
  {
    var lines := Split(content, '\n');
    pre, post := lines[..i], lines[i..];
    SplitHasNone(content, '\n');
    MiddleOneLineEach(lines, i, line, i);
    SplitJoined(pre + [line] + post, '\n');
  }

  lemma SplitWithComment(content: string, i: nat, comment: string)
    returns (pre: seq<string>, line: string, post: seq<string>)
    requires i < |Split(content, '\n')| && '\n' !in comment
    ensures Split(content, '\n') == pre + [line] + post
    ensures Split(WithComment(content, i, comment), '\n') == pre + [line + "#" + comment] + post
  {
    var lines := Split(content, '\n');
    pre, line, post := lines[..i], lines[i], lines[i + 1..];
    SplitHasNone(content, '\n');
    MiddleOneLineEach(lines, i, line + "#" + comment, i + 1);
    SplitJoined(pre + [line + "#" + comment] + post, '\n');
  }

  lemma AnotherLineSignificant(pre: seq<string>, blank: string, post: seq<string>)
    requires TrimSpace(StripComment(blank)) == ""
    ensures Significant(pre + [blank] + post) == Significant(pre + post)
  {
    SignificantMiddle(pre, blank, post);
    SignificantAppend(pre, post);
    assert Significant(pre) + [] == Significant(pre);
  }

  lemma LongerLineSignificant(pre: seq<string>, line: string, comment: string, post: seq<string>)
    ensures Significant(pre + [line + "#" + comment] + post) == Significant(pre + [line] + post)
  {
    CommentStripped(line, comment);
    SignificantMiddle(pre, line, post);
    SignificantMiddle(pre, line + "#" + comment, post);
  }

  lemma AllBlankMiddle(pre: seq<string>, line: string, post: seq<string>)
    requires AllBlank(pre + [line] + post)
    ensures AllBlank(pre + post) && All(line, IsSpace)
  {
    var longer := pre + [line] + post;
    assert longer[|pre|] == line;
    forall i | 0 <= i < |pre + post| ensures All((pre + post)[i], IsSpace) {
      assert (pre + post)[i] == longer[if i < |pre| then i else i + 1];
    }
  }

  lemma BlankWithoutLine(content: string, i: nat, line: string)
    requires i <= |Split(content, '\n')| && '\n' !in line && IsBlankFile(WithLine(content, i, line))
    ensures IsBlankFile(content)
  {
    var pre, post := SplitWithLine(content, i, line);
    BlankLines(content);
    BlankLines(WithLine(content, i, line));
    AllBlankMiddle(pre, line, post);
  }

  lemma NotBlankWithComment(content: string, i: nat, comment: string)
    requires i < |Split(content, '\n')| && '\n' !in comment
    ensures !IsBlankFile(WithComment(content, i, comment))
  {
    var pre, line, post := SplitWithComment(content, i, comment);
    var longer := line + "#" + comment;
    BlankLines(WithComment(content, i, comment));
    assert !All(longer, IsSpace) by {
      assert longer[|line|] == '#';
    }
    if AllBlank(pre + [longer] + post) {
      AllBlankMiddle(pre, longer, post);
    }
  }

  /** Inserting a blank or comment-only line anywhere in any text. */
  lemma InsertBlankLine(content: string, i: nat, blank: string)
    requires i <= |Split(content, '\n')| && '\n' !in blank && TrimSpace(StripComment(blank)) == ""
    ensures SameText(content, WithLine(content, i, blank))
  {
    var pre, post := SplitWithLine(content, i, blank);
    AnotherLineSignificant(pre, blank, post);
  }

  /** Appending a comment to any line of any text. */
  lemma AppendComment(content: string, i: nat, comment: string)
    requires i < |Split(content, '\n')| && '\n' !in comment
    ensures SameText(content, WithComment(content, i, comment))
  {
    var pre, line, post := SplitWithComment(content, i, comment);
    LongerLineSignificant(pre, line, comment, post);
  }

  lemma {:induction false} CommentStripped(line: string, comment: string)
    ensures StripComment(line + "#" + comment) == StripComment(line)
  {
    var (before, after, found) := Cut(line, '#');
    CutMeans(line, '#');
    if found {
      assert line + "#" + comment == before + ['#'] + (after + "#" + comment);
      CutAt(before, '#', after + "#" + comment);
    } else {
      CutAt(line, '#', comment);
    }
  }

  // The canonical layout and the round trip.

  /** How an item's name is written. */
  datatype Style = Quoted | Plain | Dash

  predicate OneLine(s: string) {
    '#' !in s && '\n' !in s
  }

  /** A scalar that needs no quoting or escaping. */
  predicate CleanScalar(s: string) {
    OneLine(s) && Bare(s, IsSpace) && Bare(s, IsQuote)
  }

  predicate CleanField(f: (string, string)) {
    OneLine(f.0) && ':' !in f.0 && Bare(f.0, IsSpace) && CleanScalar(f.1)
  }

  predicate CleanName(kind: Kind, style: Style, name: string) {
    match style
    case Quoted => OneLine(name) && Bare(name, IsQuote)
    case Plain => CleanScalar(name) && !(kind.dashes && HasPrefix(name, "- "))
    case Dash => kind.dashes && CleanScalar(name) && name != ""
  }

  predicate CleanItem(kind: Kind, style: Style, item: Item) {
    CleanName(kind, style, item.name) && forall i :: 0 <= i < |item.fields| ==> CleanField(item.fields[i])
  }

  function NameText(style: Style, name: string): string {
    match style
    case Quoted => "\"" + name + "\"" + ":"
    case Plain => name + ":"
    case Dash => "- " + name
  }

  function NameLine(style: Style, name: string): string {
    "  " + NameText(style, name)
  }

  function FieldLine(f: (string, string)): string {
    "    " + f.0 + ": " + f.1
  }

  function FieldLines(fields: seq<(string, string)>): seq<string> {
    if fields == [] then [] else FieldLines(fields[..|fields| - 1]) + [FieldLine(fields[|fields| - 1])]
  }

  function ItemBlock(style: Style, item: Item): seq<string> {
    [NameLine(style, item.name)] + FieldLines(item.fields)
  }

  function ItemLines(styled: seq<(Style, Item)>): seq<string> {
    if styled == [] then []
    else ItemLines(styled[..|styled| - 1]) + ItemBlock(styled[|styled| - 1].0, styled[|styled| - 1].1)
  }

  function RenderedLines(kind: Kind, preamble: seq<string>, styled: seq<(Style, Item)>): seq<string> {
    preamble + [kind.header] + ItemLines(styled)
  }

  function Rendered(kind: Kind, preamble: seq<string>, styled: seq<(Style, Item)>): string {
    Terminated(RenderedLines(kind, preamble, styled), '\n')
  }

  /** The items alone. */
  function Unstyled(styled: seq<(Style, Item)>): seq<Item> {
    if styled == [] then [] else Unstyled(styled[..|styled| - 1]) + [styled[|styled| - 1].1]
  }

  lemma {:induction false} UnstyledAt(styled: seq<(Style, Item)>)
    ensures |Unstyled(styled)| == |styled|
    ensures forall i :: 0 <= i < |styled| ==> Unstyled(styled)[i] == styled[i].1
  {
    if styled != [] {
      UnstyledAt(styled[..|styled| - 1]);
    }
  }

  lemma Spaces()
    ensures All("", IsSpace) && All(" ", IsSpace) && All("  ", IsSpace) && All("    ", IsSpace)
    ensures All("  ", IsBlank) && All("    ", IsBlank) && All("\"", IsQuote)
  {
  }

  lemma UnquoteClean(s: string)
    requires CleanScalar(s)
    ensures TrimSpace(s) == s && Unquote(s) == s
  {
  }

  /** A line made of an indentation of blanks, a bare text and trailing space. */
  lemma IndentedLine(kind: Kind, indent: string, text: string, tail: string)
    requires All(indent, IsBlank) && All(tail, IsSpace) && '#' !in indent && '#' !in text && '#' !in tail
    requires text != "" && Bare(text, IsSpace)
    ensures Classify(kind, indent + text + tail) == Text(text == kind.header, RoleOf(kind, |indent|, text))
  {
    var line := indent + text + tail;
    CutNone(line, '#');
    assert All(indent, IsSpace);
    TrimAround(indent, text, tail, IsSpace);
    assert line == indent + (text + tail);
    TrimLeftPast(indent, text + tail, IsBlank);
  }

  lemma UnquoteSpaced(value: string, space: string)
    requires CleanScalar(value) && All(space, IsSpace)
    ensures Unquote(TrimSpace(space + value)) == value
  {
    UnquoteClean(value);
    TrimAround(space, value, "", IsSpace);
    assert space + value + "" == space + value;
  }

  lemma FieldText(kind: Kind, key: string, value: string, space: string)
    requires CleanField((key, value)) && All(space, IsSpace)
    ensures RoleOf(kind, 4, key + ":" + (space + value)) == Field(key, value)
  {
    CutAt(key, ':', space + value);
    assert key + ":" + (space + value) == key + [':'] + (space + value);
    UnquoteSpaced(value, space);
    TrimAround("", key, "", IsSpace);
    assert "" + key + "" == key;
  }

  lemma FieldClassified(kind: Kind, f: (string, string))
    requires CleanField(f)
    ensures Classify(kind, FieldLine(f)).Text? && Classify(kind, FieldLine(f)).role == Field(f.0, f.1)
  {
    var (key, value) := f;
    var space, tail := if value == "" then "" else " ", if value == "" then " " else "";
    var text := key + ":" + (space + value);
    assert FieldLine(f) == "    " + text + tail;
    Spaces();
    FieldText(kind, key, value, space);
    IndentedLine(kind, "    ", text, tail);
  }

  lemma QuotedOpens(kind: Kind, name: string)
    requires OneLine(name) && Bare(name, IsQuote)
    ensures RoleOf(kind, 2, NameText(Quoted, name)) == Opens(name)
  {
    var quoted := "\"" + name + "\"";
    var text := quoted + ":";
    assert text[0] == '"';
    assert !HasPrefix(text, "- ");
    assert TrimSuffix(text, ":") == quoted;
    UnquoteQuoted(name);
  }

  lemma UnquoteQuoted(name: string)
    requires Bare(name, IsQuote)
    ensures Unquote("\"" + name + "\"") == name
  {
    var quoted := "\"" + name + "\"";
    Spaces();
    TrimAround("", quoted, "", IsSpace);
    assert "" + quoted + "" == quoted;
    TrimAround("\"", name, "\"", IsQuote);
  }

  lemma PlainOpens(kind: Kind, name: string)
    requires CleanName(kind, Plain, name)
    ensures RoleOf(kind, 2, NameText(Plain, name)) == Opens(name)
  {
    var text := name + ":";
    assert TrimSuffix(text, ":") == name;
    UnquoteClean(name);
    if HasPrefix(text, "- ") {
      assert text[1] == ' ';
      assert name[..2] == text[..2];
    }
  }

  lemma DashOpens(kind: Kind, name: string)
    requires CleanName(kind, Dash, name)
    ensures RoleOf(kind, 2, NameText(Dash, name)) == Opens(name)
  {
    assert TrimPrefix("- " + name, "- ") == name;
    UnquoteClean(name);
  }

  lemma NameTextOpens(kind: Kind, style: Style, name: string)
    requires CleanName(kind, style, name)
    ensures RoleOf(kind, 2, NameText(style, name)) == Opens(name)
  {
    match style {
      case Quoted => QuotedOpens(kind, name);
      case Plain => PlainOpens(kind, name);
      case Dash => DashOpens(kind, name);
    }
  }

  lemma NameTextBare(kind: Kind, style: Style, name: string)
    requires CleanName(kind, style, name)
    ensures NameText(style, name) != "" && Bare(NameText(style, name), IsSpace) && '#' !in NameText(style, name)
  {
  }

  lemma NameClassified(kind: Kind, style: Style, name: string)
    requires CleanName(kind, style, name)
    ensures Classify(kind, NameLine(style, name)).Text? && Classify(kind, NameLine(style, name)).role == Opens(name)
  {
    var text := NameText(style, name);
    NameTextBare(kind, style, name);
    NameTextOpens(kind, style, name);
    Spaces();
    IndentedLine(kind, "  ", text, "");
    assert "  " + text + "" == "  " + text;
  }

  function WithFields(r: Reader, fields: seq<(string, string)>): Reader
    requires r.current.Some?
  {
    r.(current := Some(r.current.value.(fields := r.current.value.fields + fields)))
  }

  lemma FieldIsRead(kind: Kind, r: Reader, f: (string, string))
    requires CleanField(f) && r.inside && !r.ended && r.current.Some?
    ensures Read(r, Classify(kind, FieldLine(f))) == WithFields(r, [f])
  {
    FieldClassified(kind, f);
  }

  lemma WithMoreFields(r: Reader, a: seq<(string, string)>, b: seq<(string, string)>)
    requires r.current.Some?
    ensures WithFields(WithFields(r, a), b) == WithFields(r, a + b)
    ensures WithFields(r, []) == r
  {
    var fields := r.current.value.fields;
    assert fields + a + b == fields + (a + b);
    assert fields + [] == fields;
  }

  lemma {:induction false} FieldsAreRead(kind: Kind, r: Reader, fields: seq<(string, string)>)
    requires forall i :: 0 <= i < |fields| ==> CleanField(fields[i])
    requires r.inside && !r.ended && r.current.Some?
    ensures ReadAll(kind, r, FieldLines(fields)) == WithFields(r, fields)
  {
    if fields == [] {
      WithMoreFields(r, [], []);
    } else {
      var k := |fields| - 1;
      var before := FieldLines(fields[..k]);
      FieldsAreRead(kind, r, fields[..k]);
      ReadOneMore(kind, r, before, FieldLine(fields[k]));
      FieldIsRead(kind, WithFields(r, fields[..k]), fields[k]);
      WithMoreFields(r, fields[..k], [fields[k]]);
      assert fields == fields[..k] + [fields[k]];
    }
  }

  lemma ItemIsRead(kind: Kind, r: Reader, style: Style, item: Item)
    requires CleanItem(kind, style, item) && r.inside && !r.ended
    ensures ReadAll(kind, r, ItemBlock(style, item)) == Flush(r).(current := Some(item))
  {
    var name := NameLine(style, item.name);
    ReadAppend(kind, r, [name], FieldLines(item.fields));
    assert [name][..0] == [];
    NameClassified(kind, style, item.name);
    var unfilled := Flush(r).(current := Some(Item(item.name, [])));
    assert ReadAll(kind, r, [name]) == unfilled;
    FieldsAreRead(kind, unfilled, item.fields);
    assert [] + item.fields == item.fields;
  }

  /** The items read so far, the open one included. */
  predicate HasRead(r: Reader, items: seq<Item>) {
    r.inside && !r.ended && Flush(r).items == items
  }

  lemma NextItemIsRead(kind: Kind, r: Reader, lines: seq<string>, items: seq<Item>, style: Style, item: Item)
    requires CleanItem(kind, style, item) && HasRead(ReadAll(kind, r, lines), items)
    ensures HasRead(ReadAll(kind, r, lines + ItemBlock(style, item)), items + [item])
  {
    ReadAppend(kind, r, lines, ItemBlock(style, item));
    ItemIsRead(kind, ReadAll(kind, r, lines), style, item);
  }

  lemma {:induction false} ItemsAreRead(kind: Kind, r: Reader, styled: seq<(Style, Item)>)
    requires forall i :: 0 <= i < |styled| ==> CleanItem(kind, styled[i].0, styled[i].1)
    requires HasRead(r, [])
    ensures HasRead(ReadAll(kind, r, ItemLines(styled)), Unstyled(styled))
  {
    if styled != [] {
      var init, last := styled[..|styled| - 1], styled[|styled| - 1];
      ItemsAreRead(kind, r, init);
      NextItemIsRead(kind, r, ItemLines(init), Unstyled(init), last.0, last.1);
    }
  }

  predicate SkippedPreamble(kind: Kind, preamble: seq<string>) {
    forall i :: 0 <= i < |preamble| ==> '\n' !in preamble[i] && TrimSpace(StripComment(preamble[i])) != kind.header
  }

  lemma {:induction false} PreambleIsSkipped(kind: Kind, preamble: seq<string>)
    requires SkippedPreamble(kind, preamble)
    ensures ReadAll(kind, START, preamble) == START
  {
    if preamble != [] {
      PreambleIsSkipped(kind, preamble[..|preamble| - 1]);
    }
  }

  lemma {:induction false} FieldLinesOneLineEach(fields: seq<(string, string)>)
    requires forall i :: 0 <= i < |fields| ==> CleanField(fields[i])
    ensures OneLineEach(FieldLines(fields))
  {
    if fields != [] {
      FieldLinesOneLineEach(fields[..|fields| - 1]);
    }
  }

  lemma {:induction false} ItemLinesOneLineEach(kind: Kind, styled: seq<(Style, Item)>)
    requires forall i :: 0 <= i < |styled| ==> CleanItem(kind, styled[i].0, styled[i].1)
    ensures OneLineEach(ItemLines(styled))
  {
    if styled != [] {
      var (style, item) := styled[|styled| - 1];
      ItemLinesOneLineEach(kind, styled[..|styled| - 1]);
      FieldLinesOneLineEach(item.fields);
      OneLineEachAppend([NameLine(style, item.name)], FieldLines(item.fields));
      OneLineEachAppend(ItemLines(styled[..|styled| - 1]), ItemBlock(style, item));
    }
  }

  lemma HeaderIsRead(kind: Kind, preamble: seq<string>)
    requires CleanScalar(kind.header) && kind.header != "" && SkippedPreamble(kind, preamble)
    ensures ReadAll(kind, START, preamble + [kind.header]) == START.(inside := true)
  {
    ReadAppend(kind, START, preamble, [kind.header]);
    PreambleIsSkipped(kind, preamble);
    assert [kind.header][..0] == [];
    IndentedLine(kind, "", kind.header, "");
    assert "" + kind.header + "" == kind.header;
  }

  lemma LinesAreRead(kind: Kind, lines: seq<string>)
    requires OneLineEach(lines)
    ensures Items(kind, Terminated(lines, '\n')) == Flush(ReadAll(kind, START, lines)).items
  {
    SplitTerminated(lines, '\n');
    assert (lines + [""])[..|lines|] == lines;
    assert Classify(kind, "") == Ignored;
  }

  lemma RenderedOneLineEach(kind: Kind, preamble: seq<string>, styled: seq<(Style, Item)>)
    requires CleanScalar(kind.header) && SkippedPreamble(kind, preamble)
    requires forall i :: 0 <= i < |styled| ==> CleanItem(kind, styled[i].0, styled[i].1)
    ensures OneLineEach(RenderedLines(kind, preamble, styled))
  {
    ItemLinesOneLineEach(kind, styled);
    OneLineEachAppend(preamble, [kind.header]);
    OneLineEachAppend(preamble + [kind.header], ItemLines(styled));
  }

  lemma RenderedIsRead(kind: Kind, preamble: seq<string>, styled: seq<(Style, Item)>)
    requires CleanScalar(kind.header) && kind.header != "" && SkippedPreamble(kind, preamble)
    requires forall i :: 0 <= i < |styled| ==> CleanItem(kind, styled[i].0, styled[i].1)
    ensures HasRead(ReadAll(kind, START, RenderedLines(kind, preamble, styled)), Unstyled(styled))
  {
    ReadAppend(kind, START, preamble + [kind.header], ItemLines(styled));
    HeaderIsRead(kind, preamble);
    ItemsAreRead(kind, START.(inside := true), styled);
  }

  /** Round trip: items with clean scalars, written in the canonical layout under any preamble that does
      not contain the header, read back as the same items in the same order. */
  lemma RoundTrip(kind: Kind, preamble: seq<string>, styled: seq<(Style, Item)>)
    requires CleanScalar(kind.header) && kind.header != "" && SkippedPreamble(kind, preamble)
    requires forall i :: 0 <= i < |styled| ==> CleanItem(kind, styled[i].0, styled[i].1)
    ensures Items(kind, Rendered(kind, preamble, styled)) == Unstyled(styled)
  {
    RenderedOneLineEach(kind, preamble, styled);
    LinesAreRead(kind, RenderedLines(kind, preamble, styled));
    RenderedIsRead(kind, preamble, styled);
  }

  // A rendered file has its keys.

  lemma RenderedHasKey(kind: Kind, preamble: seq<string>, styled: seq<(Style, Item)>, i: nat, key: string)
    requires CleanScalar(kind.header) && SkippedPreamble(kind, preamble)
    requires forall j :: 0 <= j < |styled| ==> CleanItem(kind, styled[j].0, styled[j].1)
    requires i < |RenderedLines(kind, preamble, styled)| && KeyLine(RenderedLines(kind, preamble, styled)[i], key)
    ensures HasKey(Rendered(kind, preamble, styled), key)
  {
    var lines := RenderedLines(kind, preamble, styled);
    RenderedOneLineEach(kind, preamble, styled);
    SplitTerminated(lines, '\n');
    KeyInMeans(lines + [""], key);
    assert (lines + [""])[i] == lines[i];
  }

  /** The preamble of every manifest: the schema version, whatever it is. */
  function VersionLine(version: string): string {
    "schema_version: " + version
  }

  lemma VersionGivesKey(version: string)
    ensures KeyLine(VersionLine(version), "schema_version")
  {
    GivesKey("", "schema_version", " " + version);
    assert "" + "schema_version" + ":" + (" " + version) == VersionLine(version);
  }

  lemma TrimKeepsFirst(s: string)
    requires s != "" && !IsSpace(s[0])
    ensures TrimSpace(s) != "" && TrimSpace(s)[0] == s[0]
  {
    var a, b := TrimParts(s, IsSpace);
    assert a + TrimSpace(s) + b == a + (TrimSpace(s) + b);
    NoSpaceBefore(a, TrimSpace(s) + b);
    assert s == TrimSpace(s) + b;
    if TrimSpace(s) == "" {
      NoSpaceBefore(b, "");
    }
  }

  lemma VersionIsPreamble(kind: Kind, version: string)
    requires '\n' !in version && kind.header != "" && kind.header[0] != 's'
    ensures SkippedPreamble(kind, [VersionLine(version)])
  {
    StripAfter("schema_version: ", version);
    TrimKeepsFirst(StripComment(VersionLine(version)));
  }

  lemma NoSpaceBefore(a: string, text: string)
    requires All(a, IsSpace) && a + text != "" && !IsSpace((a + text)[0])
    ensures a == ""
  {
  }

  lemma RenderedHasKeys(kind: Kind, key: string, version: string, styled: seq<(Style, Item)>)
    requires kind.header == key + ":" && key != "" && key[0] != 's' && CleanScalar(kind.header) && Bare(key, IsSpace)
    requires '\n' !in version
    requires forall i :: 0 <= i < |styled| ==> CleanItem(kind, styled[i].0, styled[i].1)
    ensures SkippedPreamble(kind, [VersionLine(version)])
    ensures HasKey(Rendered(kind, [VersionLine(version)], styled), "schema_version")
    ensures HasKey(Rendered(kind, [VersionLine(version)], styled), key)
  {
    var preamble := [VersionLine(version)];
    VersionIsPreamble(kind, version);
    VersionGivesKey(version);
    HeaderGivesKey(kind.header, key);
    RenderedHasKey(kind, preamble, styled, 0, "schema_version");
    RenderedHasKey(kind, preamble, styled, 1, key);
  }

  lemma HeaderGivesKey(header: string, key: string)
    requires header == key + ":" && '#' !in header && Bare(key, IsSpace)
    ensures KeyLine(header, key)
  {
    assert forall i :: 0 <= i < |key| ==> key[i] == header[i];
    GivesKey("", key, "");
    assert "" + key + ":" + "" == header;
  }

  // Beyond the canonical layout.

  /** What a line of text is by its indentation, apart from names and fields. */
  lemma ByIndent(kind: Kind, indent: string, text: string, tail: string)
    requires All(indent, IsBlank) && All(tail, IsSpace) && '#' !in indent && '#' !in text && '#' !in tail
    requires text != "" && Bare(text, IsSpace)
    ensures
      var token := Classify(kind, indent + text + tail);
      var n := |indent|;
      && token.Text? && (token.header <==> text == kind.header)
      && (n == 0 ==> token.role == Unindented)
      && (n == 1 || n == 3 ==> token.role == Other)
      && (n == 2 && text[|text| - 1] != ':' && !(kind.dashes && HasPrefix(text, "- ")) ==> token.role == Other)
      && (n >= 4 && ':' !in text ==> token.role == Other)
  {
    IndentedLine(kind, indent, text, tail);
    CutMeans(text, ':');
  }

  /** Only blanks indent: a line that begins with a tab is at the top level. */
  lemma IndentCountsBlanks(blanks: string, text: string)
    requires forall i :: 0 <= i < |blanks| ==> blanks[i] == ' '
    requires text != "" ==> text[0] != ' '
    ensures Indent(blanks + text) == |blanks|
  {
    TrimLeftPast(blanks, text, IsBlank);
  }

  /** A field before the first item is not read. */
  lemma StrayFieldIgnored(kind: Kind, r: Reader, f: (string, string))
    requires CleanField(f) && r.inside && r.current.None?
    ensures Read(r, Classify(kind, FieldLine(f))) == r
  {
    FieldClassified(kind, f);
  }

  /** Quotes of either kind come off, white space around them too, and what is inside stays as it is. */
  lemma UnquoteQuotes(a: string, before: string, s: string, after: string, b: string)
    requires All(a, IsSpace) && All(b, IsSpace) && before != "" && after != ""
    requires forall i :: 0 <= i < |before| ==> before[i] == '"' || before[i] == '\''
    requires forall i :: 0 <= i < |after| ==> after[i] == '"' || after[i] == '\''
    requires Bare(s, IsQuote)
    ensures Unquote(a + before + s + after + b) == s
  {
    var quoted := before + s + after;
    assert quoted[0] == before[0] && quoted[|quoted| - 1] == after[|after| - 1];
    assert a + before + s + after + b == a + quoted + b;
    TrimAround(a, quoted, b, IsSpace);
    TrimAround(before, s, after, IsQuote);
  }

  function QuotedField(key: string, quote: char, value: string): string {
    key + ": " + ([quote] + value + [quote])
  }

  lemma QuotedFieldText(kind: Kind, n: nat, key: string, quote: char, value: string)
    requires n >= 4 && CleanField((key, "")) && (quote == '"' || quote == '\'') && Bare(value, IsQuote)
    ensures RoleOf(kind, n, QuotedField(key, quote, value)) == Field(key, value)
  {
    var rest := " " + ([quote] + value + [quote]);
    CutAt(key, ':', rest);
    assert QuotedField(key, quote, value) == key + [':'] + rest;
    TrimAround("", key, "", IsSpace);
    assert "" + key + "" == key;
    QuotedValue(quote, value);
  }

  lemma QuotedFieldBare(key: string, quote: char, value: string)
    requires CleanField((key, "")) && (quote == '"' || quote == '\'') && OneLine(value)
    ensures
      var text := QuotedField(key, quote, value);
      text != "" && Bare(text, IsSpace) && '#' !in text
  {
    var text := QuotedField(key, quote, value);
    assert text[|text| - 1] == quote;
    assert text[0] == if key == "" then ':' else key[0];
  }

  /** A field indented by four or more, its value in quotes of either kind. */
  lemma QuotedFieldIsRead(kind: Kind, indent: string, key: string, quote: char, value: string)
    requires All(indent, IsBlank) && |indent| >= 4 && '#' !in indent
    requires CleanField((key, "")) && (quote == '"' || quote == '\'') && OneLine(value) && Bare(value, IsQuote)
    ensures
      var token := Classify(kind, indent + QuotedField(key, quote, value));
      token.Text? && token.role == Field(key, value)
  {
    var text := QuotedField(key, quote, value);
    QuotedFieldText(kind, |indent|, key, quote, value);
    QuotedFieldBare(key, quote, value);
    IndentedLine(kind, indent, text, "");
    assert indent + text + "" == indent + text;
  }

  lemma QuotedValue(quote: char, value: string)
    requires (quote == '"' || quote == '\'') && Bare(value, IsQuote)
    ensures Unquote(TrimSpace(" " + ([quote] + value + [quote]))) == value
  {
    var quoted := [quote] + value + [quote];
    assert quoted[0] == quote && quoted[|quoted| - 1] == quote;
    Spaces();
    TrimAround(" ", quoted, "", IsSpace);
    assert " " + quoted + "" == " " + quoted;
    UnquoteQuotes("", [quote], value, [quote], "");
    assert "" + [quote] + value + [quote] + "" == quoted;
  }

  lemma TextEndsItems(kind: Kind, lines: seq<string>, text: string, items: seq<Item>)
    requires HasRead(ReadAll(kind, START, lines), items)
    requires OneLine(text) && text != "" && Bare(text, IsSpace)
    ensures ReadAll(kind, START, lines + [text]).ended
    ensures Flush(ReadAll(kind, START, lines + [text])).items == items
  {
    ReadOneMore(kind, START, lines, text);
    ByIndent(kind, "", text, "");
    assert "" + text + "" == text;
  }

  /** The items end at the next unindented text: it and whatever follows it are not read. */
  lemma TopLevelEndsItems(kind: Kind, preamble: seq<string>, styled: seq<(Style, Item)>,
                          text: string, rest: seq<string>)
    requires CleanScalar(kind.header) && kind.header != "" && SkippedPreamble(kind, preamble)
    requires forall i :: 0 <= i < |styled| ==> CleanItem(kind, styled[i].0, styled[i].1)
    requires OneLine(text) && text != "" && Bare(text, IsSpace) && OneLineEach(rest)
    ensures Items(kind, Terminated(RenderedLines(kind, preamble, styled) + [text] + rest, '\n')) == Unstyled(styled)
  {
    var lines := RenderedLines(kind, preamble, styled);
    RenderedOneLineEach(kind, preamble, styled);
    OneLineEachAppend(lines, [text]);
    OneLineEachAppend(lines + [text], rest);
    LinesAreRead(kind, lines + [text] + rest);
    RenderedIsRead(kind, preamble, styled);
    TextEndsItems(kind, lines, text, Unstyled(styled));
    ReadEnded(kind, START, lines + [text], rest);
  }
}
