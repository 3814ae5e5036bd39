/** The execution-context manifest: its parser and its validator. */
module ContextFile {
  import opened Wrappers
  import opened GoStrings
  import opened Yaml

  datatype Context = Context(name: string, fields: map<string, string>)

  const CONTEXTS := Kind("contexts:", true)

  // Parsing.

  /** The fields as a map; a repeated field keeps its last value. */
  function FieldMap(fields: seq<(string, string)>): map<string, string> {
    if fields == [] then map[]
    else FieldMap(fields[..|fields| - 1])[fields[|fields| - 1].0 := fields[|fields| - 1].1]
  }

  function ContextOf(item: Item): Context {
    Context(item.name, FieldMap(item.fields))
  }

  function ContextsOf(items: seq<Item>): (contexts: seq<Context>)
    ensures |contexts| == |items|
  {
    seq(|items|, i requires 0 <= i < |items| => ContextOf(items[i]))
  }

  function Contexts(content: string): seq<Context> {
    ContextsOf(Items(CONTEXTS, content))
  }

  function CurrentOf(current: Option<Item>): Option<Context> {
    if current.Some? then Some(ContextOf(current.value)) else None
  }

  function Flushed(current: Option<Context>): seq<Context> {
    if current.Some? then [current.value] else []
  }

  lemma FlushedContexts(r: Reader)
    ensures ContextsOf(Flush(r).items) == ContextsOf(r.items) + Flushed(CurrentOf(r.current))
  {
  }

  lemma OneMoreField(item: Item, key: string, value: string)
    ensures ContextOf(item.(fields := item.fields + [(key, value)]))
            == Context(item.name, ContextOf(item).fields[key := value])
  {
  }

  ghost predicate Mirrors(r: Reader, inContexts: bool, current: Option<Context>, contexts: seq<Context>) {
    inContexts == r.inside && current == CurrentOf(r.current) && contexts == ContextsOf(r.items)
  }

  /** One turn of the parser's loop; `stop` is its break. */
  method ParseLine(raw: string, inContexts: bool, current: Option<Context>, contexts: seq<Context>, ghost r: Reader)
    returns (inContexts': bool, current': Option<Context>, contexts': seq<Context>, stop: bool)
    requires !r.ended && Mirrors(r, inContexts, current, contexts)
    ensures Mirrors(Read(r, Classify(CONTEXTS, raw)), inContexts', current', contexts')
    ensures stop == Read(r, Classify(CONTEXTS, raw)).ended
  {
    inContexts', current', contexts', stop := inContexts, current, contexts, false;
    FlushedContexts(r);
    var line := StripComment(raw);
    if TrimSpace(line) == "" {
      return;
    }
    var indent := Indent(line);
    var trimmed := TrimSpace(line);
    if !inContexts {
      inContexts' := trimmed == "contexts:";
      return;
    }
    if indent == 0 {
      contexts', current', stop := contexts + Flushed(current), None, true;
      return;
    }
    if indent == 2 && HasPrefix(trimmed, "- ") {
      contexts' := contexts + Flushed(current);
      current' := Some(Context(Unquote(TrimSpace(TrimPrefix(trimmed, "- "))), map[]));
      return;
    }
    if indent == 2 && HasSuffix(trimmed, ":") {
      contexts' := contexts + Flushed(current);
      current' := Some(Context(Unquote(TrimSuffix(trimmed, ":")), map[]));
      return;
    }
    if current.None? || indent < 4 {
      return;
    }
    var (field, value, ok) := Cut(trimmed, ':');
    if !ok {
      return;
    }
    OneMoreField(r.current.value, TrimSpace(field), Unquote(TrimSpace(value)));
    current' := Some(Context(current.value.name, current.value.fields[TrimSpace(field) := Unquote(TrimSpace(value))]));
  }

  /** A field given again replaces the value it had and no other. */
  lemma LaterFieldWins(name: string, fields: seq<(string, string)>, key: string, value: string, other: string)
    ensures
      var before, after := ContextOf(Item(name, fields)), ContextOf(Item(name, fields + [(key, value)]));
      && after.name == before.name == name
      && Get(after, key) == value
      && (other != key ==> Get(after, other) == Get(before, other))
  {
    OneMoreField(Item(name, fields), key, value);
  }

  method ParseExecutionContexts(content: string) returns (contexts: seq<Context>)
    ensures contexts == Contexts(content)
  {
    contexts := [];
    var current: Option<Context> := None;
    var inContexts := false;
    var lines := Split(content, '\n');
    var i, stop := 0, false;
    while i < |lines| && !stop
      invariant 0 <= i <= |lines|
      invariant Mirrors(ReadTo(CONTEXTS, lines, i), inContexts, current, contexts)
      invariant stop == ReadTo(CONTEXTS, lines, i).ended
    {
      ReadNext(CONTEXTS, lines, i);
      ghost var r := ReadTo(CONTEXTS, lines, i);
      inContexts, current, contexts, stop := ParseLine(lines[i], inContexts, current, contexts, r);
      i := i + 1;
    }
    ReadStops(CONTEXTS, lines, i);
    FlushedContexts(ReadTo(CONTEXTS, lines, i));
    contexts := contexts + Flushed(current);
  }

  /** Round trip, each context in mapping or dash style: whatever order its fields are written in, the
      parser returns the same contexts in the same order. */
  lemma ContextsRoundTrip(preamble: seq<string>, contexts: seq<Context>, styled: seq<(Style, Item)>)
    requires SkippedPreamble(CONTEXTS, preamble) && |styled| == |contexts|
    requires forall i :: 0 <= i < |styled| ==>
               CleanItem(CONTEXTS, styled[i].0, styled[i].1) && ContextOf(styled[i].1) == contexts[i]
    ensures Contexts(Rendered(CONTEXTS, preamble, styled)) == contexts
  {
    ContextsHeader();
    RoundTrip(CONTEXTS, preamble, styled);
    UnstyledAt(styled);
  }

  lemma ContextsHeader()
    ensures CleanScalar(CONTEXTS.header) && CONTEXTS.header != ""
  {
  }

  // Validation.

  datatype Gap =
    | Empty
    | MissingKey(key: string)
    | NoContexts
    | Duplicate(name: string)
    | Unknown(name: string)
    | MissingField(name: string, field: string)
    | BadBool(name: string, field: string)
    | NotRelative(name: string, field: string)
    | MissingContext(name: string)
    | ValueMustBe(name: string, field: string, want: string)
    | NotDistinct

  function Get(c: Context, field: string): string {
    if field in c.fields then c.fields[field] else ""
  }

  /** A field holds a path if its name has one of three words in it. */
  predicate MustBeRelative(field: string) {
    Contains(field, "path") || Contains(field, "root") || Contains(field, "manifest")
  }

  lemma RelativeFields(before: string, after: string)
    ensures MustBeRelative(before + "path" + after)
    ensures MustBeRelative(before + "root" + after)
    ensures MustBeRelative(before + "manifest" + after)
  {
    ContainsMiddle(before, "path", after);
    ContainsMiddle(before, "root", after);
    ContainsMiddle(before, "manifest", after);
  }

  /** Any other name is not that of a path. */
  lemma OtherFields(field: string) returns (before: string, part: string, after: string)
    requires MustBeRelative(field)
    ensures field == before + part + after && part in {"path", "root", "manifest"}
  {
    part := if Contains(field, "path") then "path" else if Contains(field, "root") then "root" else "manifest";
    before, after := ContainsParts(field, part);
  }

  predicate FieldGap(c: Context, field: string, g: Gap) {
    g == MissingField(c.name, field) && Get(c, field) == ""
  }

  predicate BoolGap(c: Context, field: string, g: Gap) {
    || FieldGap(c, field, g)
    || (g == BadBool(c.name, field) && Get(c, field) !in {"", "true", "false"})
  }

  predicate RelativeGap(c: Context, fields: set<string>, g: Gap) {
    && g.NotRelative? && g.name == c.name && g.field in fields
    && g.field in c.fields && MustBeRelative(g.field) && HasPrefix(c.fields[g.field], "/")
  }

  /** What is wrong with one context by itself. */
  predicate ContextGap(c: Context, expected: seq<string>, g: Gap) {
    || (g == Unknown(c.name) && c.name !in expected)
    || FieldGap(c, "write_scope", g)
    || BoolGap(c, "mutates_files", g)
    || BoolGap(c, "release_evidence", g)
    || FieldGap(c, "requires_gowork", g)
    || RelativeGap(c, c.fields.Keys, g)
  }

  /** Context `k` is named and is the first with its name. */
  predicate First(cs: seq<Context>, k: int) {
    0 <= k < |cs| && cs[k].name != "" && forall j :: 0 <= j < k ==> cs[j].name != cs[k].name
  }

  predicate Repeated(cs: seq<Context>, n: nat, name: string)
    requires n <= |cs|
  {
    name != "" && exists i, j :: 0 <= i < j < n && cs[i].name == name && cs[j].name == name
  }

  ghost predicate RecordGap(cs: seq<Context>, n: nat, expected: seq<string>, g: Gap)
    requires n <= |cs|
  {
    exists k :: 0 <= k < n && First(cs, k) && ContextGap(cs[k], expected, g)
  }

  /** What is wrong with the first `n` contexts. */
  ghost predicate ListGap(cs: seq<Context>, n: nat, expected: seq<string>, g: Gap)
    requires n <= |cs|
  {
    (g.Duplicate? && Repeated(cs, n, g.name)) || RecordGap(cs, n, expected, g)
  }

  predicate Named(cs: seq<Context>, name: string) {
    name != "" && exists k :: 0 <= k < |cs| && cs[k].name == name
  }

  predicate ExpectedGap(cs: seq<Context>, expected: seq<string>, g: Gap) {
    g.MissingContext? && g.name in expected && !Named(cs, g.name)
  }

  const LOCAL_WRITE := "local_write"
  const RELEASE_VERIFY := "release_verify"
  const LOCAL_VALUES := [("mutates_files", "true"), ("release_evidence", "false")]
  const RELEASE_VALUES := [("mutates_files", "false"), ("release_evidence", "true"), ("requires_gowork", "off")]

  /** A field that is given has another value than the one wanted. */
  predicate ValueGap(c: Context, wanted: seq<(string, string)>, g: Gap) {
    exists w :: w in wanted && g == ValueMustBe(c.name, w.0, w.1) && Get(c, w.0) != "" && Get(c, w.0) != w.1
  }

  /** The first context of each name. */
  function ByName(cs: seq<Context>): map<string, Context> {
    if cs == [] then map[]
    else
      var m := ByName(cs[..|cs| - 1]);
      var last := cs[|cs| - 1];
      if last.name == "" || last.name in m then m else m[last.name := last]
  }

  predicate SemanticGap(byName: map<string, Context>, g: Gap) {
    || (LOCAL_WRITE in byName && ValueGap(byName[LOCAL_WRITE], LOCAL_VALUES, g))
    || (RELEASE_VERIFY in byName && ValueGap(byName[RELEASE_VERIFY], RELEASE_VALUES, g))
    || (g == NotDistinct && LOCAL_WRITE in byName && RELEASE_VERIFY in byName
        && byName[LOCAL_WRITE].fields == byName[RELEASE_VERIFY].fields)
  }

  /** What a gap in the answer means, on the text and on the contexts parsed from it. */
  ghost predicate IsGap(content: string, expected: seq<string>, g: Gap) {
    if IsBlankFile(content) then g == Empty
    else
      || (g == MissingKey("schema_version") && !HasKey(content, "schema_version"))
      || (g == MissingKey("contexts") && !HasKey(content, "contexts"))
      || (g == NoContexts && Contexts(content) == [])
      || ListGap(Contexts(content), |Contexts(content)|, expected, g)
      || ExpectedGap(Contexts(content), expected, g)
      || SemanticGap(ByName(Contexts(content)), g)
  }

  lemma ListGapStep(cs: seq<Context>, i: nat, expected: seq<string>, g: Gap)
    requires i < |cs|
    ensures ListGap(cs, i + 1, expected, g) <==>
            || ListGap(cs, i, expected, g)
            || if First(cs, i) then ContextGap(cs[i], expected, g) else cs[i].name != "" && g == Duplicate(cs[i].name)
  {
  }

  lemma {:induction false} ByNameIsFirst(cs: seq<Context>, name: string)
    ensures name in ByName(cs) ==> exists k :: First(cs, k) && cs[k].name == name && ByName(cs)[name] == cs[k]
    ensures name !in ByName(cs) ==> !Named(cs, name)
  {
    if cs != [] {
      var k := |cs| - 1;
      var init := cs[..k];
      ByNameIsFirst(init, name);
      if name in ByName(init) {
        var j :| First(init, j) && init[j].name == name && ByName(init)[name] == init[j];
        assert First(cs, j) && cs[j] == init[j];
      } else {
        assert forall j :: 0 <= j < k && name != "" ==> init[j].name != name;
        if cs[k].name == name && name != "" {
          assert First(cs, k);
        }
      }
    }
  }

  method RequireField(c: Context, field: string) returns (gaps: seq<Gap>)
    ensures forall g :: g in gaps <==> FieldGap(c, field, g)
  {
    gaps := [];
    if Get(c, field) == "" {
      gaps := [MissingField(c.name, field)];
    }
  }

  method RequireBool(c: Context, field: string) returns (gaps: seq<Gap>)
    ensures forall g :: g in gaps <==> BoolGap(c, field, g)
  {
    var value := Get(c, field);
    if value == "" {
      return [MissingField(c.name, field)];
    }
    if value != "true" && value != "false" {
      return [BadBool(c.name, field)];
    }
    return [];
  }

  method RequireValue(c: Context, field: string, want: string) returns (gaps: seq<Gap>)
    ensures gaps == if Get(c, field) != "" && Get(c, field) != want then [ValueMustBe(c.name, field, want)] else []
  {
    gaps := [];
    var got := Get(c, field);
    if got != "" && got != want {
      gaps := [ValueMustBe(c.name, field, want)];
    }
  }

  /** The fields come in no particular order. */
  method CheckRelative(c: Context) returns (gaps: seq<Gap>)
    ensures forall g :: g in gaps <==> RelativeGap(c, c.fields.Keys, g)
  {
    gaps := [];
    var left := c.fields.Keys;
    while left != {}
      invariant left <= c.fields.Keys
      invariant forall g :: g in gaps <==> RelativeGap(c, c.fields.Keys - left, g)
      decreases left
    {
      var field :| field in left;
      if MustBeRelative(field) && HasPrefix(c.fields[field], "/") {
        gaps := gaps + [NotRelative(c.name, field)];
      }
      left := left - {field};
    }
  }

  method CheckContext(c: Context, expected: seq<string>) returns (gaps: seq<Gap>)
    ensures forall g :: g in gaps <==> ContextGap(c, expected, g)
  {
    gaps := [];
    if c.name !in expected {
      gaps := gaps + [Unknown(c.name)];
    }
    var scope := RequireField(c, "write_scope");
    var mutates := RequireBool(c, "mutates_files");
    var evidence := RequireBool(c, "release_evidence");
    var gowork := RequireField(c, "requires_gowork");
    var relative := CheckRelative(c);
    gaps := gaps + scope + mutates + evidence + gowork + relative;
  }

  method CheckContexts(contexts: seq<Context>, expected: seq<string>)
    returns (gaps: seq<Gap>, byName: map<string, Context>)
    ensures forall g :: g in gaps <==> ListGap(contexts, |contexts|, expected, g)
    ensures byName == ByName(contexts)
  {
    gaps := [];
    var seen: set<string> := {};
    byName := map[];
    for i := 0 to |contexts|
      invariant forall g :: g in gaps <==> ListGap(contexts, i, expected, g)
      invariant byName == ByName(contexts[..i]) && seen == byName.Keys
    {
      var context := contexts[i];
      ghost var before := gaps;
      assert contexts[..i + 1][..i] == contexts[..i];
      FirstUnlessSeen(contexts, i);
      var found: seq<Gap> := [];
      if context.name != "" {
        if context.name in seen {
          found := [Duplicate(context.name)];
        } else {
          seen := seen + {context.name};
          byName := byName[context.name := context];
          found := CheckContext(context, expected);
        }
      }
      gaps := gaps + found;
      forall g ensures g in gaps <==> ListGap(contexts, i + 1, expected, g) {
        ListGapStep(contexts, i, expected, g);
        assert g in gaps <==> g in before || g in found;
      }
    }
    assert contexts[..|contexts|] == contexts;
  }

  lemma FirstUnlessSeen(cs: seq<Context>, i: nat)
    requires i < |cs|
    ensures First(cs, i) <==> cs[i].name != "" && cs[i].name !in ByName(cs[..i])
  {
    var init := cs[..i];
    ByNameIsFirst(init, cs[i].name);
    if cs[i].name in ByName(init) {
      var k :| First(init, k) && init[k].name == cs[i].name;
      assert cs[k].name == cs[i].name;
    } else if cs[i].name != "" {
      assert forall j :: 0 <= j < i ==> init[j].name != cs[i].name;
    }
  }

  method CheckExpected(byName: map<string, Context>, expected: seq<string>, ghost cs: seq<Context>)
    returns (gaps: seq<Gap>)
    requires byName == ByName(cs)
    ensures forall g :: g in gaps <==> ExpectedGap(cs, expected, g)
  {
    gaps := [];
    for i := 0 to |expected|
      invariant forall g :: g in gaps <==> ExpectedGap(cs, expected[..i], g)
    {
      assert expected[..i + 1] == expected[..i] + [expected[i]];
      ByNameIsFirst(cs, expected[i]);
      if expected[i] !in byName {
        gaps := gaps + [MissingContext(expected[i])];
      }
    }
    assert expected[..|expected|] == expected;
  }

  method CheckSemantics(byName: map<string, Context>) returns (gaps: seq<Gap>)
    ensures forall g :: g in gaps <==> SemanticGap(byName, g)
  {
    gaps := [];
    if LOCAL_WRITE in byName {
      var a := RequireValue(byName[LOCAL_WRITE], "mutates_files", "true");
      var b := RequireValue(byName[LOCAL_WRITE], "release_evidence", "false");
      gaps := a + b;
      ValuesListed(byName[LOCAL_WRITE], LOCAL_VALUES, gaps);
    }
    ghost var local := gaps;
    ghost var release: seq<Gap> := [];
    if RELEASE_VERIFY in byName {
      var a := RequireValue(byName[RELEASE_VERIFY], "mutates_files", "false");
      var b := RequireValue(byName[RELEASE_VERIFY], "release_evidence", "true");
      var c := RequireValue(byName[RELEASE_VERIFY], "requires_gowork", "off");
      gaps := gaps + (a + b + c);
      release := a + b + c;
      ValuesListed(byName[RELEASE_VERIFY], RELEASE_VALUES, release);
    }
    ghost var both := gaps;
    assert forall g :: g in both <==> g in local || g in release;
    if LOCAL_WRITE in byName && RELEASE_VERIFY in byName
       && byName[LOCAL_WRITE].fields == byName[RELEASE_VERIFY].fields {
      gaps := gaps + [NotDistinct];
    }
  }

  function ValueGaps(c: Context, w: (string, string)): seq<Gap> {
    if Get(c, w.0) != "" && Get(c, w.0) != w.1 then [ValueMustBe(c.name, w.0, w.1)] else []
  }

  lemma ValuesListed(c: Context, wanted: seq<(string, string)>, gaps: seq<Gap>)
    requires 2 <= |wanted| <= 3
    requires gaps == ValueGaps(c, wanted[0]) + ValueGaps(c, wanted[1])
                     + if |wanted| == 3 then ValueGaps(c, wanted[2]) else []
    ensures forall g :: g in gaps <==> ValueGap(c, wanted, g)
  {
  }

  // What acceptance means.

  predicate Boolean(value: string) {
    value == "true" || value == "false"
  }

  predicate GoodContext(c: Context, expected: seq<string>) {
    && c.name in expected
    && Get(c, "write_scope") != "" && Get(c, "requires_gowork") != ""
    && Boolean(Get(c, "mutates_files")) && Boolean(Get(c, "release_evidence"))
    && forall f :: f in c.fields && MustBeRelative(f) ==> !HasPrefix(c.fields[f], "/")
  }

  predicate Distinct(cs: seq<Context>) {
    forall i, j :: 0 <= i < j < |cs| && cs[i].name != "" ==> cs[i].name != cs[j].name
  }

  predicate RightValues(c: Context) {
    && (c.name == LOCAL_WRITE ==> Get(c, "mutates_files") == "true" && Get(c, "release_evidence") == "false")
    && (c.name == RELEASE_VERIFY ==>
          && Get(c, "mutates_files") == "false" && Get(c, "release_evidence") == "true"
          && Get(c, "requires_gowork") == "off")
  }

  /** At least one context; of those with a name no two with the same one, every one good, with the right values
      and expected; and every expected one there. A context without a name is ignored, whatever its fields. */
  predicate GoodList(cs: seq<Context>, expected: seq<string>) {
    && cs != []
    && Distinct(cs)
    && (forall i :: 0 <= i < |cs| && cs[i].name != "" ==> GoodContext(cs[i], expected) && RightValues(cs[i]))
    && (forall name :: name in expected ==> Named(cs, name))
  }

  predicate Accepts(content: string, expected: seq<string>) {
    HasKey(content, "schema_version") && HasKey(content, "contexts") && GoodList(Contexts(content), expected)
  }

  lemma BadBoolGap(c: Context, field: string) returns (g: Gap)
    requires !Boolean(Get(c, field))
    ensures BoolGap(c, field, g)
  {
    g := if Get(c, field) == "" then MissingField(c.name, field) else BadBool(c.name, field);
  }

  /** A context that is not good has a gap, and this is one. */
  lemma BadContextGap(c: Context, expected: seq<string>) returns (g: Gap)
    requires !GoodContext(c, expected)
    ensures ContextGap(c, expected, g)
  {
    if c.name !in expected {
      g := Unknown(c.name);
    } else if Get(c, "write_scope") == "" {
      g := MissingField(c.name, "write_scope");
    } else if Get(c, "requires_gowork") == "" {
      g := MissingField(c.name, "requires_gowork");
    } else if !Boolean(Get(c, "mutates_files")) {
      g := BadBoolGap(c, "mutates_files");
    } else if !Boolean(Get(c, "release_evidence")) {
      g := BadBoolGap(c, "release_evidence");
    } else {
      var f :| f in c.fields && MustBeRelative(f) && HasPrefix(c.fields[f], "/");
      g := NotRelative(c.name, f);
    }
  }

  lemma GoodContextHasNoGap(c: Context, expected: seq<string>, g: Gap)
    requires GoodContext(c, expected)
    ensures !ContextGap(c, expected, g)
  {
  }

  /** A value that is given but wrong, and the gap it makes. */
  lemma WrongValueGap(c: Context, wanted: seq<(string, string)>, w: (string, string)) returns (g: Gap)
    requires w in wanted && Get(c, w.0) != "" && Get(c, w.0) != w.1
    ensures ValueGap(c, wanted, g)
  {
    g := ValueMustBe(c.name, w.0, w.1);
  }

  lemma WrongValuesGap(cs: seq<Context>, k: nat, expected: seq<string>) returns (g: Gap)
    requires k < |cs| && First(cs, k) && GoodContext(cs[k], expected) && !RightValues(cs[k])
    ensures SemanticGap(ByName(cs), g)
  {
    var c := cs[k];
    ByNameIsFirst(cs, c.name);
    assert Named(cs, c.name);
    assert forall j :: First(cs, j) && cs[j].name == c.name ==> j == k;
    if c.name == LOCAL_WRITE {
      var w := if Get(c, "mutates_files") != "true" then LOCAL_VALUES[0] else LOCAL_VALUES[1];
      g := WrongValueGap(c, LOCAL_VALUES, w);
    } else {
      var w := if Get(c, "mutates_files") != "false" then RELEASE_VALUES[0]
               else if Get(c, "release_evidence") != "true" then RELEASE_VALUES[1]
               else RELEASE_VALUES[2];
      g := WrongValueGap(c, RELEASE_VALUES, w);
    }
  }

  lemma RightValuesHaveNoGap(c: Context, g: Gap)
    requires RightValues(c)
    ensures c.name == LOCAL_WRITE ==> !ValueGap(c, LOCAL_VALUES, g)
    ensures c.name == RELEASE_VERIFY ==> !ValueGap(c, RELEASE_VALUES, g)
  {
  }

  /** Once the other checks pass, comparing the fields of local_write and release_verify adds nothing:
      their values of mutates_files already differ. */
  lemma RightListHasNoSemanticGap(cs: seq<Context>, g: Gap)
    requires forall i :: 0 <= i < |cs| && cs[i].name != "" ==> RightValues(cs[i])
    ensures !SemanticGap(ByName(cs), g)
  {
    var m := ByName(cs);
    ByNameIsFirst(cs, LOCAL_WRITE);
    ByNameIsFirst(cs, RELEASE_VERIFY);
    if LOCAL_WRITE in m {
      RightValuesHaveNoGap(m[LOCAL_WRITE], g);
    }
    if RELEASE_VERIFY in m {
      RightValuesHaveNoGap(m[RELEASE_VERIFY], g);
    }
    if LOCAL_WRITE in m && RELEASE_VERIFY in m {
      assert Get(m[LOCAL_WRITE], "mutates_files") != Get(m[RELEASE_VERIFY], "mutates_files");
    }
  }

  /** Without a mutates_files value, or with one that local_write must not have, or with one that
      release_verify must not have. */
  lemma SameFieldsGap(local: Context, release: Context, expected: seq<string>) returns (g: Gap)
    requires local.name == LOCAL_WRITE && release.name == RELEASE_VERIFY && local.fields == release.fields
    ensures g != NotDistinct
    ensures ContextGap(local, expected, g) || ValueGap(local, LOCAL_VALUES, g) || ValueGap(release, RELEASE_VALUES, g)
  {
    var value := Get(local, "mutates_files");
    assert Get(release, "mutates_files") == value;
    if value == "" {
      g := MissingField(LOCAL_WRITE, "mutates_files");
    } else if value != "true" {
      g := WrongValueGap(local, LOCAL_VALUES, LOCAL_VALUES[0]);
    } else {
      g := WrongValueGap(release, RELEASE_VALUES, RELEASE_VALUES[0]);
    }
  }

  /** The comparison of local_write and release_verify never reports a gap alone. */
  lemma NotDistinctNeverAlone(content: string, expected: seq<string>)
    requires IsGap(content, expected, NotDistinct)
    ensures exists g :: g != NotDistinct && IsGap(content, expected, g)
  {
    var cs := Contexts(content);
    var m := ByName(cs);
    ByNameIsFirst(cs, LOCAL_WRITE);
    ByNameIsFirst(cs, RELEASE_VERIFY);
    var k :| First(cs, k) && cs[k].name == LOCAL_WRITE && m[LOCAL_WRITE] == cs[k];
    var g := SameFieldsGap(m[LOCAL_WRITE], m[RELEASE_VERIFY], expected);
    assert ContextGap(cs[k], expected, g) ==> RecordGap(cs, |cs|, expected, g);
    assert IsGap(content, expected, g);
  }

  lemma AcceptedHasNoGap(content: string, expected: seq<string>, g: Gap)
    requires Accepts(content, expected)
    ensures !IsGap(content, expected, g)
  {
    var cs := Contexts(content);
    if IsBlankFile(content) {
      BlankHasNoKey(content, "contexts");
      assert false;
    }
    forall k | First(cs, k) ensures !ContextGap(cs[k], expected, g) {
      GoodContextHasNoGap(cs[k], expected, g);
    }
    assert !ListGap(cs, |cs|, expected, g);
    RightListHasNoSemanticGap(cs, g);
  }

  lemma RejectedHasGap(content: string, expected: seq<string>) returns (g: Gap)
    requires !Accepts(content, expected)
    ensures IsGap(content, expected, g)
  {
    var cs := Contexts(content);
    if IsBlankFile(content) {
      g := Empty;
    } else if !HasKey(content, "schema_version") {
      g := MissingKey("schema_version");
    } else if !HasKey(content, "contexts") {
      g := MissingKey("contexts");
    } else if cs == [] {
      g := NoContexts;
    } else if !Distinct(cs) {
      var i, j :| 0 <= i < j < |cs| && cs[i].name != "" && cs[i].name == cs[j].name;
      g := Duplicate(cs[i].name);
      assert Repeated(cs, |cs|, g.name);
    } else if k :| 0 <= k < |cs| && cs[k].name != "" && !GoodContext(cs[k], expected) {
      g := BadContextGap(cs[k], expected);
      assert First(cs, k);
      assert RecordGap(cs, |cs|, expected, g);
    } else if k :| 0 <= k < |cs| && cs[k].name != "" && !RightValues(cs[k]) {
      assert First(cs, k);
      g := WrongValuesGap(cs, k, expected);
    } else {
      var name :| name in expected && !Named(cs, name);
      g := MissingContext(name);
    }
  }

  lemma AcceptsMeansNoGaps(content: string, expected: seq<string>)
    ensures Accepts(content, expected) <==> forall g :: !IsGap(content, expected, g)
  {
    if Accepts(content, expected) {
      forall g ensures !IsGap(content, expected, g) {
        AcceptedHasNoGap(content, expected, g);
      }
    } else {
      var g := RejectedHasGap(content, expected);
    }
  }

  /** Sound and complete: a gap is reported if and only if the text or its contexts have it. */
  method ValidateExecutionContext(content: string, expected: seq<string>) returns (gaps: seq<Gap>)
    ensures forall g :: g in gaps <==> IsGap(content, expected, g)
    ensures gaps == [] <==> Accepts(content, expected)
  {
    AcceptsMeansNoGaps(content, expected);
    if TrimSpace(content) == "" {
      gaps := [Empty];
      assert IsGap(content, expected, Empty);
      return;
    }
    gaps := [];
    var hasSchema := ContainsKey(content, "schema_version");
    if !hasSchema {
      gaps := gaps + [MissingKey("schema_version")];
    }
    var hasContexts := ContainsKey(content, "contexts");
    if !hasContexts {
      gaps := gaps + [MissingKey("contexts")];
    }
    var contexts := ParseExecutionContexts(content);
    if |contexts| == 0 {
      gaps := gaps + [NoContexts];
    }
    var inList, byName := CheckContexts(contexts, expected);
    var missing := CheckExpected(byName, expected, contexts);
    var semantic := CheckSemantics(byName);
    gaps := gaps + inList + missing + semantic;
    assert gaps == [] || gaps[0] in gaps;
  }

  /** End to end: contexts in any clean rendering under any schema version are accepted if and only if the list is
      good. */
  lemma RenderedAcceptedIff(version: string, contexts: seq<Context>, styled: seq<(Style, Item)>, expected: seq<string>)
    requires '\n' !in version && |styled| == |contexts|
    requires forall i :: 0 <= i < |styled| ==>
               CleanItem(CONTEXTS, styled[i].0, styled[i].1) && ContextOf(styled[i].1) == contexts[i]
    ensures Accepts(Rendered(CONTEXTS, [VersionLine(version)], styled), expected) <==> GoodList(contexts, expected)
  {
    ContextsHeader();
    RenderedHasKeys(CONTEXTS, "contexts", version, styled);
    ContextsRoundTrip([VersionLine(version)], contexts, styled);
  }

  // One fault, one gap.

  function With(c: Context, field: string, value: string): Context {
    c.(fields := c.fields[field := value])
  }

  lemma NameFault(c: Context, expected: seq<string>, name: string, g: Gap)
    requires GoodContext(c, expected)
    ensures ContextGap(c.(name := name), expected, g) <==> name !in expected && g == Unknown(name)
  {
  }

  lemma OneFieldChanged(c: Context, field: string, value: string)
    ensures Get(With(c, field, value), field) == value
    ensures forall f :: f != field ==> Get(With(c, field, value), f) == Get(c, f)
  {
  }

  /** A name that lacks a letter of each of the three words has none of them in it. */
  lemma LacksWords(field: string, p: char, r: char, m: char)
    requires p in "path" && p !in field && r in "root" && r !in field && m in "manifest" && m !in field
    ensures !MustBeRelative(field)
  {
    LacksPart(field, "path", p);
    LacksPart(field, "root", r);
    LacksPart(field, "manifest", m);
  }

  lemma ScopeHasNoRoot(field: string)
    requires field == "write_scope"
    ensures !Contains(field, "root")
  {
    if Contains(field, "root") {
      var before, after := ContainsParts(field, "root");
      RootAt(field, before, after);
    }
  }

  lemma RootAt(field: string, before: string, after: string)
    requires field == before + "root" + after
    ensures |before| + 1 < |field| && field[|before|] == 'r' && field[|before| + 1] == 'o'
  {
  }

  lemma ScopeIsNoPath(field: string)
    requires field == "write_scope"
    ensures !MustBeRelative(field)
  {
    LacksPart(field, "path", 'a');
    ScopeHasNoRoot(field);
    LacksPart(field, "manifest", 'm');
  }

  lemma MutatesIsNoPath(field: string)
    requires field == "mutates_files"
    ensures !MustBeRelative(field)
  {
    LacksWords(field, 'p', 'r', 'n');
  }

  lemma EvidenceIsNoPath(field: string)
    requires field == "release_evidence"
    ensures !MustBeRelative(field)
  {
    LacksWords(field, 'p', 'o', 'm');
  }

  lemma GoworkIsNoPath(field: string)
    requires field == "requires_gowork"
    ensures !MustBeRelative(field)
  {
    LacksWords(field, 'p', 't', 'm');
  }

  lemma NoPath(field: string)
    requires field in {"write_scope", "mutates_files", "release_evidence", "requires_gowork"}
    ensures !MustBeRelative(field)
  {
    if field == "write_scope" {
      ScopeIsNoPath(field);
    } else if field == "mutates_files" {
      MutatesIsNoPath(field);
    } else if field == "release_evidence" {
      EvidenceIsNoPath(field);
    } else {
      GoworkIsNoPath(field);
    }
  }

  lemma PathIsOther(field: string)
    requires MustBeRelative(field)
    ensures field !in {"write_scope", "mutates_files", "release_evidence", "requires_gowork"}
  {
    if field in {"write_scope", "mutates_files", "release_evidence", "requires_gowork"} {
      NoPath(field);
    }
  }

  lemma PathChanged(c: Context, field: string, value: string, g: Gap)
    requires !RelativeGap(c, c.fields.Keys, g)
    ensures RelativeGap(With(c, field, value), With(c, field, value).fields.Keys, g) <==>
            MustBeRelative(field) && value != "" && value[0] == '/' && g == NotRelative(c.name, field)
  {
  }

  /** The gaps of a context, apart from paths. */
  predicate PlainGap(c: Context, expected: seq<string>, g: Gap) {
    || (g == Unknown(c.name) && c.name !in expected)
    || FieldGap(c, "write_scope", g)
    || BoolGap(c, "mutates_files", g)
    || BoolGap(c, "release_evidence", g)
    || FieldGap(c, "requires_gowork", g)
  }

  lemma PlainAndPath(c: Context, expected: seq<string>, g: Gap)
    ensures ContextGap(c, expected, g) <==> PlainGap(c, expected, g) || RelativeGap(c, c.fields.Keys, g)
  {
  }

  lemma TextChanged(c: Context, expected: seq<string>, field: string, value: string, g: Gap)
    requires !PlainGap(c, expected, g) && field in {"write_scope", "requires_gowork"}
    ensures PlainGap(With(c, field, value), expected, g) <==> value == "" && g == MissingField(c.name, field)
  {
  }

  lemma BoolChanged(c: Context, expected: seq<string>, field: string, value: string, g: Gap)
    requires !PlainGap(c, expected, g) && field in {"mutates_files", "release_evidence"}
    ensures PlainGap(With(c, field, value), expected, g) <==>
            if value == "" then g == MissingField(c.name, field)
            else value != "true" && value != "false" && g == BadBool(c.name, field)
  {
  }

  lemma OtherChanged(c: Context, expected: seq<string>, field: string, value: string, g: Gap)
    requires field !in {"write_scope", "mutates_files", "release_evidence", "requires_gowork"}
    ensures PlainGap(With(c, field, value), expected, g) == PlainGap(c, expected, g)
  {
  }

  lemma GoodHasNeither(c: Context, expected: seq<string>, g: Gap)
    requires GoodContext(c, expected)
    ensures !PlainGap(c, expected, g) && !RelativeGap(c, c.fields.Keys, g)
  {
    GoodContextHasNoGap(c, expected, g);
    PlainAndPath(c, expected, g);
  }

  /** A text field may be anything but empty. */
  lemma TextFault(c: Context, expected: seq<string>, field: string, value: string, g: Gap)
    requires GoodContext(c, expected) && field in {"write_scope", "requires_gowork"}
    ensures ContextGap(With(c, field, value), expected, g) <==> value == "" && g == MissingField(c.name, field)
  {
    GoodHasNeither(c, expected, g);
    NoPath(field);
    TextChanged(c, expected, field, value, g);
    PathChanged(c, field, value, g);
    PlainAndPath(With(c, field, value), expected, g);
  }

  /** A yes-or-no field may be true or false, and is not reported twice. */
  lemma BoolFault(c: Context, expected: seq<string>, field: string, value: string, g: Gap)
    requires GoodContext(c, expected) && field in {"mutates_files", "release_evidence"}
    ensures ContextGap(With(c, field, value), expected, g) <==>
            if value == "" then g == MissingField(c.name, field)
            else value != "true" && value != "false" && g == BadBool(c.name, field)
  {
    GoodHasNeither(c, expected, g);
    NoPath(field);
    BoolChanged(c, expected, field, value, g);
    PathChanged(c, field, value, g);
    PlainAndPath(With(c, field, value), expected, g);
  }

  /** Any field with path, root or manifest in its name may be anything that does not begin with a slash. */
  lemma RelativeFault(c: Context, expected: seq<string>, field: string, value: string, g: Gap)
    requires GoodContext(c, expected) && MustBeRelative(field)
    ensures ContextGap(With(c, field, value), expected, g) <==>
            value != "" && value[0] == '/' && g == NotRelative(c.name, field)
  {
    GoodHasNeither(c, expected, g);
    PathIsOther(field);
    OtherChanged(c, expected, field, value, g);
    PathChanged(c, field, value, g);
    PlainAndPath(With(c, field, value), expected, g);
  }

  /** Of a context with the right values, one more value is a gap exactly if it is given and not the one wanted: an
      empty one is only reported as missing. */
  lemma ValueFault(c: Context, wanted: seq<(string, string)>, i: nat, value: string, g: Gap)
    requires i < |wanted| && forall j :: 0 <= j < |wanted| ==> Get(c, wanted[j].0) == wanted[j].1
    requires forall j :: 0 <= j < |wanted| && j != i ==> wanted[j].0 != wanted[i].0
    ensures ValueGap(With(c, wanted[i].0, value), wanted, g) <==>
            && value != "" && value != wanted[i].1
            && g == ValueMustBe(c.name, wanted[i].0, wanted[i].1)
  {
    OneFieldChanged(c, wanted[i].0, value);
    var d := With(c, wanted[i].0, value);
    if value != "" && value != wanted[i].1 {
      assert wanted[i] in wanted;
    }
    forall j | 0 <= j < |wanted| && j != i ensures Get(d, wanted[j].0) == wanted[j].1 {
    }
  }

  // Comments and blank lines.

  /** The verdict depends only on the lines left after comments and blank lines are removed. */
  lemma VerdictIgnoresComments(a: string, b: string, expected: seq<string>)
    requires SameText(a, b)
    ensures Accepts(a, expected) == Accepts(b, expected)
  {
    SameTextReadsSame(a, b, CONTEXTS, "schema_version");
    SameTextReadsSame(a, b, CONTEXTS, "contexts");
  }

  lemma GapIgnoresComments(a: string, b: string, expected: seq<string>, g: Gap)
    requires SameText(a, b) && (IsBlankFile(a) <==> IsBlankFile(b))
    ensures IsGap(a, expected, g) <==> IsGap(b, expected, g)
  {
    SameTextReadsSame(a, b, CONTEXTS, "schema_version");
    SameTextReadsSame(a, b, CONTEXTS, "contexts");
  }

  lemma EmptyIffBlank(content: string, expected: seq<string>)
    ensures IsGap(content, expected, Empty) <==> IsBlankFile(content)
  {
  }

  /** So does the whole answer, but for one thing: a file of nothing but white space is only reported as
      empty. */
  lemma GapsIgnoreCommentsIff(a: string, b: string, expected: seq<string>)
    requires SameText(a, b)
    ensures (forall g :: IsGap(a, expected, g) <==> IsGap(b, expected, g)) <==> (IsBlankFile(a) <==> IsBlankFile(b))
  {
    EmptyIffBlank(a, expected);
    EmptyIffBlank(b, expected);
    if IsBlankFile(a) <==> IsBlankFile(b) {
      forall g ensures IsGap(a, expected, g) <==> IsGap(b, expected, g) {
        GapIgnoresComments(a, b, expected, g);
      }
    }
  }

  /** Inserting a blank or comment-only line anywhere leaves the verdict as it was and, unless the file was
      blank, every gap. */
  lemma BlankLineChangesNothing(content: string, i: nat, blank: string, expected: seq<string>)
    requires i <= |Split(content, '\n')| && '\n' !in blank && TrimSpace(StripComment(blank)) == ""
    ensures Accepts(WithLine(content, i, blank), expected) == Accepts(content, expected)
    ensures !IsBlankFile(content) ==>
              forall g :: IsGap(WithLine(content, i, blank), expected, g) <==> IsGap(content, expected, g)
  {
    InsertBlankLine(content, i, blank);
    VerdictIgnoresComments(content, WithLine(content, i, blank), expected);
    GapsIgnoreCommentsIff(content, WithLine(content, i, blank), expected);
    if IsBlankFile(WithLine(content, i, blank)) {
      BlankWithoutLine(content, i, blank);
    }
  }

  /** The exception: a blank file and a comment in it have different answers. */
  lemma BlankFileIsException(content: string, comment: string, expected: seq<string>)
    requires IsBlankFile(content) && '\n' !in comment
    ensures !forall g :: IsGap(WithComment(content, 0, comment), expected, g) <==> IsGap(content, expected, g)
  {
    AppendComment(content, 0, comment);
    NotBlankWithComment(content, 0, comment);
    GapsIgnoreCommentsIff(WithComment(content, 0, comment), content, expected);
  }

  /** Likewise for appending a comment to any line. */
  lemma TrailingCommentChangesNothing(content: string, i: nat, comment: string, expected: seq<string>)
    requires i < |Split(content, '\n')| && '\n' !in comment
    ensures Accepts(WithComment(content, i, comment), expected) == Accepts(content, expected)
    ensures !IsBlankFile(content) ==>
              forall g :: IsGap(WithComment(content, i, comment), expected, g) <==> IsGap(content, expected, g)
  {
    AppendComment(content, i, comment);
    NotBlankWithComment(content, i, comment);
    VerdictIgnoresComments(content, WithComment(content, i, comment), expected);
    GapsIgnoreCommentsIff(content, WithComment(content, i, comment), expected);
  }
}
