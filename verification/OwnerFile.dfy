/** The file-ownership manifest: its parser and its validator. Gaps are values; their message texts, which
    all start with the same file name, are not modelled. */
module OwnerFile {
  import opened Wrappers
  import opened GoStrings
  import opened Yaml

  datatype Owner = Owner(path: string, owner: string, reviewRequired: string, reviewRule: string, rationale: string)

  const OWNERS := Kind("owners:", false)

  // Parsing.

  /** The last value given to a field, or nothing. */
  function LastValue(fields: seq<(string, string)>, key: string): string {
    if fields == [] then ""
    else if fields[|fields| - 1].0 == key then fields[|fields| - 1].1
    else LastValue(fields[..|fields| - 1], key)
  }

  function OwnerOf(item: Item): Owner {
    Owner(item.name,
          LastValue(item.fields, "owner"),
          LastValue(item.fields, "review_required"),
          LastValue(item.fields, "review_rule"),
          LastValue(item.fields, "rationale"))
  }

  function OwnersOf(items: seq<Item>): (owners: seq<Owner>)
    ensures |owners| == |items|
  {
    seq(|items|, i requires 0 <= i < |items| => OwnerOf(items[i]))
  }

  function Owners(content: string): seq<Owner> {
    OwnersOf(Items(OWNERS, content))
  }

  function Set(o: Owner, key: string, value: string): Owner {
    match key
    case "owner" => o.(owner := value)
    case "review_required" => o.(reviewRequired := value)
    case "review_rule" => o.(reviewRule := value)
    case "rationale" => o.(rationale := value)
    case _ => o
  }

  lemma LastOf(fields: seq<(string, string)>, last: (string, string), key: string)
    ensures LastValue(fields + [last], key) == if last.0 == key then last.1 else LastValue(fields, key)
  {
  }

  function CurrentOf(current: Option<Item>): Option<Owner> {
    if current.Some? then Some(OwnerOf(current.value)) else None
  }

  function Flushed(current: Option<Owner>): seq<Owner> {
    if current.Some? then [current.value] else []
  }

  lemma FlushedOwners(r: Reader)
    ensures OwnersOf(Flush(r).items) == OwnersOf(r.items) + Flushed(CurrentOf(r.current))
  {
  }

  /** What a "key: value" line makes of the record. */
  function Applied(o: Owner, trimmed: string): Owner {
    var (key, value, found) := Cut(trimmed, ':');
    if found then Set(o, TrimSpace(key), Unquote(TrimSpace(value))) else o
  }

  lemma OneMoreFieldLine(item: Item, trimmed: string)
    ensures
      var (key, value, found) := Cut(trimmed, ':');
      found ==>
        OwnerOf(item.(fields := item.fields + [(TrimSpace(key), Unquote(TrimSpace(value)))]))
        == Applied(OwnerOf(item), trimmed)
  {
  }

  method ApplyField(o: Owner, trimmed: string) returns (r: Owner)
    ensures r == Applied(o, trimmed)
  {
    r := o;
    var (field, value, ok) := Cut(trimmed, ':');
    if !ok {
      return;
    }
    value := Unquote(TrimSpace(value));
    match TrimSpace(field) {
      case "owner" => r := r.(owner := value);
      case "review_required" => r := r.(reviewRequired := value);
      case "review_rule" => r := r.(reviewRule := value);
      case "rationale" => r := r.(rationale := value);
      case _ =>
    }
  }

  /** The parser's variables agree with a reader. */
  ghost predicate Mirrors(r: Reader, inOwners: bool, current: Option<Owner>, owners: seq<Owner>) {
    inOwners == r.inside && current == CurrentOf(r.current) && owners == OwnersOf(r.items)
  }

  /** One turn of the parser's loop; `stop` is its break. */
  method ParseLine(raw: string, inOwners: bool, current: Option<Owner>, owners: seq<Owner>, ghost r: Reader)
    returns (inOwners': bool, current': Option<Owner>, owners': seq<Owner>, stop: bool)
    requires !r.ended && Mirrors(r, inOwners, current, owners)
    ensures Mirrors(Read(r, Classify(OWNERS, raw)), inOwners', current', owners')
    ensures stop == Read(r, Classify(OWNERS, raw)).ended
  {
    inOwners', current', owners', stop := inOwners, current, owners, false;
    FlushedOwners(r);
    var line := StripComment(raw);
    if TrimSpace(line) == "" {
      return;
    }
    var indent := Indent(line);
    var trimmed := TrimSpace(line);
    if !inOwners {
      inOwners' := trimmed == "owners:";
      return;
    }
    if indent == 0 {
      owners', current', stop := owners + Flushed(current), None, true;
      return;
    }
    if indent == 2 && HasSuffix(trimmed, ":") {
      owners' := owners + Flushed(current);
      current' := Some(Owner(Unquote(TrimSuffix(trimmed, ":")), "", "", "", ""));
      return;
    }
    if current.None? || indent < 4 {
      return;
    }
    OneMoreFieldLine(r.current.value, trimmed);
    var updated := ApplyField(current.value, trimmed);
    current' := Some(updated);
  }

  method ParseRuntimeFileOwners(content: string) returns (owners: seq<Owner>)
    ensures owners == Owners(content)
  {
    owners := [];
    var current: Option<Owner> := None;
    var inOwners := false;
    var lines := Split(content, '\n');
    var i, stop := 0, false;
    while i < |lines| && !stop
      invariant 0 <= i <= |lines|
      invariant Mirrors(ReadTo(OWNERS, lines, i), inOwners, current, owners)
      invariant stop == ReadTo(OWNERS, lines, i).ended
    {
      ReadNext(OWNERS, lines, i);
      ghost var r := ReadTo(OWNERS, lines, i);
      inOwners, current, owners, stop := ParseLine(lines[i], inOwners, current, owners, r);
      i := i + 1;
    }
    ReadStops(OWNERS, lines, i);
    FlushedOwners(ReadTo(OWNERS, lines, i));
    owners := owners + Flushed(current);
  }

  /** A field given again replaces the value it had and no other; a field of another name is ignored. */
  lemma LaterFieldWins(name: string, fields: seq<(string, string)>, key: string, value: string)
    ensures
      var before, after := OwnerOf(Item(name, fields)), OwnerOf(Item(name, fields + [(key, value)]));
      && after.path == before.path == name
      && after.owner == (if key == "owner" then value else before.owner)
      && after.reviewRequired == (if key == "review_required" then value else before.reviewRequired)
      && after.reviewRule == (if key == "review_rule" then value else before.reviewRule)
      && after.rationale == (if key == "rationale" then value else before.rationale)
  {
    LastOf(fields, (key, value), "owner");
    LastOf(fields, (key, value), "review_required");
    LastOf(fields, (key, value), "review_rule");
    LastOf(fields, (key, value), "rationale");
  }

  // Round trip.

  function ItemOf(o: Owner): Item {
    Item(o.path, [("owner", o.owner), ("review_required", o.reviewRequired),
                  ("review_rule", o.reviewRule), ("rationale", o.rationale)])
  }

  predicate CleanOwner(o: Owner) {
    && OneLine(o.path) && Bare(o.path, IsQuote)
    && CleanScalar(o.owner) && CleanScalar(o.reviewRequired) && CleanScalar(o.reviewRule) && CleanScalar(o.rationale)
  }

  function Styled(owners: seq<Owner>): seq<(Style, Item)> {
    seq(|owners|, i requires 0 <= i < |owners| => (Quoted, ItemOf(owners[i])))
  }

  /** The canonical file: a preamble such as the schema version, the header, and each owner under its
      quoted path. */
  function RenderedOwners(preamble: seq<string>, owners: seq<Owner>): string {
    Rendered(OWNERS, preamble, Styled(owners))
  }

  lemma FieldOfItem(o: Owner, key: string)
    ensures LastValue(ItemOf(o).fields, key)
            == match key
               case "owner" => o.owner
               case "review_required" => o.reviewRequired
               case "review_rule" => o.reviewRule
               case "rationale" => o.rationale
               case _ => ""
  {
    var a, b := ("owner", o.owner), ("review_required", o.reviewRequired);
    var c, d := ("review_rule", o.reviewRule), ("rationale", o.rationale);
    LastOf([], a, key);
    LastOf([a], b, key);
    LastOf([a, b], c, key);
    LastOf([a, b, c], d, key);
    assert [] + [a] == [a] && [a] + [b] == [a, b] && [a, b] + [c] == [a, b, c];
    assert ItemOf(o).fields == [a, b, c] + [d];
  }

  lemma OwnerOfItem(o: Owner)
    ensures OwnerOf(ItemOf(o)) == o
  {
    FieldOfItem(o, "owner");
    FieldOfItem(o, "review_required");
    FieldOfItem(o, "review_rule");
    FieldOfItem(o, "rationale");
  }

  lemma CleanOwnerItem(o: Owner)
    requires CleanOwner(o)
    ensures CleanItem(OWNERS, Quoted, ItemOf(o))
  {
    var f := ItemOf(o).fields;
    assert CleanField(f[0]);
    assert CleanField(f[1]);
    assert CleanField(f[2]);
    assert CleanField(f[3]);
  }

  lemma OwnersHeader()
    ensures CleanScalar(OWNERS.header) && OWNERS.header != ""
  {
  }

  lemma StyledOwners(owners: seq<Owner>)
    requires forall i :: 0 <= i < |owners| ==> CleanOwner(owners[i])
    ensures forall i :: 0 <= i < |Styled(owners)| ==> CleanItem(OWNERS, Styled(owners)[i].0, Styled(owners)[i].1)
    ensures OwnersOf(Unstyled(Styled(owners))) == owners
  {
    var styled := Styled(owners);
    UnstyledAt(styled);
    forall i | 0 <= i < |owners|
      ensures CleanItem(OWNERS, styled[i].0, styled[i].1) && OwnerOf(styled[i].1) == owners[i]
    {
      CleanOwnerItem(owners[i]);
      OwnerOfItem(owners[i]);
    }
  }

  /** Owner records with clean scalars, rendered in the canonical layout, parse to the same list in order. */
  lemma OwnersRoundTrip(preamble: seq<string>, owners: seq<Owner>)
    requires SkippedPreamble(OWNERS, preamble)
    requires forall i :: 0 <= i < |owners| ==> CleanOwner(owners[i])
    ensures Owners(RenderedOwners(preamble, owners)) == owners
  {
    StyledOwners(owners);
    OwnersHeader();
    RoundTrip(OWNERS, preamble, Styled(owners));
  }

  // Validation.

  datatype Gap =
    | Empty
    | MissingKey(key: string)
    | NoOwners
    | Duplicate(path: string)
    | MissingOwner(path: string)
    | UnknownOwner(path: string, owner: string)
    | NotRelative(path: string)
    | MissingReviewRequired(path: string)
    | BadReviewRequired(path: string)
    | MissingReviewRule(path: string)
    | MissingRationale(path: string)
    | MustInclude(path: string)
    | OwnerMustBe(path: string, owner: string)
    | ReviewMustBe(path: string, review: string)

  const ALLOWED := {"ci", "gate-runtime", "governance", "leader", "release", "security", "standard", "testing"}

  /** The paths that must be owned, by whom. */
  const REQUIRED := [(".agent/", "governance"), ("cmd/goalcli/", "gate-runtime"), ("contracts/", "standard")]

  /** What is wrong with one record by itself. */
  predicate OwnerGap(o: Owner, g: Gap) {
    match g
    case MissingOwner(p) => p == o.path && o.owner == ""
    case UnknownOwner(p, n) => p == o.path && n == o.owner != "" && n !in ALLOWED
    case NotRelative(p) => p == o.path && HasPrefix(p, "/")
    case MissingReviewRequired(p) => p == o.path && o.reviewRequired == ""
    case BadReviewRequired(p) => p == o.path && o.reviewRequired !in {"", "true", "false"}
    case MissingReviewRule(p) => p == o.path && o.reviewRequired == "true" && o.reviewRule == ""
    case MissingRationale(p) => p == o.path && o.rationale == ""
    case _ => false
  }

  /** Record `k` is the first with its path; later ones with that path are only reported as duplicates. */
  predicate First(os: seq<Owner>, k: int) {
    0 <= k < |os| && forall j :: 0 <= j < k ==> os[j].path != os[k].path
  }

  /** Two of the first `n` records have this path. */
  predicate Repeated(os: seq<Owner>, n: nat, path: string)
    requires n <= |os|
  {
    exists i, j :: 0 <= i < j < n && os[i].path == path && os[j].path == path
  }

  ghost predicate RecordGap(os: seq<Owner>, n: nat, g: Gap)
    requires n <= |os|
  {
    exists k :: 0 <= k < n && First(os, k) && OwnerGap(os[k], g)
  }

  /** What is wrong with the first `n` records. */
  ghost predicate ListGap(os: seq<Owner>, n: nat, g: Gap)
    requires n <= |os|
  {
    (g.Duplicate? && Repeated(os, n, g.path)) || RecordGap(os, n, g)
  }

  ghost predicate RequiredGap(os: seq<Owner>, required: (string, string), g: Gap) {
    || (g == MustInclude(required.0) && forall k :: 0 <= k < |os| ==> os[k].path != required.0)
    || exists k :: First(os, k) && os[k].path == required.0 && WrongOwner(os[k], required, g)
  }

  predicate WrongOwner(o: Owner, required: (string, string), g: Gap) {
    || (g == OwnerMustBe(required.0, required.1) && o.owner != required.1)
    || (g == ReviewMustBe(required.0, "true") && o.reviewRequired != "true")
  }

  /** What a gap in the answer means, on the text and on the records parsed from it. */
  ghost predicate IsGap(content: string, g: Gap) {
    if IsBlankFile(content) then g == Empty
    else
      || (g == MissingKey("schema_version") && !HasKey(content, "schema_version"))
      || (g == MissingKey("owners") && !HasKey(content, "owners"))
      || (g == NoOwners && Owners(content) == [])
      || ListGap(Owners(content), |Owners(content)|, g)
      || RequiredGap(Owners(content), REQUIRED[0], g)
      || RequiredGap(Owners(content), REQUIRED[1], g)
      || RequiredGap(Owners(content), REQUIRED[2], g)
  }

  lemma ListGapStep(os: seq<Owner>, i: nat, g: Gap)
    requires i < |os|
    ensures ListGap(os, i + 1, g) <==>
            ListGap(os, i, g) || (if First(os, i) then OwnerGap(os[i], g) else g == Duplicate(os[i].path))
  {
  }

  method CheckOwner(o: Owner) returns (gaps: seq<Gap>)
    ensures forall g :: g in gaps <==> OwnerGap(o, g)
  {
    gaps := [];
    if o.owner == "" {
      gaps := gaps + [MissingOwner(o.path)];
    } else if o.owner !in ALLOWED {
      gaps := gaps + [UnknownOwner(o.path, o.owner)];
    }
    if HasPrefix(o.path, "/") {
      gaps := gaps + [NotRelative(o.path)];
    }
    if o.reviewRequired == "" {
      gaps := gaps + [MissingReviewRequired(o.path)];
    } else if o.reviewRequired != "true" && o.reviewRequired != "false" {
      gaps := gaps + [BadReviewRequired(o.path)];
    } else if o.reviewRequired == "true" && o.reviewRule == "" {
      gaps := gaps + [MissingReviewRule(o.path)];
    }
    if o.rationale == "" {
      gaps := gaps + [MissingRationale(o.path)];
    }
  }

  /** The first record of each path. */
  function ByPath(os: seq<Owner>): map<string, Owner> {
    if os == [] then map[]
    else
      var m := ByPath(os[..|os| - 1]);
      var last := os[|os| - 1];
      if last.path in m then m else m[last.path := last]
  }

  lemma {:induction false} ByPathIsFirst(os: seq<Owner>, path: string)
    ensures path in ByPath(os) ==> exists k :: First(os, k) && os[k].path == path && ByPath(os)[path] == os[k]
    ensures path !in ByPath(os) ==> forall k :: 0 <= k < |os| ==> os[k].path != path
  {
    if os != [] {
      var k := |os| - 1;
      var init := os[..k];
      ByPathIsFirst(init, path);
      if path in ByPath(init) {
        var j :| First(init, j) && init[j].path == path && ByPath(init)[path] == init[j];
        assert First(os, j) && os[j] == init[j];
      } else if os[k].path == path {
        assert First(os, k);
      }
    }
  }

  method RequireRuntimeOwner(byPath: map<string, Owner>, path: string, owner: string, ghost os: seq<Owner>)
    returns (gaps: seq<Gap>)
    requires byPath == ByPath(os)
    ensures forall g :: g in gaps <==> RequiredGap(os, (path, owner), g)
  {
    ByPathIsFirst(os, path);
    if path !in byPath {
      return [MustInclude(path)];
    }
    ghost var k :| First(os, k) && os[k].path == path && byPath[path] == os[k];
    assert forall j :: First(os, j) && os[j].path == path ==> j == k;
    gaps := [];
    if byPath[path].owner != owner {
      gaps := gaps + [OwnerMustBe(path, owner)];
    }
    if byPath[path].reviewRequired != "true" {
      gaps := gaps + [ReviewMustBe(path, "true")];
    }
  }

  method RequireRuntimeOwners(byPath: map<string, Owner>, ghost os: seq<Owner>) returns (gaps: seq<Gap>)
    requires byPath == ByPath(os)
    ensures forall g :: g in gaps <==>
                        || RequiredGap(os, REQUIRED[0], g)
                        || RequiredGap(os, REQUIRED[1], g)
                        || RequiredGap(os, REQUIRED[2], g)
  {
    var first := RequireRuntimeOwner(byPath, ".agent/", "governance", os);
    var second := RequireRuntimeOwner(byPath, "cmd/goalcli/", "gate-runtime", os);
    var third := RequireRuntimeOwner(byPath, "contracts/", "standard", os);
    gaps := first + second + third;
  }

  method CheckOwners(owners: seq<Owner>) returns (gaps: seq<Gap>, byPath: map<string, Owner>)
    ensures forall g :: g in gaps <==> ListGap(owners, |owners|, g)
    ensures byPath == ByPath(owners)
  {
    gaps := [];
    var seen: set<string> := {};
    byPath := map[];
    for i := 0 to |owners|
      invariant forall g :: g in gaps <==> ListGap(owners, i, g)
      invariant byPath == ByPath(owners[..i]) && seen == byPath.Keys
    {
      var owner := owners[i];
      ghost var before := gaps;
      assert owners[..i + 1][..i] == owners[..i];
      ByPathIsFirst(owners[..i], owner.path);
      assert First(owners, i) <==> owner.path !in seen;
      var found: seq<Gap>;
      if owner.path in seen {
        found := [Duplicate(owner.path)];
      } else {
        seen := seen + {owner.path};
        byPath := byPath[owner.path := owner];
        found := CheckOwner(owner);
      }
      gaps := gaps + found;
      forall g ensures g in gaps <==> ListGap(owners, i + 1, g) {
        ListGapStep(owners, i, g);
        assert g in gaps <==> g in before || g in found;
      }
    }
    assert owners[..|owners|] == owners;
  }

  // What acceptance means.

  predicate GoodOwner(o: Owner) {
    && o.owner in ALLOWED
    && !HasPrefix(o.path, "/")
    && o.reviewRequired in {"true", "false"}
    && (o.reviewRequired == "true" ==> o.reviewRule != "")
    && o.rationale != ""
  }

  predicate Owns(os: seq<Owner>, required: (string, string)) {
    exists k :: 0 <= k < |os| && os[k].path == required.0 && os[k].owner == required.1 && os[k].reviewRequired == "true"
  }

  predicate Distinct(os: seq<Owner>) {
    forall i, j :: 0 <= i < j < |os| ==> os[i].path != os[j].path
  }

  /** At least one record, no path twice, every record good, and the three required paths owned as they must. */
  predicate GoodList(os: seq<Owner>) {
    && os != []
    && Distinct(os)
    && (forall i :: 0 <= i < |os| ==> GoodOwner(os[i]))
    && Owns(os, (".agent/", "governance")) && Owns(os, ("cmd/goalcli/", "gate-runtime"))
    && Owns(os, ("contracts/", "standard"))
  }

  predicate Accepts(content: string) {
    HasKey(content, "schema_version") && HasKey(content, "owners") && GoodList(Owners(content))
  }

  /** A record that is not good has a gap, and this is one. */
  lemma BadOwnerGap(o: Owner) returns (g: Gap)
    requires !GoodOwner(o)
    ensures OwnerGap(o, g)
  {
    g := if o.owner == "" then MissingOwner(o.path)
         else if o.owner !in ALLOWED then UnknownOwner(o.path, o.owner)
         else if HasPrefix(o.path, "/") then NotRelative(o.path)
         else if o.reviewRequired == "" then MissingReviewRequired(o.path)
         else if o.reviewRequired !in {"true", "false"} then BadReviewRequired(o.path)
         else if o.rationale == "" then MissingRationale(o.path)
         else MissingReviewRule(o.path);
  }

  lemma GoodOwnerHasNoGap(o: Owner, g: Gap)
    requires GoodOwner(o)
    ensures !OwnerGap(o, g)
  {
  }

  lemma NotOwnedGap(os: seq<Owner>, required: (string, string)) returns (g: Gap)
    requires Distinct(os) && !Owns(os, required)
    ensures RequiredGap(os, required, g)
  {
    if k :| 0 <= k < |os| && os[k].path == required.0 {
      assert First(os, k);
      g := if os[k].owner != required.1 then OwnerMustBe(required.0, required.1) else ReviewMustBe(required.0, "true");
      assert WrongOwner(os[k], required, g);
    } else {
      g := MustInclude(required.0);
    }
  }

  lemma OwnedHasNoGap(os: seq<Owner>, required: (string, string), g: Gap)
    requires Distinct(os) && Owns(os, required)
    ensures !RequiredGap(os, required, g)
  {
  }

  lemma AcceptedHasNoGap(content: string, g: Gap)
    requires Accepts(content)
    ensures !IsGap(content, g)
  {
    var os := Owners(content);
    if IsBlankFile(content) {
      BlankHasNoKey(content, "owners");
      assert false;
    }
    forall k | First(os, k) ensures !OwnerGap(os[k], g) {
      GoodOwnerHasNoGap(os[k], g);
    }
    assert !ListGap(os, |os|, g);
    OwnedHasNoGap(os, REQUIRED[0], g);
    OwnedHasNoGap(os, REQUIRED[1], g);
    OwnedHasNoGap(os, REQUIRED[2], g);
  }

  lemma RejectedHasGap(content: string) returns (g: Gap)
    requires !Accepts(content)
    ensures IsGap(content, g)
  {
    var os := Owners(content);
    if IsBlankFile(content) {
      g := Empty;
    } else if !HasKey(content, "schema_version") {
      g := MissingKey("schema_version");
    } else if !HasKey(content, "owners") {
      g := MissingKey("owners");
    } else if os == [] {
      g := NoOwners;
    } else if !Distinct(os) {
      var i, j :| 0 <= i < j < |os| && os[i].path == os[j].path;
      g := Duplicate(os[i].path);
      assert Repeated(os, |os|, g.path);
    } else if k :| 0 <= k < |os| && !GoodOwner(os[k]) {
      g := BadOwnerGap(os[k]);
      assert First(os, k);
      assert RecordGap(os, |os|, g);
    } else {
      var r := if !Owns(os, REQUIRED[0]) then REQUIRED[0]
               else if !Owns(os, REQUIRED[1]) then REQUIRED[1]
               else REQUIRED[2];
      g := NotOwnedGap(os, r);
    }
  }

  lemma AcceptsMeansNoGaps(content: string)
    ensures Accepts(content) <==> forall g :: !IsGap(content, g)
  {
    if Accepts(content) {
      forall g ensures !IsGap(content, g) {
        AcceptedHasNoGap(content, g);
      }
    } else {
      var g := RejectedHasGap(content);
    }
  }

  /** Sound and complete: a gap is reported if and only if the text or its records have it. */
  method ValidateRuntimeFileOwnership(content: string) returns (gaps: seq<Gap>)
    ensures forall g :: g in gaps <==> IsGap(content, g)
    ensures gaps == [] <==> Accepts(content)
  {
    AcceptsMeansNoGaps(content);
    if TrimSpace(content) == "" {
      gaps := [Empty];
      assert IsGap(content, Empty);
      return;
    }
    gaps := [];
    var hasSchema := ContainsKey(content, "schema_version");
    if !hasSchema {
      gaps := gaps + [MissingKey("schema_version")];
    }
    var hasOwners := ContainsKey(content, "owners");
    if !hasOwners {
      gaps := gaps + [MissingKey("owners")];
    }
    var owners := ParseRuntimeFileOwners(content);
    if |owners| == 0 {
      gaps := gaps + [NoOwners];
    }
    var inList, byPath := CheckOwners(owners);
    var required := RequireRuntimeOwners(byPath, owners);
    gaps := gaps + inList + required;
    assert gaps == [] || gaps[0] in gaps;
  }

  /** End to end: a list of clean records, rendered in the canonical layout under any schema version, is accepted
      if and only if the list is good. */
  lemma RenderedAcceptedIff(version: string, owners: seq<Owner>)
    requires '\n' !in version && forall i :: 0 <= i < |owners| ==> CleanOwner(owners[i])
    ensures Accepts(RenderedOwners([VersionLine(version)], owners)) <==> GoodList(owners)
  {
    OwnersHeader();
    StyledOwners(owners);
    RenderedHasKeys(OWNERS, "owners", version, Styled(owners));
    OwnersRoundTrip([VersionLine(version)], owners);
  }

  // One fault, one gap.

  /** In a good record another owner is no fault if it is one of eight names; otherwise it is the only gap. */
  lemma OwnerFault(o: Owner, name: string, g: Gap)
    requires GoodOwner(o)
    ensures OwnerGap(o.(owner := name), g) <==>
            if name == "" then g == MissingOwner(o.path)
            else
              && name !in {"ci", "gate-runtime", "governance", "leader", "release", "security", "standard", "testing"}
              && g == UnknownOwner(o.path, name)
  {
  }

  lemma PathFault(o: Owner, path: string, g: Gap)
    requires GoodOwner(o)
    ensures OwnerGap(o.(path := path), g) <==> path != "" && path[0] == '/' && g == NotRelative(path)
  {
  }

  lemma ReviewFault(o: Owner, review: string, rule: string, g: Gap)
    requires GoodOwner(o)
    ensures OwnerGap(o.(reviewRequired := review, reviewRule := rule), g) <==>
            if review == "" then g == MissingReviewRequired(o.path)
            else if review != "true" && review != "false" then g == BadReviewRequired(o.path)
            else review == "true" && rule == "" && g == MissingReviewRule(o.path)
  {
  }

  lemma RationaleFault(o: Owner, rationale: string, g: Gap)
    requires GoodOwner(o)
    ensures OwnerGap(o.(rationale := rationale), g) <==> rationale == "" && g == MissingRationale(o.path)
  {
  }

  /** A required path that nobody owns is that one gap; owned, its owner and its review are each a gap if wrong. */
  lemma RequiredFault(os: seq<Owner>, path: string, owner: string, g: Gap)
    ensures (forall k :: 0 <= k < |os| ==> os[k].path != path) ==>
              (RequiredGap(os, (path, owner), g) <==> g == MustInclude(path))
    ensures forall k :: First(os, k) && os[k].path == path ==>
                          (RequiredGap(os, (path, owner), g) <==>
                             || (os[k].owner != owner && g == OwnerMustBe(path, owner))
                             || (os[k].reviewRequired != "true" && g == ReviewMustBe(path, "true")))
  {
    forall j, k | First(os, j) && First(os, k) && os[j].path == path && os[k].path == path ensures j == k {
    }
  }

  // Comments and blank lines.

  /** The verdict depends only on the lines left after comments and blank lines are removed. */
  lemma VerdictIgnoresComments(a: string, b: string)
    requires SameText(a, b)
    ensures Accepts(a) == Accepts(b)
  {
    SameTextReadsSame(a, b, OWNERS, "schema_version");
    SameTextReadsSame(a, b, OWNERS, "owners");
  }

  lemma GapIgnoresComments(a: string, b: string, g: Gap)
    requires SameText(a, b) && (IsBlankFile(a) <==> IsBlankFile(b))
    ensures IsGap(a, g) <==> IsGap(b, g)
  {
    SameTextReadsSame(a, b, OWNERS, "schema_version");
    SameTextReadsSame(a, b, OWNERS, "owners");
  }

  lemma EmptyIffBlank(content: string)
    ensures IsGap(content, Empty) <==> IsBlankFile(content)
  {
  }

  /** So does the whole answer, but for one thing: a file of nothing but white space is only reported as
      empty. */
  lemma GapsIgnoreCommentsIff(a: string, b: string)
    requires SameText(a, b)
    ensures (forall g :: IsGap(a, g) <==> IsGap(b, g)) <==> (IsBlankFile(a) <==> IsBlankFile(b))
  {
    EmptyIffBlank(a);
    EmptyIffBlank(b);
    if IsBlankFile(a) <==> IsBlankFile(b) {
      forall g ensures IsGap(a, g) <==> IsGap(b, g) {
        GapIgnoresComments(a, b, g);
      }
    }
  }

  /** Inserting a blank or comment-only line anywhere leaves the verdict as it was and, unless the file was
      blank, every gap. */
  lemma BlankLineChangesNothing(content: string, i: nat, blank: string)
    requires i <= |Split(content, '\n')| && '\n' !in blank && TrimSpace(StripComment(blank)) == ""
    ensures Accepts(WithLine(content, i, blank)) == Accepts(content)
    ensures !IsBlankFile(content) ==> forall g :: IsGap(WithLine(content, i, blank), g) <==> IsGap(content, g)
  {
    InsertBlankLine(content, i, blank);
    VerdictIgnoresComments(content, WithLine(content, i, blank));
    GapsIgnoreCommentsIff(content, WithLine(content, i, blank));
    if IsBlankFile(WithLine(content, i, blank)) {
      BlankWithoutLine(content, i, blank);
    }
  }

  /** The exception: a blank file and a comment in it have different answers. */
  lemma BlankFileIsException(content: string, comment: string)
    requires IsBlankFile(content) && '\n' !in comment
    ensures !forall g :: IsGap(WithComment(content, 0, comment), g) <==> IsGap(content, g)
  {
    AppendComment(content, 0, comment);
    NotBlankWithComment(content, 0, comment);
    GapsIgnoreCommentsIff(WithComment(content, 0, comment), content);
  }

  /** Likewise for appending a comment to any line. */
  lemma TrailingCommentChangesNothing(content: string, i: nat, comment: string)
    requires i < |Split(content, '\n')| && '\n' !in comment
    ensures Accepts(WithComment(content, i, comment)) == Accepts(content)
    ensures !IsBlankFile(content) ==> forall g :: IsGap(WithComment(content, i, comment), g) <==> IsGap(content, g)
  {
    AppendComment(content, i, comment);
    NotBlankWithComment(content, i, comment);
    VerdictIgnoresComments(content, WithComment(content, i, comment));
    GapsIgnoreCommentsIff(content, WithComment(content, i, comment));
  }
}
