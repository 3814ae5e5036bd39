/** The goal evidence ledger: an append-or-replace log of JSON lines with a prerequisite gate. A line is
    blank, fails to decode, or decodes to an entry. Ledgers and generated evidence packs are files in one
    store, so a pack can be written where a ledger was. */
module Ledger {
  import opened Wrappers
  import GoStrings

  const DEFAULT_GOAL_ID := "GOAL-20260603-XLIB-GOALCLI-001"
  const EVIDENCE_DIR := "release/evidence/goalcli/"
  const SOURCE_LEDGER := ".agent/evidence/ledger.jsonl"
  const FINAL_COMMAND := "goal-runtime-final"
  const PREREQUISITES :=
    ["goal-acceptance", "goal-delivery", "goal-handover", "goal-downstream-adoption", "goal-certify"]

  predicate Supported(command: string) {
    command in PREREQUISITES || command == FINAL_COMMAND
  }

  datatype LedgerEntry = LedgerEntry(
    schemaVersion: string,
    goalID: string,
    command: string,
    status: string,
    mvaStatus: string,
    blocking: bool,
    packPath: string)

  datatype Line = Blank | Malformed(text: string) | Entry(entry: LedgerEntry)

  /** The part of a report that evidence writing depends on. */
  datatype Report = Report(
    schemaVersion: string,
    command: string,
    status: string,
    goalID: string,
    mode: string,
    blocking: bool,
    mvaStatus: string,
    ledgerPath: string,
    packPath: string,
    gaps: seq<Gap>)

  datatype Gap =
    | MissingAuthority(path: string)
    | UnreadableLedger
    | MissingEvidence(command: string)
    | IncompleteEvidence(command: string)

  datatype ReadError = NoFile | InvalidLine(number: nat)

  datatype WriteError = Unsupported | Incomplete | Prerequisites(gaps: seq<Gap>)

  // Files.

  /** Where a file is: the names on the way to it from the top of the file system. */
  type Path = seq<string>

  datatype File = Lines(lines: seq<Line>) | Pack(report: Report)

  /** The files written so far, and the directory that the paths of reports are relative to. A path that is
      absent is a file that does not exist. */
  datatype Store = Store(root: Path, files: map<Path, File>)

  function Empty(root: Path): Store {
    Store(root, map[])
  }

  /** Following names: empty ones and "." stay, ".." goes up, and stays at the top. */
  function Walk(from: Path, names: seq<string>): Path {
    if names == [] then from
    else
      var before, name := Walk(from, names[..|names| - 1]), names[|names| - 1];
      if name == "" || name == "." then before
      else if name == ".." then (if before == [] then [] else before[..|before| - 1])
      else before + [name]
  }

  function Resolve(root: Path, path: string): Path {
    Walk(root, GoStrings.Split(path, '/'))
  }

  /** Where SOURCE_LEDGER leads: see SourceLedgerResolved. */
  function SourceLedger(root: Path): Path {
    root + [".agent", "evidence", "ledger.jsonl"]
  }

  function Member(key: string, value: string): Line {
    Malformed("\"" + key + "\": \"" + value + "\",")
  }

  /** A pack is one JSON object over many lines, and no line of it is an object by itself. The lines are
      those of the members modelled. */
  function PackLines(r: Report): seq<Line> {
    [Malformed("{"),
     Member("schema_version", r.schemaVersion), Member("command", r.command), Member("status", r.status),
     Member("goal_id", r.goalID), Member("mode", r.mode),
     Malformed(if r.blocking then "\"blocking\": true," else "\"blocking\": false,"), Member("mva_status", r.mvaStatus),
     Member("ledger_path", r.ledgerPath), Member("evidence_pack_path", r.packPath),
     Malformed("}"), Blank]
  }

  function LinesOf(f: File): seq<Line> {
    match f
    case Lines(lines) => lines
    case Pack(r) => PackLines(r)
  }

  /** The lines of the file at a place; none if it does not exist. */
  function LinesAt(s: Store, at: Path): seq<Line> {
    if at in s.files then LinesOf(s.files[at]) else []
  }

  function LedgerLines(s: Store): seq<Line> {
    LinesAt(s, SourceLedger(s.root))
  }

  // Reading.

  predicate Decodable(lines: seq<Line>) {
    forall i :: 0 <= i < |lines| ==> !lines[i].Malformed?
  }

  function Entries(lines: seq<Line>): seq<LedgerEntry> {
    if lines == [] then []
    else Entries(lines[..|lines| - 1]) + if lines[|lines| - 1].Entry? then [lines[|lines| - 1].entry] else []
  }

  /** The entries of one goal by command; a later entry replaces an earlier one. */
  function ByCommand(entries: seq<LedgerEntry>, goalID: string): map<string, LedgerEntry> {
    if entries == [] then map[]
    else
      var m := ByCommand(entries[..|entries| - 1], goalID);
      var last := entries[|entries| - 1];
      if last.goalID == goalID then m[last.command := last] else m
  }

  predicate Passed(e: LedgerEntry) {
    e.status == "passed" && e.mvaStatus == "complete" && e.blocking
  }

  function GapsFor(byCommand: map<string, LedgerEntry>, commands: seq<string>): seq<Gap> {
    if commands == [] then []
    else
      var c := commands[|commands| - 1];
      GapsFor(byCommand, commands[..|commands| - 1])
      + if c !in byCommand then [MissingEvidence(c)]
        else if !Passed(byCommand[c]) then [IncompleteEvidence(c)]
        else []
  }

  function FinalGaps(s: Store, goalID: string): seq<Gap> {
    if SourceLedger(s.root) !in s.files || !Decodable(LedgerLines(s)) then [UnreadableLedger]
    else GapsFor(ByCommand(Entries(LedgerLines(s)), goalID), PREREQUISITES)
  }

  // Writing.

  predicate SameKey(a: LedgerEntry, b: LedgerEntry) {
    a.goalID == b.goalID && a.command == b.command && a.packPath == b.packPath
  }

  predicate Survives(line: Line, e: LedgerEntry) {
    !line.Blank? && (line.Entry? ==> !SameKey(line.entry, e))
  }

  function Survivors(lines: seq<Line>, e: LedgerEntry): seq<Line> {
    if lines == [] then []
    else Survivors(lines[..|lines| - 1], e) + if Survives(lines[|lines| - 1], e) then [lines[|lines| - 1]] else []
  }

  /** The rewritten file ends with a newline, so it splits into the lines written and a blank one. */
  function Upserted(lines: seq<Line>, e: LedgerEntry): seq<Line> {
    Survivors(lines, e) + [Entry(e), Blank]
  }

  function EntryFor(r: Report): LedgerEntry {
    LedgerEntry(r.schemaVersion, r.goalID, r.command, r.status, r.mvaStatus, r.blocking, r.packPath)
  }

  function Saved(s: Store, at: Path, f: File): Store {
    s.(files := s.files[at := f])
  }

  function Recorded(s: Store, r: Report): Store {
    var at := Resolve(s.root, r.ledgerPath);
    Saved(s, at, Lines(Upserted(LinesAt(s, at), EntryFor(r))))
  }

  function Written(s: Store, r: Report): (Store, Option<WriteError>) {
    if !Supported(r.command) then (s, Some(Unsupported))
    else if r.status != "passed" || r.mvaStatus != "complete" || !r.blocking then (s, Some(Incomplete))
    else if r.command != FINAL_COMMAND then (Recorded(s, r), None)
    else
      var gaps := FinalGaps(s, r.goalID);
      if gaps != [] then (s, Some(Prerequisites(gaps)))
      else (Recorded(Saved(s, Resolve(s.root, r.packPath), Pack(r)), r), None)
  }

  // Evaluating.

  /** `missing` lists the required authority paths that do not exist. */
  datatype Options = Options(goalID: string, mode: string, missing: seq<string>)

  function AuthorityGaps(missing: seq<string>): seq<Gap> {
    seq(|missing|, i requires 0 <= i < |missing| => MissingAuthority(missing[i]))
  }

  function Defaulted(value: string, default: string): string {
    var trimmed := GoStrings.TrimSpace(value);
    if trimmed == "" then default else trimmed
  }

  /** None for a command that is not supported. */
  function Evaluated(s: Store, command: string, options: Options): Option<Report> {
    if !Supported(command) then None
    else
      var goalID := Defaulted(options.goalID, DEFAULT_GOAL_ID);
      var authority := AuthorityGaps(options.missing);
      var gaps := if command == FINAL_COMMAND && authority == [] then FinalGaps(s, goalID) else authority;
      Some(Report(
        "goalcli-mva/v1",
        command,
        if gaps == [] then "passed" else "failed",
        goalID,
        Defaulted(options.mode, "FULL"),
        true,
        if gaps == [] then "complete" else "not-complete",
        SOURCE_LEDGER,
        EVIDENCE_DIR + goalID + ".json",
        gaps))
  }

  class EvidenceStore {
    const root: Path
    var files: map<Path, File>

    ghost function View(): Store
      reads this
    {
      Store(root, files)
    }

    constructor (root: Path)
      ensures View() == Empty(root)
    {
      this.root, files := root, map[];
    }

    method ReadEntries(at: Path) returns (r: Result<seq<LedgerEntry>, ReadError>)
      ensures
        var lines := LinesAt(View(), at);
        && (r == Err(NoFile) <==> at !in files)
        && (at in files && Decodable(lines) ==> r == Ok(Entries(lines)))
        && (at in files && !Decodable(lines) ==>
              && r.Err? && r.error.InvalidLine? && 1 <= r.error.number <= |lines|
              && lines[r.error.number - 1].Malformed?
              && Decodable(lines[..r.error.number - 1]))
    {
      if at !in files {
        return Err(NoFile);
      }
      var lines := LinesOf(files[at]);
      var entries: seq<LedgerEntry> := [];
      for i := 0 to |lines|
        invariant Decodable(lines[..i])
        invariant entries == Entries(lines[..i])
      {
        assert lines[..i + 1][..i] == lines[..i];
        match lines[i] {
          case Blank =>
          case Malformed(_) =>
            return Err(InvalidLine(i + 1));
          case Entry(e) =>
            entries := entries + [e];
        }
      }
      assert lines[..|lines|] == lines;
      return Ok(entries);
    }

    method ValidateFinalPrerequisites(goalID: string) returns (gaps: seq<Gap>)
      ensures gaps == FinalGaps(View(), goalID)
    {
      var read := ReadEntries(SourceLedger(root));
      if read.Err? {
        return [UnreadableLedger];
      }
      var entries := read.value;
      var byCommand: map<string, LedgerEntry> := map[];
      for i := 0 to |entries|
        invariant byCommand == ByCommand(entries[..i], goalID)
      {
        assert entries[..i + 1][..i] == entries[..i];
        if entries[i].goalID == goalID {
          byCommand := byCommand[entries[i].command := entries[i]];
        }
      }
      assert entries[..|entries|] == entries;
      gaps := [];
      for i := 0 to |PREREQUISITES|
        invariant gaps == GapsFor(byCommand, PREREQUISITES[..i])
      {
        assert PREREQUISITES[..i + 1][..i] == PREREQUISITES[..i];
        var command := PREREQUISITES[i];
        if command !in byCommand {
          gaps := gaps + [MissingEvidence(command)];
          continue;
        }
        var entry := byCommand[command];
        if entry.status != "passed" || entry.mvaStatus != "complete" || !entry.blocking {
          gaps := gaps + [IncompleteEvidence(command)];
        }
      }
      assert PREREQUISITES[..|PREREQUISITES|] == PREREQUISITES;
    }

    method Upsert(at: Path, e: LedgerEntry)
      modifies this
      ensures View() == Saved(old(View()), at, Lines(Upserted(LinesAt(old(View()), at), e)))
    {
      var lines: seq<Line> := if at in files then LinesOf(files[at]) else [];
      var next: seq<Line> := [];
      for i := 0 to |lines|
        invariant next == Survivors(lines[..i], e)
      {
        assert lines[..i + 1][..i] == lines[..i];
        var line := lines[i];
        if line.Blank? {
          continue;
        }
        if line.Entry? && SameKey(line.entry, e) {
          continue;
        }
        next := next + [line];
      }
      assert lines[..|lines|] == lines;
      files := files[at := Lines(next + [Entry(e), Blank])];
    }

    method WriteEvidence(r: Report) returns (err: Option<WriteError>)
      modifies this
      ensures (View(), err) == Written(old(View()), r)
    {
      if !Supported(r.command) {
        return Some(Unsupported);
      }
      if r.status != "passed" || r.mvaStatus != "complete" || !r.blocking {
        return Some(Incomplete);
      }
      if r.command != FINAL_COMMAND {
        Upsert(Resolve(root, r.ledgerPath), EntryFor(r));
        return None;
      }
      var gaps := ValidateFinalPrerequisites(r.goalID);
      if |gaps| > 0 {
        return Some(Prerequisites(gaps));
      }
      files := files[Resolve(root, r.packPath) := Pack(r)];
      Upsert(Resolve(root, r.ledgerPath), EntryFor(r));
      return None;
    }

    method Evaluate(command: string, options: Options) returns (r: Option<Report>)
      ensures r == Evaluated(View(), command, options)
    {
      if !Supported(command) {
        return None;
      }
      var goalID := Defaulted(options.goalID, DEFAULT_GOAL_ID);
      var mode := Defaulted(options.mode, "FULL");
      var gaps := AuthorityGaps(options.missing);
      if command == FINAL_COMMAND {
        if |gaps| == 0 {
          gaps := ValidateFinalPrerequisites(goalID);
        }
      }
      var status, mvaStatus := "passed", "complete";
      if |gaps| > 0 {
        status, mvaStatus := "failed", "not-complete";
      }
      return Some(Report("goalcli-mva/v1", command, status, goalID, mode, true, mvaStatus,
                         SOURCE_LEDGER, EVIDENCE_DIR + goalID + ".json", gaps));
    }
  }

  // The gate, stated on the lines of the file.

  /** Position `i` holds the last entry of this goal and command. */
  ghost predicate LastFor(entries: seq<LedgerEntry>, goalID: string, command: string, i: int) {
    && 0 <= i < |entries| && entries[i].goalID == goalID && entries[i].command == command
    && forall j :: i < j < |entries| ==> entries[j].goalID != goalID || entries[j].command != command
  }

  lemma {:induction false} ByCommandIsLast(entries: seq<LedgerEntry>, goalID: string, command: string)
    ensures command in ByCommand(entries, goalID) ==>
              exists i :: LastFor(entries, goalID, command, i) && entries[i] == ByCommand(entries, goalID)[command]
    ensures command !in ByCommand(entries, goalID) ==> forall i :: !LastFor(entries, goalID, command, i)
    ensures command !in ByCommand(entries, goalID) ==>
              forall i :: 0 <= i < |entries| ==> entries[i].goalID != goalID || entries[i].command != command
  {
    if entries != [] {
      var k := |entries| - 1;
      ByCommandIsLast(entries[..k], goalID, command);
      if entries[k].goalID == goalID && entries[k].command == command {
        assert LastFor(entries, goalID, command, k);
      } else if command in ByCommand(entries[..k], goalID) {
        var i :| && LastFor(entries[..k], goalID, command, i)
                 && entries[..k][i] == ByCommand(entries[..k], goalID)[command];
        assert LastFor(entries, goalID, command, i);
      }
    }
  }

  lemma {:induction false} NoGapsFor(byCommand: map<string, LedgerEntry>, commands: seq<string>)
    ensures GapsFor(byCommand, commands) == [] <==> forall c :: c in commands ==> c in byCommand && Passed(byCommand[c])
  {
    if commands != [] {
      var k := |commands| - 1;
      NoGapsFor(byCommand, commands[..k]);
      assert commands == commands[..k] + [commands[k]];
    }
  }

  ghost predicate LastPassed(entries: seq<LedgerEntry>, goalID: string, command: string) {
    exists i :: && LastFor(entries, goalID, command, i)
                && entries[i].status == "passed" && entries[i].mvaStatus == "complete" && entries[i].blocking
  }

  /** The final gate opens if and only if the ledger exists, every line of it decodes, and for each of the
      five prerequisites the goal's last entry is passed, complete and blocking. */
  lemma GateOpensIff(s: Store, goalID: string)
    ensures FinalGaps(s, goalID) == [] <==>
            && SourceLedger(s.root) in s.files && Decodable(LedgerLines(s))
            && forall c :: c in PREREQUISITES ==> LastPassed(Entries(LedgerLines(s)), goalID, c)
  {
    if SourceLedger(s.root) in s.files && Decodable(LedgerLines(s)) {
      var entries := Entries(LedgerLines(s));
      var byCommand := ByCommand(entries, goalID);
      NoGapsFor(byCommand, PREREQUISITES);
      forall c | c in PREREQUISITES
        ensures c in byCommand && Passed(byCommand[c]) <==> LastPassed(entries, goalID, c)
      {
        ByCommandIsLast(entries, goalID, c);
      }
    }
  }

  lemma {:induction false} GapsForAppend(m: map<string, LedgerEntry>, a: seq<string>, b: seq<string>)
    ensures GapsFor(m, a + b) == GapsFor(m, a) + GapsFor(m, b)
  {
    if b == [] {
      assert a + b == a;
    } else {
      assert (a + b)[..|a + b| - 1] == a + b[..|b| - 1];
      GapsForAppend(m, a, b[..|b| - 1]);
    }
  }

  /** The gap of one command, on the entries of the ledger. */
  ghost predicate CommandGap(entries: seq<LedgerEntry>, goalID: string, command: string, g: Gap) {
    match g
    case MissingEvidence(c) => c == command && forall i :: !LastFor(entries, goalID, command, i)
    case IncompleteEvidence(c) =>
      && c == command && (exists i :: LastFor(entries, goalID, command, i))
      && !LastPassed(entries, goalID, command)
    case _ => false
  }

  /** One command's share of the answer: that it is missing, that its last entry is incomplete, or nothing. */
  lemma CommandGaps(entries: seq<LedgerEntry>, goalID: string, command: string, g: Gap)
    ensures g in GapsFor(ByCommand(entries, goalID), [command]) <==> CommandGap(entries, goalID, command, g)
    ensures |GapsFor(ByCommand(entries, goalID), [command])| <= 1
  {
    var m := ByCommand(entries, goalID);
    ByCommandIsLast(entries, goalID, command);
    assert [command][..0] == [];
    assert GapsFor(m, [command]) == GapsFor(m, []) + GapsFor(m, [command]);
    forall i, j | LastFor(entries, goalID, command, i) && LastFor(entries, goalID, command, j) ensures i == j {
    }
  }

  /** What the gate answers: that the ledger is missing or undecodable, or the share of each of the five commands,
      in their order. */
  lemma FinalGapsMean(s: Store, goalID: string)
    ensures SourceLedger(s.root) !in s.files || !Decodable(LedgerLines(s)) ==>
              FinalGaps(s, goalID) == [UnreadableLedger]
    ensures SourceLedger(s.root) in s.files && Decodable(LedgerLines(s)) ==>
              var m := ByCommand(Entries(LedgerLines(s)), goalID);
              FinalGaps(s, goalID)
              == GapsFor(m, ["goal-acceptance"]) + GapsFor(m, ["goal-delivery"]) + GapsFor(m, ["goal-handover"])
                 + GapsFor(m, ["goal-downstream-adoption"]) + GapsFor(m, ["goal-certify"])
  {
    var m := ByCommand(Entries(LedgerLines(s)), goalID);
    var p := PREREQUISITES;
    GapsForAppend(m, p[..4], p[4..]);
    GapsForAppend(m, p[..3], p[3..4]);
    GapsForAppend(m, p[..2], p[2..3]);
    GapsForAppend(m, p[..1], p[1..2]);
    assert p == p[..4] + p[4..] && p[..4] == p[..3] + p[3..4];
    assert p[..3] == p[..2] + p[2..3] && p[..2] == p[..1] + p[1..2];
    assert p[..1] == [p[0]] && p[1..2] == [p[1]] && p[2..3] == [p[2]] && p[3..4] == [p[3]] && p[4..] == [p[4]];
  }

  // Upsert as a map update.

  lemma {:induction false} EntriesAppend(a: seq<Line>, b: seq<Line>)
    ensures Entries(a + b) == Entries(a) + Entries(b)
  {
    if b == [] {
      assert a + b == a;
    } else {
      var k := |b| - 1;
      assert (a + b)[..|a + b| - 1] == a + b[..k];
      EntriesAppend(a, b[..k]);
    }
  }

  /** The entries an upsert leaves: the old ones with other keys, in order, then the new one. */
  function OtherKeys(entries: seq<LedgerEntry>, e: LedgerEntry): seq<LedgerEntry> {
    if entries == [] then []
    else
      OtherKeys(entries[..|entries| - 1], e)
      + if SameKey(entries[|entries| - 1], e) then [] else [entries[|entries| - 1]]
  }

  lemma {:induction false} SurvivingEntries(lines: seq<Line>, e: LedgerEntry)
    ensures Entries(Survivors(lines, e)) == OtherKeys(Entries(lines), e)
  {
    if lines != [] {
      var k := |lines| - 1;
      var before, read := Survivors(lines[..k], e), Entries(lines[..k]);
      SurvivingEntries(lines[..k], e);
      if lines[k].Entry? {
        assert (read + [lines[k].entry])[..|read|] == read;
      } else {
        assert Entries(lines) == read;
      }
      if Survives(lines[k], e) {
        assert (before + [lines[k]])[..|before|] == before;
      } else {
        assert Survivors(lines, e) == before;
      }
    }
  }

  lemma {:induction false} SurvivingLines(lines: seq<Line>, e: LedgerEntry)
    ensures forall line :: line in Survivors(lines, e) <==> line in lines && Survives(line, e)
  {
    if lines != [] {
      var k := |lines| - 1;
      SurvivingLines(lines[..k], e);
      assert lines == lines[..k] + [lines[k]];
    }
  }

  predicate Clean(lines: seq<Line>) {
    forall line :: line in lines ==> !line.Malformed?
  }

  lemma UpsertedEntries(lines: seq<Line>, e: LedgerEntry)
    ensures Entries(Upserted(lines, e)) == OtherKeys(Entries(lines), e) + [e]
  {
    SurvivingEntries(lines, e);
    EntriesAppend(Survivors(lines, e), [Entry(e), Blank]);
    assert [Entry(e), Blank][..1] == [Entry(e)] && [Entry(e)][..0] == [];
    assert Entries([Entry(e)]) == Entries([]) + [e] == [e];
    assert Entries([Entry(e), Blank]) == [e] + [];
  }

  lemma UpsertedLines(lines: seq<Line>, e: LedgerEntry)
    ensures forall line :: line in Upserted(lines, e) <==>
                           (line in lines && Survives(line, e)) || line == Entry(e) || line == Blank
    ensures Decodable(Upserted(lines, e)) <==> Decodable(lines)
  {
    SurvivingLines(lines, e);
    assert Clean(Upserted(lines, e)) <==> Clean(lines);
  }

  lemma ByCommandAppend(entries: seq<LedgerEntry>, last: LedgerEntry, goalID: string)
    ensures ByCommand(entries + [last], goalID)
            == if last.goalID == goalID then ByCommand(entries, goalID)[last.command := last]
               else ByCommand(entries, goalID)
  {
  }

  /** Two maps have the same value, or none, at a key. */
  predicate SameAt(a: map<string, LedgerEntry>, b: map<string, LedgerEntry>, command: string) {
    (command in a <==> command in b) && (command in a ==> a[command] == b[command])
  }

  lemma {:induction false} ByCommandWithout(entries: seq<LedgerEntry>, e: LedgerEntry, goalID: string, command: string)
    requires goalID != e.goalID || command != e.command
    ensures SameAt(ByCommand(OtherKeys(entries, e), goalID), ByCommand(entries, goalID), command)
  {
    if entries != [] {
      var init, last := entries[..|entries| - 1], entries[|entries| - 1];
      var kept := OtherKeys(init, e);
      ByCommandWithout(init, e, goalID, command);
      assert entries == init + [last];
      ByCommandAppend(init, last, goalID);
      if SameKey(last, e) {
        assert OtherKeys(entries, e) == kept;
      } else {
        assert OtherKeys(entries, e) == kept + [last];
        ByCommandAppend(kept, last, goalID);
      }
    }
  }

  lemma SameMaps(a: map<string, LedgerEntry>, b: map<string, LedgerEntry>)
    requires forall c :: SameAt(a, b, c)
    ensures a == b
  {
    assert forall c :: c in a ==> SameAt(a, b, c);
    assert forall c :: c in b ==> SameAt(a, b, c);
  }

  /** Reading back after an upsert: the goal's command map updated at the command, every other goal's
      map as it was. */
  lemma UpsertUpdatesMap(lines: seq<Line>, e: LedgerEntry, goalID: string)
    ensures
      var before, after := ByCommand(Entries(lines), goalID), ByCommand(Entries(Upserted(lines, e)), goalID);
      after == if goalID == e.goalID then before[e.command := e] else before
  {
    UpsertedEntries(lines, e);
    var kept := OtherKeys(Entries(lines), e);
    ByCommandAppend(kept, e, goalID);
    var before, rest := ByCommand(Entries(lines), goalID), ByCommand(kept, goalID);
    forall c | goalID != e.goalID || c != e.command ensures SameAt(rest, before, c) {
      ByCommandWithout(Entries(lines), e, goalID, c);
    }
    if goalID == e.goalID {
      var a, b := rest[e.command := e], before[e.command := e];
      forall c ensures SameAt(a, b, c) {
        assert c != e.command ==> SameAt(rest, before, c);
      }
      SameMaps(a, b);
    } else {
      SameMaps(rest, before);
    }
  }

  lemma {:induction false} SurvivorsAgain(lines: seq<Line>, e: LedgerEntry)
    ensures Survivors(Survivors(lines, e), e) == Survivors(lines, e)
  {
    if lines != [] {
      var k := |lines| - 1;
      var before := Survivors(lines[..k], e);
      SurvivorsAgain(lines[..k], e);
      if Survives(lines[k], e) {
        assert (before + [lines[k]])[..|before|] == before;
      } else {
        assert before + [] == before;
      }
    }
  }

  /** Upserting the same entry again leaves the file as it is, line for line. */
  lemma UpsertIdempotent(lines: seq<Line>, e: LedgerEntry)
    ensures Upserted(Upserted(lines, e), e) == Upserted(lines, e)
  {
    var s := Survivors(lines, e);
    var u := s + [Entry(e), Blank];
    SurvivorsAgain(lines, e);
    assert u[..|u| - 1] == s + [Entry(e)];
    assert (s + [Entry(e)])[..|s|] == s;
    assert Survivors(u, e) == s;
  }

  lemma {:induction false} SurvivorsAppend(a: seq<Line>, b: seq<Line>, e: LedgerEntry)
    ensures Survivors(a + b, e) == Survivors(a, e) + Survivors(b, e)
  {
    if b == [] {
      assert a + b == a;
    } else {
      assert (a + b)[..|a + b| - 1] == a + b[..|b| - 1];
      SurvivorsAppend(a, b[..|b| - 1], e);
    }
  }

  /** Line by line: a blank line goes, an undecodable line stays where it is, and so does an entry unless its goal,
      command and pack path are the new one's. */
  lemma UpsertLineByLine(pre: seq<Line>, line: Line, post: seq<Line>, e: LedgerEntry)
    ensures Upserted([], e) == [Entry(e), Blank]
    ensures
      var kept := match line
        case Blank => []
        case Malformed(_) => [line]
        case Entry(x) =>
          if x.goalID == e.goalID && x.command == e.command && x.packPath == e.packPath then [] else [line];
      Upserted(pre + [line] + post, e) == Survivors(pre, e) + kept + Survivors(post, e) + Upserted([], e)
  {
    SurvivorsAppend(pre + [line], post, e);
    SurvivorsAppend(pre, [line], e);
    assert [line][..0] == [];
  }

  predicate UniqueKeys(entries: seq<LedgerEntry>) {
    forall i, j :: 0 <= i < j < |entries| ==> !SameKey(entries[i], entries[j])
  }

  lemma {:induction false} OtherKeysMeans(entries: seq<LedgerEntry>, e: LedgerEntry)
    ensures forall x :: x in OtherKeys(entries, e) <==> x in entries && !SameKey(x, e)
    ensures UniqueKeys(entries) ==> UniqueKeys(OtherKeys(entries, e))
  {
    if entries != [] {
      var k := |entries| - 1;
      OtherKeysMeans(entries[..k], e);
      var rest := OtherKeys(entries[..k], e);
      assert entries == entries[..k] + [entries[k]];
      if UniqueKeys(entries) {
        assert UniqueKeys(entries[..k]);
        forall i | 0 <= i < |rest| ensures !SameKey(rest[i], entries[k]) {
          assert rest[i] in entries[..k];
        }
      }
    }
  }

  /** After an upsert an entry of the same goal, command and pack path is the new one; all other entries are those
      there were, in order; and keys that were unique stay so. */
  lemma UpsertKeepsKeys(lines: seq<Line>, e: LedgerEntry)
    ensures forall x :: x in Entries(Upserted(lines, e)) <==>
                        || x == e
                        || (x in Entries(lines)
                            && (x.goalID != e.goalID || x.command != e.command || x.packPath != e.packPath))
    ensures OtherKeys(Entries(Upserted(lines, e)), e) == OtherKeys(Entries(lines), e)
    ensures UniqueKeys(Entries(lines)) ==> UniqueKeys(Entries(Upserted(lines, e)))
  {
    UpsertedEntries(lines, e);
    var before := Entries(lines);
    var kept := OtherKeys(before, e);
    OtherKeysMeans(before, e);
    UpsertIdempotent(lines, e);
    UpsertedEntries(Upserted(lines, e), e);
    assert OtherKeys(kept + [e], e) == (OtherKeys(kept + [e], e) + [e])[..|kept|];
    if UniqueKeys(before) {
      forall i | 0 <= i < |kept| ensures !SameKey(kept[i], e) {
        assert kept[i] in kept;
      }
    }
  }

  // What reports say and what writing answers.

  lemma DefaultedMeans(a: string, value: string, b: string, default: string)
    requires GoStrings.All(a, GoStrings.IsSpace) && GoStrings.All(b, GoStrings.IsSpace)
    requires GoStrings.Bare(value, GoStrings.IsSpace)
    ensures Defaulted(a + value + b, default) == if value == "" then default else value
  {
    GoStrings.TrimAround(a, value, b, GoStrings.IsSpace);
  }

  /** A goal and a mode given by the caller, with white space around them, are the report's; the pack is named
      after the goal. Without them the report has the defaults. */
  lemma EvaluatedGoal(s: Store, command: string, a: string, goal: string, b: string, c: string, mode: string, d: string,
                      missing: seq<string>)
    requires Supported(command)
    requires GoStrings.All(a, GoStrings.IsSpace) && GoStrings.All(b, GoStrings.IsSpace)
    requires GoStrings.All(c, GoStrings.IsSpace) && GoStrings.All(d, GoStrings.IsSpace)
    requires GoStrings.Bare(goal, GoStrings.IsSpace) && GoStrings.Bare(mode, GoStrings.IsSpace)
    ensures
      var r := Evaluated(s, command, Options(a + goal + b, c + mode + d, missing)).value;
      && r.command == command && r.blocking && r.ledgerPath == SOURCE_LEDGER
      && r.goalID == (if goal == "" then DEFAULT_GOAL_ID else goal)
      && r.mode == (if mode == "" then "FULL" else mode)
      && r.packPath == EVIDENCE_DIR + r.goalID + ".json"
  {
    DefaultedMeans(a, goal, b, DEFAULT_GOAL_ID);
    DefaultedMeans(c, mode, d, "FULL");
  }

  /** The gaps of a report: the missing authority paths, in order; without any, for the final command, what the
      gate answers. A report with gaps is failed and not complete, one without is passed and complete. */
  lemma EvaluatedGaps(s: Store, command: string, options: Options)
    requires Supported(command)
    ensures
      var r := Evaluated(s, command, options).value;
      && (options.missing != [] ==>
            |r.gaps| == |options.missing|
            && forall i :: 0 <= i < |r.gaps| ==> r.gaps[i] == MissingAuthority(options.missing[i]))
      && (options.missing == [] ==> r.gaps == if command == FINAL_COMMAND then FinalGaps(s, r.goalID) else [])
      && r.status == (if r.gaps == [] then "passed" else "failed")
      && r.mvaStatus == (if r.gaps == [] then "complete" else "not-complete")
  {
  }

  /** Six commands are known: no other is evaluated. */
  lemma EvaluatedCommands(s: Store, command: string, options: Options)
    ensures Evaluated(s, command, options).Some? <==>
            command in {"goal-acceptance", "goal-delivery", "goal-handover", "goal-downstream-adoption", "goal-certify",
                        "goal-runtime-final"}
  {
  }

  /** Why a write is refused, in the order of the checks; a refused write changes nothing. */
  lemma WriteRefused(s: Store, r: Report)
    ensures Written(s, r).1 == Some(Unsupported) <==> Evaluated(s, r.command, Options("", "", [])).None?
    ensures Written(s, r).1 == Some(Incomplete) <==>
            && Written(s, r).1 != Some(Unsupported)
            && !(r.status == "passed" && r.mvaStatus == "complete" && r.blocking)
    ensures (exists gaps :: Written(s, r).1 == Some(Prerequisites(gaps))) <==>
            && r.status == "passed" && r.mvaStatus == "complete" && r.blocking
            && r.command == "goal-runtime-final" && FinalGaps(s, r.goalID) != []
    ensures Written(s, r).1.Some? ==> Written(s, r).0 == s
    ensures forall gaps :: Written(s, r).1 == Some(Prerequisites(gaps)) ==> gaps == FinalGaps(s, r.goalID)
  {
  }

  /** An accepted report is recorded at its ledger path, field by field. */
  lemma WrittenEntry(s: Store, r: Report)
    requires Written(s, r).1.None?
    ensures exists e :: && e in Entries(LinesAt(Written(s, r).0, Resolve(s.root, r.ledgerPath)))
                        && e.schemaVersion == r.schemaVersion && e.goalID == r.goalID && e.command == r.command
                        && e.status == r.status && e.mvaStatus == r.mvaStatus && e.blocking == r.blocking
                        && e.packPath == r.packPath
  {
    var at := Resolve(s.root, r.ledgerPath);
    var before := if r.command == FINAL_COMMAND then Saved(s, Resolve(s.root, r.packPath), Pack(r)) else s;
    assert Written(s, r).0 == Recorded(before, r);
    UpsertKeepsKeys(LinesAt(before, at), EntryFor(r));
    assert EntryFor(r) in Entries(LinesAt(Written(s, r).0, at));
  }

  lemma MemberTells(key: string, a: string, b: string)
    requires Member(key, a) == Member(key, b)
    ensures a == b
  {
    var front := "\"" + key + "\": \"";
    assert (front + a + "\",")[|front|..] == a + "\",";
    assert (front + b + "\",")[|front|..] == b + "\",";
    assert (a + "\",")[..|a|] == a && (b + "\",")[..|b|] == b;
  }

  /** Two packs with the same lines report the same. */
  lemma PackTellsReport(a: Report, b: Report)
    requires PackLines(a) == PackLines(b)
    ensures a == b.(gaps := a.gaps)
  {
    var x, y := PackLines(a), PackLines(b);
    assert x[1] == y[1] && x[2] == y[2] && x[3] == y[3] && x[4] == y[4] && x[5] == y[5] && x[6] == y[6];
    assert x[7] == y[7] && x[8] == y[8] && x[9] == y[9];
    MemberTells("schema_version", a.schemaVersion, b.schemaVersion);
    MemberTells("command", a.command, b.command);
    MemberTells("status", a.status, b.status);
    MemberTells("goal_id", a.goalID, b.goalID);
    MemberTells("mode", a.mode, b.mode);
    MemberTells("mva_status", a.mvaStatus, b.mvaStatus);
    MemberTells("ledger_path", a.ledgerPath, b.ledgerPath);
    MemberTells("evidence_pack_path", a.packPath, b.packPath);
  }

  // Where paths lead.

  lemma {:induction false} WalkAppend(from: Path, a: seq<string>, b: seq<string>)
    ensures Walk(from, a + b) == Walk(Walk(from, a), b)
  {
    if b == [] {
      assert a + b == a;
    } else {
      assert (a + b)[..|a + b| - 1] == a + b[..|b| - 1];
      WalkAppend(from, a, b[..|b| - 1]);
    }
  }

  /** Following a path is following its parts one after the other. */
  lemma PathsCompose(root: Path, a: string, b: string)
    ensures Resolve(root, a + "/" + b) == Resolve(Resolve(root, a), b)
  {
    GoStrings.SplitMiddle(a, '/', b);
    WalkAppend(root, GoStrings.Split(a, '/'), GoStrings.Split(b, '/'));
  }

  /** And one part stays, goes up or goes down. */
  lemma OnePart(root: Path, name: string)
    requires '/' !in name
    ensures Resolve(root, name)
            == if name == "" || name == "." then root
               else if name == ".." then (if root == [] then [] else root[..|root| - 1])
               else root + [name]
  {
    GoStrings.CutNone(name, '/');
    assert GoStrings.Split(name, '/') == [name];
    assert [name][..0] == [];
    assert Walk(root, []) == root;
  }

  predicate IsName(name: string) {
    name != "" && name != "." && name != ".." && '/' !in name
  }

  lemma ThreeNames(root: Path, path: string, a: string, b: string, c: string)
    requires IsName(a) && IsName(b) && IsName(c) && path == a + "/" + b + "/" + c
    ensures Resolve(root, path) == root + [a, b, c]
  {
    var names := [a, b, c];
    assert GoStrings.Joined(names[2..], '/') == c;
    assert GoStrings.Joined(names[1..], '/') == b + ['/'] + c;
    assert GoStrings.Joined(names, '/') == path;
    GoStrings.SplitJoined(names, '/');
    assert names[..2] == [a, b] && names[..2][..1] == [a] && [a][..0] == [];
    assert Walk(root, [a]) == root + [a];
    assert Walk(root, [a, b]) == root + [a, b];
  }

  lemma SourceLedgerResolved(root: Path)
    ensures Resolve(root, SOURCE_LEDGER) == SourceLedger(root)
  {
    ThreeNames(root, SOURCE_LEDGER, ".agent", "evidence", "ledger.jsonl");
  }

  /** A path leads to a file whose name ends as the path does. */
  lemma NameAtEnd(root: Path, path: string, ending: string)
    requires '/' !in ending && |ending| > 2
    ensures
      var at := Resolve(root, path + ending);
      at != [] && GoStrings.HasSuffix(at[|at| - 1], ending)
  {
    GoStrings.SplitEnd(path, ending, '/');
  }

  lemma PackElsewhere(root: Path, path: string)
    ensures Resolve(root, path + ".json") != SourceLedger(root)
  {
    NameAtEnd(root, path, ".json");
    var at := Resolve(root, path + ".json");
    var name := at[|at| - 1];
    assert name[|name| - 1] == name[|name| - 5..][4] == 'n';
    assert SourceLedger(root)[|root| + 2] == "ledger.jsonl";
  }

  /** Evaluated reports have packs that are never the source ledger, whatever the goal is called: their
      names end in ".json". */
  lemma EvaluatedPackElsewhere(s: Store, command: string, options: Options)
    requires Supported(command)
    ensures Resolve(s.root, Evaluated(s, command, options).value.packPath) != SourceLedger(s.root)
  {
    PackElsewhere(s.root, EVIDENCE_DIR + Evaluated(s, command, options).value.goalID);
  }

  // Whole runs.

  /** WriteEvidence on each report in turn; a refused one changes nothing. */
  function AfterWrites(s: Store, reports: seq<Report>): Store
    decreases |reports|
  {
    if reports == [] then s else AfterWrites(Written(s, reports[0]).0, reports[1..])
  }

  datatype Request = Request(command: string, options: Options)

  /** Evaluate, then WriteEvidence on the report, for each request in turn. */
  function AfterRequests(s: Store, requests: seq<Request>): Store
    decreases |requests|
  {
    if requests == [] then s
    else
      var r := Evaluated(s, requests[0].command, requests[0].options);
      AfterRequests(if r.Some? then Written(s, r.value).0 else s, requests[1..])
  }

  predicate Present(entries: seq<LedgerEntry>, goalID: string, command: string) {
    exists e :: e in entries && e.goalID == goalID && e.command == command
  }

  /** Every entry is passed, complete and blocking, and a final entry has its five prerequisites. */
  ghost predicate Sound(lines: seq<Line>) {
    var entries := Entries(lines);
    && Decodable(lines)
    && (forall e :: e in entries ==> Passed(e))
    && (forall e, c | e in entries && e.command == FINAL_COMMAND && c in PREREQUISITES :: Present(entries, e.goalID, c))
  }

  /** An upsert never loses the last entry of a goal and command. */
  lemma StaysPresent(lines: seq<Line>, e: LedgerEntry, goalID: string, command: string)
    requires Present(Entries(lines), goalID, command)
    ensures Present(Entries(Upserted(lines, e)), goalID, command)
  {
    UpsertKeepsKeys(lines, e);
    var x :| x in Entries(lines) && x.goalID == goalID && x.command == command;
    if SameKey(x, e) {
      assert e in Entries(Upserted(lines, e)) && e.goalID == goalID && e.command == command;
    } else {
      assert x in Entries(Upserted(lines, e));
    }
  }

  lemma UpsertSound(lines: seq<Line>, e: LedgerEntry)
    requires Sound(lines) && Passed(e)
    requires e.command == FINAL_COMMAND ==> forall c :: c in PREREQUISITES ==> Present(Entries(lines), e.goalID, c)
    ensures Sound(Upserted(lines, e))
  {
    UpsertedLines(lines, e);
    UpsertKeepsKeys(lines, e);
    var before, after := Entries(lines), Entries(Upserted(lines, e));
    forall f, c | f in after && f.command == FINAL_COMMAND && c in PREREQUISITES
      ensures Present(after, f.goalID, c)
    {
      assert Present(before, f.goalID, c);
      StaysPresent(lines, e, f.goalID, c);
    }
  }

  /** A report whose prerequisites are in the ledger. */
  predicate Covered(lines: seq<Line>, goalID: string) {
    forall c :: c in PREREQUISITES ==> Present(Entries(lines), goalID, c)
  }

  /** Evidence packs are passed final reports of goals whose prerequisites are in the ledger. */
  ghost predicate PacksSound(s: Store) {
    forall at | at in s.files && s.files[at].Pack? ::
      && s.files[at].report.command == FINAL_COMMAND && Passed(EntryFor(s.files[at].report))
      && Covered(LedgerLines(s), s.files[at].report.goalID)
  }

  ghost predicate StoreSound(s: Store) {
    Sound(LedgerLines(s)) && PacksSound(s)
  }

  lemma GateMeansCovered(s: Store, goalID: string)
    requires FinalGaps(s, goalID) == []
    ensures Covered(LedgerLines(s), goalID)
  {
    GateOpensIff(s, goalID);
    var entries := Entries(LedgerLines(s));
    forall c | c in PREREQUISITES ensures Present(entries, goalID, c) {
      assert LastPassed(entries, goalID, c);
      var i :| LastFor(entries, goalID, c, i) && Passed(entries[i]);
      assert entries[i] in entries;
    }
  }

  /** Recording a passed report, whose prerequisites are there if it is final, keeps the ledger sound and
      loses no goal's prerequisites. */
  lemma RecordSound(s: Store, r: Report)
    requires Sound(LedgerLines(s)) && Passed(EntryFor(r))
    requires r.command == FINAL_COMMAND ==> Covered(LedgerLines(s), r.goalID)
    ensures Sound(LedgerLines(Recorded(s, r)))
    ensures forall goalID :: Covered(LedgerLines(s), goalID) ==> Covered(LedgerLines(Recorded(s, r)), goalID)
  {
    var lines := LedgerLines(s);
    if Resolve(s.root, r.ledgerPath) == SourceLedger(s.root) {
      UpsertSound(lines, EntryFor(r));
      forall goalID, c | Present(Entries(lines), goalID, c)
        ensures Present(Entries(Upserted(lines, EntryFor(r))), goalID, c)
      {
        StaysPresent(lines, EntryFor(r), goalID, c);
      }
    }
  }

  /** An accepted final report whose pack goes where the source ledger is. */
  predicate Overwrites(s: Store, r: Report) {
    && r.command == FINAL_COMMAND && Passed(EntryFor(r)) && FinalGaps(s, r.goalID) == []
    && Resolve(s.root, r.packPath) == SourceLedger(s.root)
  }

  lemma AcceptedSound(s: Store, r: Report)
    requires StoreSound(s) && !Overwrites(s, r)
    ensures StoreSound(Written(s, r).0)
  {
    if Written(s, r).1.None? {
      if r.command == FINAL_COMMAND {
        GateMeansCovered(s, r.goalID);
        var t := Saved(s, Resolve(s.root, r.packPath), Pack(r));
        assert LedgerLines(t) == LedgerLines(s);
        RecordSound(t, r);
      } else {
        RecordSound(s, r);
      }
    }
  }

  /** The ledger then begins with the opening brace of the pack, whether or not the final entry follows. */
  lemma OverwriteSpoils(s: Store, r: Report)
    requires Overwrites(s, r)
    ensures Malformed("{") in LedgerLines(Written(s, r).0)
  {
    var t := Saved(s, Resolve(s.root, r.packPath), Pack(r));
    assert LedgerLines(t) == PackLines(r);
    assert PackLines(r)[0] == Malformed("{");
    UpsertedLines(PackLines(r), EntryFor(r));
  }

  /** A write keeps a sound store sound if and only if it does not put a pack over the source ledger. */
  lemma WriteSoundIff(s: Store, r: Report)
    requires StoreSound(s)
    ensures StoreSound(Written(s, r).0) <==> !Overwrites(s, r)
    ensures Sound(LedgerLines(Written(s, r).0)) <==> !Overwrites(s, r)
  {
    if Overwrites(s, r) {
      OverwriteSpoils(s, r);
    } else {
      AcceptedSound(s, r);
    }
  }

  /** Some write of the run puts a pack over the source ledger. */
  predicate EverOverwrites(s: Store, reports: seq<Report>)
    decreases |reports|
  {
    reports != [] && (Overwrites(s, reports[0]) || EverOverwrites(Written(s, reports[0]).0, reports[1..]))
  }

  lemma MalformedShutsGate(s: Store, text: string, goalID: string)
    requires Malformed(text) in LedgerLines(s)
    ensures FinalGaps(s, goalID) == [UnreadableLedger]
  {
    var lines := LedgerLines(s);
    var i :| 0 <= i < |lines| && lines[i] == Malformed(text);
    assert !Decodable(lines);
  }

  lemma {:induction false} MalformedStays(s: Store, text: string, reports: seq<Report>)
    requires Malformed(text) in LedgerLines(s)
    ensures Malformed(text) in LedgerLines(AfterWrites(s, reports))
    decreases |reports|
  {
    if reports != [] {
      var r := reports[0];
      MalformedShutsGate(s, text, r.goalID);
      UpsertedLines(LedgerLines(s), EntryFor(r));
      MalformedStays(Written(s, r).0, text, reports[1..]);
    }
  }

  /** A run of writes keeps a sound store sound if and only if none of them puts a pack over the source
      ledger; one that does is never made good. */
  lemma {:induction false} RunSoundIff(s: Store, reports: seq<Report>)
    requires StoreSound(s)
    ensures StoreSound(AfterWrites(s, reports)) <==> !EverOverwrites(s, reports)
    ensures Sound(LedgerLines(AfterWrites(s, reports))) <==> !EverOverwrites(s, reports)
    decreases |reports|
  {
    if reports != [] {
      var t := Written(s, reports[0]).0;
      WriteSoundIff(s, reports[0]);
      if Overwrites(s, reports[0]) {
        OverwriteSpoils(s, reports[0]);
        MalformedStays(t, "{", reports[1..]);
        MalformedShutsGate(AfterWrites(t, reports[1..]), "{", "");
      } else {
        RunSoundIff(t, reports[1..]);
      }
    }
  }

  lemma {:induction false} NeverOverwrites(s: Store, reports: seq<Report>)
    requires forall r :: r in reports ==> Resolve(s.root, r.packPath) != SourceLedger(s.root)
    ensures !EverOverwrites(s, reports)
    decreases |reports|
  {
    if reports != [] {
      NeverOverwrites(Written(s, reports[0]).0, reports[1..]);
    }
  }

  lemma {:induction false} RequestsSound(s: Store, requests: seq<Request>)
    requires StoreSound(s)
    ensures StoreSound(AfterRequests(s, requests))
    decreases |requests|
  {
    if requests != [] {
      var q := requests[0];
      var r := Evaluated(s, q.command, q.options);
      if r.Some? {
        EvaluatedPackElsewhere(s, q.command, q.options);
        WriteSoundIff(s, r.value);
      }
      RequestsSound(if r.Some? then Written(s, r.value).0 else s, requests[1..]);
    }
  }

  /** Evaluate and WriteEvidence agree: evidence of a report evaluated on the same store is written exactly
      when the report has no gaps. */
  lemma EvaluateDecidesWrite(s: Store, command: string, options: Options)
    requires Supported(command)
    ensures
      var r := Evaluated(s, command, options).value;
      && (Written(s, r).1.None? <==> r.gaps == [])
      && (r.gaps == [] <==> options.missing == [] && (command == FINAL_COMMAND ==> FinalGaps(s, r.goalID) == []))
  {
  }

  /** The goal's entry of a command is there, passed, complete and blocking. */
  predicate Done(lines: seq<Line>, goalID: string, command: string) {
    exists p :: && p in Entries(lines) && p.goalID == goalID && p.command == command
                && p.status == "passed" && p.mvaStatus == "complete" && p.blocking
  }

  /** The whole-run gate: from an empty store, after any requests, a final entry for a goal means all
      five prerequisite entries for that goal are in the ledger, passed, complete and blocking. It holds
      after every run, so no later write can undo it. */
  lemma FinalImpliesPrerequisites(root: Path, requests: seq<Request>, e: LedgerEntry, command: string)
    requires e in Entries(LedgerLines(AfterRequests(Empty(root), requests)))
    requires e.command == FINAL_COMMAND && command in PREREQUISITES
    ensures Done(LedgerLines(AfterRequests(Empty(root), requests)), e.goalID, command)
  {
    RequestsSound(Empty(root), requests);
    assert Present(Entries(LedgerLines(AfterRequests(Empty(root), requests))), e.goalID, command);
  }

  /** The same for WriteEvidence on reports from anywhere, evaluated or made up, as long as no pack path leads
      to the source ledger. */
  lemma FinalImpliesPrerequisitesForAnyReports(root: Path, reports: seq<Report>, e: LedgerEntry, command: string)
    requires forall r :: r in reports ==> Resolve(root, r.packPath) != SourceLedger(root)
    requires e in Entries(LedgerLines(AfterWrites(Empty(root), reports)))
    requires e.command == FINAL_COMMAND && command in PREREQUISITES
    ensures Done(LedgerLines(AfterWrites(Empty(root), reports)), e.goalID, command)
  {
    NeverOverwrites(Empty(root), reports);
    RunSoundIff(Empty(root), reports);
    assert Present(Entries(LedgerLines(AfterWrites(Empty(root), reports))), e.goalID, command);
  }

  /** Likewise for the generated packs: one exists only for a goal with all five prerequisites. */
  lemma PackImpliesPrerequisites(root: Path, requests: seq<Request>, at: Path, command: string)
    requires at in AfterRequests(Empty(root), requests).files && AfterRequests(Empty(root), requests).files[at].Pack?
    requires command in PREREQUISITES
    ensures
      var s := AfterRequests(Empty(root), requests);
      var r := s.files[at].report;
      r.command == FINAL_COMMAND && Passed(EntryFor(r)) && Done(LedgerLines(s), r.goalID, command)
  {
    RequestsSound(Empty(root), requests);
    var s := AfterRequests(Empty(root), requests);
    assert Present(Entries(LedgerLines(s)), s.files[at].report.goalID, command);
  }

  /** A line that does not decode survives every write, and from then on the gate refuses: final reports
      are refused by WriteEvidence and come out of Evaluate as failed. */
  lemma MalformedBlocksForever(s: Store, text: string, reports: seq<Report>, r: Report, options: Options)
    requires Malformed(text) in LedgerLines(s)
    ensures
      var t := AfterWrites(s, reports);
      && Malformed(text) in LedgerLines(t)
      && (r.command == FINAL_COMMAND ==> Written(t, r).1.Some? && Written(t, r).0 == t)
      && Evaluated(t, FINAL_COMMAND, options).value.status == "failed"
  {
    var t := AfterWrites(s, reports);
    MalformedStays(s, text, reports);
    MalformedShutsGate(t, text, r.goalID);
    MalformedShutsGate(t, text, Defaulted(options.goalID, DEFAULT_GOAL_ID));
  }

  // A pack over the ledger.

  lemma {:induction false} NoEntries(lines: seq<Line>)
    requires forall i :: 0 <= i < |lines| ==> !lines[i].Entry?
    ensures Entries(lines) == []
  {
    if lines != [] {
      NoEntries(lines[..|lines| - 1]);
    }
  }

  lemma PackHasNoEntries(r: Report)
    ensures Entries(PackLines(r)) == []
  {
    NoEntries(PackLines(r));
  }

  lemma LedgerOverwritten(s: Store, r: Report)
    requires Overwrites(s, r) && Resolve(s.root, r.ledgerPath) == SourceLedger(s.root)
    ensures LedgerLines(Written(s, r).0) == Upserted(PackLines(r), EntryFor(r))
  {
  }

  lemma LoneEntry(lines: seq<Line>, e: LedgerEntry)
    requires Entries(lines) == [] && e.command == FINAL_COMMAND
    ensures Entries(Upserted(lines, e)) == [e]
    ensures forall c :: c in PREREQUISITES ==> !Done(Upserted(lines, e), e.goalID, c)
  {
    UpsertedEntries(lines, e);
    assert OtherKeys([], e) + [e] == [e];
  }

  /** When the entry goes to the source ledger too, it is the only one left: a final entry without its
      prerequisites. */
  lemma OverwriteLosesPrerequisites(s: Store, r: Report)
    requires Overwrites(s, r) && Resolve(s.root, r.ledgerPath) == SourceLedger(s.root)
    ensures Entries(LedgerLines(Written(s, r).0)) == [EntryFor(r)]
    ensures forall c :: c in PREREQUISITES ==> !Done(LedgerLines(Written(s, r).0), r.goalID, c)
  {
    LedgerOverwritten(s, r);
    PackHasNoEntries(r);
    LoneEntry(PackLines(r), EntryFor(r));
  }

  // Runs that reach a final entry.

  /** The report `r` for each command. */
  function ForEach(commands: seq<string>, r: Report): seq<Report> {
    if commands == [] then [] else [r.(command := commands[0])] + ForEach(commands[1..], r)
  }

  predicate PassedAtSource(root: Path, r: Report) {
    Passed(EntryFor(r)) && Resolve(root, r.ledgerPath) == SourceLedger(root)
  }

  lemma PassedWrite(s: Store, r: Report)
    requires Decodable(LedgerLines(s)) && r.command in PREREQUISITES && PassedAtSource(s.root, r)
    ensures
      var t := Written(s, r).0;
      var before, after := ByCommand(Entries(LedgerLines(s)), r.goalID), ByCommand(Entries(LedgerLines(t)), r.goalID);
      && t.root == s.root && SourceLedger(s.root) in t.files && Decodable(LedgerLines(t))
      && after == before[r.command := EntryFor(r)]
  {
    UpsertedLines(LedgerLines(s), EntryFor(r));
    UpsertUpdatesMap(LedgerLines(s), EntryFor(r), r.goalID);
  }

  predicate PassedIn(s: Store, goalID: string, command: string) {
    var m := ByCommand(Entries(LedgerLines(s)), goalID);
    command in m && Passed(m[command])
  }

  lemma {:induction false} PassedWrites(s: Store, commands: seq<string>, r: Report)
    requires Decodable(LedgerLines(s)) && PassedAtSource(s.root, r)
    requires forall c :: c in commands ==> c in PREREQUISITES
    ensures
      var t := AfterWrites(s, ForEach(commands, r));
      && t.root == s.root && Decodable(LedgerLines(t)) && (commands != [] ==> SourceLedger(s.root) in t.files)
      && forall c :: c in commands || PassedIn(s, r.goalID, c) ==> PassedIn(t, r.goalID, c)
    decreases |commands|
  {
    if commands != [] {
      var first, rest := r.(command := commands[0]), ForEach(commands[1..], r);
      var u := Written(s, first).0;
      PassedWrite(s, first);
      PassedWrites(u, commands[1..], r);
      assert ([first] + rest)[1..] == rest;
      assert PassedIn(u, r.goalID, commands[0]);
    }
  }

  lemma GateOpened(root: Path, r: Report)
    requires PassedAtSource(root, r)
    ensures
      var s := AfterWrites(Empty(root), ForEach(PREREQUISITES, r));
      s.root == root && FinalGaps(s, r.goalID) == []
  {
    var s := AfterWrites(Empty(root), ForEach(PREREQUISITES, r));
    PassedWrites(Empty(root), PREREQUISITES, r);
    NoGapsFor(ByCommand(Entries(LedgerLines(s)), r.goalID), PREREQUISITES);
    assert forall c :: c in PREREQUISITES ==> PassedIn(s, r.goalID, c);
  }

  lemma {:induction false} AfterMoreWrites(s: Store, a: seq<Report>, b: seq<Report>)
    ensures AfterWrites(s, a + b) == AfterWrites(AfterWrites(s, a), b)
    decreases |a|
  {
    if a == [] {
      assert a + b == b;
    } else {
      assert (a + b)[1..] == a[1..] + b;
      AfterMoreWrites(Written(s, a[0]).0, a[1..], b);
    }
  }

  /** A run that loses the prerequisites exists for every root, every goal and every path that leads to the
      source ledger: the five prerequisites, then a final report whose pack path is that path. */
  lemma OverwritingRun(root: Path, r: Report)
    requires PassedAtSource(root, r)
    ensures
      var final := r.(command := FINAL_COMMAND, packPath := r.ledgerPath);
      var s := AfterWrites(Empty(root), ForEach(PREREQUISITES, r) + [final]);
      && EntryFor(final) in Entries(LedgerLines(s))
      && forall c :: c in PREREQUISITES ==> !Done(LedgerLines(s), r.goalID, c)
  {
    var final := r.(command := FINAL_COMMAND, packPath := r.ledgerPath);
    var s := AfterWrites(Empty(root), ForEach(PREREQUISITES, r));
    GateOpened(root, r);
    OverwriteLosesPrerequisites(s, final);
    AfterMoreWrites(Empty(root), ForEach(PREREQUISITES, r), [final]);
    assert [final][1..] == [];
  }

  /** The input as a caller would give it, at the source ledger's own path: for every root and every goal. */
  lemma SourceLedgerOverwritten(root: Path, r: Report)
    requires Passed(EntryFor(r)) && r.ledgerPath == SOURCE_LEDGER
    ensures
      var final := r.(command := FINAL_COMMAND, packPath := SOURCE_LEDGER);
      var s := AfterWrites(Empty(root), ForEach(PREREQUISITES, r) + [final]);
      && EntryFor(final) in Entries(LedgerLines(s))
      && forall c :: c in PREREQUISITES ==> !Done(LedgerLines(s), r.goalID, c)
  {
    SourceLedgerResolved(root);
    OverwritingRun(root, r);
  }

  /** The report that Evaluate makes when there are no gaps, for any command. */
  function EvaluatedReport(options: Options): Report {
    var goalID := Defaulted(options.goalID, DEFAULT_GOAL_ID);
    Report("goalcli-mva/v1", "", "passed", goalID, Defaulted(options.mode, "FULL"), true, "complete", SOURCE_LEDGER,
           EVIDENCE_DIR + goalID + ".json", [])
  }

  lemma EvaluatedAtSource(root: Path, options: Options)
    ensures PassedAtSource(root, EvaluatedReport(options))
  {
    SourceLedgerResolved(root);
  }

  /** The requests of one caller for each command. */
  function Asked(commands: seq<string>, options: Options): seq<Request> {
    if commands == [] then [] else [Request(commands[0], options)] + Asked(commands[1..], options)
  }

  lemma EvaluatedWithoutGaps(s: Store, command: string, options: Options)
    requires Supported(command) && options.missing == []
    requires command == FINAL_COMMAND ==> FinalGaps(s, EvaluatedReport(options).goalID) == []
    ensures Evaluated(s, command, options) == Some(EvaluatedReport(options).(command := command))
  {
    assert AuthorityGaps(options.missing) == [];
  }

  lemma {:induction false} AskedIsWritten(s: Store, commands: seq<string>, options: Options)
    requires options.missing == [] && forall c :: c in commands ==> c in PREREQUISITES
    ensures AfterRequests(s, Asked(commands, options)) == AfterWrites(s, ForEach(commands, EvaluatedReport(options)))
    decreases |commands|
  {
    if commands != [] {
      var r := EvaluatedReport(options).(command := commands[0]);
      EvaluatedWithoutGaps(s, commands[0], options);
      AskedIsWritten(Written(s, r).0, commands[1..], options);
      assert Asked(commands, options)[1..] == Asked(commands[1..], options);
      assert ForEach(commands, EvaluatedReport(options))[1..] == ForEach(commands[1..], EvaluatedReport(options));
    }
  }

  lemma {:induction false} AfterMoreRequests(s: Store, a: seq<Request>, b: seq<Request>)
    ensures AfterRequests(s, a + b) == AfterRequests(AfterRequests(s, a), b)
    decreases |a|
  {
    if a == [] {
      assert a + b == b;
    } else {
      var r := Evaluated(s, a[0].command, a[0].options);
      assert (a + b)[1..] == a[1..] + b;
      AfterMoreRequests(if r.Some? then Written(s, r.value).0 else s, a[1..], b);
    }
  }

  lemma FinalRecorded(s: Store, options: Options)
    requires options.missing == [] && FinalGaps(s, EvaluatedReport(options).goalID) == []
    ensures
      var r := EvaluatedReport(options).(command := FINAL_COMMAND);
      var t := AfterRequests(s, [Request(FINAL_COMMAND, options)]);
      && EntryFor(r) in Entries(LedgerLines(t))
      && var at := Resolve(s.root, r.packPath);
         at in t.files && t.files[at] == Pack(r)
  {
    var r := EvaluatedReport(options).(command := FINAL_COMMAND);
    var request := Request(FINAL_COMMAND, options);
    EvaluatedWithoutGaps(s, FINAL_COMMAND, options);
    assert AfterRequests(s, [request]) == Written(s, r).0 by {
      assert [request][1..] == [];
    }
    EvaluatedAtSource(s.root, options);
    EvaluatedPackElsewhere(s, FINAL_COMMAND, options);
    UpsertKeepsKeys(LedgerLines(s), EntryFor(r));
  }

  /** The gate can be passed: from an empty store, whatever the root and the goal, evaluating and writing the
      five prerequisites and then the final command leaves the goal's final entry in the ledger and its pack. */
  lemma FinalReachable(root: Path, a: string, goal: string, b: string, mode: string)
    requires GoStrings.All(a, GoStrings.IsSpace) && GoStrings.All(b, GoStrings.IsSpace)
    requires goal != "" && GoStrings.Bare(goal, GoStrings.IsSpace)
    ensures
      var options := Options(a + goal + b, mode, []);
      var s := AfterRequests(Empty(root), Asked(PREREQUISITES, options) + [Request(FINAL_COMMAND, options)]);
      && Done(LedgerLines(s), goal, FINAL_COMMAND)
      && var at := Resolve(root, EVIDENCE_DIR + goal + ".json");
         at in s.files && s.files[at].Pack? && s.files[at].report.goalID == goal
  {
    var options := Options(a + goal + b, mode, []);
    var before := AfterRequests(Empty(root), Asked(PREREQUISITES, options));
    DefaultedMeans(a, goal, b, DEFAULT_GOAL_ID);
    EvaluatedAtSource(root, options);
    AskedIsWritten(Empty(root), PREREQUISITES, options);
    GateOpened(root, EvaluatedReport(options));
    FinalRecorded(before, options);
    AfterMoreRequests(Empty(root), Asked(PREREQUISITES, options), [Request(FINAL_COMMAND, options)]);
  }
}
