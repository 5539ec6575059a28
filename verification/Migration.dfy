/**
 Importing memory entries into a store that may already hold other content under the same keys.
 The store is a map from keys to rows; its I/O errors are left out.
 */
module Migration {
  import opened Wrappers
  import opened Text
  import opened Decimal

  datatype Category = Core | Daily | Conversation | Custom(name: string)
  {
    function Display(): string
    {
      match this
      case Core => "core"
      case Daily => "daily"
      case Conversation => "conversation"
      case Custom(name) => name
    }
  }

  datatype SourceEntry = SourceEntry(key: string, content: string, category: Category)

  datatype Row = Row(content: string, category: Category)

  datatype Stats = Stats(imported: nat, skipped: nat, renamed: nat)

  class Memory {
    var rows: map<string, Row>

    constructor (initial: map<string, Row>)
      ensures rows == initial
    {
      rows := initial;
    }

    function Get(key: string): Option<Row>
      reads this
    {
      if key in rows then Some(rows[key]) else None
    }

    method Store(key: string, content: string, category: Category)
      modifies this
      ensures rows == old(rows)[key := Row(content, category)]
    {
      rows := rows[key := Row(content, category)];
    }
  }

  // ---------------------------------------------------------------- keys

  const MAX_ATTEMPTS: nat := 10000

  function KeyOf(idx: nat, entry: SourceEntry): string
  {
    if Blank(entry.key) then "openclaw_" + Printed(idx) else Trim(entry.key)
  }

  function Candidate(base: string, i: nat): string
  {
    base + "__openclaw_" + Printed(i)
  }

  /** The first free candidate from number `i` on. */
  function FreeKeyFrom(rows: map<string, Row>, base: string, i: nat): Option<string>
    decreases MAX_ATTEMPTS + 1 - i
  {
    if i > MAX_ATTEMPTS then None
    else if Candidate(base, i) !in rows then Some(Candidate(base, i))
    else FreeKeyFrom(rows, base, i + 1)
  }

  function FreeKey(rows: map<string, Row>, base: string): Option<string>
  {
    FreeKeyFrom(rows, base, 1)
  }

  method NextAvailableKey(memory: Memory, base: string) returns (r: Option<string>)
    ensures r == FreeKey(memory.rows, base)
  {
    hide Candidate;
    for i := 1 to MAX_ATTEMPTS + 1
      invariant FreeKey(memory.rows, base) == FreeKeyFrom(memory.rows, base, i)
    {
      var candidate := Candidate(base, i);
      if memory.Get(candidate).None? {
        return Some(candidate);
      }
    }
    return None;
  }

  ghost predicate AllTaken(rows: map<string, Row>, base: string, from: nat)
  {
    forall i :: from <= i <= MAX_ATTEMPTS ==> Candidate(base, i) in rows
  }

  /** No key is found exactly when all candidates are taken; a found key is free, and it is the lowest free candidate. */
  lemma {:induction false} FreeKeyExact(rows: map<string, Row>, base: string, from: nat)
    ensures FreeKeyFrom(rows, base, from).None? <==> AllTaken(rows, base, from)
    ensures var r := FreeKeyFrom(rows, base, from);
            r.Some? ==> r.value !in rows
                        && exists i :: from <= i <= MAX_ATTEMPTS && r.value == Candidate(base, i)
                                       && forall j :: from <= j < i ==> Candidate(base, j) in rows
    decreases MAX_ATTEMPTS + 1 - from
  {
    hide Candidate;
    if from <= MAX_ATTEMPTS {
      FreeKeyExact(rows, base, from + 1);
    }
  }

  lemma CandidateInjective(base: string, i: nat, j: nat)
    requires Candidate(base, i) == Candidate(base, j)
    ensures i == j
  {
    var front := base + "__openclaw_";
    assert Candidate(base, i)[|front|..] == Printed(i);
    assert Candidate(base, j)[|front|..] == Printed(j);
    PrintedInjective(i, j);
  }

  ghost function Candidates(base: string, n: nat): set<string>
  {
    if n == 0 then {} else Candidates(base, n - 1) + {Candidate(base, n)}
  }

  lemma {:induction false} CandidatesCounted(base: string, n: nat)
    ensures |Candidates(base, n)| == n
    ensures forall x :: x in Candidates(base, n) ==> exists i :: 1 <= i <= n && x == Candidate(base, i)
  {
    hide Candidate;
    if n > 0 {
      CandidatesCounted(base, n - 1);
      if Candidate(base, n) in Candidates(base, n - 1) {
        var i :| 1 <= i <= n - 1 && Candidate(base, n) == Candidate(base, i);
        CandidateInjective(base, n, i);
      }
    }
  }

  /** A store with fewer rows than attempts always has a free candidate. */
  lemma SmallStoreHasFreeKey(rows: map<string, Row>, base: string)
    requires |rows| < MAX_ATTEMPTS
    ensures FreeKey(rows, base).Some?
  {
    hide FreeKeyFrom, Candidate, Candidates;
    FreeKeyExact(rows, base, 1);
    CandidatesCounted(base, MAX_ATTEMPTS);
    if AllTaken(rows, base, 1) {
      CountKeys(Candidates(base, MAX_ATTEMPTS), rows);
    }
  }

  lemma CountKeys(keys: set<string>, rows: map<string, Row>)
    requires keys <= rows.Keys
    ensures |keys| <= |rows|
  {
    SubsetCount(keys, rows.Keys);
  }

  lemma {:induction false} SubsetCount(a: set<string>, b: set<string>)
    requires a <= b
    ensures |a| <= |b|
  {
    if a != {} {
      var x :| x in a;
      SubsetCount(a - {x}, b - {x});
    }
  }

  // ---------------------------------------------------------------- the import loop

  /** The store and the counts after some entries; `stuck` once no key could be allocated. */
  datatype Progress = Progress(rows: map<string, Row>, stats: Stats, stuck: bool)

  predicate Same(row: Row, entry: SourceEntry)
  {
    Trim(row.content) == Trim(entry.content)
  }

  function RowOf(entry: SourceEntry): Row
  {
    Row(entry.content, entry.category)
  }

  function Step(p: Progress, idx: nat, entry: SourceEntry): Progress
  {
    var key := KeyOf(idx, entry);
    if p.stuck then p
    else if key !in p.rows then
      Progress(p.rows[key := RowOf(entry)], p.stats.(imported := p.stats.imported + 1), false)
    else if Same(p.rows[key], entry) then p.(stats := p.stats.(skipped := p.stats.skipped + 1))
    else if FreeKey(p.rows, key).None? then p.(stuck := true)
    else
      Progress(p.rows[FreeKey(p.rows, key).value := RowOf(entry)],
               p.stats.(imported := p.stats.imported + 1, renamed := p.stats.renamed + 1), false)
  }

  function Run(rows: map<string, Row>, entries: seq<SourceEntry>): Progress
  {
    if entries == [] then Progress(rows, Stats(0, 0, 0), false)
    else
      var n := |entries| - 1;
      Step(Run(rows, entries[..n]), n, entries[n])
  }

  method MigrateEntries(memory: Memory, entries: seq<SourceEntry>) returns (r: Result<Stats, string>)
    modifies memory
    ensures var p := Run(old(memory.rows), entries);
            memory.rows == p.rows && (if p.stuck then r.Err? else r == Ok(p.stats))
  {
    hide FreeKey, KeyOf, Same;
    var stats := Stats(0, 0, 0);
    ghost var start := memory.rows;
    for idx := 0 to |entries|
      invariant Run(start, entries[..idx]) == Progress(memory.rows, stats, false)
    {
      var entry := entries[idx];
      RunStep(start, entries, idx);
      var key := KeyOf(idx, entry);
      var existing := memory.Get(key);
      if existing.Some? {
        if Same(existing.value, entry) {
          stats := stats.(skipped := stats.skipped + 1);
          continue;
        }
        var renamed := NextAvailableKey(memory, key);
        if renamed.None? {
          StuckStays(start, entries, idx + 1);
          return Err("Unable to allocate non-conflicting key for '" + key + "'");
        }
        key := renamed.value;
        stats := stats.(renamed := stats.renamed + 1);
      }
      memory.Store(key, entry.content, entry.category);
      stats := stats.(imported := stats.imported + 1);
    }
    assert entries[..|entries|] == entries;
    return Ok(stats);
  }

  lemma RunStep(rows: map<string, Row>, entries: seq<SourceEntry>, i: nat)
    requires i < |entries|
    ensures Run(rows, entries[..i + 1]) == Step(Run(rows, entries[..i]), i, entries[i])
  {
    hide Step;
    assert entries[..i + 1][..i] == entries[..i];
  }

  lemma {:induction false} StuckStays(rows: map<string, Row>, entries: seq<SourceEntry>, i: nat)
    requires i <= |entries| && Run(rows, entries[..i]).stuck
    ensures Run(rows, entries) == Run(rows, entries[..i])
    decreases |entries| - i
  {
    if i == |entries| {
      assert entries[..i] == entries;
    } else {
      StuckFixed(Run(rows, entries[..i]), i, entries[i]);
      RunStep(rows, entries, i);
      StuckStays(rows, entries, i + 1);
    }
  }

  lemma StuckFixed(p: Progress, idx: nat, entry: SourceEntry)
    requires p.stuck
    ensures Step(p, idx, entry) == p
  {
  }

  // ---------------------------------------------------------------- what a run keeps and adds

  /** Every row of `a` is in `b`, unchanged. */
  ghost predicate Within(a: map<string, Row>, b: map<string, Row>)
  {
    forall k :: k in a ==> k in b && b[k] == a[k]
  }

  /** One step adds at most one row, under a key that was free, and counts what it did. */
  lemma StepExact(p: Progress, idx: nat, entry: SourceEntry)
    requires !p.stuck
    ensures var q, key := Step(p, idx, entry), KeyOf(idx, entry);
            && Within(p.rows, q.rows)
            && |q.rows| - |p.rows| == q.stats.imported - p.stats.imported
            && (q.stuck ==> q.rows == p.rows && q.stats == p.stats)
            && (!q.stuck ==> q.stats.imported + q.stats.skipped == p.stats.imported + p.stats.skipped + 1)
            && (!q.stuck ==> key in q.rows)
            && (!q.stuck ==> q.stats.renamed == p.stats.renamed + if Same(q.rows[key], entry) then 0 else 1)
            && (key in p.rows ==> q.stats.imported - p.stats.imported == q.stats.renamed - p.stats.renamed)
  {
    hide FreeKey, KeyOf, Same;
    var key := KeyOf(idx, entry);
    SameAsStored(entry);
    if key in p.rows && FreeKey(p.rows, key).Some? {
      FreeKeyIsFree(p.rows, key);
    }
  }

  lemma SameAsStored(entry: SourceEntry)
    ensures Same(RowOf(entry), entry)
  {
  }

  lemma FreeKeyIsFree(rows: map<string, Row>, base: string)
    requires FreeKey(rows, base).Some?
    ensures FreeKey(rows, base).value !in rows
  {
    hide FreeKeyFrom, Candidate;
    FreeKeyExact(rows, base, 1);
  }

  lemma WithinSelf(a: map<string, Row>)
    ensures Within(a, a)
  {
  }

  lemma WithinTrans(a: map<string, Row>, b: map<string, Row>, c: map<string, Row>)
    requires Within(a, b) && Within(b, c)
    ensures Within(a, c)
  {
  }

  lemma Prefix(entries: seq<SourceEntry>, i: nat, j: nat)
    requires i <= j <= |entries|
    ensures entries[..j][..i] == entries[..i]
  {
  }

  /** Nothing that was in the store, at the start or at any later point of the run, is ever overwritten. */
  lemma {:induction false} NeverOverwrites(rows: map<string, Row>, entries: seq<SourceEntry>, i: nat)
    requires i <= |entries|
    ensures Within(rows, Run(rows, entries[..i]).rows) && Within(Run(rows, entries[..i]).rows, Run(rows, entries).rows)
    decreases |entries|
  {
    hide *;
    if i == |entries| {
      assert entries[..i] == entries;
      FromStart(rows, entries);
      WithinSelf(Run(rows, entries).rows);
    } else {
      var n := |entries| - 1;
      NeverOverwrites(rows, entries[..n], i);
      Prefix(entries, i, n);
      assert entries[..n + 1] == entries;
      RunStep(rows, entries, n);
      StepWithin(Run(rows, entries[..n]), n, entries[n]);
      WithinTrans(Run(rows, entries[..i]).rows, Run(rows, entries[..n]).rows, Run(rows, entries).rows);
    }
  }

  lemma StepWithin(p: Progress, idx: nat, entry: SourceEntry)
    ensures Within(p.rows, Step(p, idx, entry).rows)
  {
    if p.stuck {
      StuckFixed(p, idx, entry);
    } else {
      hide Step, Within, KeyOf, Same;
      StepExact(p, idx, entry);
    }
    WithinSelf(p.rows);
  }

  lemma NoEntries(rows: map<string, Row>)
    ensures Run(rows, []) == Progress(rows, Stats(0, 0, 0), false)
  {
  }

  lemma {:induction false} FromStart(rows: map<string, Row>, entries: seq<SourceEntry>)
    ensures Within(rows, Run(rows, entries).rows)
    decreases |entries|
  {
    hide *;
    NoEntries(rows);
    if entries == [] {
      WithinSelf(rows);
    } else {
      var n := |entries| - 1;
      FromStart(rows, entries[..n]);
      assert entries[..n + 1] == entries;
      RunStep(rows, entries, n);
      StepWithin(Run(rows, entries[..n]), n, entries[n]);
      WithinTrans(rows, Run(rows, entries[..n]).rows, Run(rows, entries).rows);
    }
  }

  /** Every processed entry is counted once, and the store grows by exactly the imported ones. */
  lemma {:induction false} RunConserves(rows: map<string, Row>, entries: seq<SourceEntry>)
    ensures var p := Run(rows, entries);
            |p.rows| == |rows| + p.stats.imported
            && (!p.stuck ==> p.stats.imported + p.stats.skipped == |entries|)
            && p.stats.imported <= |entries|
    decreases |entries|
  {
    hide *;
    NoEntries(rows);
    if entries != [] {
      var n := |entries| - 1;
      var before := Run(rows, entries[..n]);
      RunConserves(rows, entries[..n]);
      assert entries[..n + 1] == entries;
      RunStep(rows, entries, n);
      if before.stuck {
        StuckFixed(before, n, entries[n]);
      } else {
        StepExact(before, n, entries[n]);
      }
    }
  }

  /** A run that cannot fill the candidates completes. */
  lemma {:induction false} SmallRunCompletes(rows: map<string, Row>, entries: seq<SourceEntry>)
    requires |rows| + |entries| <= MAX_ATTEMPTS
    ensures !Run(rows, entries).stuck
    decreases |entries|
  {
    hide *;
    NoEntries(rows);
    if entries != [] {
      var n := |entries| - 1;
      SmallRunCompletes(rows, entries[..n]);
      RunConserves(rows, entries[..n]);
      assert entries[..n + 1] == entries;
      RunStep(rows, entries, n);
      var before := Run(rows, entries[..n]);
      SmallStoreHasFreeKey(before.rows, KeyOf(n, entries[n]));
      UnstuckStep(before, n, entries[n]);
    }
  }

  lemma UnstuckStep(p: Progress, idx: nat, entry: SourceEntry)
    requires !p.stuck && FreeKey(p.rows, KeyOf(idx, entry)).Some?
    ensures !Step(p, idx, entry).stuck
  {
    hide FreeKey, KeyOf, Same;
  }

  /** The entry's text is stored under its key, or its row under a rename of that key. */
  ghost predicate Landed(rows: map<string, Row>, idx: nat, entry: SourceEntry)
  {
    var key := KeyOf(idx, entry);
    key in rows
    && (Same(rows[key], entry)
        || exists i :: 1 <= i <= MAX_ATTEMPTS && Candidate(key, i) in rows && rows[Candidate(key, i)] == RowOf(entry))
  }

  lemma LandedWithin(a: map<string, Row>, b: map<string, Row>, idx: nat, entry: SourceEntry)
    requires Landed(a, idx, entry) && Within(a, b)
    ensures Landed(b, idx, entry)
  {
    hide KeyOf, Candidate, Same;
  }

  lemma StepLands(p: Progress, idx: nat, entry: SourceEntry)
    requires !p.stuck && !Step(p, idx, entry).stuck
    ensures Landed(Step(p, idx, entry).rows, idx, entry)
  {
    hide FreeKeyFrom, KeyOf, Candidate, Same;
    var key := KeyOf(idx, entry);
    SameAsStored(entry);
    FreeKeyExact(p.rows, key, 1);
  }

  lemma {:induction false} PrefixUnstuck(rows: map<string, Row>, entries: seq<SourceEntry>, i: nat)
    requires i <= |entries| && !Run(rows, entries).stuck
    ensures !Run(rows, entries[..i]).stuck
  {
    hide Run;
    if Run(rows, entries[..i]).stuck {
      StuckStays(rows, entries, i);
    }
  }

  /** Every entry of a completed run has landed. */
  lemma EveryEntryLands(rows: map<string, Row>, entries: seq<SourceEntry>, i: nat)
    requires i < |entries| && !Run(rows, entries).stuck
    ensures Landed(Run(rows, entries).rows, i, entries[i])
  {
    hide *;
    PrefixUnstuck(rows, entries, i);
    PrefixUnstuck(rows, entries, i + 1);
    RunStep(rows, entries, i);
    StepLands(Run(rows, entries[..i]), i, entries[i]);
    NeverOverwrites(rows, entries, i + 1);
    LandedWithin(Run(rows, entries[..i + 1]).rows, Run(rows, entries).rows, i, entries[i]);
  }

  /** A row that the run added holds some entry, under its key or a rename of it. */
  ghost predicate FromEntry(k: string, row: Row, entries: seq<SourceEntry>)
  {
    exists i :: 0 <= i < |entries| && row == RowOf(entries[i]) && Reaches(KeyOf(i, entries[i]), k)
  }

  ghost predicate Reaches(key: string, k: string)
  {
    k == key || exists i :: 1 <= i <= MAX_ATTEMPTS && k == Candidate(key, i)
  }

  lemma FromMore(k: string, row: Row, entries: seq<SourceEntry>, n: nat)
    requires n <= |entries| && FromEntry(k, row, entries[..n])
    ensures FromEntry(k, row, entries)
  {
    hide KeyOf, Reaches;
    var i :| 0 <= i < n && row == RowOf(entries[..n][i]) && Reaches(KeyOf(i, entries[..n][i]), k);
    assert entries[..n][i] == entries[i];
  }

  lemma StepAdds(p: Progress, idx: nat, entry: SourceEntry, k: string)
    requires k in Step(p, idx, entry).rows && k !in p.rows
    ensures Step(p, idx, entry).rows[k] == RowOf(entry) && Reaches(KeyOf(idx, entry), k)
  {
    hide FreeKeyFrom, KeyOf, Candidate, Same;
    FreeKeyExact(p.rows, KeyOf(idx, entry), 1);
  }

  /** Nothing is invented: every new row is an entry's row. */
  lemma {:induction false} OnlyEntriesAdded(rows: map<string, Row>, entries: seq<SourceEntry>, k: string)
    requires k in Run(rows, entries).rows && k !in rows
    ensures FromEntry(k, Run(rows, entries).rows[k], entries)
    decreases |entries|
  {
    hide *;
    NoEntries(rows);
    if entries != [] {
      var n := |entries| - 1;
      var before := Run(rows, entries[..n]);
      assert entries[..n + 1] == entries;
      RunStep(rows, entries, n);
      if k in before.rows {
        OnlyEntriesAdded(rows, entries[..n], k);
        StepWithin(before, n, entries[n]);
        WithinAt(before.rows, Run(rows, entries).rows, k);
        FromMore(k, before.rows[k], entries, n);
      } else {
        StepAdds(before, n, entries[n], k);
        FromLast(entries, n, k);
      }
    }
  }

  lemma WithinAt(a: map<string, Row>, b: map<string, Row>, k: string)
    requires Within(a, b) && k in a
    ensures k in b && b[k] == a[k]
  {
  }

  lemma FromLast(entries: seq<SourceEntry>, n: nat, k: string)
    requires n < |entries| && Reaches(KeyOf(n, entries[n]), k)
    ensures FromEntry(k, RowOf(entries[n]), entries)
  {
    hide KeyOf, Reaches;
  }

  // ---------------------------------------------------------------- running the import again

  /** How many entries find other content under their key. */
  ghost function Conflicts(rows: map<string, Row>, entries: seq<SourceEntry>): nat
    requires KeysPresent(rows, entries)
  {
    if entries == [] then 0
    else
      var n := |entries| - 1;
      KeysOfPrefix(rows, entries);
      Conflicts(rows, entries[..n]) + if Same(rows[KeyOf(n, entries[n])], entries[n]) then 0 else 1
  }

  ghost predicate KeysPresent(rows: map<string, Row>, entries: seq<SourceEntry>)
  {
    forall i :: 0 <= i < |entries| ==> KeyOf(i, entries[i]) in rows
  }

  lemma KeysOfPrefix(rows: map<string, Row>, entries: seq<SourceEntry>)
    requires KeysPresent(rows, entries)
    ensures entries != [] ==> KeysPresent(rows, entries[..|entries| - 1]) && KeyOf(|entries| - 1, entries[|entries| - 1]) in rows
  {
    hide KeyOf;
    if entries != [] {
      var init := entries[..|entries| - 1];
      assert forall i :: 0 <= i < |init| ==> init[i] == entries[i];
    }
  }

  lemma {:induction false} ConflictsWithin(a: map<string, Row>, b: map<string, Row>, entries: seq<SourceEntry>)
    requires Within(a, b) && KeysPresent(a, entries)
    ensures KeysPresent(b, entries) && Conflicts(b, entries) == Conflicts(a, entries)
    decreases |entries|
  {
    hide KeyOf, Same;
    if entries != [] {
      KeysOfPrefix(a, entries);
      ConflictsWithin(a, b, entries[..|entries| - 1]);
    }
  }

  /** A completed run leaves every entry's key present, and has renamed exactly the entries in conflict. */
  lemma {:induction false} RenamedAreConflicts(rows: map<string, Row>, entries: seq<SourceEntry>)
    requires !Run(rows, entries).stuck
    ensures var p := Run(rows, entries);
            KeysPresent(p.rows, entries) && p.stats.renamed == Conflicts(p.rows, entries)
    decreases |entries|
  {
    hide *;
    NoEntries(rows);
    if entries == [] {
      NoConflicts(rows);
    } else {
      var n := |entries| - 1;
      PrefixUnstuck(rows, entries, n);
      RenamedAreConflicts(rows, entries[..n]);
      assert entries[..n + 1] == entries;
      RunStep(rows, entries, n);
      var p, q := Run(rows, entries[..n]), Run(rows, entries);
      StepExact(p, n, entries[n]);
      ConflictsWithin(p.rows, q.rows, entries[..n]);
      OneMore(q.rows, entries);
    }
  }

  lemma NoConflicts(rows: map<string, Row>)
    ensures KeysPresent(rows, []) && Conflicts(rows, []) == 0
  {
  }

  lemma OneMore(rows: map<string, Row>, entries: seq<SourceEntry>)
    requires entries != []
    requires KeysPresent(rows, entries[..|entries| - 1]) && KeyOf(|entries| - 1, entries[|entries| - 1]) in rows
    ensures KeysPresent(rows, entries)
    ensures var n := |entries| - 1;
            Conflicts(rows, entries)
            == Conflicts(rows, entries[..n]) + if Same(rows[KeyOf(n, entries[n])], entries[n]) then 0 else 1
  {
    hide KeyOf, Same;
    var init := entries[..|entries| - 1];
    assert forall i :: 0 <= i < |init| ==> init[i] == entries[i];
  }

  /** When all keys are present, everything that is imported is a rename. */
  lemma {:induction false} OnlyRenames(rows: map<string, Row>, entries: seq<SourceEntry>)
    requires KeysPresent(rows, entries)
    ensures var p := Run(rows, entries);
            p.stats.imported == p.stats.renamed
    decreases |entries|
  {
    hide *;
    NoEntries(rows);
    if entries != [] {
      var n := |entries| - 1;
      KeysOfPrefix(rows, entries);
      OnlyRenames(rows, entries[..n]);
      assert entries[..n + 1] == entries;
      RunStep(rows, entries, n);
      var p := Run(rows, entries[..n]);
      FromStart(rows, entries[..n]);
      WithinAt(rows, p.rows, KeyOf(n, entries[n]));
      if p.stuck {
        StuckFixed(p, n, entries[n]);
      } else {
        StepExact(p, n, entries[n]);
      }
    }
  }

  /** Importing the same entries again imports once more exactly what was renamed, and skips the rest. */
  lemma RerunRepeatsRenames(rows: map<string, Row>, entries: seq<SourceEntry>)
    requires !Run(rows, entries).stuck
    ensures var p := Run(rows, entries);
            var q := Run(p.rows, entries);
            !q.stuck ==> q.stats.imported == q.stats.renamed == p.stats.renamed
                         && q.stats.skipped + p.stats.renamed == |entries|
  {
    hide *;
    var p := Run(rows, entries);
    var q := Run(p.rows, entries);
    if !q.stuck {
      RenamedAreConflicts(rows, entries);
      RenamedAreConflicts(p.rows, entries);
      FromStart(p.rows, entries);
      ConflictsWithin(p.rows, q.rows, entries);
      OnlyRenames(p.rows, entries);
      RunConserves(p.rows, entries);
    }
  }

  lemma {:induction false} NoConflictNoChange(rows: map<string, Row>, entries: seq<SourceEntry>)
    requires KeysPresent(rows, entries) && Conflicts(rows, entries) == 0
    ensures var q := Run(rows, entries);
            q.rows == rows && !q.stuck
    decreases |entries|
  {
    hide *;
    NoEntries(rows);
    if entries != [] {
      var n := |entries| - 1;
      KeysOfPrefix(rows, entries);
      OneMore(rows, entries);
      NoConflictNoChange(rows, entries[..n]);
      assert entries[..n + 1] == entries;
      RunStep(rows, entries, n);
      SkipStep(Run(rows, entries[..n]), n, entries[n]);
    }
  }

  lemma SkipStep(p: Progress, idx: nat, entry: SourceEntry)
    requires !p.stuck && KeyOf(idx, entry) in p.rows && Same(p.rows[KeyOf(idx, entry)], entry)
    ensures Step(p, idx, entry).rows == p.rows && !Step(p, idx, entry).stuck
  {
    hide KeyOf, Same;
  }

  /** No entry differs, up to white space at the ends, from a row or another entry under its key. */
  ghost predicate Agrees(rows: map<string, Row>, entries: seq<SourceEntry>)
  {
    && (forall i :: 0 <= i < |entries| && KeyOf(i, entries[i]) in rows ==> Same(rows[KeyOf(i, entries[i])], entries[i]))
    && (forall i, j :: 0 <= i < j < |entries| && KeyOf(i, entries[i]) == KeyOf(j, entries[j])
          ==> Same(RowOf(entries[i]), entries[j]))
  }

  lemma {:induction false} ConflictFree(rows: map<string, Row>, entries: seq<SourceEntry>)
    requires KeysPresent(rows, entries) && Conflicts(rows, entries) == 0
    ensures forall i :: 0 <= i < |entries| ==> Same(rows[KeyOf(i, entries[i])], entries[i])
    decreases |entries|
  {
    hide KeyOf, Same;
    if entries != [] {
      var n := |entries| - 1;
      KeysOfPrefix(rows, entries);
      ConflictFree(rows, entries[..n]);
      assert forall i :: 0 <= i < n ==> entries[..n][i] == entries[i];
    }
  }

  lemma SameRow(row: Row, a: SourceEntry, b: SourceEntry)
    requires Same(row, a) && Same(row, b)
    ensures Same(RowOf(a), b)
  {
  }

  /** Every row is an old one or that of an entry, under its own key. */
  ghost predicate OwnKeys(rows: map<string, Row>, entries: seq<SourceEntry>, n: nat, now: map<string, Row>)
    requires n <= |entries|
  {
    forall k :: k in now ==>
      (k in rows && now[k] == rows[k]) || exists i :: 0 <= i < n && KeyOf(i, entries[i]) == k && now[k] == RowOf(entries[i])
  }

  lemma {:induction false} AgreeingRun(rows: map<string, Row>, entries: seq<SourceEntry>, n: nat)
    requires Agrees(rows, entries) && n <= |entries|
    ensures var p := Run(rows, entries[..n]); !p.stuck && p.stats.renamed == 0 && OwnKeys(rows, entries, n, p.rows)
  {
    hide Agrees, OwnKeys, Run, Step;
    if n == 0 {
      NoEntries(rows);
      OwnKeysStart(rows, entries);
      assert entries[..0] == [];
    } else {
      AgreeingRun(rows, entries, n - 1);
      RunStep(rows, entries, n - 1);
      AgreeingStep(rows, entries, n - 1, Run(rows, entries[..n - 1]));
    }
  }

  lemma OwnKeysStart(rows: map<string, Row>, entries: seq<SourceEntry>)
    ensures OwnKeys(rows, entries, 0, rows)
  {
    hide KeyOf;
  }

  lemma AgreeingStep(rows: map<string, Row>, entries: seq<SourceEntry>, n: nat, p: Progress)
    requires Agrees(rows, entries) && n < |entries| && !p.stuck && OwnKeys(rows, entries, n, p.rows)
    ensures var q := Step(p, n, entries[n]);
            !q.stuck && q.stats.renamed == p.stats.renamed && OwnKeys(rows, entries, n + 1, q.rows)
  {
    hide KeyOf, Same, FreeKey;
    var key := KeyOf(n, entries[n]);
    if key in p.rows && !(key in rows && p.rows[key] == rows[key]) {
      var i :| 0 <= i < n && KeyOf(i, entries[i]) == key && p.rows[key] == RowOf(entries[i]);
      assert Same(RowOf(entries[i]), entries[n]);
    }
  }

  /** What a caller can check beforehand: an import completes without a rename exactly when everything under one key agrees. */
  lemma NoRenamesExactly(rows: map<string, Row>, entries: seq<SourceEntry>)
    ensures var p := Run(rows, entries);
            !p.stuck && p.stats.renamed == 0 <==> Agrees(rows, entries)
  {
    hide KeyOf, Same, Run, KeysPresent, OwnKeys, RowOf;
    var p := Run(rows, entries);
    if Agrees(rows, entries) {
      AgreeingRun(rows, entries, |entries|);
      assert entries[..|entries|] == entries;
    }
    if !p.stuck && p.stats.renamed == 0 {
      RenamedAreConflicts(rows, entries);
      ConflictFree(p.rows, entries);
      FromStart(rows, entries);
      forall i, j | 0 <= i < j < |entries| && KeyOf(i, entries[i]) == KeyOf(j, entries[j])
        ensures Same(RowOf(entries[i]), entries[j])
      {
        KeyIsPresent(p.rows, entries, i);
        SameRow(p.rows[KeyOf(i, entries[i])], entries[i], entries[j]);
      }
    }
  }

  lemma KeyIsPresent(rows: map<string, Row>, entries: seq<SourceEntry>, i: nat)
    requires KeysPresent(rows, entries) && i < |entries|
    ensures KeyOf(i, entries[i]) in rows
  {
    hide KeyOf;
  }

  /**
   A second import is a completed no-op exactly when the first one reported no renamed conflict, which is when everything
   under one key agreed beforehand.
   */
  lemma RerunIsNoOpExactly(rows: map<string, Row>, entries: seq<SourceEntry>)
    requires !Run(rows, entries).stuck
    ensures var p := Run(rows, entries);
            var q := Run(p.rows, entries);
            && ((q.rows == p.rows && !q.stuck) <==> p.stats.renamed == 0)
            && ((q.rows == p.rows && !q.stuck) <==> Agrees(rows, entries))
  {
    hide *;
    var p := Run(rows, entries);
    var q := Run(p.rows, entries);
    NoRenamesExactly(rows, entries);
    RenamedAreConflicts(rows, entries);
    if p.stats.renamed == 0 {
      NoConflictNoChange(p.rows, entries);
    }
    if q.rows == p.rows && !q.stuck {
      RerunRepeatsRenames(rows, entries);
      RunConserves(p.rows, entries);
    }
  }

  lemma RunOne(rows: map<string, Row>, entry: SourceEntry)
    ensures Run(rows, [entry]) == Step(Progress(rows, Stats(0, 0, 0), false), 0, entry)
  {
    hide Step;
    assert [entry][..0] == [];
  }

  lemma CandidateIsLonger(base: string, i: nat)
    ensures |Candidate(base, i)| > |base|
  {
  }

  /** One entry against a row with other content: each import adds it once more, under the next candidate. */
  lemma RerunImportsAgain(key: string, x: string, y: string, category: Category)
    requires !Blank(key) && Trim(x) != Trim(y)
    ensures var k := Trim(key);
            var rows, entries := map[k := Row(x, category)], [SourceEntry(key, y, category)];
            var first := Run(rows, entries);
            var second := Run(first.rows, entries);
            && first == Progress(rows[Candidate(k, 1) := Row(y, category)], Stats(1, 0, 1), false)
            && second == Progress(first.rows[Candidate(k, 2) := Row(y, category)], Stats(1, 0, 1), false)
            && Candidate(k, 2) !in first.rows
  {
    hide Trim, Run, Candidate;
    var k := Trim(key);
    var rows, entry := map[k := Row(x, category)], SourceEntry(key, y, category);
    CandidateIsLonger(k, 1);
    CandidateIsLonger(k, 2);
    if Candidate(k, 1) == Candidate(k, 2) {
      CandidateInjective(k, 1, 2);
    }
    RunOne(rows, entry);
    assert FreeKey(rows, k) == Some(Candidate(k, 1));
    var after := rows[Candidate(k, 1) := Row(y, category)];
    RunOne(after, entry);
    assert FreeKeyFrom(after, k, 2) == Some(Candidate(k, 2));
    assert FreeKey(after, k) == Some(Candidate(k, 2));
  }

  // ---------------------------------------------------------------- exact duplicates in the source

  /** What tells two source entries apart. */
  function Signature(entry: SourceEntry): string
  {
    entry.key + "\0" + entry.content + "\0" + entry.category.Display()
  }

  predicate Duplicate(a: SourceEntry, b: SourceEntry)
  {
    a.key == b.key && a.content == b.content && a.category.Display() == b.category.Display()
  }

  ghost predicate Unambiguous(entry: SourceEntry)
  {
    '\0' !in entry.key && '\0' !in entry.content
  }

  lemma FirstNul(a: string, x: string, b: string, y: string)
    requires '\0' !in a && '\0' !in b && a + "\0" + x == b + "\0" + y
    ensures a == b && x == y
  {
    var s := a + "\0" + x;
    assert s[|a|] == '\0' && s[|b|] == '\0';
    NulBehind(b, s, |a|);
    NulBehind(a, s, |b|);
    assert a == s[..|a|] && b == s[..|b|];
    assert x == s[|a| + 1..] && y == s[|b| + 1..];
  }

  lemma NulBehind(b: string, s: string, k: nat)
    requires b <= s && '\0' !in b && k < |s| && s[k] == '\0'
    ensures k >= |b|
  {
    assert forall i :: 0 <= i < |b| ==> b[i] == s[i];
  }

  /** Between entries without NUL in key and content the signature says exactly whether they are duplicates, whatever their categories. */
  lemma SignatureOfPair(a: SourceEntry, b: SourceEntry)
    requires Unambiguous(a) && Unambiguous(b)
    ensures Signature(a) == Signature(b) <==> Duplicate(a, b)
  {
    var x, y := a.content + "\0" + a.category.Display(), b.content + "\0" + b.category.Display();
    assert Signature(a) == a.key + "\0" + x && Signature(b) == b.key + "\0" + y;
    if Signature(a) == Signature(b) {
      FirstNul(a.key, x, b.key, y);
      FirstNul(a.content, a.category.Display(), b.content, b.category.Display());
    }
  }

  /** With a NUL in a key, different entries can share a signature, and the later one is dropped. */
  lemma SignatureCollides(k: string, c: string, d: string)
    ensures var a := SourceEntry(k, c + "\0" + d, Core);
            var b := SourceEntry(k + "\0" + c, d, Core);
            Signature(a) == Signature(b) && !Duplicate(a, b) && Retained([a, b]) == [a]
  {
    var a := SourceEntry(k, c + "\0" + d, Core);
    var b := SourceEntry(k + "\0" + c, d, Core);
    assert |k + "\0" + c| > |k|;
    assert Signature(a) == Signature(b);
    assert [a, b][..1] == [a] && [a][..0] == [];
    assert Retained([a]) == [a];
  }

  predicate HasNul(entry: SourceEntry)
  {
    '\0' in entry.key || '\0' in entry.content || '\0' in entry.category.Display()
  }

  lemma FieldAt(a: SourceEntry, i: nat)
    requires i < |Signature(a)|
    ensures var k, c, d := a.key, a.content, a.category.Display();
            Signature(a)[i] == if i < |k| then k[i] else if i == |k| then '\0' else if i < |k| + 1 + |c| then c[i - |k| - 1]
                               else if i == |k| + 1 + |c| then '\0' else d[i - |k| - 1 - |c| - 1]
  {
  }

  /** Without NUL in the fields, the signature has NUL only where it joins them. */
  lemma JoinsOnly(a: SourceEntry, i: nat)
    requires !HasNul(a) && i < |Signature(a)| && Signature(a)[i] == '\0'
    ensures i == |a.key| || i == |a.key| + 1 + |a.content|
  {
    FieldAt(a, i);
  }

  lemma Joins(b: SourceEntry)
    ensures var s, i, j := Signature(b), |b.key|, |b.key| + 1 + |b.content|;
            i < j < |s| && s[i] == '\0' && s[j] == '\0'
            && b.key == s[..i] && b.content == s[i + 1..j] && b.category.Display() == s[j + 1..]
  {
  }

  /** An entry without NUL shares its signature with its duplicates only. */
  lemma NoNulNoCollision(a: SourceEntry, b: SourceEntry)
    requires !HasNul(a) && Signature(a) == Signature(b)
    ensures Duplicate(a, b)
  {
    hide HasNul, Signature;
    Joins(a);
    Joins(b);
    JoinsOnly(a, |b.key|);
    JoinsOnly(a, |b.key| + 1 + |b.content|);
  }

  lemma SplitAtNul(s: string) returns (x: string, y: string)
    requires '\0' in s
    ensures s == x + "\0" + y
  {
    var i :| 0 <= i < |s| && s[i] == '\0';
    x, y := s[..i], s[i + 1..];
  }

  /** Another entry with the same signature: the field is cut at its NUL, and a part of it moved into the next field. */
  lemma Collider(a: SourceEntry) returns (b: SourceEntry)
    requires HasNul(a)
    ensures Signature(a) == Signature(b) && !Duplicate(a, b)
  {
    var d := a.category.Display();
    if '\0' in a.key {
      var x, y := SplitAtNul(a.key);
      b := SourceEntry(x, y + "\0" + a.content, a.category);
      assert x + "\0" + y + "\0" + a.content + "\0" + d == x + "\0" + (y + "\0" + a.content) + "\0" + d;
      assert |a.key| > |x|;
    } else if '\0' in a.content {
      var x, y := SplitAtNul(a.content);
      b := SourceEntry(a.key + "\0" + x, y, a.category);
      assert a.key + "\0" + (x + "\0" + y) + "\0" + d == (a.key + "\0" + x) + "\0" + y + "\0" + d;
      assert |b.key| > |a.key|;
    } else {
      var x, y := SplitAtNul(d);
      b := SourceEntry(a.key, a.content + "\0" + x, Custom(y));
      assert a.key + "\0" + a.content + "\0" + (x + "\0" + y) == a.key + "\0" + (a.content + "\0" + x) + "\0" + y;
      assert |b.content| > |a.content|;
    }
  }

  /** An entry shares its signature with a different one exactly when a NUL is in one of its fields. */
  lemma SignatureExact(a: SourceEntry)
    ensures (exists b :: Signature(a) == Signature(b) && !Duplicate(a, b)) <==> HasNul(a)
  {
    hide HasNul, Signature, Duplicate;
    if HasNul(a) {
      var b := Collider(a);
    } else {
      forall b | Signature(a) == Signature(b)
        ensures Duplicate(a, b)
      {
        NoNulNoCollision(a, b);
      }
    }
  }

  predicate Seen(entries: seq<SourceEntry>, entry: SourceEntry)
  {
    exists i :: 0 <= i < |entries| && Signature(entries[i]) == Signature(entry)
  }

  /** The entries whose signature is new, in order. */
  function Retained(entries: seq<SourceEntry>): seq<SourceEntry>
  {
    if entries == [] then []
    else
      var n := |entries| - 1;
      Retained(entries[..n]) + if Seen(entries[..n], entries[n]) then [] else [entries[n]]
  }

  lemma RetainedPair(a: SourceEntry, b: SourceEntry)
    ensures Retained([a, b]) == if Signature(a) == Signature(b) then [a] else [a, b]
  {
    hide Signature;
    assert [a, b][..1] == [a] && [a][..0] == [];
    assert Retained([a]) == [a];
    assert Seen([a], b) <==> Signature(a) == Signature(b);
  }

  /** Behind an entry, a different one can be dropped exactly when a NUL is in one of the first one's fields. */
  lemma DropsADifferentEntryExactly(a: SourceEntry)
    ensures (exists b :: Retained([a, b]) == [a] && !Duplicate(a, b)) <==> HasNul(a)
  {
    hide HasNul, Signature, Duplicate, Retained;
    if HasNul(a) {
      var b := Collider(a);
      RetainedPair(a, b);
    } else {
      forall b | Retained([a, b]) == [a]
        ensures Duplicate(a, b)
      {
        RetainedPair(a, b);
        NoNulNoCollision(a, b);
      }
    }
  }

  ghost predicate SeenAre(seen: set<string>, entries: seq<SourceEntry>)
  {
    forall e :: Signature(e) in seen <==> Seen(entries, e)
  }

  method RetainFirst(entries: seq<SourceEntry>) returns (kept: seq<SourceEntry>)
    ensures kept == Retained(entries)
  {
    hide *;
    kept := [];
    var seen: set<string> := {};
    NothingSeen();
    for i := 0 to |entries|
      invariant kept == Retained(entries[..i])
      invariant SeenAre(seen, entries[..i])
    {
      RetainedStep(entries, i);
      SeenMore(seen, entries, i);
      SeenMeans(seen, entries[..i], entries[i]);
      var sig := Signature(entries[i]);
      if sig !in seen {
        kept := kept + [entries[i]];
      }
      seen := seen + {sig};
    }
    assert entries[..|entries|] == entries;
  }

  lemma NothingSeen()
    ensures SeenAre({}, []) && Retained([]) == []
  {
  }

  lemma RetainedStep(entries: seq<SourceEntry>, i: nat)
    requires i < |entries|
    ensures Retained(entries[..i + 1])
            == if Seen(entries[..i], entries[i]) then Retained(entries[..i]) else Retained(entries[..i]) + [entries[i]]
  {
    hide Seen;
    assert entries[..i + 1][..i] == entries[..i];
  }

  lemma SeenMeans(seen: set<string>, entries: seq<SourceEntry>, e: SourceEntry)
    requires SeenAre(seen, entries)
    ensures Signature(e) in seen <==> Seen(entries, e)
  {
    hide Signature, Seen;
  }

  lemma SeenMore(seen: set<string>, entries: seq<SourceEntry>, i: nat)
    requires i < |entries| && SeenAre(seen, entries[..i])
    ensures SeenAre(seen + {Signature(entries[i])}, entries[..i + 1])
  {
    hide Signature, Seen;
    forall e
      ensures Signature(e) in seen + {Signature(entries[i])} <==> Seen(entries[..i + 1], e)
    {
      SeenStep(entries, i, e);
    }
  }

  lemma SeenStep(entries: seq<SourceEntry>, i: nat, e: SourceEntry)
    requires i < |entries|
    ensures Seen(entries[..i + 1], e) <==> Seen(entries[..i], e) || Signature(entries[i]) == Signature(e)
  {
    hide Signature;
    var before, all := entries[..i], entries[..i + 1];
    if Seen(before, e) {
      var k :| 0 <= k < |before| && Signature(before[k]) == Signature(e);
      assert all[k] == before[k];
    }
    assert all[i] == entries[i];
  }

  ghost predicate HasSignature(r: seq<SourceEntry>, entry: SourceEntry)
  {
    exists k :: 0 <= k < |r| && Signature(r[k]) == Signature(entry)
  }

  /** Only source entries are retained, one for each signature. */
  lemma {:induction false} RetainedPerSignature(entries: seq<SourceEntry>)
    ensures forall k :: 0 <= k < |Retained(entries)| ==> Retained(entries)[k] in entries
    ensures forall i :: 0 <= i < |entries| ==> HasSignature(Retained(entries), entries[i])
    ensures forall k, l :: 0 <= k < l < |Retained(entries)| ==> Signature(Retained(entries)[k]) != Signature(Retained(entries)[l])
    decreases |entries|
  {
    hide Signature, HasSignature, Seen;
    if entries != [] {
      var n := |entries| - 1;
      var init, last := entries[..n], entries[n];
      assert forall i :: 0 <= i < n ==> init[i] == entries[i];
      RetainedPerSignature(init);
      var before, r := Retained(init), Retained(entries);
      forall i | 0 <= i < n
        ensures HasSignature(r, entries[i])
      {
        SignatureStays(before, r, init[i]);
      }
      if Seen(init, last) {
        var i := SeenAt(init, last);
        SignatureStays(before, r, init[i]);
        SameSignature(r, init[i], last);
      } else {
        assert r[|before|] == last;
        OwnSignature(r, |before|);
        UnseenIsNew(init, before, last);
      }
    }
  }

  lemma SignatureStays(a: seq<SourceEntry>, b: seq<SourceEntry>, entry: SourceEntry)
    requires a <= b && HasSignature(a, entry)
    ensures HasSignature(b, entry)
  {
    hide Signature;
    var k :| 0 <= k < |a| && Signature(a[k]) == Signature(entry);
    assert b[k] == a[k];
  }

  lemma SameSignature(r: seq<SourceEntry>, a: SourceEntry, b: SourceEntry)
    requires HasSignature(r, a) && Signature(a) == Signature(b)
    ensures HasSignature(r, b)
  {
    hide Signature;
  }

  lemma OwnSignature(r: seq<SourceEntry>, k: nat)
    requires k < |r|
    ensures HasSignature(r, r[k])
  {
    hide Signature;
  }

  lemma SeenAt(init: seq<SourceEntry>, last: SourceEntry) returns (i: nat)
    requires Seen(init, last)
    ensures i < |init| && Signature(init[i]) == Signature(last)
  {
    hide Signature;
    i :| 0 <= i < |init| && Signature(init[i]) == Signature(last);
  }

  lemma UnseenIsNew(init: seq<SourceEntry>, before: seq<SourceEntry>, last: SourceEntry)
    requires !Seen(init, last) && forall k :: 0 <= k < |before| ==> before[k] in init
    ensures forall k :: 0 <= k < |before| ==> Signature(before[k]) != Signature(last)
  {
    hide Signature;
  }

  /** No two retained entries are duplicates. */
  lemma RetainedDistinct(entries: seq<SourceEntry>)
    ensures forall k, l :: 0 <= k < l < |Retained(entries)| ==> !Duplicate(Retained(entries)[k], Retained(entries)[l])
  {
    hide Retained, HasSignature;
    RetainedPerSignature(entries);
  }

  /** Entries with one signature are duplicates. */
  ghost predicate Faithful(entries: seq<SourceEntry>)
  {
    forall i, j :: 0 <= i < |entries| && 0 <= j < |entries| && Signature(entries[i]) == Signature(entries[j])
                   ==> Duplicate(entries[i], entries[j])
  }

  lemma NoNulIsFaithful(entries: seq<SourceEntry>)
    requires forall i :: 0 <= i < |entries| ==> !HasNul(entries[i])
    ensures Faithful(entries)
  {
    hide Signature, Duplicate, HasNul;
    forall i, j | 0 <= i < |entries| && 0 <= j < |entries| && Signature(entries[i]) == Signature(entries[j])
      ensures Duplicate(entries[i], entries[j])
    {
      NoNulNoCollision(entries[i], entries[j]);
    }
  }

  lemma DuplicateLaws(a: SourceEntry, b: SourceEntry, c: SourceEntry)
    ensures Duplicate(a, b) ==> Signature(a) == Signature(b)
    ensures Duplicate(a, b) && Duplicate(a, c) ==> Duplicate(b, c)
  {
  }

  lemma FaithfulCovers(entries: seq<SourceEntry>, r: seq<SourceEntry>, i: nat)
    requires Faithful(entries) && i < |entries| && HasSignature(r, entries[i])
    requires forall k :: 0 <= k < |r| ==> r[k] in entries
    ensures HasDuplicate(r, entries[i])
  {
    hide Signature, Duplicate;
    var k :| 0 <= k < |r| && Signature(r[k]) == Signature(entries[i]);
    var j :| 0 <= j < |entries| && entries[j] == r[k];
  }

  lemma CoveredAreDuplicates(r: seq<SourceEntry>, a: SourceEntry, b: SourceEntry)
    requires forall k, l :: 0 <= k < l < |r| ==> Signature(r[k]) != Signature(r[l])
    requires HasDuplicate(r, a) && HasDuplicate(r, b) && Signature(a) == Signature(b)
    ensures Duplicate(a, b)
  {
    hide Signature, Duplicate;
    var k :| 0 <= k < |r| && Duplicate(r[k], a);
    var l :| 0 <= l < |r| && Duplicate(r[l], b);
    DuplicateLaws(r[k], a, b);
    DuplicateLaws(r[l], b, a);
    assert k == l;
  }

  /** Each source entry has a duplicate among the retained ones exactly when entries with one signature are duplicates; without NUL they are. */
  lemma RetainedCovers(entries: seq<SourceEntry>)
    ensures forall k :: 0 <= k < |Retained(entries)| ==> Retained(entries)[k] in entries
    ensures (forall i :: 0 <= i < |entries| ==> HasDuplicate(Retained(entries), entries[i])) <==> Faithful(entries)
    ensures (forall i :: 0 <= i < |entries| ==> !HasNul(entries[i])) ==> Faithful(entries)
  {
    hide Retained, Signature, Duplicate, HasNul, HasSignature, HasDuplicate;
    RetainedPerSignature(entries);
    var r := Retained(entries);
    if forall i :: 0 <= i < |entries| ==> !HasNul(entries[i]) {
      NoNulIsFaithful(entries);
    }
    if Faithful(entries) {
      forall i | 0 <= i < |entries|
        ensures HasDuplicate(r, entries[i])
      {
        FaithfulCovers(entries, r, i);
      }
    }
    if forall i :: 0 <= i < |entries| ==> HasDuplicate(r, entries[i]) {
      forall i, j | 0 <= i < |entries| && 0 <= j < |entries| && Signature(entries[i]) == Signature(entries[j])
        ensures Duplicate(entries[i], entries[j])
      {
        CoveredAreDuplicates(r, entries[i], entries[j]);
      }
    }
  }

  ghost predicate HasDuplicate(r: seq<SourceEntry>, entry: SourceEntry)
  {
    exists k :: 0 <= k < |r| && Duplicate(r[k], entry)
  }
}
