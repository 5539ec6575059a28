/** One step of the memory import in letters: the key an entry goes to, when two contents agree, and what is counted. */
module MigrationMeaning {
  import opened Wrappers
  import opened Text
  import opened Decimal
  import opened Migration

  /** The entry's own key, or a made-up one where that is blank. */
  predicate GoesTo(idx: nat, entry: SourceEntry, key: string)
  {
    if Trim(entry.key) == "" then key == "openclaw_" + Printed(idx) else key == Trim(entry.key)
  }

  /** The `i`-th rename of a key. */
  predicate RenamedTo(key: string, i: nat, other: string)
  {
    other == key + "__openclaw_" + Printed(i)
  }

  /** The lowest rename of the key that is free, out of ten thousand. */
  ghost predicate LowestFree(rows: map<string, Row>, key: string, other: string)
  {
    other !in rows
    && exists i: nat :: 1 <= i <= 10000 && RenamedTo(key, i, other)
         && forall j: nat, taken :: 1 <= j < i && RenamedTo(key, j, taken) ==> taken in rows
  }

  ghost predicate NoneFree(rows: map<string, Row>, key: string)
  {
    forall i: nat, other :: 1 <= i <= 10000 && RenamedTo(key, i, other) ==> other in rows
  }

  lemma FreeKeyReads(rows: map<string, Row>, key: string)
    ensures FreeKey(rows, key).None? <==> NoneFree(rows, key)
    ensures FreeKey(rows, key).Some? ==> LowestFree(rows, key, FreeKey(rows, key).value)
  {
    hide FreeKeyFrom, Candidate, RenamedTo, Printed;
    FreeKeyExact(rows, key, 1);
    forall i: nat, other
      ensures RenamedTo(key, i, other) <==> other == Candidate(key, i)
    {
      RenameReads(key, i, other);
    }
    if NoneFree(rows, key) {
      forall i | 1 <= i <= MAX_ATTEMPTS
        ensures Candidate(key, i) in rows
      {
        assert RenamedTo(key, i, Candidate(key, i));
      }
    }
    if FreeKey(rows, key).Some? {
      var other := FreeKey(rows, key).value;
      var i :| 1 <= i <= MAX_ATTEMPTS && other == Candidate(key, i) && forall j :: 1 <= j < i ==> Candidate(key, j) in rows;
      assert RenamedTo(key, i, other);
    }
  }

  lemma RenameReads(key: string, i: nat, other: string)
    ensures RenamedTo(key, i, other) <==> other == Candidate(key, i)
  {
    hide Printed;
  }

  /**
   One entry: stored under its key if that is free, skipped if the row there has the same content up to white space at the
   ends, else stored under the lowest free rename; the import stops where there is none.
   */
  lemma StepReads(p: Progress, idx: nat, entry: SourceEntry, key: string)
    requires GoesTo(idx, entry, key)
    ensures var q, row := Step(p, idx, entry), Row(entry.content, entry.category);
            && (p.stuck ==> q == p)
            && (!p.stuck && key !in p.rows ==>
                q == Progress(p.rows[key := row], Stats(p.stats.imported + 1, p.stats.skipped, p.stats.renamed), false))
            && (!p.stuck && key in p.rows && Trim(p.rows[key].content) == Trim(entry.content) ==>
                q == Progress(p.rows, Stats(p.stats.imported, p.stats.skipped + 1, p.stats.renamed), false))
            && (!p.stuck && key in p.rows && Trim(p.rows[key].content) != Trim(entry.content) ==>
                && (NoneFree(p.rows, key) ==> q == Progress(p.rows, p.stats, true))
                && (!NoneFree(p.rows, key) ==>
                    exists other :: LowestFree(p.rows, key, other)
                      && q == Progress(p.rows[other := row],
                                       Stats(p.stats.imported + 1, p.stats.skipped, p.stats.renamed + 1), false)))
  {
    hide Trim, Printed, FreeKey, NoneFree, LowestFree;
    FreeKeyReads(p.rows, key);
  }

  /** The import takes the entries in order, each with its position, from no counts at all. */
  lemma RunReads(rows: map<string, Row>, entries: seq<SourceEntry>, last: SourceEntry)
    ensures Run(rows, []) == Progress(rows, Stats(0, 0, 0), false)
    ensures Run(rows, entries + [last]) == Step(Run(rows, entries), |entries|, last)
  {
    hide Step;
    assert (entries + [last])[..|entries|] == entries;
  }

  /** What two entries must share to count as one, in letters. */
  lemma SignatureReads(entry: SourceEntry)
    ensures entry.category.Core? ==> Signature(entry) == entry.key + "\0" + entry.content + "\0core"
    ensures entry.category.Daily? ==> Signature(entry) == entry.key + "\0" + entry.content + "\0daily"
    ensures entry.category.Conversation? ==> Signature(entry) == entry.key + "\0" + entry.content + "\0conversation"
    ensures entry.category.Custom? ==> Signature(entry) == entry.key + "\0" + entry.content + "\0" + entry.category.name
  {
    var front := entry.key + "\0" + entry.content;
    assert forall name: string :: front + ("\0" + name) == front + "\0" + name;
    assert "\0" + "core" == "\0core" && "\0" + "daily" == "\0daily" && "\0" + "conversation" == "\0conversation";
  }
}
