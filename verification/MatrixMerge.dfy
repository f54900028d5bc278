// Merging with conflicts.
module MatrixMerge {
  // Per-rank rows from records, merged into one matrix.

  import opened Wrappers

  // What one record contributes: a row for one source rank, or a reason to refuse the merge.
  datatype Entry = Bad | Row(rank: nat, values: seq<int>)

  datatype Outcome =
    | BadRecord
    | Conflicting(ranks: set<nat>)
    | Merged(matrix: seq<seq<int>>, seen: set<nat>)

  predicate Usable(entries: seq<Entry>, world: nat) {
    forall i | 0 <= i < |entries| :: entries[i].Row? && entries[i].rank < world
  }

  ghost predicate Disputed(entries: seq<Entry>, rank: nat) {
    exists a, b :: a in entries && b in entries && a.Row? && b.Row? && a.rank == b.rank == rank && a.values != b.values
  }

  ghost predicate Seen(entries: seq<Entry>, rank: nat) {
    exists a :: a in entries && a.Row? && a.rank == rank
  }

  function Zeros(width: nat): seq<int> { seq(width, _ => 0) }

  // The merged line of a rank: the row all its records agree on, or zeros when it has none.
  ghost predicate LineOf(entries: seq<Entry>, width: nat, rank: nat, line: seq<int>) {
    && (forall a | a in entries && a.Row? && a.rank == rank :: a.values == line)
    && (!Seen(entries, rank) ==> line == Zeros(width))
  }

  /** What a merge of these contributions must answer. */
  ghost predicate IsOutcome(entries: seq<Entry>, world: nat, width: nat, out: Outcome) {
    match out
    case BadRecord => !Usable(entries, world)
    case Conflicting(ranks) => Usable(entries, world) && ranks != {} && forall r: nat :: r in ranks <==>
          Disputed(entries, r)
    case Merged(matrix, seen) =>
      && Usable(entries, world)
      && (forall r: nat :: !Disputed(entries, r))
      && (forall r: nat :: r in seen <==> Seen(entries, r))
      && |matrix| == world
      && forall r: nat | r < world :: LineOf(entries, width, r, matrix[r])
  }

  // -------------------------------------------------------------------------- the loop

  // State of the loop for one rank: seen, disputed, and its line is the first row met.
  ghost predicate RankState(done: seq<Entry>, width: nat, seen: set<nat>, conflicts: set<nat>, rank: nat,
                            line: seq<int>) {
    && (rank in seen <==> Seen(done, rank))
    && (rank in conflicts <==> Disputed(done, rank))
    && (rank in seen ==> Row(rank, line) in done)
    && (rank !in seen ==> line == Zeros(width))
  }

  lemma SeenStep(done: seq<Entry>, e: Entry, rank: nat)
    requires e.Row?
    ensures Seen(done + [e], rank) <==> Seen(done, rank) || e.rank == rank
  {
    if Seen(done, rank) {
      var a :| a in done && a.Row? && a.rank == rank;
      assert a in done + [e];
    }
    assert e in done + [e];
  }

  lemma DisputedStep(done: seq<Entry>, e: Entry, rank: nat, line: seq<int>)
    requires e.Row? && (Seen(done, rank) ==> Row(rank, line) in done)
    ensures Disputed(done + [e], rank) <==>
              Disputed(done, rank) || (e.rank == rank && Seen(done, rank) && e.values != line)
  {
    var next := done + [e];
    if Disputed(done, rank) {
      var a, b :| a in done && b in done && a.Row? && b.Row? && a.rank == b.rank == rank && a.values != b.values;
      assert a in next && b in next;
    }
    if e.rank == rank && Seen(done, rank) && e.values != line {
      assert e in next && Row(rank, line) in next;
    }
    if Disputed(next, rank) && !Disputed(done, rank) {
      var a, b :| a in next && b in next && a.Row? && b.Row? && a.rank == b.rank == rank && a.values != b.values;
      var other := if a == e then b else a;
      assert other in done;
      assert e.rank == rank && Row(rank, line).values == other.values;
    }
  }

  lemma KeepRank(done: seq<Entry>, e: Entry, width: nat, seen: set<nat>, seen': set<nat>, conflicts: set<nat>,
                 conflicts': set<nat>,
                 rank: nat, line: seq<int>, line': seq<int>)
    requires e.Row? && RankState(done, width, seen, conflicts, rank, line)
    requires if e.rank != rank then (rank in seen <==> rank in seen') &&
             (rank in conflicts <==> rank in conflicts') && line' == line
             else rank in seen' && (rank in conflicts' <==> rank in conflicts || (rank in seen && line != e.values))
                  && line' == if rank in seen then line else e.values
    ensures RankState(done + [e], width, seen', conflicts', rank, line')
  {
    SeenStep(done, e, rank);
    DisputedStep(done, e, rank, line);
    assert rank in seen ==> Row(rank, line) in done + [e];
    assert e in done + [e];
  }

  /** Reads the contributions one by one: the first row of a rank is kept, later ones must agree. */
  method Merge(entries: seq<Entry>, world: nat, width: nat) returns (out: Outcome)
    ensures IsOutcome(entries, world, width, out)
  {
    var mergedRows := seq(world, _ => Zeros(width));
    var seen: set<nat> := {};
    var conflicts: set<nat> := {};
    for k := 0 to |entries|
      invariant |mergedRows| == world && Usable(entries[..k], world)
      invariant forall r: nat | r < world :: RankState(entries[..k], width, seen, conflicts, r, mergedRows[r])
      invariant (forall r | r in seen :: r < world) && (forall r | r in conflicts :: r < world)
    {
      var e := entries[k];
      if e.Bad? || e.rank >= world {
        assert !Usable(entries, world);
        return BadRecord;
      }
      assert entries[..k + 1] == entries[..k] + [e];
      ghost var seen0, conflicts0, rows0 := seen, conflicts, mergedRows;
      if e.rank in seen {
        if mergedRows[e.rank] != e.values {
          conflicts := conflicts + {e.rank};
        }
      } else {
        mergedRows := mergedRows[e.rank := e.values];
        seen := seen + {e.rank};
      }
      forall r: nat | r < world
        ensures RankState(entries[..k + 1], width, seen, conflicts, r, mergedRows[r])
      {
        KeepRank(entries[..k], e, width, seen0, seen, conflicts0, conflicts, r, rows0[r], mergedRows[r]);
      }
    }
    assert entries[..|entries|] == entries;
    FinishMerge(entries, world, width, seen, conflicts, mergedRows);
    out := if conflicts != {} then Conflicting(conflicts) else Merged(mergedRows, seen);
  }

  lemma FinishMerge(entries: seq<Entry>, world: nat, width: nat, seen: set<nat>, conflicts: set<nat>,
                    rows: seq<seq<int>>)
    requires Usable(entries, world) && |rows| == world
    requires forall r: nat | r < world :: RankState(entries, width, seen, conflicts, r, rows[r])
    requires (forall r | r in seen :: r < world) && (forall r | r in conflicts :: r < world)
    ensures IsOutcome(entries, world, width, if conflicts != {} then Conflicting(conflicts) else Merged(rows, seen))
  {
    forall r: nat
      ensures (r in seen <==> Seen(entries, r)) && (r in conflicts <==> Disputed(entries, r))
    {
      if r < world {
        assert RankState(entries, width, seen, conflicts, r, rows[r]);
      }
    }
    if conflicts == {} {
      forall r: nat | r < world
        ensures LineOf(entries, width, r, rows[r])
      {
        assert RankState(entries, width, seen, conflicts, r, rows[r]);
      }
    }
  }

  // ------------------------------------------------------------------------ confluence

  ghost predicate SameElements<T(!new)>(a: seq<T>, b: seq<T>) {
    forall x :: x in a <==> x in b
  }

  lemma UsableTransfers(a: seq<Entry>, b: seq<Entry>, world: nat)
    requires SameElements(a, b) && Usable(a, world)
    ensures Usable(b, world)
  {
    forall i | 0 <= i < |b|
      ensures b[i].Row? && b[i].rank < world
    {
      assert b[i] in a;
    }
  }

  lemma RankTransfers(a: seq<Entry>, b: seq<Entry>, rank: nat)
    requires SameElements(a, b)
    ensures (Disputed(a, rank) <==> Disputed(b, rank)) && (Seen(a, rank) <==> Seen(b, rank))
  {
  }

  /** The answer does not depend on the order of the records or on how often one is repeated: not
      the kind of answer, not the conflicting ranks, not the matrix. */
  lemma MergeConfluent(a: seq<Entry>, b: seq<Entry>, world: nat, width: nat, out: Outcome, out': Outcome)
    requires SameElements(a, b) && IsOutcome(a, world, width, out) && IsOutcome(b, world, width, out')
    ensures out == out'
  {
    if Usable(a, world) { UsableTransfers(a, b, world); }
    if Usable(b, world) { UsableTransfers(b, a, world); }
    forall r: nat
      ensures (Disputed(a, r) <==> Disputed(b, r)) && (Seen(a, r) <==> Seen(b, r))
    {
      RankTransfers(a, b, r);
    }
    if out.Conflicting? {
      var r :| r in out.ranks;
      assert Disputed(b, r);
      assert out'.Conflicting?;
      assert out.ranks == out'.ranks;
    } else if out.Merged? {
      assert out'.Merged? && out.seen == out'.seen;
      forall r: nat | r < world
        ensures out.matrix[r] == out'.matrix[r]
      {
        assert LineOf(a, width, r, out.matrix[r]) && LineOf(b, width, r, out'.matrix[r]);
      }
      assert out.matrix == out'.matrix;
    }
  }

  /** A merge succeeds exactly when every record is usable and no rank is disputed; it is complete
      exactly when every rank contributed a row. */
  lemma MergeSucceedsIff(entries: seq<Entry>, world: nat, width: nat, out: Outcome)
    requires IsOutcome(entries, world, width, out)
    ensures out.Merged? <==> Usable(entries, world) && forall r: nat :: !Disputed(entries, r)
    ensures out.Merged? ==> (Missing(out.seen, world) == {} <==> forall r: nat | r < world :: Seen(entries, r))
  {
    if out.Conflicting? {
      var r :| r in out.ranks;
      assert Disputed(entries, r);
    }
    if out.Merged? {
      if Missing(out.seen, world) == {} {
        forall r: nat | r < world
          ensures Seen(entries, r)
        {
          assert r !in Missing(out.seen, world);
        }
      }
    }
  }

  function Missing(seen: set<nat>, world: nat): set<nat> {
    set r: nat | r < world && r !in seen
  }

  // --------------------------------------------------------- the three kinds of records

  /** Contributions of the records that pass the filter, in order. */
  function Contributions<R>(records: seq<R>, entry: R -> Option<Entry>): (entries: seq<Entry>)
  {
    if records == [] then [] else
      var last := entry(records[|records| - 1]);
      Contributions(records[..|records| - 1], entry) + (if last.Some? then [last.value] else [])
  }

  lemma {:induction false} ContributionMembers<R>(records: seq<R>, entry: R -> Option<Entry>, e: Entry)
    ensures e in Contributions(records, entry) <==> exists k :: 0 <= k < |records| && entry(records[k]) == Some(e)
  {
    if records != [] {
      var rest := records[..|records| - 1];
      ContributionMembers(rest, entry, e);
      if k :| 0 <= k < |rest| && entry(rest[k]) == Some(e) {
        assert entry(records[k]) == Some(e);
      }
    }
  }

  /** Reordering or repeating records leaves the set of contributions unchanged. */
  lemma SameRecordsContribute<R(!new)>(a: seq<R>, b: seq<R>, entry: R -> Option<Entry>)
    requires SameElements(a, b)
    ensures SameElements(Contributions(a, entry), Contributions(b, entry))
  {
    forall e
      ensures e in Contributions(a, entry) <==> e in Contributions(b, entry)
    {
      ContributionMembers(a, entry, e);
      ContributionMembers(b, entry, e);
      if k :| 0 <= k < |a| && entry(a[k]) == Some(e) {
        assert a[k] in b;
      }
      if k :| 0 <= k < |b| && entry(b[k]) == Some(e) {
        assert b[k] in a;
      }
    }
  }

  datatype ExpertRecord = ExpertRecord(layer: int, sourceRank: Option<int>, counts: seq<seq<int>>)

  predicate HasPositive(row: seq<int>) { exists j :: 0 <= j < |row| && row[j] > 0 }

  function NonzeroRows(counts: seq<seq<int>>, n: nat): (rows: seq<nat>)
    requires n <= |counts|
    ensures forall r | r in rows :: r < n
  {
    if n == 0 then [] else NonzeroRows(counts, n - 1) + (if HasPositive(counts[n - 1]) then [n - 1] else [])
  }

  // The rank a record speaks for, inferred from its only non-zero row when it does not say.
  function SourceRank(record: ExpertRecord): Option<int> {
    match record.sourceRank
    case Some(rank) => Some(rank)
    case None =>
      var nonzero := NonzeroRows(record.counts, |record.counts|);
      if |nonzero| == 1 then Some(nonzero[0]) else None
  }

  function Padded(row: seq<int>, width: nat): (padded: seq<int>)
    requires |row| <= width
    ensures |padded| == width
  {
    row + Zeros(width - |row|)
  }

  function ExpertEntry(layer: int, world: nat, experts: nat): ExpertRecord -> Option<Entry> {
    (record: ExpertRecord) =>
      if record.layer != layer then None else
        var rank := SourceRank(record);
        if rank.None? || rank.value < 0 || rank.value >= world || rank.value >= |record.counts| then Some(Bad)
        else if |record.counts[rank.value]| > experts then Some(Bad)
        else Some(Row(rank.value, Padded(record.counts[rank.value], experts)))
  }

  datatype AuditRow = AuditRow(layer: int, sourceRank: Option<nat>, actualMatrix: seq<seq<int>>)

  function AuditEntry(layer: int, world: nat): AuditRow -> Option<Entry> {
    (row: AuditRow) =>
      if row.layer != layer then None
      else if row.sourceRank.None? || row.sourceRank.value >= |row.actualMatrix| ||
        row.sourceRank.value >= world then Some(Bad)
      else Some(Row(row.sourceRank.value, row.actualMatrix[row.sourceRank.value]))
  }

  datatype ContextRow = ContextRow(dispatch: bool, layer: int, globalRank: Option<nat>, rank: Option<nat>,
                                   groupRank: Option<nat>, peerBytes: seq<int>)

  function FirstKnown(row: ContextRow): Option<nat> {
    if row.globalRank.Some? then row.globalRank else if row.rank.Some? then row.rank else row.groupRank
  }

  function ContextEntry(layer: int, world: nat): ContextRow -> Option<Entry> {
    (row: ContextRow) =>
      if !row.dispatch || row.layer != layer then None
      else if FirstKnown(row).None? || |row.peerBytes| != world || FirstKnown(row).value >= world then Some(Bad)
      else Some(Row(FirstKnown(row).value, row.peerBytes))
  }

  method MergeExpertCounts(records: seq<ExpertRecord>, layer: int, world: nat, experts: nat) returns (out: Outcome)
    ensures IsOutcome(Contributions(records, ExpertEntry(layer, world, experts)), world, experts, out)
  {
    out := Merge(Contributions(records, ExpertEntry(layer, world, experts)), world, experts);
  }

  method MergeActualTraffic(rows: seq<AuditRow>, layer: int, world: nat) returns (out: Option<Outcome>)
    ensures out.None? <==> forall row | row in rows :: row.layer != layer
    ensures out.Some? ==> IsOutcome(Contributions(rows, AuditEntry(layer, world)), world, world, out.value)
  {
    var entries := Contributions(rows, AuditEntry(layer, world));
    NothingContributed(rows, AuditEntry(layer, world));
    if entries == [] { return None; }
    var merged := Merge(entries, world, world);
    out := Some(merged);
  }

  method MergePhaseContexts(rows: seq<ContextRow>, layer: int, world: nat) returns (out: Option<Outcome>)
    ensures out.None? <==> forall row | row in rows :: !(row.dispatch && row.layer == layer)
    ensures out.Some? ==> IsOutcome(Contributions(rows, ContextEntry(layer, world)), world, world, out.value)
  {
    var entries := Contributions(rows, ContextEntry(layer, world));
    NothingContributed(rows, ContextEntry(layer, world));
    if entries == [] { return None; }
    var merged := Merge(entries, world, world);
    out := Some(merged);
  }

  lemma {:induction false} NothingContributed<R(!new)>(records: seq<R>, entry: R -> Option<Entry>)
    ensures Contributions(records, entry) == [] <==> forall r | r in records :: entry(r).None?
  {
    if records != [] {
      NothingContributed(records[..|records| - 1], entry);
      assert records == records[..|records| - 1] + [records[|records| - 1]];
    }
  }

  /** Each of the three merges is confluent: any rearrangement or repetition of the records gives
      the same answer. */
  lemma RecordMergeConfluent<R(!new)>(a: seq<R>, b: seq<R>, entry: R -> Option<Entry>, world: nat, width: nat,
                               out: Outcome, out': Outcome)
    requires SameElements(a, b)
    requires IsOutcome(Contributions(a, entry), world, width, out) &&
             IsOutcome(Contributions(b, entry), world, width, out')
    ensures out == out'
  {
    SameRecordsContribute(a, b, entry);
    MergeConfluent(Contributions(a, entry), Contributions(b, entry), world, width, out, out');
  }
}
