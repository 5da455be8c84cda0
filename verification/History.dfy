/** The history table: validation, batched insertion and pruning to the newest rows. */
module History {
  import opened Common
  import opened Normalize
  import opened Timestamps

  const MAX_HISTORY_ENTRIES := 1000

  datatype CompletedEntry = CompletedEntry(createdAt: string, source: Source, target: string, context: Option<string>,
                                           output: string, promptId: string, model: string, servedFromCache: bool)

  datatype Row = Row(id: nat, entry: CompletedEntry)

  /** The table and its AUTOINCREMENT counter. */
  datatype Table = Table(rows: set<Row>, lastId: nat)

  ghost predicate ValidEntry(e: CompletedEntry) {
    && NormalizeText(e.target) != "" && NormalizeText(e.output) != ""
    && NormalizeText(e.createdAt) != "" && Canonical(e.createdAt)
    && NormalizeText(e.promptId) != "" && NormalizeText(e.model) != ""
  }

  ghost predicate AllValid(entries: seq<CompletedEntry>) { forall i :: 0 <= i < |entries| ==> ValidEntry(entries[i]) }

  method ValidateEntry(e: CompletedEntry) returns (ok: bool)
    ensures ok <==> ValidEntry(e)
  {
    if NormalizeText(e.target) == "" || NormalizeText(e.output) == "" || NormalizeText(e.createdAt) == "" {
      return false;
    }
    var canonical := IsCanonicalUtcTimestamp(e.createdAt);
    if !canonical {
      return false;
    }
    return NormalizeText(e.promptId) != "" && NormalizeText(e.model) != "";
  }

  // ------------------------------------------------------------ row order

  /** The row that `ORDER BY created_at_utc DESC, id DESC` lists later. */
  predicate Older(a: Row, b: Row) {
    || LexLess(a.entry.createdAt, b.entry.createdAt)
    || (a.entry.createdAt == b.entry.createdAt && a.id < b.id)
  }

  ghost predicate UniqueIds(rows: set<Row>) { forall a, b :: a in rows && b in rows && a.id == b.id ==> a == b }

  lemma {:induction false} LexTotal(a: string, b: string)
    ensures a != b ==> LexLess(a, b) || LexLess(b, a)
    decreases |a|
  {
    if a != "" && b != "" && a[0] == b[0] {
      LexTotal(a[1..], b[1..]);
      assert a[1..] == b[1..] ==> a == [a[0]] + b[1..];
    }
  }

  lemma {:induction false} LexTransitive(a: string, b: string, c: string)
    requires LexLess(a, b) && LexLess(b, c)
    ensures LexLess(a, c)
    decreases |a|
  {
    if a != "" && a[0] == b[0] == c[0] {
      LexTransitive(a[1..], b[1..], c[1..]);
    }
  }

  lemma OlderTransitive(a: Row, b: Row, c: Row)
    requires Older(a, b) && Older(b, c)
    ensures Older(a, c)
  {
    hide LexLess;
    if LexLess(a.entry.createdAt, b.entry.createdAt) && LexLess(b.entry.createdAt, c.entry.createdAt) {
      LexTransitive(a.entry.createdAt, b.entry.createdAt, c.entry.createdAt);
    }
  }

  lemma OlderTotal(a: Row, b: Row)
    requires a.id != b.id
    ensures Older(a, b) <==> !Older(b, a)
  {
    hide LexLess;
    LexTotal(a.entry.createdAt, b.entry.createdAt);
    if LexLess(a.entry.createdAt, b.entry.createdAt) {
      LexAsymmetric(a.entry.createdAt, b.entry.createdAt);
    }
    if LexLess(b.entry.createdAt, a.entry.createdAt) {
      LexAsymmetric(b.entry.createdAt, a.entry.createdAt);
    }
    LexIrreflexive(a.entry.createdAt);
  }

  lemma OlderIrreflexive(a: Row)
    ensures !Older(a, a)
  {
    LexIrreflexive(a.entry.createdAt);
  }

  // ------------------------------------------------------------- pruning

  function Newer(rows: set<Row>, row: Row): set<Row> {
    set other | other in rows && Older(row, other)
  }

  /** The rows `ORDER BY created_at_utc DESC, id DESC LIMIT n` selects. */
  function Newest(rows: set<Row>, n: nat): set<Row> {
    set row | row in rows && |Newer(rows, row)| < n
  }

  lemma {:induction false} OldestExists(rows: set<Row>) returns (oldest: Row)
    requires UniqueIds(rows) && rows != {}
    ensures oldest in rows && forall row :: row in rows && row != oldest ==> Older(oldest, row)
  {
    var first :| first in rows;
    var rest := rows - {first};
    if rest == {} {
      oldest := first;
      assert forall row :: row in rows && row != first ==> row in rest;
    } else {
      var candidate := OldestExists(rest);
      OlderTotal(candidate, first);
      oldest := if Older(candidate, first) then candidate else first;
      forall row | row in rows && row != oldest ensures Older(oldest, row) {
        if oldest == first && row != candidate {
          OlderTransitive(first, candidate, row);
        }
      }
    }
  }

  lemma NewerOfRest(rows: set<Row>, oldest: Row, row: Row)
    requires oldest in rows && row in rows && (forall other :: other in rows && other != oldest ==> Older(oldest, other))
    requires UniqueIds(rows)
    ensures row != oldest ==> Newer(rows, row) == Newer(rows - {oldest}, row)
    ensures row == oldest ==> Newer(rows, row) == rows - {oldest}
  {
    OlderIrreflexive(oldest);
    if row != oldest {
      OlderTotal(oldest, row);
    }
  }

  /** Exactly the limit is selected, or everything if there is less. */
  lemma {:induction false} NewestSize(rows: set<Row>, n: nat)
    requires UniqueIds(rows)
    ensures |rows| <= n ==> Newest(rows, n) == rows
    ensures |rows| >= n ==> |Newest(rows, n)| == n
    decreases |rows|
  {
    if |rows| <= n {
      forall row | row in rows ensures |Newer(rows, row)| < n {
        OlderIrreflexive(row);
        SubsetSize(Newer(rows, row), rows - {row});
      }
    } else {
      var oldest := OldestExists(rows);
      var rest := rows - {oldest};
      NewestSize(rest, n);
      forall row | row in rows ensures row != oldest ==> Newer(rows, row) == Newer(rest, row) {
        NewerOfRest(rows, oldest, row);
      }
      NewerOfRest(rows, oldest, oldest);
      assert Newest(rows, n) == Newest(rest, n);
    }
  }

  /** What is selected is newer than everything that is not. */
  lemma NewestAreNewer(rows: set<Row>, n: nat, kept: Row, dropped: Row)
    requires UniqueIds(rows) && kept in Newest(rows, n) && dropped in rows && dropped !in Newest(rows, n)
    ensures Older(dropped, kept)
  {
    OlderTotal(kept, dropped);
    if Older(kept, dropped) {
      forall row | row in Newer(rows, dropped) ensures row in Newer(rows, kept) {
        OlderTransitive(kept, dropped, row);
      }
      SubsetSize(Newer(rows, dropped), Newer(rows, kept));
    }
  }

  /** Pruning first and adding later selects the same rows as adding first. */
  lemma NewestOfUnion(a: set<Row>, b: set<Row>, n: nat)
    requires UniqueIds(a + b)
    ensures Newest(Newest(a, n) + b, n) == Newest(a + b, n)
  {
    hide Older;
    var cut := Newest(a, n) + b;
    forall row | row in cut ensures |Newer(cut, row)| <= |Newer(a + b, row)| {
      SubsetSize(Newer(cut, row), Newer(a + b, row));
    }
    forall row | row in Newest(a + b, n) ensures row in Newest(cut, n) {
      if row in a {
        SubsetSize(Newer(a, row), Newer(a + b, row));
      }
    }
    forall row | row in Newest(cut, n) ensures row in Newest(a + b, n) {
      CutKeepsRank(a, b, n, row);
    }
  }

  lemma CutKeepsRank(a: set<Row>, b: set<Row>, n: nat, row: Row)
    requires UniqueIds(a + b) && row in Newest(Newest(a, n) + b, n)
    ensures |Newer(a + b, row)| < n
  {
    hide Older;
    var cut := Newest(a, n) + b;
    if Newer(a + b, row) <= Newer(cut, row) {
      SubsetSize(Newer(a + b, row), Newer(cut, row));
    } else {
      var missed :| missed in Newer(a + b, row) && missed !in Newer(cut, row);
      assert missed in a && missed !in Newest(a, n);
      forall kept | kept in Newest(a, n) ensures kept in Newer(cut, row) {
        NewestAreNewer(a, n, kept, missed);
        OlderTransitive(row, missed, kept);
      }
      NewestSize(a, n);
      SubsetSize(Newest(a, n), Newer(cut, row));
      assert false;
    }
  }

  // ------------------------------------------------------------ insertion

  /** The rows a sequence of insertions makes. */
  function Numbered(entries: seq<CompletedEntry>, lastId: nat): set<Row> {
    if entries == [] then {}
    else Numbered(entries[..|entries| - 1], lastId) + {Row(lastId + |entries|, entries[|entries| - 1])}
  }

  function Stored(table: Table, entries: seq<CompletedEntry>): Table {
    Table(Newest(table.rows + Numbered(entries, table.lastId), MAX_HISTORY_ENTRIES), table.lastId + |entries|)
  }

  ghost predicate ValidTable(table: Table) {
    && UniqueIds(table.rows) && (forall row :: row in table.rows ==> row.id <= table.lastId)
    && |table.rows| <= MAX_HISTORY_ENTRIES
  }

  lemma {:induction false} NumberedIds(entries: seq<CompletedEntry>, lastId: nat)
    ensures UniqueIds(Numbered(entries, lastId))
    ensures forall row :: row in Numbered(entries, lastId) ==> lastId < row.id <= lastId + |entries|
  {
    if entries != [] {
      NumberedIds(entries[..|entries| - 1], lastId);
    }
  }

  lemma {:induction false} NumberedConcat(a: seq<CompletedEntry>, b: seq<CompletedEntry>, lastId: nat)
    ensures Numbered(a + b, lastId) == Numbered(a, lastId) + Numbered(b, lastId + |a|)
    decreases |b|
  {
    if b == [] {
      assert a + b == a;
    } else {
      var init := b[..|b| - 1];
      NumberedConcat(a, init, lastId);
      assert (a + b)[..|a + b| - 1] == a + init;
    }
  }

  lemma StoredValid(table: Table, entries: seq<CompletedEntry>)
    requires ValidTable(table)
    ensures ValidTable(Stored(table, entries))
    ensures UniqueIds(table.rows + Numbered(entries, table.lastId))
  {
    hide Older, Newer;
    NumberedIds(entries, table.lastId);
    var all := table.rows + Numbered(entries, table.lastId);
    assert UniqueIds(all);
    NewestSize(all, MAX_HISTORY_ENTRIES);
  }

  /** Two batches store what one batch of both would. */
  lemma StoredTwice(table: Table, a: seq<CompletedEntry>, b: seq<CompletedEntry>)
    requires ValidTable(table)
    ensures Stored(Stored(table, a), b) == Stored(table, a + b)
  {
    hide Newest, ValidTable;
    StoredValid(table, a);
    StoredValid(table, a + b);
    NumberedConcat(a, b, table.lastId);
    var before, first, second := table.rows, Numbered(a, table.lastId), Numbered(b, table.lastId + |a|);
    assert (before + first) + second == before + (first + second);
    NewestOfUnion(before + first, second, MAX_HISTORY_ENTRIES);
  }

  /** An empty batch changes nothing: the table is already pruned. */
  lemma StoredNothing(table: Table)
    requires ValidTable(table)
    ensures Stored(table, []) == table
  {
    NewestSize(table.rows, MAX_HISTORY_ENTRIES);
    assert table.rows + {} == table.rows;
  }

  class HistoryDatabase {
    var rows: set<Row>
    var lastId: nat

    ghost function View(): Table
      reads this
    {
      Table(rows, lastId)
    }

    constructor ()
      ensures View() == Table({}, 0) && ValidTable(View())
    {
      rows, lastId := {}, 0;
    }

    /** One transaction; `writable` is whether SQLite commits it. */
    method InsertCompletedBatch(entries: seq<CompletedEntry>, writable: bool) returns (ok: bool)
      modifies this
      ensures ok <==> AllValid(entries) && (entries == [] || writable)
      ensures View() == if ok && entries != [] then Stored(old(View()), entries) else old(View())
    {
      hide ValidEntry, Newest;
      var i := 0;
      while i < |entries|
        invariant 0 <= i <= |entries| && AllValid(entries[..i]) && View() == old(View())
      {
        var valid := ValidateEntry(entries[i]);
        if !valid {
          return false;
        }
        i := i + 1;
      }
      if entries == [] {
        return true;
      }
      if !writable {
        return false;
      }
      i := 0;
      while i < |entries|
        invariant 0 <= i <= |entries| && lastId == old(lastId) + i
        invariant rows == old(rows) + Numbered(entries[..i], old(lastId))
      {
        lastId := lastId + 1;
        rows := rows + {Row(lastId, entries[i])};
        assert entries[..i + 1][..i] == entries[..i];
        i := i + 1;
      }
      assert entries[..i] == entries;
      rows := Newest(rows, MAX_HISTORY_ENTRIES);
      return true;
    }

    method InsertCompleted(entry: CompletedEntry, writable: bool) returns (ok: bool)
      modifies this
      ensures ok <==> ValidEntry(entry) && writable
      ensures View() == if ok then Stored(old(View()), [entry]) else old(View())
    {
      ok := InsertCompletedBatch([entry], writable);
      assert AllValid([entry]) <==> ValidEntry([entry][0]);
    }
  }
}
