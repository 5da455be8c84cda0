/**
 The background writer: one worker drains a queue of entries and flush requests
 into batches.  How much a drain takes depends on what has arrived by then.
 */
module HistoryWriter {
  import opened Common
  import opened History

  const WRITE_BATCH_CAPACITY := 256

  datatype Message = Record(entry: CompletedEntry) | Flush(id: nat)

  /** What the worker did: attempts to store a batch, and answers to flushes. */
  datatype Event = Attempted(entries: seq<CompletedEntry>, persisted: bool) | Acknowledged(id: nat, persisted: bool)

  function EntriesOf(messages: seq<Message>): seq<CompletedEntry> {
    if messages == [] then []
    else
      var last := messages[|messages| - 1];
      EntriesOf(messages[..|messages| - 1]) + (if last.Record? then [last.entry] else [])
  }

  function FlushesOf(messages: seq<Message>): seq<nat> {
    if messages == [] then []
    else
      var last := messages[|messages| - 1];
      FlushesOf(messages[..|messages| - 1]) + (if last.Flush? then [last.id] else [])
  }

  function Answers(flushes: seq<nat>, persisted: bool): seq<Event> {
    if flushes == [] then [] else Answers(flushes[..|flushes| - 1], persisted) + [Acknowledged(flushes[|flushes| - 1], persisted)]
  }

  ghost predicate Persists(entries: seq<CompletedEntry>, writable: bool) {
    entries == [] || (AllValid(entries) && writable)
  }

  /** The table and the log after one drained group. */
  ghost function Grouped(table: Table, messages: seq<Message>, writable: bool): Table {
    var entries := EntriesOf(messages);
    if entries != [] && Persists(entries, writable) then Stored(table, entries) else table
  }

  function Logged(entries: seq<CompletedEntry>, flushes: seq<nat>, persisted: bool): seq<Event> {
    Attempt(entries, persisted) + Answers(flushes, persisted)
  }

  function Attempt(entries: seq<CompletedEntry>, persisted: bool): seq<Event> {
    if entries == [] then [] else [Attempted(entries, persisted)]
  }

  ghost function LoggedGroup(messages: seq<Message>, writable: bool): seq<Event> {
    Logged(EntriesOf(messages), FlushesOf(messages), Persists(EntriesOf(messages), writable))
  }

  lemma NoneTaken(sent: seq<Message>)
    ensures sent[..0] == [] && EntriesOf([]) == [] && FlushesOf([]) == [] && sent[0..] == sent
  {
  }

  lemma TakeOne(sent: seq<Message>, taken: nat, queue: seq<Message>, rest: seq<Message>)
    requires taken <= |sent| && sent[taken..] == queue + rest && queue != []
    ensures taken < |sent| && sent[taken + 1..] == queue[1..] + rest
    ensures EntriesOf(sent[..taken + 1]) == EntriesOf(sent[..taken]) + (if queue[0].Record? then [queue[0].entry] else [])
    ensures FlushesOf(sent[..taken + 1]) == FlushesOf(sent[..taken]) + (if queue[0].Flush? then [queue[0].id] else [])
  {
    assert sent[taken..][0] == queue[0];
    assert sent[taken + 1..] == sent[taken..][1..];
    assert sent[..taken + 1][..taken] == sent[..taken];
  }

  lemma Arrive(queue: seq<Message>, arrivals: seq<seq<Message>>)
    requires arrivals != []
    ensures queue + Flatten(arrivals) == (queue + arrivals[0]) + Flatten(arrivals[1..])
  {
  }

  class HistoryWriter {
    var queue: seq<Message>
    var log: seq<Event>
    const database: HistoryDatabase

    constructor (database: HistoryDatabase)
      ensures queue == [] && log == [] && this.database == database
    {
      this.database, queue, log := database, [], [];
    }

    method Enqueue(entry: CompletedEntry)
      modifies `queue
      ensures queue == old(queue) + [Record(entry)]
    {
      queue := queue + [Record(entry)];
    }

    method RequestFlush(id: nat)
      modifies `queue
      ensures queue == old(queue) + [Flush(id)]
    {
      queue := queue + [Flush(id)];
    }

    /** Take the first message, then whatever is there, up to a batch of entries.
        `arrivals[k]` is what other threads send before the k-th look at the queue. */
    method Gather(arrivals: seq<seq<Message>>)
      returns (entries: seq<CompletedEntry>, flushes: seq<nat>, ghost taken: nat)
      requires queue != []
      modifies `queue
      ensures var sent := old(queue) + Flatten(arrivals);
              && 1 <= taken <= |sent| && queue == sent[taken..]
              && entries == EntriesOf(sent[..taken]) && flushes == FlushesOf(sent[..taken])
              && |entries| <= WRITE_BATCH_CAPACITY
    {
      hide EntriesOf, FlushesOf, Flatten;
      entries, flushes := [], [];
      ghost var sent := queue + Flatten(arrivals);
      var looks := 0;
      NoneTaken(sent);
      TakeOne(sent, 0, queue, Flatten(arrivals));
      var first := queue[0];
      queue := queue[1..];
      match first {
        case Record(entry) => entries := [entry];
        case Flush(id) => flushes := [id];
      }
      taken := 1;
      assert arrivals[0..] == arrivals;
      while |entries| < WRITE_BATCH_CAPACITY
        invariant 1 <= taken <= |sent| && looks <= |arrivals|
        invariant sent[taken..] == queue + Flatten(arrivals[looks..])
        invariant entries == EntriesOf(sent[..taken]) && flushes == FlushesOf(sent[..taken])
        invariant |entries| <= WRITE_BATCH_CAPACITY
        decreases |sent| - taken
      {
        if looks < |arrivals| {
          Arrive(queue, arrivals[looks..]);
          assert arrivals[looks..][1..] == arrivals[looks + 1..];
          queue := queue + arrivals[looks];
          looks := looks + 1;
        }
        if queue == [] {
          break;
        }
        TakeOne(sent, taken, queue, Flatten(arrivals[looks..]));
        var message := queue[0];
        queue := queue[1..];
        match message {
          case Record(entry) => entries := entries + [entry];
          case Flush(id) => flushes := flushes + [id];
        }
        taken := taken + 1;
      }
      queue := queue + Flatten(arrivals[looks..]);
    }

    /** One turn of the worker. */
    method Drain(arrivals: seq<seq<Message>>, writable: bool) returns (ghost taken: nat)
      requires queue != []
      modifies this, database
      ensures var sent := old(queue) + Flatten(arrivals);
              && 1 <= taken <= |sent| && queue == sent[taken..]
              && |EntriesOf(sent[..taken])| <= WRITE_BATCH_CAPACITY
              && database.View() == Grouped(old(database.View()), sent[..taken], writable)
              && log == old(log) + LoggedGroup(sent[..taken], writable)
    {
      hide AllValid, Stored, EntriesOf, FlushesOf, Answers;
      var entries, flushes, group := Gather(arrivals);
      taken := group;
      var persisted := true;
      if entries != [] {
        persisted := database.InsertCompletedBatch(entries, writable);
        log := log + [Attempted(entries, persisted)];
      }
      assert log == old(log) + Attempt(entries, persisted);
      Acknowledge(flushes, persisted);
    }

    method Acknowledge(flushes: seq<nat>, persisted: bool)
      modifies `log
      ensures log == old(log) + Answers(flushes, persisted)
    {
      var i := 0;
      while i < |flushes|
        invariant 0 <= i <= |flushes|
        invariant log == old(log) + Answers(flushes[..i], persisted)
      {
        log := log + [Acknowledged(flushes[i], persisted)];
        assert flushes[..i + 1][..i] == flushes[..i];
        i := i + 1;
      }
      assert flushes[..i] == flushes;
    }
  }

  // ------------------------------------------------------------------ runs

  /** One drained group: how many messages it took, and whether SQLite committed. */
  datatype Round = Round(taken: nat, writable: bool)

  datatype State = State(position: nat, table: Table, log: seq<Event>)

  /** The rounds take the sent messages in order, each no more than it may. */
  ghost predicate Possible(sent: seq<Message>, rounds: seq<Round>) {
    if rounds == [] then true
    else
      var before, last := Position(rounds[..|rounds| - 1]), rounds[|rounds| - 1];
      && Possible(sent, rounds[..|rounds| - 1])
      && 1 <= last.taken && before + last.taken <= |sent|
      && |EntriesOf(sent[before..before + last.taken])| <= WRITE_BATCH_CAPACITY
  }

  function Position(rounds: seq<Round>): nat {
    if rounds == [] then 0 else Position(rounds[..|rounds| - 1]) + rounds[|rounds| - 1].taken
  }

  ghost function Step(sent: seq<Message>, s: State, round: Round): State
    requires s.position + round.taken <= |sent|
  {
    var group := sent[s.position..s.position + round.taken];
    State(s.position + round.taken, Grouped(s.table, group, round.writable), s.log + LoggedGroup(group, round.writable))
  }

  ghost function Run(table: Table, sent: seq<Message>, rounds: seq<Round>): (s: State)
    requires Possible(sent, rounds)
    ensures s.position == Position(rounds) <= |sent|
  {
    if rounds == [] then State(0, table, [])
    else Step(sent, Run(table, sent, rounds[..|rounds| - 1]), rounds[|rounds| - 1])
  }

  lemma {:induction false} EntriesConcat(a: seq<Message>, b: seq<Message>)
    ensures EntriesOf(a + b) == EntriesOf(a) + EntriesOf(b)
    decreases |b|
  {
    if b == [] {
      assert a + b == a;
    } else {
      var init := b[..|b| - 1];
      EntriesConcat(a, init);
      assert (a + b)[..|a + b| - 1] == a + init;
    }
  }

  lemma EntriesSplit(sent: seq<Message>, i: nat, j: nat)
    requires i <= j <= |sent|
    ensures EntriesOf(sent[..j]) == EntriesOf(sent[..i]) + EntriesOf(sent[i..j])
  {
    EntriesConcat(sent[..i], sent[i..j]);
    assert sent[..i] + sent[i..j] == sent[..j];
  }

  // ----------------------------------------------------------- the contents

  ghost predicate AllWritable(rounds: seq<Round>) { forall i :: 0 <= i < |rounds| ==> rounds[i].writable }

  /** The entries of the groups that persisted, in the order they were sent. */
  ghost function Kept(sent: seq<Message>, rounds: seq<Round>): seq<CompletedEntry>
    requires Possible(sent, rounds)
  {
    if rounds == [] then []
    else
      var before, last := Position(rounds[..|rounds| - 1]), rounds[|rounds| - 1];
      assert before == Run(Table({}, 0), sent, rounds[..|rounds| - 1]).position;
      var entries := EntriesOf(sent[before..before + last.taken]);
      Kept(sent, rounds[..|rounds| - 1]) + (if Persists(entries, last.writable) then entries else [])
  }

  /** However the drains group the queue, the table holds the newest rows of what
      it held and of every entry of a persisted group. */
  lemma {:induction false} RowsAreNewest(table: Table, sent: seq<Message>, rounds: seq<Round>)
    requires ValidTable(table) && Possible(sent, rounds)
    ensures Run(table, sent, rounds).table == Stored(table, Kept(sent, rounds))
    decreases |rounds|
  {
    hide Stored, ValidTable, AllValid, EntriesOf, LoggedGroup;
    if rounds == [] {
      StoredNothing(table);
    } else {
      var init, last := rounds[..|rounds| - 1], rounds[|rounds| - 1];
      RowsAreNewest(table, sent, init);
      var before := Position(init);
      var entries := EntriesOf(sent[before..before + last.taken]);
      StoredTwice(table, Kept(sent, init), entries);
      assert Kept(sent, init) + [] == Kept(sent, init);
    }
  }

  /** The messages the last round took. */
  function LastGroup(sent: seq<Message>, rounds: seq<Round>): seq<Message>
    requires rounds != [] && Position(rounds) <= |sent|
  {
    sent[Position(rounds[..|rounds| - 1])..Position(rounds)]
  }

  ghost predicate LastPersists(sent: seq<Message>, rounds: seq<Round>)
    requires rounds != [] && Position(rounds) <= |sent|
  {
    Persists(EntriesOf(LastGroup(sent, rounds)), rounds[|rounds| - 1].writable)
  }

  ghost predicate AllPersist(sent: seq<Message>, rounds: seq<Round>)
    requires Position(rounds) <= |sent|
  {
    rounds == [] || (AllPersist(sent, rounds[..|rounds| - 1]) && LastPersists(sent, rounds))
  }

  lemma InBounds(sent: seq<Message>, rounds: seq<Round>)
    requires Possible(sent, rounds)
    ensures Position(rounds) <= |sent|
  {
    assert Position(rounds) == Run(Table({}, 0), sent, rounds).position;
  }

  lemma KeptLast(sent: seq<Message>, rounds: seq<Round>)
    requires Possible(sent, rounds) && rounds != []
    ensures var init := rounds[..|rounds| - 1];
            && Possible(sent, init) && Position(init) <= Position(rounds) <= |sent|
            && Kept(sent, rounds)
               == Kept(sent, init) + (if LastPersists(sent, rounds) then EntriesOf(LastGroup(sent, rounds)) else [])
            && EntriesOf(sent[..Position(rounds)]) == EntriesOf(sent[..Position(init)]) + EntriesOf(LastGroup(sent, rounds))
  {
    hide EntriesOf, Persists;
    InBounds(sent, rounds);
    EntriesSplit(sent, Position(rounds[..|rounds| - 1]), Position(rounds));
  }

  /** Everything drained was stored exactly if every group was. */
  lemma {:induction false} KeptIff(sent: seq<Message>, rounds: seq<Round>)
    requires Possible(sent, rounds)
    ensures Position(rounds) <= |sent| && |Kept(sent, rounds)| <= |EntriesOf(sent[..Position(rounds)])|
    ensures Kept(sent, rounds) == EntriesOf(sent[..Position(rounds)]) <==> AllPersist(sent, rounds)
    decreases |rounds|
  {
    InBounds(sent, rounds);
    if rounds == [] {
      assert sent[..0] == [];
    } else {
      var init := rounds[..|rounds| - 1];
      KeptLast(sent, rounds);
      KeptIff(sent, init);
      var before, kept, last := EntriesOf(sent[..Position(init)]), Kept(sent, init), EntriesOf(LastGroup(sent, rounds));
      UnpersistedIsSomething(sent, rounds);
      hide Kept, EntriesOf, LastGroup, LastPersists, Possible;
      SameTail(kept, before, last);
    }
  }

  lemma UnpersistedIsSomething(sent: seq<Message>, rounds: seq<Round>)
    requires rounds != [] && Position(rounds) <= |sent|
    ensures !LastPersists(sent, rounds) ==> |EntriesOf(LastGroup(sent, rounds))| > 0
  {
  }

  lemma SameTail<T>(a: seq<T>, b: seq<T>, tail: seq<T>)
    requires |a| <= |b|
    ensures a + tail == b + tail <==> a == b
    ensures tail != [] ==> a + [] != b + tail
  {
    if a + tail == b + tail {
      assert a == (a + tail)[..|a|] && b == (b + tail)[..|b|];
    }
  }

  lemma {:induction false} WritablePersists(sent: seq<Message>, rounds: seq<Round>)
    requires Possible(sent, rounds) && AllWritable(rounds) && AllValid(EntriesOf(sent))
    ensures Position(rounds) <= |sent| && AllPersist(sent, rounds)
    decreases |rounds|
  {
    hide ValidEntry, EntriesOf;
    InBounds(sent, rounds);
    if rounds != [] {
      var init := rounds[..|rounds| - 1];
      WritablePersists(sent, init);
      hide Possible, AllValid;
      EntriesSplit(sent, Position(init), Position(rounds));
      EntriesSplit(sent, Position(rounds), |sent|);
      assert sent[..|sent|] == sent;
      Sublist(EntriesOf(sent[..Position(init)]), EntriesOf(LastGroup(sent, rounds)),
              EntriesOf(sent[Position(rounds)..|sent|]), EntriesOf(sent));
    }
  }

  lemma EverythingKept(sent: seq<Message>, rounds: seq<Round>)
    requires Possible(sent, rounds) && AllWritable(rounds) && AllValid(EntriesOf(sent))
    ensures Position(rounds) <= |sent| && Kept(sent, rounds) == EntriesOf(sent[..Position(rounds)])
  {
    hide *;
    WritablePersists(sent, rounds);
    KeptIff(sent, rounds);
  }

  lemma Sublist(a: seq<CompletedEntry>, b: seq<CompletedEntry>, c: seq<CompletedEntry>, all: seq<CompletedEntry>)
    requires all == a + b + c && AllValid(all)
    ensures AllValid(b)
  {
    hide ValidEntry;
    forall i | 0 <= i < |b| ensures ValidEntry(b[i]) {
      assert b[i] == all[|a| + i];
    }
  }

  /** For valid entries and successful writes the table holds the newest 1000 of
      everything drained so far, whatever the grouping was. */
  lemma HistoryIsNewest(table: Table, sent: seq<Message>, rounds: seq<Round>)
    requires ValidTable(table) && Possible(sent, rounds) && AllWritable(rounds) && AllValid(EntriesOf(sent))
    ensures var drained := EntriesOf(sent[..Run(table, sent, rounds).position]);
            Run(table, sent, rounds).table.rows
            == Newest(table.rows + Numbered(drained, table.lastId), MAX_HISTORY_ENTRIES)
  {
    hide Newest, ValidTable, AllValid, AllWritable;
    RowsAreNewest(table, sent, rounds);
    EverythingKept(sent, rounds);
  }

  /** So batching and pruning once per batch is the same as inserting and pruning
      one entry at a time. */
  function OneByOne(table: Table, entries: seq<CompletedEntry>): Table {
    if entries == [] then table
    else Stored(OneByOne(table, entries[..|entries| - 1]), [entries[|entries| - 1]])
  }

  lemma {:induction false} BatchIsOneByOne(table: Table, entries: seq<CompletedEntry>)
    requires ValidTable(table)
    ensures OneByOne(table, entries) == Stored(table, entries)
    decreases |entries|
  {
    hide Stored, ValidTable;
    if entries == [] {
      StoredNothing(table);
    } else {
      var init, last := entries[..|entries| - 1], entries[|entries| - 1];
      BatchIsOneByOne(table, init);
      StoredTwice(table, init, [last]);
      assert init + [last] == entries;
    }
  }

  /** Without validity the grouping shows: an invalid entry takes the valid one
      drained with it down, but not the one drained before it. */
  lemma InvalidEntryRejectsItsBatch(table: Table, good: CompletedEntry, bad: CompletedEntry)
    requires ValidEntry(good) && !ValidEntry(bad)
    ensures var sent := [Record(good), Record(bad)];
            && Grouped(table, sent, true) == table
            && Grouped(Grouped(table, sent[..1], true), sent[1..], true) == Stored(table, [good])
  {
    hide ValidEntry, Stored;
    var sent := [Record(good), Record(bad)];
    assert sent[..1] == [Record(good)] && sent[1..] == [Record(bad)];
    assert EntriesOf([Record(good)]) == [good];
    assert EntriesOf([Record(bad)]) == [bad];
    assert EntriesOf(sent) == [good, bad];
    assert AllValid([good]) by { assert [good][0] == good; }
    assert !AllValid([bad]) by { assert [bad][0] == bad; }
    assert !AllValid([good, bad]) by { assert [good, bad][1] == bad; }
  }

  // ---------------------------------------------------------------- flushes

  function AttemptsOf(log: seq<Event>): seq<CompletedEntry> {
    if log == [] then []
    else
      var last := log[|log| - 1];
      AttemptsOf(log[..|log| - 1]) + (if last.Attempted? then last.entries else [])
  }

  function AnswersOf(log: seq<Event>): seq<nat> {
    if log == [] then []
    else
      var last := log[|log| - 1];
      AnswersOf(log[..|log| - 1]) + (if last.Acknowledged? then [last.id] else [])
  }

  /** The flush behind an answer, the one with as many flushes before it as there were
      answers, and what was attempted before the answer. */
  ghost predicate AnsweredInTime(sent: seq<Message>, log: seq<Event>, k: nat)
    requires k < |log| && log[k].Acknowledged?
  {
    exists i :: 0 <= i < |sent| && sent[i] == Flush(log[k].id)
                && FlushesOf(sent[..i]) == AnswersOf(log[..k])
                && EntriesOf(sent[..i]) <= AttemptsOf(log[..k])
  }

  lemma {:induction false} AnswersAre(flushes: seq<nat>, persisted: bool)
    ensures |Answers(flushes, persisted)| == |flushes|
    ensures forall j :: 0 <= j < |flushes| ==> Answers(flushes, persisted)[j] == Acknowledged(flushes[j], persisted)
  {
    if flushes != [] {
      AnswersAre(flushes[..|flushes| - 1], persisted);
    }
  }

  lemma {:induction false} FlushesAreSent(messages: seq<Message>, j: nat) returns (i: nat)
    requires j < |FlushesOf(messages)|
    ensures i < |messages| && messages[i] == Flush(FlushesOf(messages)[j])
    ensures FlushesOf(messages[..i]) == FlushesOf(messages)[..j]
    decreases |messages|
  {
    var init := messages[..|messages| - 1];
    if j < |FlushesOf(init)| {
      i := FlushesAreSent(init, j);
      assert init[..i] == messages[..i];
    } else {
      i := |messages| - 1;
    }
  }

  lemma {:induction false} FlushesConcat(a: seq<Message>, b: seq<Message>)
    ensures FlushesOf(a + b) == FlushesOf(a) + FlushesOf(b)
    decreases |b|
  {
    if b == [] {
      assert a + b == a;
    } else {
      var init := b[..|b| - 1];
      FlushesConcat(a, init);
      assert (a + b)[..|a + b| - 1] == a + init;
    }
  }

  lemma FlushesSplit(sent: seq<Message>, i: nat, j: nat)
    requires i <= j <= |sent|
    ensures FlushesOf(sent[..j]) == FlushesOf(sent[..i]) + FlushesOf(sent[i..j])
  {
    FlushesConcat(sent[..i], sent[i..j]);
    assert sent[..i] + sent[i..j] == sent[..j];
  }

  lemma {:induction false} AnswersOfAnswers(log: seq<Event>, flushes: seq<nat>, persisted: bool)
    ensures AnswersOf(log + Answers(flushes, persisted)) == AnswersOf(log) + flushes
    decreases |flushes|
  {
    hide AnswersOf;
    if flushes == [] {
      assert log + [] == log && AnswersOf(log) + [] == AnswersOf(log);
    } else {
      var init, last := flushes[..|flushes| - 1], flushes[|flushes| - 1];
      AnswersOfAnswers(log, init, persisted);
      OneMoreAnswer(log + Answers(init, persisted), last, persisted);
      assert log + Answers(flushes, persisted) == log + Answers(init, persisted) + [Acknowledged(last, persisted)];
      assert init + [last] == flushes;
      assert AnswersOf(log) + init + [last] == AnswersOf(log) + (init + [last]);
    }
  }

  lemma OneMoreAnswer(log: seq<Event>, id: nat, persisted: bool)
    ensures AnswersOf(log + [Acknowledged(id, persisted)]) == AnswersOf(log) + [id]
  {
    assert (log + [Acknowledged(id, persisted)])[..|log|] == log;
  }

  lemma NotAnAnswer(log: seq<Event>, entries: seq<CompletedEntry>, persisted: bool)
    ensures AnswersOf(log + Attempt(entries, persisted)) == AnswersOf(log)
  {
    if entries != [] {
      assert (log + [Attempted(entries, persisted)])[..|log|] == log;
    } else {
      assert log + Attempt(entries, persisted) == log;
    }
  }

  lemma {:induction false} AttemptsOfAnswers(log: seq<Event>, flushes: seq<nat>, persisted: bool)
    ensures AttemptsOf(log + Answers(flushes, persisted)) == AttemptsOf(log)
    decreases |flushes|
  {
    var answers := Answers(flushes, persisted);
    if flushes == [] {
      assert log + answers == log;
    } else {
      var init := flushes[..|flushes| - 1];
      AttemptsOfAnswers(log, init, persisted);
      assert (log + answers)[..|log + answers| - 1] == log + Answers(init, persisted);
    }
  }

  /** An answer of a group comes after the attempt of the group. */
  lemma AnswerAt(log: seq<Event>, entries: seq<CompletedEntry>, flushes: seq<nat>, persisted: bool, k: nat)
    returns (j: nat)
    requires |log| <= k < |log + Logged(entries, flushes, persisted)|
    requires (log + Logged(entries, flushes, persisted))[k].Acknowledged?
    ensures var after := log + Logged(entries, flushes, persisted);
            && j < |flushes| && after[k] == Acknowledged(flushes[j], persisted)
            && AttemptsOf(after[..k]) == AttemptsOf(log) + entries
            && AnswersOf(after[..k]) == AnswersOf(log) + flushes[..j]
  {
    hide AttemptsOf, AnswersOf, Answers;
    var attempt, answers := Attempt(entries, persisted), Answers(flushes, persisted);
    var after := log + Logged(entries, flushes, persisted);
    assert after == (log + attempt) + answers;
    AnswersAre(flushes, persisted);
    j := k - |log + attempt|;
    AnswersPrefix(flushes, persisted, j);
    assert after[..k] == (log + attempt) + answers[..j];
    AttemptsOfAnswers(log + attempt, flushes[..j], persisted);
    AnswersOfAnswers(log + attempt, flushes[..j], persisted);
    AttemptsAdded(log, entries, persisted);
    NotAnAnswer(log, entries, persisted);
  }

  lemma LoggedAttempts(log: seq<Event>, entries: seq<CompletedEntry>, flushes: seq<nat>, persisted: bool)
    ensures AttemptsOf(log + Logged(entries, flushes, persisted)) == AttemptsOf(log) + entries
    ensures AnswersOf(log + Logged(entries, flushes, persisted)) == AnswersOf(log) + flushes
  {
    hide AttemptsOf, AnswersOf, Attempt, Answers;
    AttemptsOfAnswers(log + Attempt(entries, persisted), flushes, persisted);
    AnswersOfAnswers(log + Attempt(entries, persisted), flushes, persisted);
    AttemptsAdded(log, entries, persisted);
    NotAnAnswer(log, entries, persisted);
    assert log + Logged(entries, flushes, persisted) == log + Attempt(entries, persisted) + Answers(flushes, persisted);
  }

  lemma AttemptsAdded(log: seq<Event>, entries: seq<CompletedEntry>, persisted: bool)
    ensures AttemptsOf(log + Attempt(entries, persisted)) == AttemptsOf(log) + entries
  {
    if entries != [] {
      assert (log + [Attempted(entries, persisted)])[..|log|] == log;
    } else {
      assert log + Attempt(entries, persisted) == log;
    }
  }

  lemma {:induction false} AnswersPrefix(flushes: seq<nat>, persisted: bool, j: nat)
    requires j <= |flushes|
    ensures |Answers(flushes, persisted)| == |flushes|
    ensures Answers(flushes, persisted)[..j] == Answers(flushes[..j], persisted)
    decreases |flushes|
  {
    if j == |flushes| {
      AnswersAre(flushes, persisted);
      assert flushes[..j] == flushes;
    } else {
      AnswersPrefix(flushes[..|flushes| - 1], persisted, j);
      assert flushes[..|flushes| - 1][..j] == flushes[..j];
    }
  }

  ghost predicate InTime(sent: seq<Message>, s: State) {
    && s.position <= |sent|
    && AttemptsOf(s.log) == EntriesOf(sent[..s.position]) && AnswersOf(s.log) == FlushesOf(sent[..s.position])
    && forall k :: 0 <= k < |s.log| && s.log[k].Acknowledged? ==> AnsweredInTime(sent, s.log, k)
  }

  lemma GroupInTime(sent: seq<Message>, log: seq<Event>, from: nat, to: nat, persisted: bool, k: nat)
    requires from <= to <= |sent| && AttemptsOf(log) == EntriesOf(sent[..from]) && AnswersOf(log) == FlushesOf(sent[..from])
    requires |log| <= k < |log + Logged(EntriesOf(sent[from..to]), FlushesOf(sent[from..to]), persisted)|
    requires (log + Logged(EntriesOf(sent[from..to]), FlushesOf(sent[from..to]), persisted))[k].Acknowledged?
    ensures AnsweredInTime(sent, log + Logged(EntriesOf(sent[from..to]), FlushesOf(sent[from..to]), persisted), k)
  {
    hide Logged, AttemptsOf, AnswersOf, EntriesOf, FlushesOf;
    var group := sent[from..to];
    var j := AnswerAt(log, EntriesOf(group), FlushesOf(group), persisted, k);
    var i := FlushesAreSent(group, j);
    EntriesSplit(sent, from, to);
    EntriesSplit(sent, from + i, to);
    FlushesSplit(sent, from, from + i);
    assert sent[from + i] == group[i] && sent[from..from + i] == group[..i];
  }

  lemma StillInTime(sent: seq<Message>, before: seq<Event>, log: seq<Event>, k: nat)
    requires before <= log && k < |before| && before[k].Acknowledged? && AnsweredInTime(sent, before, k)
    ensures AnsweredInTime(sent, log, k)
  {
    assert log[..k] == before[..k];
  }

  lemma StepInTime(sent: seq<Message>, s: State, round: Round)
    requires InTime(sent, s) && s.position + round.taken <= |sent|
    ensures InTime(sent, Step(sent, s, round))
  {
    hide Persists, AnsweredInTime, Logged, AttemptsOf, AnswersOf, EntriesOf, FlushesOf, Grouped;
    var t := Step(sent, s, round);
    var group := sent[s.position..t.position];
    var entries, flushes, persisted := EntriesOf(group), FlushesOf(group), Persists(EntriesOf(group), round.writable);
    LoggedAttempts(s.log, entries, flushes, persisted);
    EntriesSplit(sent, s.position, t.position);
    FlushesSplit(sent, s.position, t.position);
    forall k | 0 <= k < |t.log| && t.log[k].Acknowledged? ensures AnsweredInTime(sent, t.log, k) {
      if k < |s.log| {
        StillInTime(sent, s.log, t.log, k);
      } else {
        GroupInTime(sent, s.log, s.position, t.position, persisted, k);
      }
    }
  }

  /** The answers are the flushes in the order they were sent, each given only after
      every entry sent before its flush was attempted. */
  lemma {:induction false} FlushesAnsweredInTime(table: Table, sent: seq<Message>, rounds: seq<Round>)
    requires Possible(sent, rounds)
    ensures var s := Run(table, sent, rounds);
            && AttemptsOf(s.log) == EntriesOf(sent[..s.position])
            && AnswersOf(s.log) == FlushesOf(sent[..s.position])
            && forall k :: 0 <= k < |s.log| && s.log[k].Acknowledged? ==> AnsweredInTime(sent, s.log, k)
  {
    RunInTime(table, sent, rounds);
  }

  lemma {:induction false} RunInTime(table: Table, sent: seq<Message>, rounds: seq<Round>)
    requires Possible(sent, rounds)
    ensures InTime(sent, Run(table, sent, rounds))
    decreases |rounds|
  {
    hide AnsweredInTime, Step;
    if rounds == [] {
      assert sent[..0] == [];
    } else {
      hide InTime;
      var init := rounds[..|rounds| - 1];
      RunInTime(table, sent, init);
      StepInTime(sent, Run(table, sent, init), rounds[|rounds| - 1]);
    }
  }

  /** An answer of true covers every entry drained so far exactly if all the earlier
      groups were stored too, or were empty: it speaks of its own group only. */
  lemma TrueAnswerCovers(table: Table, sent: seq<Message>, rounds: seq<Round>, k: nat)
    requires Possible(sent, rounds) && rounds != []
    requires var log := Run(table, sent, rounds).log;
             && |Run(table, sent, rounds[..|rounds| - 1]).log| <= k < |log| && log[k].Acknowledged? && log[k].persisted
    ensures Position(rounds[..|rounds| - 1]) <= Position(rounds) <= |sent|
    ensures Kept(sent, rounds) == EntriesOf(sent[..Position(rounds)]) <==> AllPersist(sent, rounds[..|rounds| - 1])
  {
    hide EntriesOf, FlushesOf, Persists, Kept, Answers, Grouped;
    InBounds(sent, rounds);
    KeptIff(sent, rounds);
    var init, last := rounds[..|rounds| - 1], rounds[|rounds| - 1];
    var group, before := LastGroup(sent, rounds), Run(table, sent, init).log;
    assert Run(table, sent, rounds).log == before + LoggedGroup(group, last.writable);
    var j := AnswerAt(before, EntriesOf(group), FlushesOf(group), Persists(EntriesOf(group), last.writable), k);
    AnswersAre(FlushesOf(group), Persists(EntriesOf(group), last.writable));
    assert LastPersists(sent, rounds);
  }

  /** The shortest such loss. */
  lemma AnswerForgetsEarlierLoss(table: Table, bad: CompletedEntry, id: nat)
    requires !ValidEntry(bad)
    ensures var sent := [Record(bad), Flush(id)];
            Step(sent, Step(sent, State(0, table, []), Round(1, true)), Round(1, true))
            == State(2, table, [Attempted([bad], false), Acknowledged(id, true)])
  {
    hide ValidEntry, Stored;
    var sent := [Record(bad), Flush(id)];
    assert sent[0..1] == [Record(bad)] && sent[1..2] == [Flush(id)];
    assert EntriesOf([Record(bad)]) == [bad] && FlushesOf([Record(bad)]) == [];
    assert EntriesOf([Flush(id)]) == [] && FlushesOf([Flush(id)]) == [id];
    assert !AllValid([bad]) by { assert [bad][0] == bad; }
    assert Answers([id], true) == [Acknowledged(id, true)];
    assert Step(sent, State(0, table, []), Round(1, true)) == State(1, table, [Attempted([bad], false)]);
  }
}
