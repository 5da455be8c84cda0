/**
 The in-memory result cache: insertion-ordered, bounded, with a lifetime.
 Instants are natural numbers; `elapsed` saturates at zero.
 */
module Cache {
  import opened Common

  datatype Entry<K> = Entry(key: K, output: string, insertedAt: nat)

  predicate Expired<K>(entry: Entry<K>, ttl: nat, now: nat) { now > entry.insertedAt + ttl }

  function Without<K(==)>(entries: seq<Entry<K>>, key: K): seq<Entry<K>> {
    if entries == [] then []
    else if entries[0].key == key then Without(entries[1..], key)
    else [entries[0]] + Without(entries[1..], key)
  }

  function Unexpired<K>(entries: seq<Entry<K>>, ttl: nat, now: nat): seq<Entry<K>> {
    if entries == [] then []
    else if Expired(entries[0], ttl, now) then Unexpired(entries[1..], ttl, now)
    else [entries[0]] + Unexpired(entries[1..], ttl, now)
  }

  function Newest<K>(entries: seq<Entry<K>>, capacity: nat): seq<Entry<K>> {
    if |entries| <= capacity then entries else entries[|entries| - capacity..]
  }

  function Inserted<K(==)>(entries: seq<Entry<K>>, capacity: nat, entry: Entry<K>): seq<Entry<K>> {
    if capacity == 0 then entries else Newest(Without(entries, entry.key) + [entry], capacity)
  }

  function Lookup<K(==)>(entries: seq<Entry<K>>, key: K): Option<string> {
    if entries == [] then None
    else if entries[0].key == key then Some(entries[0].output)
    else Lookup(entries[1..], key)
  }

  class ResultCache<K(==)> {
    const capacity: nat
    const ttl: nat
    var entries: seq<Entry<K>>

    constructor (capacity: nat, ttl: nat)
      ensures this.capacity == capacity && this.ttl == ttl && entries == []
    {
      this.capacity, this.ttl, entries := capacity, ttl, [];
    }

    method Insert(key: K, output: string, now: nat)
      modifies this
      ensures entries == Inserted(old(entries), capacity, Entry(key, output, now))
    {
      if capacity == 0 {
        return;
      }
      entries := Without(entries, key);
      entries := entries + [Entry(key, output, now)];
      ghost var all := entries;
      while |entries| > capacity
        invariant |entries| <= |all| && entries == all[|all| - |entries|..]
        invariant |entries| >= capacity || entries == all
      {
        entries := entries[1..];
      }
    }

    method Get(key: K, now: nat) returns (output: Option<string>)
      modifies this
      ensures entries == Unexpired(old(entries), ttl, now)
      ensures output == Lookup(entries, key)
    {
      RemoveExpired(now);
      var i := 0;
      while i < |entries|
        invariant 0 <= i <= |entries|
        invariant Lookup(entries[i..], key) == Lookup(entries, key)
      {
        if entries[i].key == key {
          return Some(entries[i].output);
        }
        assert entries[i..][1..] == entries[i + 1..];
        i := i + 1;
      }
      return None;
    }

    method RemoveExpired(now: nat)
      modifies this
      ensures entries == Unexpired(old(entries), ttl, now)
    {
      entries := Unexpired(entries, ttl, now);
    }
  }

  // ------------------------------------------------------------------ traces

  datatype Op<K> = Insert(key: K, output: string, at: nat) | Get(key: K, at: nat)

  /** The deque after a trace. */
  function Entries<K(==)>(ops: seq<Op<K>>, capacity: nat, ttl: nat): seq<Entry<K>> {
    if ops == [] then []
    else
      var before := Entries(ops[..|ops| - 1], capacity, ttl);
      match ops[|ops| - 1]
      case Insert(key, output, at) => Inserted(before, capacity, Entry(key, output, at))
      case Get(_, at) => Unexpired(before, ttl, at)
  }

  ghost predicate Monotone<K>(ops: seq<Op<K>>, now: nat) {
    && (forall i, j :: 0 <= i < j < |ops| ==> ops[i].at <= ops[j].at)
    && (forall i :: 0 <= i < |ops| ==> ops[i].at <= now)
  }

  /** The index of the latest insertion of `key`. */
  function Latest<K(==)>(ops: seq<Op<K>>, key: K): (i: Option<nat>)
    ensures i.Some? ==> i.value < |ops| && ops[i.value].Insert? && ops[i.value].key == key
  {
    if ops == [] then None
    else
      var last := ops[|ops| - 1];
      if last.Insert? && last.key == key then Some(|ops| - 1) else Latest(ops[..|ops| - 1], key)
  }

  ghost function InsertedKeys<K>(ops: seq<Op<K>>): set<K> {
    set op | op in ops && op.Insert? :: op.key
  }

  /** What a lookup should answer, said without any deque: the latest insertion of
      the key, if it is young enough and fewer than `capacity` other keys were
      inserted after it. */
  ghost function Expected<K(!new)>(ops: seq<Op<K>>, capacity: nat, ttl: nat, key: K, now: nat): Option<string> {
    var i := Latest(ops, key);
    if i.None? then None
    else if now <= ops[i.value].at + ttl && |InsertedKeys(ops[i.value + 1..])| < capacity
    then Some(ops[i.value].output)
    else None
  }

  // ---------------------------------------------- every key, nothing dropped

  /** All keys ever inserted, in order of their latest insertion. */
  function All<K(==)>(ops: seq<Op<K>>): seq<Entry<K>> {
    if ops == [] then []
    else
      var before := All(ops[..|ops| - 1]);
      match ops[|ops| - 1]
      case Insert(key, output, at) => Without(before, key) + [Entry(key, output, at)]
      case Get(_, _) => before
  }

  function Keys<K(==)>(entries: seq<Entry<K>>): set<K> {
    if entries == [] then {} else {entries[0].key} + Keys(entries[1..])
  }

  predicate Distinct<K(==)>(entries: seq<Entry<K>>) {
    entries == [] || (entries[0].key !in Keys(entries[1..]) && Distinct(entries[1..]))
  }

  ghost predicate Sorted<K>(entries: seq<Entry<K>>) {
    entries == [] || ((forall e :: e in entries[1..] ==> entries[0].insertedAt <= e.insertedAt) && Sorted(entries[1..]))
  }

  function Find<K(==)>(entries: seq<Entry<K>>, key: K): (r: Option<Entry<K>>)
    ensures r.Some? <==> key in Keys(entries)
    ensures r.Some? ==> r.value in entries
  {
    if entries == [] then None
    else if entries[0].key == key then Some(entries[0])
    else Find(entries[1..], key)
  }

  /** The entries behind the one of that key. */
  function Behind<K(==)>(entries: seq<Entry<K>>, key: K): seq<Entry<K>> {
    if entries == [] then []
    else if entries[0].key == key then entries[1..]
    else Behind(entries[1..], key)
  }

  lemma {:induction false} KeysConcat<K>(a: seq<Entry<K>>, b: seq<Entry<K>>)
    ensures Keys(a + b) == Keys(a) + Keys(b)
    ensures Distinct(a + b) <==> Distinct(a) && Distinct(b) && Keys(a) !! Keys(b)
  {
    if a == [] {
      assert a + b == b;
    } else {
      assert (a + b)[1..] == a[1..] + b;
      KeysConcat(a[1..], b);
    }
  }

  lemma {:induction false} WithoutConcat<K>(a: seq<Entry<K>>, b: seq<Entry<K>>, key: K)
    ensures Without(a + b, key) == Without(a, key) + Without(b, key)
  {
    if a == [] {
      assert a + b == b;
    } else {
      assert (a + b)[1..] == a[1..] + b;
      WithoutConcat(a[1..], b, key);
    }
  }

  lemma {:induction false} FindConcat<K>(a: seq<Entry<K>>, b: seq<Entry<K>>, key: K)
    ensures Find(a + b, key) == if key in Keys(a) then Find(a, key) else Find(b, key)
    ensures Behind(a + b, key) == if key in Keys(a) then Behind(a, key) + b else Behind(b, key)
  {
    if a == [] {
      assert a + b == b;
    } else {
      assert (a + b)[1..] == a[1..] + b;
      FindConcat(a[1..], b, key);
    }
  }

  lemma {:induction false} WithoutFacts<K>(entries: seq<Entry<K>>, removed: K)
    ensures Keys(Without(entries, removed)) == Keys(entries) - {removed}
    ensures removed !in Keys(entries) ==> Without(entries, removed) == entries
    ensures Distinct(entries) ==> Distinct(Without(entries, removed)) && |Without(entries, removed)| >= |entries| - 1
    ensures forall e :: e in Without(entries, removed) ==> e in entries
    ensures Sorted(entries) ==> Sorted(Without(entries, removed))
  {
    if entries != [] {
      WithoutFacts(entries[1..], removed);
      if entries[0].key != removed {
        assert Without(entries, removed)[1..] == Without(entries[1..], removed);
      }
    }
  }

  lemma {:induction false} WithoutOther<K>(entries: seq<Entry<K>>, removed: K, key: K)
    requires key != removed
    ensures Find(Without(entries, removed), key) == Find(entries, key)
    ensures Behind(Without(entries, removed), key) == Without(Behind(entries, key), removed)
  {
    if entries != [] {
      WithoutOther(entries[1..], removed, key);
      if entries[0].key != removed {
        assert Without(entries, removed)[1..] == Without(entries[1..], removed);
      }
    }
  }

  lemma {:induction false} CountKeys<K>(entries: seq<Entry<K>>)
    requires Distinct(entries)
    ensures |Keys(entries)| == |entries|
  {
    if entries != [] {
      CountKeys(entries[1..]);
    }
  }

  lemma {:induction false} BehindFacts<K>(entries: seq<Entry<K>>, key: K)
    ensures Distinct(entries) ==> Distinct(Behind(entries, key))
    ensures key in Keys(entries) ==> |Behind(entries, key)| < |entries|
  {
    if entries != [] {
      BehindFacts(entries[1..], key);
    }
  }

  lemma {:induction false} SortedSnoc<K>(entries: seq<Entry<K>>, entry: Entry<K>)
    requires Sorted(entries) && forall e :: e in entries ==> e.insertedAt <= entry.insertedAt
    ensures Sorted(entries + [entry])
  {
    if entries != [] {
      assert (entries + [entry])[1..] == entries[1..] + [entry];
      SortedSnoc(entries[1..], entry);
    }
  }

  lemma {:induction false} AllOrdered<K>(ops: seq<Op<K>>, now: nat)
    requires Monotone(ops, now)
    ensures Distinct(All(ops)) && Sorted(All(ops))
    ensures forall e :: e in All(ops) ==> e.insertedAt <= now
  {
    if ops != [] {
      var last := ops[|ops| - 1];
      var before := All(ops[..|ops| - 1]);
      AllOrdered(ops[..|ops| - 1], last.at);
      if last.Insert? {
        var entry := Entry(last.key, last.output, last.at);
        WithoutFacts(before, last.key);
        SortedSnoc(Without(before, last.key), entry);
        KeysConcat(Without(before, last.key), [entry]);
      }
    }
  }

  lemma InsertedSnoc<K>(ops: seq<Op<K>>, last: Op<K>)
    ensures InsertedKeys(ops + [last]) == InsertedKeys(ops) + (if last.Insert? then {last.key} else {})
  {
    assert forall op :: op in ops + [last] <==> op in ops || op == last;
  }

  ghost predicate Placed<K(!new)>(ops: seq<Op<K>>, key: K) {
    var i, e := Latest(ops, key), Find(All(ops), key);
    && (i.None? <==> e.None?)
    && (i.Some? ==> && e.value == Entry(key, ops[i.value].output, ops[i.value].at)
                    && Keys(Behind(All(ops), key)) == InsertedKeys(ops[i.value + 1..]))
  }

  lemma PlacedLast<K(!new)>(ops: seq<Op<K>>, key: K)
    requires ops != [] && ops[|ops| - 1].Insert? && ops[|ops| - 1].key == key
    ensures Placed(ops, key)
  {
    var init, last := ops[..|ops| - 1], ops[|ops| - 1];
    var entry := Entry(last.key, last.output, last.at);
    WithoutFacts(All(init), key);
    FindConcat(Without(All(init), key), [entry], key);
    assert ops[|ops|..] == [] && [entry][1..] == [];
  }

  lemma PlacedStill<K(!new)>(init: seq<Op<K>>, last: Op<K>, key: K)
    requires Placed(init, key) && !(last.Insert? && last.key == key)
    ensures Placed(init + [last], key)
  {
    var ops := init + [last];
    assert ops[..|ops| - 1] == init;
    var i := Latest(init, key);
    if i.Some? {
      assert ops[i.value + 1..] == init[i.value + 1..] + [last];
      InsertedSnoc(init[i.value + 1..], last);
    }
    if last.Insert? {
      var entry := Entry(last.key, last.output, last.at);
      WithoutFacts(All(init), last.key);
      WithoutOther(All(init), last.key, key);
      FindConcat(Without(All(init), last.key), [entry], key);
      if i.Some? {
        MovedBehind(All(init), entry, key);
      }
    }
  }

  /** The entry of a key is its latest insertion, and the entries behind it are the
      keys inserted since. */
  lemma {:induction false} Position<K(!new)>(ops: seq<Op<K>>, key: K)
    ensures Placed(ops, key)
  {
    if ops != [] {
      var init, last := ops[..|ops| - 1], ops[|ops| - 1];
      if last.Insert? && key == last.key {
        PlacedLast(ops, key);
      } else {
        Position(init, key);
        PlacedStill(init, last, key);
        assert init + [last] == ops;
      }
    }
  }

  lemma MovedBehind<K>(entries: seq<Entry<K>>, entry: Entry<K>, key: K)
    requires key != entry.key && key in Keys(entries)
    ensures Keys(Behind(Without(entries, entry.key) + [entry], key)) == Keys(Behind(entries, key)) + {entry.key}
  {
    WithoutFacts(entries, entry.key);
    WithoutOther(entries, entry.key, key);
    FindConcat(Without(entries, entry.key), [entry], key);
    WithoutFacts(Behind(entries, key), entry.key);
    KeysConcat(Behind(Without(entries, entry.key), key), [entry]);
  }

  // ------------------------------------------------------- the bounded deque

  /** The deque is what is left of `all` after `gone`; what is gone is expired,
      unless the deque is full. */
  ghost predicate LeftOf<K>(entries: seq<Entry<K>>, gone: seq<Entry<K>>, all: seq<Entry<K>>, capacity: nat, ttl: nat,
                            now: nat)
  {
    && all == gone + entries && |entries| <= capacity
    && (|entries| == capacity || forall e :: e in gone ==> Expired(e, ttl, now))
  }

  /** In an ordered deque the expired entries come first. */
  lemma {:induction false} ExpiredFirst<K>(entries: seq<Entry<K>>, ttl: nat, now: nat) returns (gone: seq<Entry<K>>)
    requires Sorted(entries)
    ensures entries == gone + Unexpired(entries, ttl, now)
    ensures forall e :: e in gone ==> Expired(e, ttl, now)
    ensures forall e :: e in Unexpired(entries, ttl, now) ==> !Expired(e, ttl, now)
  {
    if entries == [] {
      gone := [];
    } else if Expired(entries[0], ttl, now) {
      var rest := ExpiredFirst(entries[1..], ttl, now);
      gone := [entries[0]] + rest;
    } else {
      gone := [];
      AllYoung(entries, ttl, now);
    }
  }

  lemma {:induction false} AllYoung<K>(entries: seq<Entry<K>>, ttl: nat, now: nat)
    requires forall e :: e in entries ==> !Expired(e, ttl, now)
    ensures Unexpired(entries, ttl, now) == entries
  {
    if entries != [] {
      AllYoung(entries[1..], ttl, now);
    }
  }

  lemma {:induction false} SortedConcat<K>(a: seq<Entry<K>>, b: seq<Entry<K>>)
    requires Sorted(a + b)
    ensures Sorted(b) && forall x, y :: x in a && y in b ==> x.insertedAt <= y.insertedAt
  {
    if a == [] {
      assert a + b == b;
    } else {
      assert (a + b)[1..] == a[1..] + b;
      SortedConcat(a[1..], b);
      assert forall y :: y in b ==> y in a[1..] + b;
    }
  }

  lemma AfterGet<K>(before: seq<Entry<K>>, gone: seq<Entry<K>>, all: seq<Entry<K>>, capacity: nat, ttl: nat, now: nat)
    returns (left: seq<Entry<K>>)
    requires Sorted(all) && LeftOf(before, gone, all, capacity, ttl, now)
    ensures LeftOf(Unexpired(before, ttl, now), left, all, capacity, ttl, now)
  {
    SortedConcat(gone, before);
    var dropped := ExpiredFirst(before, ttl, now);
    left := gone + dropped;
    assert all == left + Unexpired(before, ttl, now);
    if dropped != [] {
      assert dropped[0] in before && Expired(dropped[0], ttl, now);
    } else {
      assert before == Unexpired(before, ttl, now);
    }
  }

  lemma AfterInsert<K>(before: seq<Entry<K>>, gone: seq<Entry<K>>, all: seq<Entry<K>>, capacity: nat, ttl: nat, now: nat,
                       entry: Entry<K>) returns (left: seq<Entry<K>>)
    requires Distinct(all) && LeftOf(before, gone, all, capacity, ttl, now)
    ensures LeftOf(Inserted(before, capacity, entry), left, Without(all, entry.key) + [entry], capacity, ttl, now)
  {
    hide Distinct, Without, Expired;
    var key := entry.key;
    WithoutConcat(gone, before, key);
    var pushed := Without(before, key) + [entry];
    var over := if |pushed| > capacity then |pushed| - capacity else 0;
    left := Without(gone, key) + pushed[..over];
    assert Without(all, key) + [entry] == left + pushed[over..];
    if over == 0 && |pushed| < capacity {
      NeverFull(gone, before, entry, capacity);
      WithoutFacts(gone, key);
      assert left == Without(gone, key);
    }
  }

  /** A push that leaves room means there was room before. */
  lemma NeverFull<K>(gone: seq<Entry<K>>, before: seq<Entry<K>>, entry: Entry<K>, capacity: nat)
    requires Distinct(gone + before) && |Without(before, entry.key)| + 1 < capacity
    ensures |before| < capacity
  {
    KeysConcat(gone, before);
    WithoutFacts(before, entry.key);
  }

  lemma Later<K>(entries: seq<Entry<K>>, gone: seq<Entry<K>>, all: seq<Entry<K>>, capacity: nat, ttl: nat, now: nat,
                 later: nat)
    requires LeftOf(entries, gone, all, capacity, ttl, now) && now <= later
    ensures LeftOf(entries, gone, all, capacity, ttl, later)
  {
  }

  lemma {:induction false} EntriesLeft<K>(ops: seq<Op<K>>, capacity: nat, ttl: nat, now: nat)
    returns (gone: seq<Entry<K>>)
    requires Monotone(ops, now)
    ensures LeftOf(Entries(ops, capacity, ttl), gone, All(ops), capacity, ttl, now)
  {
    gone := [];
    if ops != [] {
      var init, last := ops[..|ops| - 1], ops[|ops| - 1];
      var before := EntriesLeft(init, capacity, ttl, last.at);
      AllOrdered(init, last.at);
      if last.Get? {
        gone := AfterGet(Entries(init, capacity, ttl), before, All(init), capacity, ttl, last.at);
      } else {
        gone := AfterInsert(Entries(init, capacity, ttl), before, All(init), capacity, ttl, last.at,
                            Entry(last.key, last.output, last.at));
      }
      Later(Entries(ops, capacity, ttl), gone, All(ops), capacity, ttl, last.at, now);
    }
  }

  // ------------------------------------------------------------ the theorem

  lemma {:induction false} LookupFinds<K>(entries: seq<Entry<K>>, key: K)
    ensures var e := Find(entries, key); Lookup(entries, key) == if e.Some? then Some(e.value.output) else None
  {
    if entries != [] {
      LookupFinds(entries[1..], key);
    }
  }

  /** With a monotone clock, after any trace: a lookup answers exactly the latest
      insertion of the key if that is young enough and fewer than `capacity` other
      keys were inserted since.  Expired entries still in the deque, and the ones
      earlier lookups removed, never change an answer. */
  lemma LookupCharacterised<K(!new)>(ops: seq<Op<K>>, capacity: nat, ttl: nat, key: K, now: nat)
    requires Monotone(ops, now)
    ensures Lookup(Unexpired(Entries(ops, capacity, ttl), ttl, now), key) == Expected(ops, capacity, ttl, key, now)
  {
    hide Distinct, Sorted, Unexpired, Entries, All, Behind, Lookup, Latest;
    var entries, all := Entries(ops, capacity, ttl), All(ops);
    var gone := EntriesLeft(ops, capacity, ttl, now);
    AllOrdered(ops, now);
    SortedConcat(gone, entries);
    var dropped := ExpiredFirst(entries, ttl, now);
    Position(ops, key);
    BehindFacts(all, key);
    CountKeys(Behind(all, key));
    if key in Keys(all) {
      FindAmong(gone, dropped, Unexpired(entries, ttl, now), all, key);
    } else {
      KeysConcat(gone, entries);
      KeysConcat(dropped, Unexpired(entries, ttl, now));
    }
    LookupFinds(Unexpired(entries, ttl, now), key);
  }

  /** Where the entry of a key is, and how many entries are behind it. */
  lemma FindAmong<K>(gone: seq<Entry<K>>, dropped: seq<Entry<K>>, kept: seq<Entry<K>>, all: seq<Entry<K>>, key: K)
    requires all == gone + (dropped + kept) && Distinct(all) && key in Keys(all)
    ensures key in Keys(gone) ==> Find(all, key).value in gone && Find(kept, key).None?
                                  && |Behind(all, key)| >= |dropped + kept|
    ensures key in Keys(dropped) ==> Find(all, key).value in dropped && Find(kept, key).None?
    ensures key !in Keys(gone) && key !in Keys(dropped) ==>
              Find(all, key) == Find(kept, key) && |Behind(all, key)| < |kept|
  {
    KeysConcat(gone, dropped + kept);
    KeysConcat(dropped, kept);
    FindConcat(gone, dropped + kept, key);
    FindConcat(dropped, kept, key);
    BehindFacts(kept, key);
  }
}
