/** timer_journal.rs: the eight-entry undo log, and the unbounded log it stands for. */
module TimerJournals {
  import opened Machine

  const MAX_TIMER_HISTORY: nat := 8

  type Entry<T> = (u32, T)

  /** A journal as a value: the evicted entry it falls back on, and the entries kept, newest last. */
  datatype Journal<T> = Journal(base: Option<Entry<T>>, kept: seq<Entry<T>>)
  {
    predicate Valid() { |kept| <= MAX_TIMER_HISTORY }

    function Push(sequence: u32, value: T): Journal<T> {
      if |kept| == MAX_TIMER_HISTORY then Journal(Some(kept[0]), kept[1..] + [(sequence, value)])
      else Journal(base, kept + [(sequence, value)])
    }

    function Reject(sequence: u32): Journal<T> { Journal(base, Filter(kept, sequence)) }

    function MapValues(f: T -> T): Journal<T> {
      Journal(if base.Some? then Some((base.value.0, f(base.value.1))) else None, Mapped(kept, f))
    }

    function CurrentEntry(): Option<Entry<T>> { if kept == [] then base else Some(kept[|kept| - 1]) }

    function Current(): Option<T> { if CurrentEntry().Some? then Some(CurrentEntry().value.1) else None }

    /** Whether an entry of the order is kept, and so can be rejected. */
    predicate Holds(sequence: u32) { exists i :: 0 <= i < |kept| && kept[i].0 == sequence }

    /** Whether the entry fallen back on is the order's: it can no longer be rejected. */
    predicate Evicted(sequence: u32) { base.Some? && base.value.0 == sequence }
  }

  function Fresh<T>(): Journal<T> { Journal(None, []) }

  /** The entries of every other order. */
  function Filter<T>(entries: seq<Entry<T>>, sequence: u32): (rest: seq<Entry<T>>)
    ensures |rest| <= |entries|
  {
    if entries == [] then []
    else
      var last := entries[|entries| - 1];
      Filter(entries[..|entries| - 1], sequence) + if last.0 == sequence then [] else [last]
  }

  lemma FilterStep<T>(entries: seq<Entry<T>>, n: nat, sequence: u32)
    requires n < |entries|
    ensures Filter(entries[..n + 1], sequence) == Filter(entries[..n], sequence) + if entries[n].0 == sequence then []
            else [entries[n]]
  {
    assert entries[..n + 1][..n] == entries[..n];
  }

  lemma FilterSnoc<T>(entries: seq<Entry<T>>, e: Entry<T>, sequence: u32)
    ensures Filter(entries + [e], sequence) == Filter(entries, sequence) + (if e.0 == sequence then [] else [e])
    ensures entries + [] == entries
  {
    assert (entries + [e])[..|entries|] == entries;
  }

  lemma {:induction false} FilterClean<T>(entries: seq<Entry<T>>, sequence: u32)
    ensures forall i :: 0 <= i < |Filter(entries, sequence)| ==> Filter(entries, sequence)[i].0 != sequence
  {
    if entries != [] {
      FilterClean(entries[..|entries| - 1], sequence);
    }
  }

  function Mapped<T>(entries: seq<Entry<T>>, f: T -> T): seq<Entry<T>> {
    seq(|entries|, i requires 0 <= i < |entries| => (entries[i].0, f(entries[i].1)))
  }

  /** The journal as the program keeps it. */
  class TimerJournal<T(==)> {
    var base: Option<Entry<T>>
    var entries: array<Option<Entry<T>>>
    var count: nat

    ghost predicate Valid() reads this, entries {
      entries.Length == MAX_TIMER_HISTORY && count <= MAX_TIMER_HISTORY &&
      forall i :: 0 <= i < MAX_TIMER_HISTORY ==> (entries[i].Some? <==> i < count)
    }

    ghost function Now(): Journal<T>
      requires Valid()
      reads this, entries
    {
      Journal(base, seq(count, i requires 0 <= i < count && Valid() reads this, entries => entries[i].value))
    }

    constructor ()
      ensures Valid() && fresh(entries) && Now() == Fresh()
    {
      base := None;
      entries := new Option<Entry<T>>[MAX_TIMER_HISTORY](_ => None);
      count := 0;
    }

    method Push(sequence: u32, value: T)
      requires Valid()
      modifies this, entries
      ensures Valid() && entries == old(entries)
      ensures Now() == old(Now()).Push(sequence, value)
    {
      if count == MAX_TIMER_HISTORY {
        base := entries[0];
        forall i | 0 <= i < MAX_TIMER_HISTORY - 1 {
          entries[i] := entries[i + 1];
        }
        count := count - 1;
        entries[count] := None;
      }
      entries[count] := Some((sequence, value));
      count := count + 1;
    }

    method Reject(sequence: u32) returns (removed: bool)
      requires Valid()
      modifies this
      ensures Valid() && fresh(entries)
      ensures Now() == old(Now()).Reject(sequence)
      ensures removed <==> old(Now()).Holds(sequence)
    {
      hide Filter;
      var kept := new Option<Entry<T>>[MAX_TIMER_HISTORY](_ => None);
      var left := 0;
      removed := false;
      ghost var all := Now().kept;
      ghost var rest := Filter(all[..0], sequence);
      assert rest == [];
      for i := 0 to count
        modifies kept
        invariant left <= i && kept.Length == MAX_TIMER_HISTORY
        invariant forall k :: 0 <= k < MAX_TIMER_HISTORY ==> (kept[k].Some? <==> k < left)
        invariant rest == Filter(all[..i], sequence) && left == |rest|
        invariant forall k :: 0 <= k < left ==> kept[k].value == rest[k]
        invariant removed <==> exists k :: 0 <= k < i && all[k].0 == sequence
      {
        FilterStep(all, i, sequence);
        var entry := entries[i].value;
        if entry.0 == sequence {
          removed := true;
        } else {
          kept[left] := Some(entry);
          left := left + 1;
          rest := rest + [entry];
        }
      }
      assert all[..count] == all;
      entries := kept;
      count := left;
    }

    method MapValues(f: T -> T)
      requires Valid()
      modifies this, entries
      ensures Valid() && entries == old(entries)
      ensures Now() == old(Now()).MapValues(f)
    {
      if base.Some? {
        base := Some((base.value.0, f(base.value.1)));
      }
      forall i | 0 <= i < count {
        entries[i] := Some((entries[i].value.0, f(entries[i].value.1)));
      }
    }

    method CurrentEntry() returns (entry: Option<Entry<T>>)
      requires Valid()
      ensures entry == Now().CurrentEntry()
    {
      entry := if count > 0 then entries[count - 1] else base;
    }
  }

  // ---------- the unbounded log ----------

  datatype Op<T> = Push(sequence: u32, value: T) | Reject(sequence: u32)

  /** Every entry pushed and not rejected since. */
  function LogAfter<T>(ops: seq<Op<T>>): seq<Entry<T>> {
    if ops == [] then []
    else
      var log := LogAfter(ops[..|ops| - 1]);
      match ops[|ops| - 1]
      case Push(s, v) => log + [(s, v)]
      case Reject(s) => Filter(log, s)
  }

  function JournalAfter<T>(ops: seq<Op<T>>): Journal<T> {
    if ops == [] then Fresh()
    else
      var j := JournalAfter(ops[..|ops| - 1]);
      match ops[|ops| - 1]
      case Push(s, v) => j.Push(s, v)
      case Reject(s) => j.Reject(s)
  }

  /** No order is rejected while the entry fallen back on is its own. */
  ghost predicate InWindow<T>(ops: seq<Op<T>>) {
    ops == [] ||
    (InWindow(ops[..|ops| - 1]) && (ops[|ops| - 1].Reject? ==>
      !JournalAfter(ops[..|ops| - 1]).Evicted(ops[|ops| - 1].sequence)))
  }

  /** The journal keeps the end of the log and falls back on the entry just before it. */
  ghost predicate Stands<T>(j: Journal<T>, log: seq<Entry<T>>) {
    j.Valid() && |j.kept| <= |log| &&
    var cut := |log| - |j.kept|;
    log[cut..] == j.kept && j.base == if cut == 0 then None else Some(log[cut - 1])
  }

  lemma {:induction false} FilterSplits<T>(a: seq<Entry<T>>, b: seq<Entry<T>>, s: u32)
    ensures Filter(a + b, s) == Filter(a, s) + Filter(b, s)
  {
    if b == [] {
      assert a + b == a;
    } else {
      var n := |b| - 1;
      assert (a + b)[..|a + b| - 1] == a + b[..n];
      FilterSplits(a, b[..n], s);
    }
  }

  lemma PushStands<T>(j: Journal<T>, log: seq<Entry<T>>, s: u32, v: T)
    requires Stands(j, log)
    ensures Stands(j.Push(s, v), log + [(s, v)])
    // An entry is evicted only when eight later ones stand behind it.
    ensures j.Push(s, v).base != j.base ==> |j.Push(s, v).kept| == MAX_TIMER_HISTORY
  {
    var cut := |log| - |j.kept|;
    var grown := log + [(s, v)];
    if |j.kept| == MAX_TIMER_HISTORY {
      assert log[cut] == j.kept[0];
      assert grown[cut + 1..] == log[cut + 1..] + [(s, v)] == j.kept[1..] + [(s, v)];
    } else {
      assert grown[cut..] == log[cut..] + [(s, v)];
    }
  }

  /** The log before the entries kept, filtered: its end is still the base unless that was rejected. */
  lemma EvictedFiltered<T>(j: Journal<T>, log: seq<Entry<T>>, s: u32)
    requires Stands(j, log)
    ensures var left := Filter(log[..|log| - |j.kept|], s);
            (j.base == None ==> left == []) &&
            (j.base.Some? && j.base.value.0 != s ==> left != [] && left[|left| - 1] == j.base.value) &&
            forall i :: 0 <= i < |left| ==> left[i].0 != s
  {
    var cut := |log| - |j.kept|;
    FilterClean(log[..cut], s);
    if cut > 0 {
      FilterStep(log, cut - 1, s);
    }
    hide Filter;
    assert cut == 0 ==> log[..0] == [];
    KeepsOthers<T>([], s);
  }

  /** A rejection keeps the journal standing for the log exactly when the entry fallen back on
      is not the rejected order's. */
  lemma RejectStands<T>(j: Journal<T>, log: seq<Entry<T>>, s: u32)
    requires Stands(j, log)
    ensures Stands(j.Reject(s), Filter(log, s)) <==> !j.Evicted(s)
  {
    hide Filter;
    var evicted := log[..|log| - |j.kept|];
    EvictedFiltered(j, log, s);
    assert log == evicted + j.kept;
    FilterSplits(evicted, j.kept, s);
    hide Stands;
    StandsOn(j.base, Filter(evicted, s), Filter(j.kept, s), s);
  }

  /** What is left to fall back on is still the base exactly when it was not filtered out. */
  lemma StandsOn<T>(base: Option<Entry<T>>, left: seq<Entry<T>>, rest: seq<Entry<T>>, s: u32)
    requires |rest| <= MAX_TIMER_HISTORY && (base == None ==> left == [])
    requires base.Some? && base.value.0 != s ==> left != [] && left[|left| - 1] == base.value
    requires base.Some? && base.value.0 == s ==> forall i :: 0 <= i < |left| ==> left[i].0 != s
    ensures Stands(Journal(base, rest), left + rest) <==> !(base.Some? && base.value.0 == s)
  {
    assert (left + rest)[|left|..] == rest;
    if left != [] {
      assert (left + rest)[|left| - 1] == left[|left| - 1];
    }
  }

  lemma {:induction false} RunStands<T>(ops: seq<Op<T>>)
    requires InWindow(ops)
    ensures Stands(JournalAfter(ops), LogAfter(ops))
  {
    if ops != [] {
      var before := ops[..|ops| - 1];
      RunStands(before);
      match ops[|ops| - 1]
      case Push(s, v) => PushStands(JournalAfter(before), LogAfter(before), s, v);
      case Reject(s) => RejectStands(JournalAfter(before), LogAfter(before), s);
    }
  }

  /** Over every run whose rejections are in the window, the journal answers the last survivor
      of the unbounded log. */
  lemma CurrentIsLastSurvivor<T>(ops: seq<Op<T>>)
    requires InWindow(ops)
    ensures var log := LogAfter(ops);
            JournalAfter(ops).CurrentEntry() == if log == [] then None else Some(log[|log| - 1])
  {
    hide JournalAfter, LogAfter, InWindow;
    RunStands(ops);
    CurrentEnds(JournalAfter(ops), LogAfter(ops));
  }

  lemma CurrentEnds<T>(j: Journal<T>, log: seq<Entry<T>>)
    requires Stands(j, log)
    ensures j.CurrentEntry() == if log == [] then None else Some(log[|log| - 1])
  {
    var cut := |log| - |j.kept|;
    assert j.kept != [] ==> log[cut..][|j.kept| - 1] == log[|log| - 1];
  }

  /** Undoing the newest push of a fresh order leaves the current entry as it was, even when
      that push evicted another. */
  lemma PushUndone<T>(j: Journal<T>, s: u32, v: T)
    requires j.Valid() && !j.Holds(s)
    ensures j.Push(s, v).Reject(s).CurrentEntry() == j.CurrentEntry()
  {
    var kept := if |j.kept| == MAX_TIMER_HISTORY then j.kept[1..] else j.kept;
    KeepsOthers(kept, s);
    FilterSplits(kept, [(s, v)], s);
    assert Filter([(s, v)], s) == [];
    hide Filter;
    assert j.Push(s, v).Reject(s).kept == kept;
  }

  lemma {:induction false} KeepsOthers<T>(entries: seq<Entry<T>>, s: u32)
    requires forall i :: 0 <= i < |entries| ==> entries[i].0 != s
    ensures Filter(entries, s) == entries
  {
    if entries != [] {
      KeepsOthers(entries[..|entries| - 1], s);
    }
  }

  // ---------- a rejection out of the window ----------

  /** Entries of the orders numbered from `first` to `last`. */
  function Numbered<T>(first: u32, last: u32, value: T): (entries: seq<Entry<T>>)
    ensures |entries| == Max(last + 1 - first, 0)
  {
    seq(Max(last + 1 - first, 0), i requires 0 <= i < Max(last + 1 - first, 0) => (first + i, value))
  }

  lemma FirstFiltered<T>(first: u32, last: u32, value: T)
    requires first <= last < U32_MAX
    ensures Filter(Numbered(first, last, value), first) == Numbered(first + 1, last, value)
  {
    var one, rest := [(first, value)], Numbered(first + 1, last, value);
    assert Numbered(first, last, value) == one + rest;
    FilterSplits(one, rest, first);
    KeepsOthers(rest, first);
    assert one[..0] == [];
  }

  /** Nine orders pushed, and then all nine rejected, oldest first. */
  function NineUndone<T>(n: nat, value: T): (ops: seq<Op<T>>)
    requires n <= 18
    ensures |ops| == n
  {
    if n == 0 then [] else NineUndone(n - 1, value) + [if n <= 9 then Op.Push(n, value) else Op.Reject(n - 9)]
  }

  lemma {:induction false} EightPushed<T>(n: nat, value: T)
    requires n <= 8
    ensures LogAfter(NineUndone(n, value)) == Numbered(1, n, value)
    ensures JournalAfter(NineUndone(n, value)) == Journal(None, Numbered(1, n, value))
  {
    if n > 0 {
      EightPushed(n - 1, value);
      assert NineUndone(n, value)[..n - 1] == NineUndone(n - 1, value);
      OneMore(1, n, value);
      hide Numbered;
    }
  }

  lemma OneMore<T>(first: u32, last: u32, value: T)
    requires 1 <= first <= last
    ensures Numbered(first, last, value) == Numbered(first, last - 1, value) + [(last, value)]
  {
  }

  lemma NinePushed<T>(value: T)
    ensures LogAfter(NineUndone(9, value)) == Numbered(1, 9, value)
    ensures JournalAfter(NineUndone(9, value)) == Journal(Some((1, value)), Numbered(2, 9, value))
  {
    EightPushed(8, value);
    assert NineUndone(9, value)[..8] == NineUndone(8, value);
    OneMore(1, 9, value);
    assert Numbered(1, 8, value)[0] == (1, value);
    assert Numbered(1, 8, value)[1..] + [(9, value)] == Numbered(2, 9, value);
    hide Numbered, NineUndone;
  }

  /** The oldest was evicted before it was rejected, and is fallen back on for good: with every order
      refused the log is empty, and the journal still answers the first. */
  lemma {:induction false} EvictedComesBack<T>(n: nat, value: T)
    requires 9 <= n <= 18
    ensures LogAfter(NineUndone(n, value)) == Numbered(n - 8, 9, value)
    ensures JournalAfter(NineUndone(n, value)) == Journal(Some((1, value)), Numbered(Max(n - 8, 2), 9, value))
    ensures n == 18 ==>
              LogAfter(NineUndone(n, value)) == [] &&
                JournalAfter(NineUndone(n, value)).CurrentEntry() == Some((1, value))
  {
    hide Filter;
    if n == 9 {
      NinePushed(value);
    } else {
      EvictedComesBack(n - 1, value);
      assert NineUndone(n, value)[..n - 1] == NineUndone(n - 1, value);
      FirstFiltered(n - 9, 9, value);
      KeepsOthers(Numbered(2, 9, value), 1);
    }
  }
}
