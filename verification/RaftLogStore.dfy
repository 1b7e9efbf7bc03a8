/** The in-memory log store: a growing vector with a sentinel at index 0, and the persisted term and vote. */
module RaftLogStore {
  import opened RaftTypes
  import Rules = RaftRules

  class InMemoryLogStore {
    var log: seq<LogEntry>
    var term: nat
    var votedFor: NodeId

    ghost predicate Valid()
      reads this
    {
      |log| >= 1
    }

    /** The value this store stands for. */
    ghost function View(): Store
      reads this
      requires Valid()
    {
      Store(log, term, votedFor)
    }

    constructor ()
      ensures Valid() && View() == EMPTY_STORE
    {
      log := [SENTINEL];
      term := 0;
      votedFor := NOBODY;
    }

    method Append(entry: LogEntry) returns (index: nat)
      requires Valid()
      modifies this`log
      ensures Valid() && log == Rules.Append(old(log), entry)
      ensures index == old(|log|) && log[index] == entry.(index := index)
    {
      index := |log|;
      log := log + [entry.(index := index)];
    }

    method GetRange(start: nat, end: nat) returns (result: seq<LogEntry>)
      requires Valid()
      ensures result == Rules.GetRange(log, start, end)
      ensures |result| == if start <= end && start < |log| then Rules.Min(end, |log| - 1) - start + 1 else 0
      ensures forall k :: 0 <= k < |result| ==> result[k] == log[start + k]
    {
      result := [];
      if start > end || start > |log| - 1 {
        return;
      }
      var last := Rules.Min(end, |log| - 1);
      var i := start;
      while i <= last
        invariant start <= i <= last + 1
        invariant result == log[start..i]
      {
        result := result + [log[i]];
        i := i + 1;
      }
    }

    method Get(index: nat) returns (e: LogEntry)
      requires Valid()
      ensures e == Rules.Get(log, index)
    {
      if index >= |log| {
        return LogEntry(0, 0, "");
      }
      return log[index];
    }

    method LastIndex() returns (index: nat)
      requires Valid()
      ensures index == Rules.LastIndex(log)
    {
      index := |log| - 1;
    }

    method LastTerm() returns (t: nat)
      requires Valid()
      ensures t == Rules.LastTerm(log)
    {
      t := log[|log| - 1].term;
    }

    method TruncateAfter(index: nat)
      requires Valid()
      modifies this`log
      ensures Valid() && log == Rules.TruncateAfter(old(log), index)
      ensures log <= old(log) && |log| == Rules.Min(index + 1, old(|log|))
    {
      if index + 1 < |log| {
        log := log[..index + 1];
      }
    }

    method Size() returns (n: nat)
      requires Valid()
      ensures n == |log|
    {
      n := |log|;
    }

    method PersistState(t: nat, v: NodeId)
      modifies this`term, this`votedFor
      ensures term == t && votedFor == v
    {
      term, votedFor := t, v;
    }

    method LoadState() returns (t: nat, v: NodeId)
      ensures t == term && v == votedFor
    {
      t, v := term, votedFor;
    }

    method Clear()
      modifies this
      ensures Valid() && View() == EMPTY_STORE
    {
      log := [SENTINEL];
      term, votedFor := 0, NOBODY;
    }
  }
}
