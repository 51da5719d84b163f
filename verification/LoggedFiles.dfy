/** The logger of lib_logger/src/async_logger.cc with a rotating file among its sinks
    (lib_logger/src/sinks/file_sink.cc): what ends up in the files. */
module LoggedFiles {
  import opened Bytes
  import A = AsyncLoggers
  import S = FileSinks

  /** LogFormatter::Format, whatever it does. */
  type Format = A.Entry -> bytes

  /** A file sink that was asked to write these entries, rotations failing as they may. */
  ghost predicate Writes(attempts: seq<S.Attempt>, format: Format, entries: seq<A.Entry>) {
    && |attempts| == |entries|
    && forall k :: 0 <= k < |entries| ==> attempts[k].line == format(entries[k])
  }

  function Lines(format: Format, entries: seq<A.Entry>): bytes {
    if entries == [] then [] else format(entries[0]) + S.NEWLINE + Lines(format, entries[1..])
  }

  lemma {:induction false} WritesLines(attempts: seq<S.Attempt>, format: Format, entries: seq<A.Entry>)
    requires Writes(attempts, format, entries)
    ensures S.Written(attempts) == Lines(format, entries)
    decreases |entries|
  {
    if entries == [] {
    } else {
      WritesLines(attempts[1..], format, entries[1..]);
    }
  }

  /** What sink i has been offered is the beginning of what was accepted and not evicted. */
  lemma OfferedIsAccepted(policy: A.Policy, capacity: nat, sinks: nat, events: seq<A.Event>, i: nat)
    requires A.WellConfigured(policy, capacity) && A.Possible(A.Start(policy, capacity, sinks), events) && i < sinks
    ensures
      var l := A.Run(A.Start(policy, capacity, sinks), events);
      i < |l.offered| && l.offered[i] <= A.Kept(l.core.removed)
  {
    A.NothingLostOrDoubled(policy, capacity, sinks, events);
  }

  /** At every moment of every interleaving, under every policy, whatever files there
      were and wherever rotations fail: the files of sink i, backups oldest first and
      then the current one, are the end of the old log and the lines of the first of the
      accepted, not evicted entries, in order. */
  lemma FilesEndTheLines(policy: A.Policy, capacity: nat, sinks: nat, events: seq<A.Event>, i: nat, format: Format,
                         rotationSize: nat, max: int, files: S.Files, attempts: seq<S.Attempt>)
    requires A.WellConfigured(policy, capacity) && A.Possible(A.Start(policy, capacity, sinks), events) && i < sinks
    requires
      var l := A.Run(A.Start(policy, capacity, sinks), events);
      i < |l.offered| && Writes(attempts, format, l.offered[i])
    ensures
      var l := A.Run(A.Start(policy, capacity, sinks), events);
      var s := S.Run(S.Create(rotationSize, max, files), attempts);
      && S.IsSuffix(S.Log(s.files, max), S.Log(files, max) + Lines(format, l.offered[i]))
      && l.offered[i] <= A.Kept(l.core.removed)
  {
    OfferedIsAccepted(policy, capacity, sinks, events, i);
    WritesLines(attempts, format, A.Run(A.Start(policy, capacity, sinks), events).offered[i]);
    S.FilesAreASuffixOfHistory(rotationSize, max, files, attempts);
  }

  /** After a shutdown whose drain no producer was underway in, a sink that began with no
      files and has not rotated more often than it has slots holds exactly the lines of
      all entries accepted and not evicted, in order. */
  lemma FilesHoldAllLines(policy: A.Policy, capacity: nat, sinks: nat, events: seq<A.Event>, i: nat, format: Format,
                          rotationSize: nat, max: int, attempts: seq<S.Attempt>)
    requires A.WellConfigured(policy, capacity) && A.Possible(A.Start(policy, capacity, sinks), events) && i < sinks
    requires
      var l := A.Run(A.Start(policy, capacity, sinks), events);
      l.shutdown.Returned? && l.quietDrain && i < |l.offered| && Writes(attempts, format, l.offered[i])
    requires S.Run(S.Create(rotationSize, max, map[]), attempts).rotations <= S.Slots(max)
    ensures
      var l := A.Run(A.Start(policy, capacity, sinks), events);
      && l.core.accepted == A.Entries(l.core.removed)
      && S.Log(S.Run(S.Create(rotationSize, max, map[]), attempts).files, max) == Lines(format, A.Kept(l.core.removed))
  {
    A.ShutdownDeliversEverything(policy, capacity, sinks, events);
    WritesLines(attempts, format, A.Run(A.Start(policy, capacity, sinks), events).offered[i]);
    S.NothingLostYet(rotationSize, max, attempts);
  }
}
