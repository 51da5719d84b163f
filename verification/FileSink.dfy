/** lib_logger/src/sinks/file_sink.cc: the rotating log file, judged against
    everything ever written to it. */
module FileSinks {
  import opened Bytes

  const NEWLINE: bytes := [10]

  /** path_, and path_ with a number appended. */
  datatype Name = Current | Backup(n: int)

  type Files = map<Name, bytes>

  function Held(files: Files, name: Name): bytes { if name in files then files[name] else [] }

  /** rename(2): replaces the target. */
  function Move(files: Files, from: Name, to: Name): Files
    requires from in files && from != to
  {
    (files - {from})[to := files[from]]
  }

  // ---- Rotation ----

  /** The first `budget` file operations succeed; the next one throws, which ends the
      rotation where it stands. */
  datatype Progress = Progress(files: Files, budget: nat, threw: bool)

  function RemoveOldest(files: Files, max: int, budget: nat): Progress {
    if max > 0 && Backup(max) in files then
      if budget == 0 then Progress(files, 0, true) else Progress(files - {Backup(max)}, budget - 1, false)
    else Progress(files, budget, false)
  }

  /** Backups i down to 1, each to the next number. */
  function Shift(p: Progress, i: int): Progress
    decreases i
  {
    if i < 1 || p.threw then p
    else if Backup(i) !in p.files then Shift(p, i - 1)
    else if p.budget == 0 then p.(threw := true)
    else Shift(Progress(Move(p.files, Backup(i), Backup(i + 1)), p.budget - 1, false), i - 1)
  }

  function RetireCurrent(p: Progress): Progress {
    if p.threw then p
    else if p.budget == 0 || Current !in p.files then p.(threw := true)
    else Progress(Move(p.files, Current, Backup(1)), p.budget - 1, false)
  }

  function Rotate(files: Files, max: int, budget: nat): Progress {
    RetireCurrent(Shift(RemoveOldest(files, max, budget), max - 1))
  }

  /** Opening for append creates the file if it is gone. */
  function Open(files: Files): Files { if Current in files then files else files[Current := []] }

  // ---- The sink ----

  datatype Sink = Sink(
    rotationSize: nat,
    max: int,                    // max_backups_
    files: Files,
    size: nat,                   // current_size_
    rotations: nat               // calls of Rotate
  )

  function Create(rotationSize: nat, max: int, files: Files): Sink {
    Sink(rotationSize, max, Open(files), |Open(files)[Current]|, 0)
  }

  predicate Due(s: Sink) { s.rotationSize > 0 && s.size >= s.rotationSize }

  function Rotated(s: Sink, budget: nat): Sink {
    var files := Open(Rotate(s.files, s.max, budget).files);
    s.(files := files, size := |files[Current]|, rotations := s.rotations + 1)
  }

  function Append(s: Sink, line: bytes): Sink
    requires Current in s.files
  {
    s.(files := s.files[Current := s.files[Current] + line + NEWLINE], size := s.size + |line| + 1)
  }

  function Write(s: Sink, line: bytes, budget: nat): Sink
    requires Current in s.files
  {
    Append(if Due(s) then Rotated(s, budget) else s, line)
  }

  /** With max_backups below 1 the sink still keeps one backup. */
  function Slots(max: int): (k: nat)
    ensures k >= 1
  {
    Max(1, max)
  }

  function Backups(files: Files, k: nat): bytes {
    if k == 0 then [] else Held(files, Backup(k)) + Backups(files, k - 1)
  }

  /** What the files still hold, oldest first. */
  function Log(files: Files, max: int): bytes { Backups(files, Slots(max)) + Held(files, Current) }

  ghost predicate IsSuffix(s: bytes, t: bytes) { |s| <= |t| && t[|t| - |s|..] == s }

  // ---- Rotation only moves content, and drops it only from the old end ----

  lemma {:induction false} BackupsDependOn(a: Files, b: Files, k: nat)
    requires forall n :: 1 <= n <= k ==> Held(a, Backup(n)) == Held(b, Backup(n))
    ensures Backups(a, k) == Backups(b, k)
  {
    if k == 0 {
    } else {
      BackupsDependOn(a, b, k - 1);
    }
  }

  /** Moving a backup into a free slot above it leaves the concatenation alone. */
  lemma {:induction false} MoveUpKeeps(files: Files, i: int, k: nat)
    requires 1 <= i < k && Backup(i) in files && Backup(i + 1) !in files
    ensures Backups(Move(files, Backup(i), Backup(i + 1)), k) == Backups(files, k)
    decreases k
  {
    var moved := Move(files, Backup(i), Backup(i + 1));
    if k > i + 1 {
      MoveUpKeeps(files, i, k - 1);
      assert Held(moved, Backup(k)) == Held(files, Backup(k));
    } else {
      BackupsDependOn(moved, files, i - 1);
      assert Backups(moved, k) == Held(moved, Backup(i + 1)) + (Held(moved, Backup(i)) + Backups(moved, i - 1));
      assert Backups(files, k) == Held(files, Backup(i + 1)) + (Held(files, Backup(i)) + Backups(files, i - 1));
    }
  }

  lemma {:induction false} ShiftKeepsLog(p: Progress, i: int, max: int)
    requires i < Slots(max)
    requires i >= 1 ==> Backup(i + 1) !in p.files
    ensures
      var q := Shift(p, i);
      && Log(q.files, max) == Log(p.files, max)
      && Held(q.files, Current) == Held(p.files, Current)
      && (i >= 1 && !q.threw ==> Backup(1) !in q.files)
    decreases i
  {
    if i >= 1 && !p.threw {
      if Backup(i) !in p.files {
        ShiftKeepsLog(p, i - 1, max);
      } else if p.budget > 0 {
        MoveUpKeeps(p.files, i, Slots(max));
        ShiftKeepsLog(Progress(Move(p.files, Backup(i), Backup(i + 1)), p.budget - 1, false), i - 1, max);
      }
    }
  }

  lemma TopBackupDrops(files: Files, max: int)
    ensures Log(files, max) == Held(files, Backup(Slots(max))) + Log(files - {Backup(Slots(max))}, max)
  {
    var k, without := Slots(max), files - {Backup(Slots(max))};
    BackupsDependOn(files, without, k - 1);
    assert Held(without, Backup(k)) == [];
    assert [] + Backups(files, k - 1) == Backups(files, k - 1);
  }

  lemma RetireKeepsLog(p: Progress, max: int)
    requires Backup(1) !in p.files
    ensures Log(RetireCurrent(p).files, max) == Log(p.files, max)
  {
    var q := RetireCurrent(p);
    if !p.threw && p.budget > 0 && Current in p.files {
      RetireKeepsBackups(p.files, Slots(max));
    }
  }

  lemma {:induction false} RetireKeepsBackups(files: Files, k: nat)
    requires k >= 1 && Current in files && Backup(1) !in files
    ensures Backups(Move(files, Current, Backup(1)), k) == Backups(files, k) + files[Current]
  {
    var moved := Move(files, Current, Backup(1));
    if k == 1 {
      assert Backups(moved, 0) == Backups(files, 0) == [];
      assert files[Current] + [] == [] + [] + files[Current];
    } else {
      RetireKeepsBackups(files, k - 1);
      assert Held(moved, Backup(k)) == Held(files, Backup(k));
    }
  }

  /** A rotation, complete or cut short by an error at any point, keeps the log but
      for the content of the last slot; and if that slot is free it keeps all of it. */
  lemma RotateKeepsSuffix(files: Files, max: int, budget: nat)
    ensures
      var after := Log(Rotate(files, max, budget).files, max);
      after == Log(files, max) || after == Log(files - {Backup(Slots(max))}, max)
  {
    var k := Slots(max);
    var p := RemoveOldest(files, max, budget);
    var q := Shift(p, max - 1);
    if max > 0 {
      if !p.threw {
        assert p.files == files - {Backup(k)};
        ShiftKeepsLog(p, max - 1, max);
        TopBackupDrops(files, max);
        if !q.threw {
          RetireKeepsLog(q, max);
        }
      }
    } else {
      var without := files - {Backup(1)};
      if !q.threw && q.budget > 0 && Current in files {
        RetireKeepsLog(q.(files := without), max);
        assert RetireCurrent(q).files == RetireCurrent(q.(files := without)).files;
      }
    }
  }

  // ---- Runs ----

  /** A line to write, and how many file operations work should a rotation be due. */
  datatype Attempt = Attempt(line: bytes, budget: nat)

  function Run(s: Sink, attempts: seq<Attempt>): Sink
    requires Current in s.files
    decreases |attempts|
  {
    if attempts == [] then s else Run(Write(s, attempts[0].line, attempts[0].budget), attempts[1..])
  }

  function Written(attempts: seq<Attempt>): bytes {
    if attempts == [] then [] else attempts[0].line + NEWLINE + Written(attempts[1..])
  }

  /** `history` is everything the log has ever held. */
  ghost predicate Inv(s: Sink, history: bytes) {
    && Current in s.files && s.size == |s.files[Current]|
    && IsSuffix(Log(s.files, s.max), history)
  }

  /** Numbers of backups that can exist after so many rotations from no files. */
  ghost predicate Young(s: Sink, history: bytes) {
    && (forall n :: n >= 1 && Backup(n) in s.files ==> n <= s.rotations)
    && (s.rotations <= Slots(s.max) ==> Log(s.files, s.max) == history)
  }

  lemma SuffixTrans(a: bytes, b: bytes, c: bytes)
    requires IsSuffix(a, b) && IsSuffix(b, c)
    ensures IsSuffix(a, c)
  {
    assert c[|c| - |a|..] == c[|c| - |b|..][|b| - |a|..];
  }

  lemma OpenKeepsLog(files: Files, max: int)
    ensures Log(Open(files), max) == Log(files, max)
  {
    BackupsDependOn(Open(files), files, Slots(max));
  }

  lemma RotatedKeepsInv(s: Sink, budget: nat, history: bytes)
    requires Inv(s, history)
    ensures Inv(Rotated(s, budget), history)
  {
    RotateKeepsSuffix(s.files, s.max, budget);
    OpenKeepsLog(Rotate(s.files, s.max, budget).files, s.max);
    TopBackupDrops(s.files, s.max);
    var less := Log(s.files - {Backup(Slots(s.max))}, s.max);
    assert IsSuffix(less, Log(s.files, s.max));
    SuffixTrans(less, Log(s.files, s.max), history);
  }

  lemma AppendKeepsInv(s: Sink, line: bytes, history: bytes)
    requires Inv(s, history)
    ensures Inv(Append(s, line), history + line + NEWLINE)
    ensures Log(Append(s, line).files, s.max) == Log(s.files, s.max) + line + NEWLINE
  {
    var t := Append(s, line);
    BackupsDependOn(s.files, t.files, Slots(s.max));
    var log, more := Log(s.files, s.max), line + NEWLINE;
    assert Held(t.files, Current) == Held(s.files, Current) + more;
    assert Log(t.files, s.max) == log + more;
    assert (history + more)[|history| - |log|..] == history[|history| - |log|..] + more;
    assert history + line + NEWLINE == history + more;
  }

  lemma {:induction false} RunKeepsSuffix(s: Sink, attempts: seq<Attempt>, history: bytes)
    requires Inv(s, history)
    ensures Inv(Run(s, attempts), history + Written(attempts))
    decreases |attempts|
  {
    if attempts == [] {
      assert history + [] == history;
    } else {
      var line, budget := attempts[0].line, attempts[0].budget;
      if Due(s) {
        RotatedKeepsInv(s, budget, history);
      }
      AppendKeepsInv(if Due(s) then Rotated(s, budget) else s, line, history);
      RunKeepsSuffix(Write(s, line, budget), attempts[1..], history + line + NEWLINE);
      assert history + line + NEWLINE + Written(attempts[1..]) == history + Written(attempts);
    }
  }

  /** Whatever files there were to begin with, whatever is written and wherever
      rotations fail: the backups from the oldest to the newest and then the current
      file are always a suffix of all that was ever in the log. */
  lemma FilesAreASuffixOfHistory(rotationSize: nat, max: int, files: Files, attempts: seq<Attempt>)
    ensures
      var s := Run(Create(rotationSize, max, files), attempts);
      IsSuffix(Log(s.files, max), Log(files, max) + Written(attempts))
  {
    var s := Create(rotationSize, max, files);
    OpenKeepsLog(files, max);
    RunKeepsConfig(s, attempts);
    RunKeepsSuffix(s, attempts, Log(files, max));
  }

  lemma {:induction false} RunKeepsConfig(s: Sink, attempts: seq<Attempt>)
    requires Current in s.files
    ensures
      var t := Run(s, attempts);
      t.max == s.max && t.rotationSize == s.rotationSize && t.rotations >= s.rotations && Current in t.files
    decreases |attempts|
  {
    if attempts == [] {
    } else {
      RunKeepsConfig(Write(s, attempts[0].line, attempts[0].budget), attempts[1..]);
    }
  }

  lemma {:induction false} ShiftRaisesByOne(p: Progress, i: int, n: int)
    requires n >= 1 && Backup(n) in Shift(p, i).files
    ensures Backup(n) in p.files || (n >= 2 && Backup(n - 1) in p.files)
    decreases i
  {
    if i >= 1 && !p.threw {
      if Backup(i) !in p.files {
        ShiftRaisesByOne(p, i - 1, n);
      } else if p.budget > 0 {
        var moved := Progress(Move(p.files, Backup(i), Backup(i + 1)), p.budget - 1, false);
        ShiftRaisesByOne(moved, i - 1, n);
        if n > i {
          ShiftBelow(moved, i - 1, n);
        }
      }
    }
  }

  lemma {:induction false} ShiftBelow(p: Progress, i: int, n: int)
    requires n > i + 1
    ensures Backup(n) in Shift(p, i).files <==> Backup(n) in p.files
    decreases i
  {
    if i >= 1 && !p.threw {
      if Backup(i) !in p.files {
        ShiftBelow(p, i - 1, n);
      } else if p.budget > 0 {
        ShiftBelow(Progress(Move(p.files, Backup(i), Backup(i + 1)), p.budget - 1, false), i - 1, n);
      }
    }
  }

  lemma RotatedStaysYoung(s: Sink, budget: nat, history: bytes)
    requires Inv(s, history) && Young(s, history)
    ensures Young(Rotated(s, budget), history)
  {
    var t := Rotated(s, budget);
    var p := RemoveOldest(s.files, s.max, budget);
    forall n | n >= 1 && Backup(n) in t.files
      ensures n <= t.rotations
    {
      if n >= 2 {
        assert Backup(n) in Shift(p, s.max - 1).files;
        ShiftRaisesByOne(p, s.max - 1, n);
      }
    }
    if t.rotations <= Slots(s.max) {
      assert Backup(Slots(s.max)) !in s.files;
      assert s.files - {Backup(Slots(s.max))} == s.files;
      RotateKeepsSuffix(s.files, s.max, budget);
      OpenKeepsLog(Rotate(s.files, s.max, budget).files, s.max);
    }
  }

  lemma {:induction false} RunStaysYoung(s: Sink, attempts: seq<Attempt>, history: bytes)
    requires Inv(s, history) && Young(s, history)
    ensures Young(Run(s, attempts), history + Written(attempts))
    decreases |attempts|
  {
    if attempts == [] {
      assert history + [] == history;
    } else {
      var line, budget := attempts[0].line, attempts[0].budget;
      var ready := if Due(s) then Rotated(s, budget) else s;
      if Due(s) {
        RotatedKeepsInv(s, budget, history);
        RotatedStaysYoung(s, budget, history);
      }
      AppendKeepsInv(ready, line, history);
      RunStaysYoung(Write(s, line, budget), attempts[1..], history + line + NEWLINE);
      assert history + line + NEWLINE + Written(attempts[1..]) == history + Written(attempts);
    }
  }

  /** Starting from no files nothing at all is lost until there have been more
      rotations than there are backup slots. */
  lemma NothingLostYet(rotationSize: nat, max: int, attempts: seq<Attempt>)
    requires Run(Create(rotationSize, max, map[]), attempts).rotations <= Slots(max)
    ensures Log(Run(Create(rotationSize, max, map[]), attempts).files, max) == Written(attempts)
  {
    var s := Create(rotationSize, max, map[]);
    RunKeepsConfig(s, attempts);
    OpenKeepsLog(map[], max);
    NoBackups(Slots(max));
    RunStaysYoung(s, attempts, []);
    assert [] + Written(attempts) == Written(attempts);
  }

  lemma {:induction false} NoBackups(k: nat)
    ensures Backups(map[], k) == []
  {
    if k == 0 {
    } else {
      NoBackups(k - 1);
    }
  }

  // ---- How large backups are ----

  /** Every backup was retired at or over the rotation size; and unless a rotation
      failed, one line short of it before its last line. */
  ghost predicate Sized(s: Sink, longest: nat, smooth: bool) {
    && (forall n :: n >= 1 && Backup(n) in s.files ==>
          s.rotationSize <= |s.files[Backup(n)]| && (smooth ==> |s.files[Backup(n)]| < s.rotationSize + longest))
    && (smooth && s.rotationSize > 0 ==> s.size < s.rotationSize + longest)
  }

  lemma {:induction false} ShiftKeepsContents(p: Progress, i: int, n: int) returns (from: int)
    requires n >= 1 && Backup(n) in Shift(p, i).files
    ensures from >= 1 && Backup(from) in p.files && p.files[Backup(from)] == Shift(p, i).files[Backup(n)]
    decreases i
  {
    from := n;
    if i >= 1 && !p.threw {
      if Backup(i) !in p.files {
        from := ShiftKeepsContents(p, i - 1, n);
      } else if p.budget > 0 {
        from := ShiftKeepsContents(Progress(Move(p.files, Backup(i), Backup(i + 1)), p.budget - 1, false), i - 1, n);
        if from == i + 1 {
          from := i;
        }
      }
    }
  }

  lemma {:induction false} ShiftSparesCurrent(p: Progress, i: int)
    ensures Held(Shift(p, i).files, Current) == Held(p.files, Current)
    ensures Current in Shift(p, i).files <==> Current in p.files
    decreases i
  {
    if i >= 1 && !p.threw {
      if Backup(i) !in p.files {
        ShiftSparesCurrent(p, i - 1);
      } else if p.budget > 0 {
        ShiftSparesCurrent(Progress(Move(p.files, Backup(i), Backup(i + 1)), p.budget - 1, false), i - 1);
      }
    }
  }

  lemma RotatedStaysSized(s: Sink, budget: nat, longest: nat, smooth: bool)
    requires Current in s.files && s.size == |s.files[Current]| && Due(s)
    requires Sized(s, longest, smooth) && longest > 0
    requires smooth ==> !Rotate(s.files, s.max, budget).threw
    ensures Sized(Rotated(s, budget), longest, smooth)
    ensures smooth ==> Rotated(s, budget).size == 0
  {
    var p := RemoveOldest(s.files, s.max, budget);
    var q := Shift(p, s.max - 1);
    ShiftSparesCurrent(p, s.max - 1);
    var t := Rotated(s, budget);
    forall n | n >= 1 && Backup(n) in t.files
      ensures s.rotationSize <= |t.files[Backup(n)]| && (smooth ==> |t.files[Backup(n)]| < s.rotationSize + longest)
    {
      if n >= 2 || RetireCurrent(q).threw {
        var from := ShiftKeepsContents(p, s.max - 1, n);
        assert Backup(from) in s.files;
      } else {
        assert t.files[Backup(n)] == s.files[Current];
      }
    }
  }

  /** A run in which every rotation that was due went through. */
  ghost predicate Smooth(s: Sink, attempts: seq<Attempt>)
    requires Current in s.files
    decreases |attempts|
  {
    attempts != [] ==>
      && (Due(s) ==> !Rotate(s.files, s.max, attempts[0].budget).threw)
      && Smooth(Write(s, attempts[0].line, attempts[0].budget), attempts[1..])
  }

  ghost predicate LinesUpTo(attempts: seq<Attempt>, longest: nat) {
    forall i :: 0 <= i < |attempts| ==> |attempts[i].line| + 1 <= longest
  }

  lemma {:induction false} RunStaysSized(s: Sink, attempts: seq<Attempt>, longest: nat, smooth: bool)
    requires Current in s.files && s.size == |s.files[Current]|
    requires Sized(s, longest, smooth) && longest > 0 && LinesUpTo(attempts, longest)
    requires smooth ==> Smooth(s, attempts)
    ensures Sized(Run(s, attempts), longest, smooth)
    decreases |attempts|
  {
    if attempts == [] {
    } else {
      var line, budget := attempts[0].line, attempts[0].budget;
      if Due(s) {
        RotatedStaysSized(s, budget, longest, smooth);
      }
      AppendStaysSized(if Due(s) then Rotated(s, budget) else s, line, longest, smooth);
      RunStaysSized(Write(s, line, budget), attempts[1..], longest, smooth);
    }
  }

  lemma AppendStaysSized(s: Sink, line: bytes, longest: nat, smooth: bool)
    requires Current in s.files && s.size == |s.files[Current]|
    requires Sized(s, longest, smooth) && |line| + 1 <= longest
    requires smooth && s.rotationSize > 0 ==> s.size < s.rotationSize
    ensures Sized(Append(s, line), longest, smooth)
    ensures Append(s, line).size == |Append(s, line).files[Current]|
  {
  }

  /** From no files, every backup holds at least the rotation size; and if every
      rotation went through, less than that plus one line. */
  lemma BackupSizes(rotationSize: nat, max: int, attempts: seq<Attempt>, longest: nat, n: int)
    requires longest > 0 && LinesUpTo(attempts, longest)
    requires n >= 1 && Backup(n) in Run(Create(rotationSize, max, map[]), attempts).files
    ensures
      var size := |Run(Create(rotationSize, max, map[]), attempts).files[Backup(n)]|;
      && rotationSize <= size
      && (Smooth(Create(rotationSize, max, map[]), attempts) ==> size < rotationSize + longest)
  {
    var s := Create(rotationSize, max, map[]);
    RunKeepsConfig(s, attempts);
    RunStaysSized(s, attempts, longest, false);
    if Smooth(s, attempts) {
      RunStaysSized(s, attempts, longest, true);
    }
  }

  // ---- How much is kept ----

  /** The backups are exactly those numbered 1 to k. */
  ghost predicate Ranked(files: Files, k: int) {
    forall n: int :: n >= 1 ==> (Backup(n) in files <==> n <= k)
  }

  /** A shift that goes through moves every backup up to i by one. */
  lemma {:induction false} ShiftMovesUp(p: Progress, i: int, n: int)
    requires !Shift(p, i).threw && n >= 1
    requires i >= 1 ==> Backup(i + 1) !in p.files
    ensures
      var q := Shift(p, i).files;
      if n > i + 1 || i < 1 then Backup(n) in q <==> Backup(n) in p.files
      else if n == 1 then Backup(n) !in q
      else Backup(n) in q <==> Backup(n - 1) in p.files
    decreases i
  {
    if i < 1 || p.threw {
    } else if Backup(i) !in p.files {
      ShiftMovesUp(p, i - 1, n);
    } else if p.budget > 0 {
      ShiftMovesUp(Progress(Move(p.files, Backup(i), Backup(i + 1)), p.budget - 1, false), i - 1, n);
    }
  }

  lemma RotateStaysRanked(files: Files, max: int, budget: nat, k: nat)
    requires Ranked(files, k) && k <= Slots(max) && !Rotate(files, max, budget).threw
    ensures Ranked(Rotate(files, max, budget).files, Min(k + 1, Slots(max)))
  {
    var p := RemoveOldest(files, max, budget);
    var q := Shift(p, max - 1);
    forall n: int | n >= 1
      ensures Backup(n) in RetireCurrent(q).files <==> n <= Min(k + 1, Slots(max))
    {
      ShiftMovesUp(p, max - 1, n);
      hide Shift;
    }
  }

  lemma {:induction false} RunStaysRanked(s: Sink, attempts: seq<Attempt>)
    requires Current in s.files && Ranked(s.files, Min(s.rotations, Slots(s.max))) && Smooth(s, attempts)
    ensures
      var t := Run(s, attempts);
      Ranked(t.files, Min(t.rotations, Slots(s.max)))
    decreases |attempts|
  {
    if attempts == [] {
    } else {
      var line, budget := attempts[0].line, attempts[0].budget;
      if Due(s) {
        RotateStaysRanked(s.files, s.max, budget, Min(s.rotations, Slots(s.max)));
      }
      hide Rotate;
      RunStaysRanked(Write(s, line, budget), attempts[1..]);
    }
  }

  lemma {:induction false} BackupsHold(files: Files, k: nat, ranks: nat, size: nat)
    requires Ranked(files, ranks) && forall n :: n >= 1 && Backup(n) in files ==> size <= |files[Backup(n)]|
    ensures |Backups(files, k)| >= Min(ranks, k) * size
  {
    if k == 0 {
    } else {
      BackupsHold(files, k - 1, ranks, size);
      if k <= ranks {
        assert Backup(k) in files;
        assert k * size == (k - 1) * size + size;
      }
    }
  }

  function Longest(attempts: seq<Attempt>): nat {
    if attempts == [] then 1 else Max(|attempts[0].line| + 1, Longest(attempts[1..]))
  }

  lemma {:induction false} LongestBounds(attempts: seq<Attempt>)
    ensures Longest(attempts) > 0 && LinesUpTo(attempts, Longest(attempts))
  {
    if attempts == [] {
    } else {
      LongestBounds(attempts[1..]);
      forall i | 0 <= i < |attempts|
        ensures |attempts[i].line| + 1 <= Longest(attempts)
      {
        assert i > 0 ==> attempts[i] == attempts[1..][i - 1];
      }
    }
  }

  /** A rotation goes through whenever all its file operations can: one to remove the
      oldest backup, one for each backup, and one for the current file. */
  lemma RotationGoesThrough(files: Files, max: int, budget: nat)
    requires Current in files && budget >= 1 + Max(0, max)
    ensures !Rotate(files, max, budget).threw
  {
    var p := RemoveOldest(files, max, budget);
    ShiftGoesThrough(p, max - 1);
    ShiftSparesCurrent(p, max - 1);
  }

  lemma {:induction false} ShiftGoesThrough(p: Progress, i: int)
    requires !p.threw && p.budget >= 1 + Max(0, i)
    ensures !Shift(p, i).threw && Shift(p, i).budget >= 1
    decreases i
  {
    if i < 1 {
    } else if Backup(i) !in p.files {
      ShiftGoesThrough(p, i - 1);
    } else {
      ShiftGoesThrough(Progress(Move(p.files, Backup(i), Backup(i + 1)), p.budget - 1, false), i - 1);
    }
  }

  /** And one whose first operation fails changes no file. */
  lemma RotationFailsCleanly(files: Files, max: int)
    ensures Rotate(files, max, 0).threw && Rotate(files, max, 0).files == files
  {
    NothingShifts(RemoveOldest(files, max, 0), max - 1);
  }

  lemma {:induction false} NothingShifts(p: Progress, i: int)
    requires p.budget == 0
    ensures Shift(p, i).files == p.files && Shift(p, i).budget == 0
    decreases i
  {
    if i < 1 || p.threw {
    } else if Backup(i) !in p.files {
      NothingShifts(p, i - 1);
    }
  }

  /** A run rotates exactly when a line is written to a full file: with no rotation size
      never, otherwise so often that the current file stays below it and one line. */
  lemma CurrentStaysSmall(rotationSize: nat, max: int, attempts: seq<Attempt>, longest: nat)
    requires longest > 0 && LinesUpTo(attempts, longest)
    requires Smooth(Create(rotationSize, max, map[]), attempts)
    ensures
      var s := Run(Create(rotationSize, max, map[]), attempts);
      if rotationSize == 0 then s.rotations == 0 && s.files == map[Current := Written(attempts)]
      else Current in s.files && |s.files[Current]| < rotationSize + longest
  {
    var s := Create(rotationSize, max, map[]);
    RunKeepsConfig(s, attempts);
    if rotationSize == 0 {
      NeverRotates(s, attempts);
      assert [] + Written(attempts) == Written(attempts);
    } else {
      RunStaysSized(s, attempts, longest, true);
      RunKeepsSuffix(s, attempts, Log(s.files, max)) by {
        OpenKeepsLog(map[], max);
      }
    }
  }

  lemma {:induction false} NeverRotates(s: Sink, attempts: seq<Attempt>)
    requires s.rotationSize == 0 && Current in s.files
    ensures Run(s, attempts).rotations == s.rotations
    ensures Run(s, attempts).files == s.files[Current := s.files[Current] + Written(attempts)]
    decreases |attempts|
  {
    if attempts == [] {
      assert s.files[Current] + [] == s.files[Current];
    } else {
      var line := attempts[0].line;
      NeverRotates(Write(s, line, attempts[0].budget), attempts[1..]);
      var held := s.files[Current];
      assert held + line + NEWLINE + Written(attempts[1..]) == held + (line + NEWLINE + Written(attempts[1..]));
    }
  }

  /** Lines are appended whole to the current file: a write that is not due changes nothing else. */
  lemma WriteAppends(s: Sink, line: bytes, budget: nat)
    requires Current in s.files && !Due(s)
    ensures Write(s, line, budget).files == s.files[Current := s.files[Current] + line + NEWLINE]
    ensures Write(s, line, budget).rotations == s.rotations
  {
  }

  /** From no files, if every rotation that was due went through: the backups are
      exactly 1 to the number of rotations, or to the last slot, and so the log holds at
      least that many times the rotation size. */
  lemma BackupsKept(rotationSize: nat, max: int, attempts: seq<Attempt>)
    requires Smooth(Create(rotationSize, max, map[]), attempts)
    ensures
      var s := Run(Create(rotationSize, max, map[]), attempts);
      var k := Min(s.rotations, Slots(max));
      Ranked(s.files, k) && |Log(s.files, max)| >= k * rotationSize
  {
    var s := Create(rotationSize, max, map[]);
    var t := Run(s, attempts);
    LongestBounds(attempts);
    RunKeepsConfig(s, attempts);
    RunStaysRanked(s, attempts);
    RunStaysSized(s, attempts, Longest(attempts), false);
    hide Run, Smooth;
    BackupsHold(t.files, Slots(max), Min(t.rotations, Slots(max)), rotationSize);
  }

  // ---- The object ----

  class FileSink {
    const rotationSize: nat
    const maxBackups: int
    var files: Files
    var currentSize: nat
    ghost var rotations: nat

    ghost function View(): Sink
      reads this
    {
      Sink(rotationSize, maxBackups, files, currentSize, rotations)
    }

    constructor (rotationSize: nat, maxBackups: int, files: Files)
      ensures View() == Create(rotationSize, maxBackups, files)
      ensures Current in this.files
    {
      this.rotationSize, this.maxBackups := rotationSize, maxBackups;
      this.files := Open(files);
      currentSize := |Open(files)[Current]|;
      rotations := 0;
    }

    method WriteLine(line: bytes, budget: nat)
      requires Current in files
      modifies this
      ensures Current in files && View() == Write(old(View()), line, budget)
    {
      if rotationSize > 0 && currentSize >= rotationSize {
        RotateFiles(budget);
      }
      files := files[Current := files[Current] + line + NEWLINE];
      currentSize := currentSize + |line| + 1;
    }

    method RotateFiles(budget: nat)
      modifies this
      ensures Current in files && View() == Rotated(old(View()), budget)
    {
      RenameAll(budget);
      files := Open(files);
      currentSize := |files[Current]|;
      rotations := rotations + 1;
    }

    /** The rename loop; returning early stands for the exception Rotate swallows. */
    method RenameAll(budget: nat)
      modifies `files
      ensures files == Rotate(old(files), maxBackups, budget).files
    {
      var left := budget;
      if maxBackups > 0 && Backup(maxBackups) in files {
        if left == 0 {
          return;
        }
        files := files - {Backup(maxBackups)};
        left := left - 1;
      }
      ghost var target := Shift(Progress(files, left, false), maxBackups - 1);
      var i := maxBackups - 1;
      while i >= 1
        invariant left >= 0 && Shift(Progress(files, left, false), i) == target
        decreases i
      {
        if Backup(i) in files {
          if left == 0 {
            return;
          }
          files := Move(files, Backup(i), Backup(i + 1));
          left := left - 1;
        }
        i := i - 1;
      }
      if left == 0 || Current !in files {
        return;
      }
      files := Move(files, Current, Backup(1));
    }
  }
}
