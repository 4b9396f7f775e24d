/** The rotating log writer (log_writer.cpp). The directory is a map from backup number to contents,
    number 0 being the log file itself. `Log` and the functions say what each operation does to the
    files; class `LogWriter` does it in place, renaming one file at a time. */
module LogWriterModel {
  import opened Sequences
  import opened Wrappers

  const MAX_PENDING: nat := 64 * 1024

  datatype Log = Log(files: map<nat, string>, pending: string)

  datatype Settings = Settings(maxBytes: nat, backups: int)

  function Lookup(files: map<nat, string>, i: nat): Option<string> {
    if i in files then Some(files[i]) else None
  }

  function FileAt(files: map<nat, string>, i: nat): string {
    if i in files then files[i] else ""
  }

  /** How many backups really survive a rotation: with none configured, `.1` is still written. */
  function Kept(backups: int): nat {
    if backups >= 1 then backups else 1
  }

  /** Where the last complete line of `s` ends. */
  function LineEnd(s: string): (n: nat)
    ensures n <= |s|
    ensures n > 0 ==> s[n-1] == '\n'
    ensures forall i :: n <= i < |s| ==> s[i] != '\n'
  {
    if s == "" then 0 else if s[|s|-1] == '\n' then |s| else LineEnd(s[..|s|-1])
  }

  lemma LineEndUnique(s: string, n: nat)
    requires n <= |s| && (n > 0 ==> s[n-1] == '\n') && forall i :: n <= i < |s| ==> s[i] != '\n'
    ensures LineEnd(s) == n
  {
    var m := LineEnd(s);
    assert n <= m;
  }

  /** How much of the buffer goes to the file: whole lines, or everything once it is too long. */
  function FlushEnd(all: string): (n: nat)
    ensures n <= |all|
  {
    if LineEnd(all) > 0 then LineEnd(all) else if |all| >= MAX_PENDING then |all| else 0
  }

  lemma NoLineLeft(all: string)
    ensures FlushEnd(all) > 0 || LineEnd(all) == 0
    ensures '\n' !in all[FlushEnd(all)..]
  {
  }

  // ---- What each operation does ----

  /** Rotation is a plain shift of the kept files by one place; the oldest drops out, the log file is
      new, and files above the kept ones are not touched. */
  function AfterShift(files: map<nat, string>, backups: int, i: nat): Option<string> {
    if i == 0 then Some("") else if i <= Kept(backups) then Lookup(files, i - 1) else Lookup(files, i)
  }

  ghost predicate Shifted(files: map<nat, string>, files': map<nat, string>, backups: int) {
    forall i: nat :: Lookup(files', i) == AfterShift(files, backups, i)
  }

  ghost function RotateFiles(files: map<nat, string>, backups: int): (files': map<nat, string>)
    ensures Shifted(files, files', backups)
  {
    var candidates := files.Keys + (set j | j in files :: j + 1) + {0};
    var r := map i | i in candidates && AfterShift(files, backups, i).Some? :: AfterShift(files, backups, i).value;
    assert forall i: nat :: AfterShift(files, backups, i).Some? ==> i in candidates;
    r
  }

  lemma ShiftedUnique(files: map<nat, string>, files': map<nat, string>, backups: int)
    requires Shifted(files, files', backups)
    ensures files' == RotateFiles(files, backups)
  {
    var r := RotateFiles(files, backups);
    forall i: nat
      ensures i in files' <==> i in r
      ensures i in files' ==> files'[i] == r[i]
    {
      assert Lookup(files', i) == Lookup(r, i);
    }
  }

  ghost predicate Rotates(files: map<nat, string>, s: string, st: Settings) {
    st.maxBytes > 0 && |FileAt(files, 0)| + |s| > st.maxBytes
  }

  ghost function AppendToFiles(files: map<nat, string>, s: string, st: Settings): map<nat, string> {
    var fs := if Rotates(files, s, st) then RotateFiles(files, st.backups) else files;
    fs[0 := FileAt(fs, 0) + s]
  }

  ghost function WriteStep(log: Log, data: string, st: Settings): Log {
    var all := log.pending + data;
    var n := FlushEnd(all);
    if data == "" then log
    else if n == 0 then log.(pending := all)
    else Log(AppendToFiles(log.files, all[..n], st), all[n..])
  }

  ghost function FlushStep(log: Log): Log {
    Log(log.files[0 := FileAt(log.files, 0) + log.pending], "")
  }

  ghost predicate LogOk(log: Log) {
    0 in log.files && '\n' !in log.pending
  }

  // ---- Rotation in progress ----

  function Renamed(files: map<nat, string>, from: nat, to: nat): map<nat, string>
    requires from in files
  {
    (files - {from})[to := files[from]]
  }

  /** The backups above `i + 1` are in place, `i + 1` is free, and the rest is as it was. */
  function DuringShift(files0: map<nat, string>, b: int, i: nat, k: nat): Option<string> {
    if k == i + 1 then None else if i + 1 < k <= b then Lookup(files0, k - 1) else Lookup(files0, k)
  }

  ghost predicate PartlyShifted(files0: map<nat, string>, files: map<nat, string>, b: int, i: nat) {
    forall k: nat :: Lookup(files, k) == DuringShift(files0, b, i, k)
  }

  lemma RenameStep(files0: map<nat, string>, files: map<nat, string>, b: int, i: nat)
    requires 1 <= i < b && PartlyShifted(files0, files, b, i)
    ensures i + 1 !in files
    ensures PartlyShifted(files0, if i in files then Renamed(files, i, i + 1) else files, b, i - 1)
  {
    var files' := if i in files then Renamed(files, i, i + 1) else files;
    assert Lookup(files, i + 1) == DuringShift(files0, b, i, i + 1);
    forall k: nat
      ensures Lookup(files', k) == DuringShift(files0, b, i - 1, k)
    {
      assert Lookup(files, k) == DuringShift(files0, b, i, k);
      assert Lookup(files, i) == DuringShift(files0, b, i, i);
    }
  }

  lemma LastRename(files0: map<nat, string>, files: map<nat, string>, b: int)
    requires 0 in files0
    requires if b >= 1 then PartlyShifted(files0, files, b, 0) else files == files0
    ensures 0 in files
    ensures Shifted(files0, Renamed(files, 0, 1)[0 := ""], b)
  {
    assert b >= 1 ==> Lookup(files, 0) == DuringShift(files0, b, 0, 0);
    var files' := Renamed(files, 0, 1)[0 := ""];
    forall k: nat
      ensures Lookup(files', k) == AfterShift(files0, b, k)
    {
      assert b >= 1 ==> Lookup(files, k) == DuringShift(files0, b, 0, k);
    }
  }

  // ---- The writer ----

  class LogWriter {
    const settings: Settings
    var files: map<nat, string>
    var isOpen: bool
    var currentSize: nat
    var pendingBuffer: string

    ghost function View(): Log
      reads this
    {
      Log(files, pendingBuffer)
    }

    /** The counter is the length of the file, and no line waits in the buffer. */
    ghost predicate Valid()
      reads this
    {
      LogOk(View()) && currentSize == |files[0]| && (!isOpen ==> pendingBuffer == "")
    }

    constructor (settings: Settings, onDisk: map<nat, string>)
      ensures Valid() && isOpen && this.settings == settings
      ensures View() == Log(onDisk[0 := FileAt(onDisk, 0)], "")
    {
      this.settings := settings;
      files, pendingBuffer, isOpen, currentSize := onDisk, "", false, 0;
      new;
      OpenNL();
    }

    method OpenNL()
      modifies this`files, this`isOpen, this`currentSize
      ensures isOpen && files == old(files)[0 := FileAt(old(files), 0)] && currentSize == |files[0]|
    {
      isOpen := true;
      if 0 !in files {
        files := files[0 := ""];
      }
      currentSize := |files[0]|;
    }

    method Write(data: string) returns (written: nat)
      requires Valid()
      modifies this
      ensures Valid() && View() == WriteStep(old(View()), data, settings)
      ensures written == if data == "" then 0 else FlushEnd(old(pendingBuffer) + data)
    {
      if data == "" {
        return 0;
      }
      if !isOpen {
        OpenNL();
        assert files == old(files);
      }
      var flushEnd := Buffer(data);
      NoLineLeft(pendingBuffer);
      if flushEnd == 0 {
        return 0;
      }
      written := WriteNL(pendingBuffer[..flushEnd]);
      pendingBuffer := pendingBuffer[flushEnd..];
    }

    /** Takes the data into the buffer and decides how much of the buffer is due, looking for a
        newline in the new data only. */
    method Buffer(data: string) returns (flushEnd: nat)
      requires '\n' !in pendingBuffer
      modifies this`pendingBuffer
      ensures pendingBuffer == old(pendingBuffer) + data && flushEnd == FlushEnd(pendingBuffer)
    {
      var inNew := FindLastNewline(data);
      var lastNewline := if inNew >= 0 then |pendingBuffer| + inNew else -1;
      pendingBuffer := pendingBuffer + data;
      flushEnd := if lastNewline >= 0 then lastNewline + 1
                  else if |pendingBuffer| >= MAX_PENDING then |pendingBuffer| else 0;
      LineEndUnique(pendingBuffer, lastNewline + 1);
    }

    /** std::string::rfind('\n'), with -1 for npos. */
    method FindLastNewline(s: string) returns (k: int)
      ensures -1 <= k < |s|
      ensures k >= 0 ==> s[k] == '\n'
      ensures forall i :: k < i < |s| ==> s[i] != '\n'
    {
      k := |s| - 1;
      while k >= 0 && s[k] != '\n'
        invariant -1 <= k < |s|
        invariant forall i :: k < i < |s| ==> s[i] != '\n'
      {
        k := k - 1;
      }
    }

    method WriteNL(s: string) returns (n: nat)
      requires isOpen && 0 in files && currentSize == |files[0]|
      modifies this`files, this`isOpen, this`currentSize
      ensures isOpen && files == AppendToFiles(old(files), s, settings) && currentSize == |files[0]| && n == |s|
    {
      if settings.maxBytes > 0 && currentSize + |s| > settings.maxBytes {
        RotateNL();
      }
      files := files[0 := files[0] + s];
      currentSize := currentSize + |s|;
      n := |s|;
    }

    method Rename(from: nat, to: nat)
      requires from in files && from != to
      modifies this`files
      ensures files == Renamed(old(files), from, to)
    {
      files := (files - {from})[to := files[from]];
    }

    /** Renames from the oldest backup down. The target of each rename is free, so that no file is
        ever overwritten. */
    method ShiftBackups(ghost files0: map<nat, string>)
      requires settings.backups >= 1 && PartlyShifted(files0, files, settings.backups, settings.backups - 1)
      modifies this`files
      ensures PartlyShifted(files0, files, settings.backups, 0)
    {
      var i := settings.backups - 1;
      while i >= 1
        invariant 0 <= i < settings.backups
        invariant PartlyShifted(files0, files, settings.backups, i)
      {
        RenameStep(files0, files, settings.backups, i);
        if i in files {
          Rename(i, i + 1);
        }
        i := i - 1;
      }
    }

    method RotateNL()
      requires 0 in files
      modifies this`files, this`isOpen, this`currentSize
      ensures isOpen && files == RotateFiles(old(files), settings.backups) && currentSize == |files[0]|
    {
      isOpen := false;
      var b := settings.backups;
      if b > 0 {
        if b in files {
          files := files - {b};
        }
        ShiftBackups(old(files));
      }
      LastRename(old(files), files, b);
      Rename(0, 1);
      currentSize := 0;
      OpenNL();
      ShiftedUnique(old(files), files, b);
    }

    method Flush()
      requires Valid()
      modifies this
      ensures Valid() && View() == FlushStep(old(View()))
    {
      assert pendingBuffer == "" ==> files[0] + pendingBuffer == files[0];
      if pendingBuffer != "" && isOpen {
        files := files[0 := files[0] + pendingBuffer];
        currentSize := currentSize + |pendingBuffer|;
        pendingBuffer := "";
      }
    }

    method CloseNL()
      requires Valid()
      modifies this
      ensures Valid() && View() == FlushStep(old(View())) && !isOpen
    {
      assert pendingBuffer == "" ==> files[0] + pendingBuffer == files[0];
      if !isOpen {
        return;
      }
      if pendingBuffer != "" {
        files := files[0 := files[0] + pendingBuffer];
        currentSize := currentSize + |pendingBuffer|;
        pendingBuffer := "";
      }
      isOpen := false;
    }
  }

  // ---- Runs of writes and flushes ----

  datatype Op = Write(data: string) | Flush

  ghost function Do(log: Log, op: Op, st: Settings): Log {
    match op
    case Write(data) => WriteStep(log, data, st)
    case Flush => FlushStep(log)
  }

  ghost function RunLog(log: Log, ops: seq<Op>, st: Settings): Log {
    if ops == [] then log else Do(RunLog(log, ops[..|ops|-1], st), ops[|ops|-1], st)
  }

  function Input(op: Op): string {
    if op.Write? then op.data else ""
  }

  function Written(ops: seq<Op>): string {
    if ops == [] then "" else Written(ops[..|ops|-1]) + Input(ops[|ops|-1])
  }

  /** The part of the buffer that a write sends to the file. */
  function Sent(log: Log, data: string): string {
    if data == "" then "" else (log.pending + data)[..FlushEnd(log.pending + data)]
  }

  ghost predicate RotatesAt(log: Log, op: Op, st: Settings) {
    op.Write? && Sent(log, op.data) != "" && Rotates(log.files, Sent(log, op.data), st)
  }

  /** The oldest kept backup, if the operation rotates; this is all that is ever lost. */
  ghost function Lost(log: Log, op: Op, st: Settings): string {
    if RotatesAt(log, op, st) then FileAt(log.files, Kept(st.backups)) else ""
  }

  ghost function Dropped(log: Log, ops: seq<Op>, st: Settings): string {
    if ops == [] then ""
    else Dropped(log, ops[..|ops|-1], st) + Lost(RunLog(log, ops[..|ops|-1], st), ops[|ops|-1], st)
  }

  /** The backups from number `k` down to 1, oldest first. */
  function Backups(files: map<nat, string>, k: nat): string {
    if k == 0 then "" else FileAt(files, k) + Backups(files, k - 1)
  }

  /** Everything that can still be read, in the order in which it was written. */
  function Stream(log: Log, st: Settings): string {
    Backups(log.files, Kept(st.backups)) + FileAt(log.files, 0) + log.pending
  }

  lemma {:induction false} BackupsOfShifted(files: map<nat, string>, files': map<nat, string>, backups: int, k: nat)
    requires Shifted(files, files', backups) && 1 <= k <= Kept(backups)
    ensures FileAt(files, k) + Backups(files', k) == Backups(files, k) + FileAt(files, 0)
  {
    assert Lookup(files', k) == AfterShift(files, backups, k);
    if k > 1 {
      BackupsOfShifted(files, files', backups, k - 1);
      assert FileAt(files', k) == FileAt(files, k - 1);
      Associative(FileAt(files, k), Backups(files, k - 1), FileAt(files, 0));
    } else {
      assert Backups(files', 1) == FileAt(files', 1) && Backups(files, 1) == FileAt(files, 1);
    }
  }

  lemma {:induction false} BackupsIgnoreCurrent(files: map<nat, string>, s: string, k: nat)
    ensures Backups(files[0 := s], k) == Backups(files, k)
  {
    if k > 0 {
      BackupsIgnoreCurrent(files, s, k - 1);
    }
  }

  lemma ShiftConserves(files: map<nat, string>, files': map<nat, string>, s: string, backups: int)
    requires Shifted(files, files', backups)
    ensures var k := Kept(backups);
      FileAt(files, k) + (Backups(files'[0 := s], k) + s) == Backups(files, k) + FileAt(files, 0) + s
  {
    var k := Kept(backups);
    assert Lookup(files', 0) == AfterShift(files, backups, 0);
    BackupsOfShifted(files, files', backups, k);
    BackupsIgnoreCurrent(files', s, k);
    assert FileAt(files, k) + (Backups(files', k) + s) == (FileAt(files, k) + Backups(files', k)) + s;
  }

  lemma AppendConserves(files: map<nat, string>, s: string, st: Settings)
    requires 0 in files
    ensures var files', k := AppendToFiles(files, s, st), Kept(st.backups);
      (if Rotates(files, s, st) then FileAt(files, k) else "") + (Backups(files', k) + FileAt(files', 0))
        == Backups(files, k) + FileAt(files, 0) + s
  {
    var k := Kept(st.backups);
    if Rotates(files, s, st) {
      var fs := RotateFiles(files, st.backups);
      ShiftConserves(files, fs, s, st.backups);
      assert FileAt(fs, 0) + s == s;
    } else {
      BackupsIgnoreCurrent(files, FileAt(files, 0) + s, k);
      assert "" + (Backups(files, k) + (FileAt(files, 0) + s)) == Backups(files, k) + FileAt(files, 0) + s;
    }
  }

  lemma RegroupStream(lost: string, backups': string, file': string, backups: string, file: string,
                s: string, pending: string, pending': string, data: string)
    requires lost + (backups' + file') == backups + file + s && s + pending' == pending + data
    ensures lost + (backups' + file' + pending') == backups + file + pending + data
  {
    assert lost + (backups' + file' + pending') == (lost + (backups' + file')) + pending';
    assert backups + file + s + pending' == backups + file + (s + pending');
  }

  lemma WriteConserves(log: Log, data: string, st: Settings)
    requires LogOk(log) && Sent(log, data) != ""
    ensures Lost(log, Write(data), st) + Stream(WriteStep(log, data, st), st) == Stream(log, st) + data
  {
    var k, s, log' := Kept(st.backups), Sent(log, data), WriteStep(log, data, st);
    AppendConserves(log.files, s, st);
    RegroupStream(Lost(log, Write(data), st), Backups(log'.files, k), FileAt(log'.files, 0),
            Backups(log.files, k), FileAt(log.files, 0), s, log.pending, log'.pending, data);
  }

  lemma OpKeepsOk(log: Log, op: Op, st: Settings)
    requires LogOk(log)
    ensures LogOk(Do(log, op, st))
  {
  }

  lemma OpConserves(log: Log, op: Op, st: Settings)
    requires LogOk(log)
    ensures Lost(log, op, st) + Stream(Do(log, op, st), st) == Stream(log, st) + Input(op)
  {
    if op.Flush? {
      BackupsIgnoreCurrent(log.files, FileAt(log.files, 0) + log.pending, Kept(st.backups));
    } else if Sent(log, op.data) != "" {
      WriteConserves(log, op.data, st);
    } else {
      assert Stream(Do(log, op, st), st) == Stream(log, st) + op.data;
    }
  }

  lemma Chain(dropped: string, lost: string, last: string, mid: string, input: string, first: string, written: string)
    requires lost + last == mid + input && dropped + mid == first + written
    ensures dropped + lost + last == first + (written + input)
  {
    assert dropped + lost + last == dropped + (lost + last);
    assert dropped + (mid + input) == (dropped + mid) + input;
  }

  /** Over every sequence of writes and flushes, what is left is what was there and what was written,
      in order, less exactly the backups that the rotations dropped at the old end. */
  lemma {:induction false} StreamConserved(log: Log, ops: seq<Op>, st: Settings)
    requires LogOk(log)
    ensures LogOk(RunLog(log, ops, st))
    ensures Dropped(log, ops, st) + Stream(RunLog(log, ops, st), st) == Stream(log, st) + Written(ops)
  {
    if ops != [] {
      var before, op := ops[..|ops|-1], ops[|ops|-1];
      StreamConserved(log, before, st);
      var mid := RunLog(log, before, st);
      OpKeepsOk(mid, op, st);
      OpConserves(mid, op, st);
      Chain(Dropped(log, before, st), Lost(mid, op, st), Stream(Do(mid, op, st), st), Stream(mid, st),
            Input(op), Stream(log, st), Written(before));
    }
  }

  // ---- What a write does to the files ----

  lemma Sends(log: Log, data: string, st: Settings)
    requires Sent(log, data) != ""
    ensures Do(log, Write(data), st).files == AppendToFiles(log.files, Sent(log, data), st)
    ensures Sent(log, data) + Do(log, Write(data), st).pending == log.pending + data
  {
  }

  /** Where the file at `i` comes from when the kept files move up by one and the log file is to hold `s`. */
  function FromBelow(files: map<nat, string>, s: string, backups: int, i: nat): Option<string> {
    if i == 0 then Some(s) else if i <= backups || i == 1 then Lookup(files, i - 1) else Lookup(files, i)
  }

  ghost predicate MovedUp(files: map<nat, string>, files': map<nat, string>, s: string, backups: int) {
    forall i: nat :: Lookup(files', i) == FromBelow(files, s, backups, i)
  }

  lemma RotationMovesUp(files: map<nat, string>, s: string, st: Settings)
    requires Rotates(files, s, st)
    ensures MovedUp(files, AppendToFiles(files, s, st), s, st.backups)
  {
    var fs, files' := RotateFiles(files, st.backups), AppendToFiles(files, s, st);
    assert Lookup(fs, 0) == AfterShift(files, st.backups, 0);
    assert FileAt(fs, 0) + s == s;
    forall i: nat
      ensures Lookup(files', i) == FromBelow(files, s, st.backups, i)
    {
      assert Lookup(fs, i) == AfterShift(files, st.backups, i);
      assert i > 0 ==> Lookup(files', i) == Lookup(fs, i);
    }
  }

  /** With a limit that the file would pass, the kept files move up by one and the bytes sent are all that
      is in the log file; otherwise they are appended to it and no other file changes. */
  lemma WriteWithLimit(log: Log, data: string, st: Settings)
    requires LogOk(log) && Sent(log, data) != ""
    ensures var files, files', s := log.files, Do(log, Write(data), st).files, Sent(log, data);
      if st.maxBytes > 0 && |files[0]| + |s| > st.maxBytes then MovedUp(files, files', s, st.backups)
      else files' == files[0 := files[0] + s]
  {
    Sends(log, data, st);
    if Rotates(log.files, Sent(log, data), st) {
      RotationMovesUp(log.files, Sent(log, data), st);
    }
  }

  /** What is not yet in the log file counts as well. */
  predicate Fits(log: Log, written: nat, st: Settings)
    requires 0 in log.files
  {
    st.maxBytes == 0 || |log.files[0]| + |log.pending| + written <= st.maxBytes
  }

  lemma FittingOp(log: Log, op: Op, st: Settings)
    requires LogOk(log) && Fits(log, |Input(op)|, st)
    ensures var log' := Do(log, op, st);
      && LogOk(log') && Lost(log, op, st) == ""
      && log'.files - {0} == log.files - {0}
      && log'.files[0] + log'.pending == log.files[0] + log.pending + Input(op)
  {
    var log' := Do(log, op, st);
    match op
    case Flush =>
    case Write(data) =>
      var s := Sent(log, data);
      if s == "" {
        assert log'.pending == log.pending + data;
      } else {
        WriteWithLimit(log, data, st);
        Sends(log, data, st);
        assert log.files[0] + s + log'.pending == log.files[0] + (s + log'.pending);
      }
  }

  lemma SameLength(a: string, b: string, c: string, d: string, e: string)
    requires a + b == c + d + e
    ensures |a| + |b| == |c| + |d| + |e|
  {
    assert |a + b| == |c + d + e|;
  }

  /** Without a limit, or as long as everything fits, nothing is lost or moved: over every run the backups
      stay as they are, and what was written is in the log file and the buffer. */
  lemma {:induction false} NothingMovesWhileItFits(log: Log, ops: seq<Op>, st: Settings)
    requires LogOk(log) && Fits(log, |Written(ops)|, st)
    ensures var log' := RunLog(log, ops, st);
      && LogOk(log') && Dropped(log, ops, st) == "" && log'.files - {0} == log.files - {0}
      && log'.files[0] + log'.pending == log.files[0] + log.pending + Written(ops)
  {
    if ops != [] {
      var before, op := ops[..|ops|-1], ops[|ops|-1];
      NothingMovesWhileItFits(log, before, st);
      var mid := RunLog(log, before, st);
      SameLength(mid.files[0], mid.pending, log.files[0], log.pending, Written(before));
      FittingOp(mid, op, st);
      Associative(log.files[0] + log.pending, Written(before), Input(op));
    }
  }

  /** After a flush nothing is held back: everything written since the beginning is in the files, less what
      rotations dropped, and the flush itself touched the log file only. */
  lemma {:induction false} FlushHoldsNothingBack(log: Log, ops: seq<Op>, st: Settings)
    requires LogOk(log)
    ensures var mid, log' := RunLog(log, ops, st), RunLog(log, ops + [Flush], st);
      && log'.pending == "" && log'.files - {0} == mid.files - {0} && LogOk(log')
      && Dropped(log, ops, st) + (Backups(log'.files, Kept(st.backups)) + log'.files[0]) == Stream(log, st) + Written(ops)
  {
    assert (ops + [Flush])[..|ops|] == ops;
    StreamConserved(log, ops, st);
    AfterFlush(RunLog(log, ops, st), st);
  }

  lemma AfterFlush(mid: Log, st: Settings)
    requires LogOk(mid)
    ensures var log' := Do(mid, Flush, st);
      && log'.pending == "" && log'.files - {0} == mid.files - {0} && LogOk(log')
      && Backups(log'.files, Kept(st.backups)) + log'.files[0] == Stream(mid, st)
  {
    var log' := Do(mid, Flush, st);
    BackupsIgnoreCurrent(mid.files, log'.files[0], Kept(st.backups));
    Associative(Backups(mid.files, Kept(st.backups)), mid.files[0], mid.pending);
  }

  // ---- Sizes ----

  /** Right after a write that reaches the file, the file is within the limit, or it holds just what
      was written. */
  lemma SizeAfterWrite(log: Log, data: string, st: Settings)
    requires LogOk(log) && st.maxBytes > 0 && Sent(log, data) != ""
    ensures var size := |FileAt(WriteStep(log, data, st).files, 0)|;
      size <= st.maxBytes || size == |Sent(log, data)|
  {
  }

  ghost predicate ChunksAtMost(ops: seq<Op>, limit: nat) {
    forall i :: 0 <= i < |ops| ==> |Input(ops[i])| <= limit
  }

  /** With chunks of at most 64 KiB less than that stays pending. */
  lemma {:induction false} PendingStaysShort(log: Log, ops: seq<Op>, st: Settings)
    requires LogOk(log) && |log.pending| < MAX_PENDING && ChunksAtMost(ops, MAX_PENDING)
    ensures LogOk(RunLog(log, ops, st)) && |RunLog(log, ops, st).pending| < MAX_PENDING
  {
    if ops != [] {
      var before, op := ops[..|ops|-1], ops[|ops|-1];
      PendingStaysShort(log, before, st);
      assert |Input(ops[|ops|-1])| <= MAX_PENDING;
      OpKeepsOk(RunLog(log, before, st), op, st);
      PendingStepShort(RunLog(log, before, st), op, st);
    }
  }

  lemma PendingStepShort(log: Log, op: Op, st: Settings)
    requires LogOk(log) && |log.pending| < MAX_PENDING && |Input(op)| <= MAX_PENDING
    ensures |Do(log, op, st).pending| < MAX_PENDING
  {
    if op.Write? && LineEnd(log.pending + op.data) > 0 {
      LineEndInData(log.pending, op.data);
    }
  }

  /** The last line can only end in the new data. */
  lemma LineEndInData(pending: string, data: string)
    requires '\n' !in pending && LineEnd(pending + data) > 0
    ensures LineEnd(pending + data) > |pending|
  {
    var all := pending + data;
    assert all[LineEnd(all) - 1] == '\n';
  }

  /** With the 4096-byte readers and a size limit, the file is never longer than the limit or 69631
      bytes right after a write that reaches it. */
  lemma {:induction false} SizeWithReaders(log: Log, ops: seq<Op>, data: string, st: Settings)
    requires LogOk(log) && log.pending == "" && ChunksAtMost(ops, 4096) && |data| <= 4096 && st.maxBytes > 0
    requires Sent(RunLog(log, ops, st), data) != ""
    ensures |FileAt(RunLog(log, ops + [Write(data)], st).files, 0)| <= if st.maxBytes > 69631 then st.maxBytes else 69631
  {
    assert (ops + [Write(data)])[..|ops|] == ops;
    PendingStaysShort(log, ops, st);
    SizeAfterWrite(RunLog(log, ops, st), data, st);
  }

  // ---- Line ends ----

  predicate Clean(s: string) {
    s == "" || s[|s|-1] == '\n'
  }

  /** The two operations that put part of a line into the file. */
  predicate CutsLine(log: Log, op: Op) {
    match op
    case Flush => log.pending != ""
    case Write(data) => data != "" && LineEnd(log.pending + data) == 0 && |log.pending + data| >= MAX_PENDING
  }

  predicate PutsBytes(log: Log, op: Op) {
    match op
    case Flush => log.pending != ""
    case Write(data) => Sent(log, data) != ""
  }

  /** What is put last decides how the file ends. */
  lemma BytesPutLast(log: Log, op: Op, st: Settings)
    requires LogOk(log)
    ensures if PutsBytes(log, op) then Clean(Do(log, op, st).files[0]) <==> !CutsLine(log, op)
            else Do(log, op, st).files[0] == log.files[0]
  {
    var file := Do(log, op, st).files[0];
    match op
    case Flush =>
      assert file == log.files[0] + log.pending;
      if log.pending != "" {
        assert file[|file|-1] == log.pending[|log.pending|-1];
      }
    case Write(data) =>
      var s := Sent(log, data);
      if s != "" {
        assert file[|file|-1] == s[|s|-1];
      }
  }

  /** A line is cut by a write only if more than 64 KiB of it, or just that, are waiting. */
  lemma OnlyLongLinesAreCut(log: Log, data: string, st: Settings)
    requires LogOk(log) && '\n' !in data
    ensures var log' := Do(log, Write(data), st);
      if |log.pending| + |data| < 65536 then log'.files == log.files && log'.pending == log.pending + data
      else data != "" ==> log'.pending == ""
  {
    var all := log.pending + data;
    assert '\n' !in all;
    LineEndUnique(all, 0);
    assert data == "" ==> all == log.pending;
  }

  lemma StepStaysClean(log: Log, op: Op, st: Settings)
    requires LogOk(log) && Clean(log.files[0])
    ensures Clean(Do(log, op, st).files[0]) <==> !CutsLine(log, op)
  {
    BytesPutLast(log, op, st);
  }

  lemma RunLogStep(log: Log, ops: seq<Op>, k: nat, st: Settings)
    requires k < |ops|
    ensures RunLog(log, ops[..k+1], st) == Do(RunLog(log, ops[..k], st), ops[k], st)
  {
    assert ops[..k+1][..k] == ops[..k];
  }

  lemma {:induction false} RunLogOk(log: Log, ops: seq<Op>, st: Settings)
    requires LogOk(log)
    ensures LogOk(RunLog(log, ops, st))
  {
    if ops != [] {
      RunLogOk(log, ops[..|ops|-1], st);
      OpKeepsOk(RunLog(log, ops[..|ops|-1], st), ops[|ops|-1], st);
    }
  }

  ghost predicate AlwaysClean(log: Log, ops: seq<Op>, st: Settings) {
    forall k :: 0 <= k <= |ops| ==> Clean(FileAt(RunLog(log, ops[..k], st).files, 0))
  }

  ghost predicate NeverCuts(log: Log, ops: seq<Op>, st: Settings) {
    forall k :: 0 <= k < |ops| ==> !CutsLine(RunLog(log, ops[..k], st), ops[k])
  }

  lemma {:induction false} CleanUpTo(log: Log, ops: seq<Op>, st: Settings, k: nat)
    requires LogOk(log) && Clean(log.files[0]) && NeverCuts(log, ops, st) && k <= |ops|
    ensures Clean(FileAt(RunLog(log, ops[..k], st).files, 0))
  {
    if k > 0 {
      CleanUpTo(log, ops, st, k - 1);
      RunLogOk(log, ops[..k-1], st);
      RunLogStep(log, ops, k - 1, st);
      OpKeepsOk(RunLog(log, ops[..k-1], st), ops[k-1], st);
      StepStaysClean(RunLog(log, ops[..k-1], st), ops[k-1], st);
    }
  }

  /** The file ends at a line end all the time exactly when no operation puts part of a line into it. */
  lemma FileEndsAtLineEnd(log: Log, ops: seq<Op>, st: Settings)
    requires LogOk(log) && Clean(log.files[0])
    ensures AlwaysClean(log, ops, st) <==> NeverCuts(log, ops, st)
  {
    if NeverCuts(log, ops, st) {
      forall k | 0 <= k <= |ops|
        ensures Clean(FileAt(RunLog(log, ops[..k], st).files, 0))
      {
        CleanUpTo(log, ops, st, k);
      }
    }
    if AlwaysClean(log, ops, st) {
      forall k | 0 <= k < |ops|
        ensures !CutsLine(RunLog(log, ops[..k], st), ops[k])
      {
        RunLogOk(log, ops[..k], st);
        RunLogStep(log, ops, k, st);
        assert Clean(FileAt(RunLog(log, ops[..k+1], st).files, 0));
        OpKeepsOk(RunLog(log, ops[..k], st), ops[k], st);
        StepStaysClean(RunLog(log, ops[..k], st), ops[k], st);
      }
    }
  }

  // ---- Rotation and line ends ----

  /** The last operation that put bytes into the file put part of a line there. */
  ghost predicate LastWriteCut(log: Log, ops: seq<Op>, st: Settings) {
    if ops == [] then false else
    var mid, op := RunLog(log, ops[..|ops|-1], st), ops[|ops|-1];
    if PutsBytes(mid, op) then CutsLine(mid, op) else LastWriteCut(log, ops[..|ops|-1], st)
  }

  lemma {:induction false} FileEndsAsLastWritten(log: Log, ops: seq<Op>, st: Settings)
    requires LogOk(log) && Clean(log.files[0])
    ensures LogOk(RunLog(log, ops, st))
    ensures Clean(RunLog(log, ops, st).files[0]) <==> !LastWriteCut(log, ops, st)
  {
    if ops != [] {
      var before, op := ops[..|ops|-1], ops[|ops|-1];
      FileEndsAsLastWritten(log, before, st);
      OpKeepsOk(RunLog(log, before, st), op, st);
      BytesPutLast(RunLog(log, before, st), op, st);
    }
  }

  ghost predicate RotationsCutAtLineEnds(log: Log, ops: seq<Op>, st: Settings) {
    forall k :: 0 <= k < |ops| && RotatesAt(RunLog(log, ops[..k], st), ops[k], st) ==>
      Clean(FileAt(RunLog(log, ops[..k], st).files, 0))
  }

  /** Every rotation finds the file at a line end exactly when, at each rotation, the last operation
      before it that put bytes into the file did not put part of a line there. */
  lemma RotationAtLineEnds(log: Log, ops: seq<Op>, st: Settings)
    requires LogOk(log) && Clean(log.files[0])
    ensures RotationsCutAtLineEnds(log, ops, st) <==>
      forall k :: 0 <= k < |ops| && RotatesAt(RunLog(log, ops[..k], st), ops[k], st) ==> !LastWriteCut(log, ops[..k], st)
  {
    forall k | 0 <= k < |ops|
      ensures Clean(FileAt(RunLog(log, ops[..k], st).files, 0)) <==> !LastWriteCut(log, ops[..k], st)
    {
      FileEndsAsLastWritten(log, ops[..k], st);
    }
  }

  lemma FlushLeavesPartialLine(st: Settings)
    ensures Do(Do(Log(map[0 := ""], ""), Write("a"), st), Flush, st) == Log(map[0 := "a"], "")
  {
    LineEndUnique("a", 0);
    assert "" + "a" == "a";
    assert Do(Log(map[0 := ""], ""), Write("a"), st) == Log(map[0 := ""], "a");
  }

  lemma NextLineRotates(backups: int)
    ensures var log, st := Log(map[0 := "a"], ""), Settings(1, backups);
      RotatesAt(log, Write("b\n"), st) && FileAt(Do(log, Write("b\n"), st).files, 1) == "a"
  {
    var log, st := Log(map[0 := "a"], ""), Settings(1, backups);
    LineEndUnique("b\n", 2);
    assert "" + "b\n" == "b\n" && "b\n"[..2] == "b\n";
    assert Lookup(RotateFiles(log.files, backups), 1) == AfterShift(log.files, backups, 1);
  }

  /** A rotation that cuts a line: a flush leaves "a" in the file, and the next line rotates it away. */
  lemma FlushMakesRotationCutLine(backups: int)
    ensures var log, ops, st := Log(map[0 := ""], ""), [Write("a"), Flush, Write("b\n")], Settings(1, backups);
      !RotationsCutAtLineEnds(log, ops, st) && FileAt(RunLog(log, ops, st).files, 1) == "a"
  {
    var log, ops, st := Log(map[0 := ""], ""), [Write("a"), Flush, Write("b\n")], Settings(1, backups);
    RunLogStep(log, ops, 0, st);
    RunLogStep(log, ops, 1, st);
    RunLogStep(log, ops, 2, st);
    assert ops[..0] == [] && ops[..3] == ops;
    FlushLeavesPartialLine(st);
    NextLineRotates(backups);
    assert RotatesAt(RunLog(log, ops[..2], st), ops[2], st);
  }
}
