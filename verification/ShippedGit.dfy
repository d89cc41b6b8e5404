/** `materializeShippedGit`: any number of processes unpack the same manifest to one root, each
    through a private temporary copy and one rename. The protocol is a state machine whose steps are
    the program's file operations; any interleaving of processes, and a failure of any operation, is
    a run. */
module ShippedGit {

  datatype File = File(bytes: seq<char>, executable: bool)
  type Tree = map<string, File>
  datatype Node = Absent | Directory(tree: Tree)

  const COMPLETE_MARKER := ".complete"
  const SHIM := "shim/git"

  /** The staged tree and what is added to it. The temporary directory's name holds the process id
      and random bytes, so it is private. */
  datatype Shipment = Shipment(source: Tree, executables: set<string>, shim: seq<char>, hash: seq<char>)

  /** The manifest lists staged files only. */
  predicate Valid(c: Shipment) {
    c.executables <= c.source.Keys
  }

  /** The source with the executable bit on everything listed except `left`. */
  function Modes(c: Shipment, left: set<string>): Tree {
    map p | p in c.source :: File(c.source[p].bytes, c.source[p].executable || (p in c.executables && p !in left))
  }

  function WithShim(c: Shipment): Tree {
    Modes(c, {})[SHIM := File(c.shim, true)]
  }

  /** The whole tree with its marker. */
  function Whole(c: Shipment): Tree {
    WithShim(c)[COMPLETE_MARKER := File(c.hash, false)]
  }

  /** `complete()`: the marker can be read and holds this shipment's hash. */
  predicate Complete(c: Shipment, root: Node) {
    root.Directory? && COMPLETE_MARKER in root.tree && root.tree[COMPLETE_MARKER].bytes == c.hash
  }

  /** `rename` onto the root succeeds when nothing, or an empty directory, is there. */
  predicate Free(root: Node) {
    root.Absent? || root.tree == map[]
  }

  datatype Outcome = Returned | Threw

  /** Where a process stands: the operation it performs next. */
  datatype Pc =
    | Check
    | Clear
    | Copy
    | Chmod(left: set<string>)
    | WriteShim
    | WriteMarker
    | Rename
    | Recheck(collision: bool)     // after a failed rename; whether it failed with EEXIST or ENOTEMPTY
    | RemoveRoot
    | RenameAgain
    | Cleanup(outcome: Outcome)
    | Finished(outcome: Outcome)

  datatype Process = Process(pc: Pc, temporary: Node, faulted: bool)

  datatype State = State(root: Node, processes: seq<Process>)

  /** `Go` performs the next operation, on the file `path` where it takes one; `Fault` makes it fail. */
  datatype Event = Go(path: string) | Fault

  predicate Enabled(c: Shipment, p: Process, e: Event) {
    match p.pc
    case Finished(_) => false
    case Copy => p.temporary.Directory? &&
      (e.Go? && c.source.Keys - p.temporary.tree.Keys != {} ==> e.path in c.source && e.path !in p.temporary.tree)
    case Chmod(left) => e.Go? && left != {} ==> e.path in left
    case _ => true
  }

  /** One operation of one process on the shared root and its own temporary directory. */
  function Advance(c: Shipment, root: Node, p: Process, e: Event): (r: (Node, Process))
    requires Enabled(c, p, e)
  {
    match p.pc
    case Check =>
      // An unreadable marker reads as incomplete.
      if e.Go? && Complete(c, root) then (root, p.(pc := Finished(Returned))) else (root, p.(pc := Clear))
    case Recheck(collision) =>
      if e.Go? && Complete(c, root) then (root, p.(pc := Cleanup(Returned)))
      else if collision then (root, p.(pc := RemoveRoot))
      else (root, p.(pc := Cleanup(Threw)))
    case Cleanup(outcome) =>
      if e.Go? then (root, p.(pc := Finished(outcome), temporary := Absent))
      else (root, p.(pc := Finished(Threw), faulted := true))
    case Rename =>
      if e.Fault? then (root, p.(pc := Recheck(false), faulted := true))
      else if Free(root) then (p.temporary, p.(pc := Cleanup(Returned), temporary := Absent))
      else (root, p.(pc := Recheck(true)))
    case _ =>
      if e.Fault? then (root, p.(pc := Cleanup(Threw), faulted := true))
      else AdvanceCopy(c, root, p, e.path)
  }

  function AdvanceCopy(c: Shipment, root: Node, p: Process, path: string): (Node, Process)
    requires Enabled(c, p, Go(path))
  {
    match p.pc
    case Clear => (root, p.(pc := Copy, temporary := Directory(map[])))
    case Copy =>
      if c.source.Keys - p.temporary.tree.Keys == {} then (root, p.(pc := Chmod(c.executables)))
      else (root, p.(temporary := Directory(p.temporary.tree[path := c.source[path]])))
    case Chmod(left) =>
      if left == {} then (root, p.(pc := WriteShim))
      else if p.temporary.Directory? && path in p.temporary.tree then
        var t := p.temporary.tree;
        (root, p.(pc := Chmod(left - {path}), temporary := Directory(t[path := File(t[path].bytes, true)])))
      else (root, p.(pc := Cleanup(Threw)))
    case WriteShim => Write(root, p, SHIM, File(c.shim, true), WriteMarker)
    case WriteMarker => Write(root, p, COMPLETE_MARKER, File(c.hash, false), Rename)
    case RemoveRoot => (Absent, p.(pc := RenameAgain))
    case RenameAgain =>
      if Free(root) then (p.temporary, p.(pc := Cleanup(Returned), temporary := Absent))
      else (root, p.(pc := Cleanup(Threw)))
    case _ => (root, p)
  }

  function Write(root: Node, p: Process, path: string, file: File, next: Pc): (Node, Process) {
    if p.temporary.Directory? then (root, p.(pc := next, temporary := Directory(p.temporary.tree[path := file])))
    else (root, p.(pc := Cleanup(Threw)))
  }

  predicate CanStep(c: Shipment, s: State, i: nat, e: Event) {
    i < |s.processes| && Enabled(c, s.processes[i], e)
  }

  function Step(c: Shipment, s: State, i: nat, e: Event): State
    requires CanStep(c, s, i, e)
  {
    var (root, p) := Advance(c, s.root, s.processes[i], e);
    State(root, s.processes[i := p])
  }

  // ----- runs

  datatype Move = Move(process: nat, event: Event)

  /** The moves can be made one after another from `s`. */
  predicate IsRun(c: Shipment, s: State, moves: seq<Move>)
    decreases |moves|
  {
    moves == [] || (CanStep(c, s, moves[0].process, moves[0].event)
                    && IsRun(c, Step(c, s, moves[0].process, moves[0].event), moves[1..]))
  }

  function After(c: Shipment, s: State, moves: seq<Move>): State
    requires IsRun(c, s, moves)
    decreases |moves|
  {
    if moves == [] then s else After(c, Step(c, s, moves[0].process, moves[0].event), moves[1..])
  }

  /** The process fails to read the marker when it looks again after losing the rename to another. */
  predicate IsUnreadable(p: Process, e: Event) {
    p.pc == Recheck(true) && e.Fault?
  }

  predicate MarkerReadable(c: Shipment, s: State, moves: seq<Move>)
    requires IsRun(c, s, moves)
    decreases |moves|
  {
    moves == [] || (!IsUnreadable(s.processes[moves[0].process], moves[0].event)
                    && MarkerReadable(c, Step(c, s, moves[0].process, moves[0].event), moves[1..]))
  }

  function Start(root: Node, count: nat): State {
    State(root, seq(count, i => Process(Check, Absent, false)))
  }

  // ----- the invariant

  /** What a process's temporary directory holds, and what it knows of the root. */
  ghost predicate ProcessInv(c: Shipment, root: Node, p: Process) {
    match p.pc
    case Check => p.temporary == Absent
    case Clear => p.temporary == Absent
    case Copy => p.temporary.Directory? && p.temporary.tree.Keys <= c.source.Keys
                 && forall f :: f in p.temporary.tree ==> p.temporary.tree[f] == c.source[f]
    case Chmod(left) => left <= c.executables && p.temporary == Directory(Modes(c, left))
    case WriteShim => p.temporary == Directory(Modes(c, {}))
    case WriteMarker => p.temporary == Directory(WithShim(c))
    case Rename => p.temporary == Directory(Whole(c))
    case Recheck(collision) => p.temporary == Directory(Whole(c)) && (collision || p.faulted)
                               && (collision ==> Complete(c, root))
    case RemoveRoot => false
    case RenameAgain => false
    case Cleanup(outcome) => Settled(c, root, p, outcome)
    case Finished(outcome) => Settled(c, root, p, outcome) && (!p.faulted ==> p.temporary == Absent)
  }

  /** A process that returned leaves a complete root; one that met no failure returns. */
  ghost predicate Settled(c: Shipment, root: Node, p: Process, outcome: Outcome) {
    (outcome.Returned? ==> Complete(c, root)) && (!p.faulted ==> outcome.Returned?)
  }

  /** What one operation may make of the root. */
  ghost predicate IsNext(c: Shipment, root: Node, root': Node) {
    root' == root || (Free(root) && root' == Directory(Whole(c)))
  }

  ghost predicate Inv(c: Shipment, s: State) {
    && (Free(s.root) || Complete(c, s.root))
    && forall i :: 0 <= i < |s.processes| ==> ProcessInv(c, s.root, s.processes[i])
  }

  lemma WholeIsComplete(c: Shipment)
    ensures Complete(c, Directory(Whole(c))) && !Free(Directory(Whole(c)))
    ensures forall root :: Free(root) ==> !Complete(c, root)
  {
    assert COMPLETE_MARKER in Whole(c);
  }

  lemma CopyFinished(c: Shipment, t: Tree)
    requires Valid(c) && t.Keys <= c.source.Keys && c.source.Keys - t.Keys == {}
    requires forall f :: f in t ==> t[f] == c.source[f]
    ensures t == Modes(c, c.executables)
  {
    assert forall f :: f in c.source ==> f !in c.source.Keys - t.Keys;
    assert t.Keys == c.source.Keys;
  }

  lemma ChmodOne(c: Shipment, left: set<string>, path: string)
    requires Valid(c) && left <= c.executables && path in left
    ensures path in Modes(c, left)
    ensures Modes(c, left)[path := File(Modes(c, left)[path].bytes, true)] == Modes(c, left - {path})
  {}

  /** What one operation does, from a state where the invariant holds of this process. */
  lemma AdvanceKeeps(c: Shipment, root: Node, p: Process, e: Event)
    requires Valid(c) && Enabled(c, p, e) && ProcessInv(c, root, p)
    requires !IsUnreadable(p, e)
    requires Free(root) || Complete(c, root)
    ensures var (root', p') := Advance(c, root, p, e);
            ProcessInv(c, root', p') && IsNext(c, root, root')
  {
    WholeIsComplete(c);
    if e.Go? && InCopy(p.pc) {
      AdvanceCopyKeeps(c, root, p, e.path);
    }
    hide Modes, WithShim, Whole, Free, Complete, AdvanceCopy;
  }

  ghost predicate InCopy(pc: Pc) {
    pc.Clear? || pc.Copy? || pc.Chmod? || pc.WriteShim? || pc.WriteMarker?
  }

  /** The operations on the temporary directory alone. */
  lemma AdvanceCopyKeeps(c: Shipment, root: Node, p: Process, path: string)
    requires Valid(c) && InCopy(p.pc) && Enabled(c, p, Go(path)) && ProcessInv(c, root, p)
    ensures var (root', p') := AdvanceCopy(c, root, p, path);
            root' == root && ProcessInv(c, root, p')
  {
    if p.pc.Copy? && c.source.Keys - p.temporary.tree.Keys == {} {
      CopyFinished(c, p.temporary.tree);
    }
    if p.pc.Chmod? && p.pc.left != {} {
      ChmodOne(c, p.pc.left, path);
    }
    hide Modes;
  }

  /** What the root became, the other processes can live with. */
  lemma OthersKeep(c: Shipment, root: Node, root': Node, p: Process)
    requires ProcessInv(c, root, p)
    requires IsNext(c, root, root')
    ensures ProcessInv(c, root', p)
  {
    WholeIsComplete(c);
  }

  lemma StepKeeps(c: Shipment, s: State, i: nat, e: Event)
    requires Valid(c) && Inv(c, s) && CanStep(c, s, i, e)
    requires !IsUnreadable(s.processes[i], e)
    ensures Inv(c, Step(c, s, i, e)) && IsNext(c, s.root, Step(c, s, i, e).root)
  {
    WholeIsComplete(c);
    var s' := Step(c, s, i, e);
    AdvanceKeeps(c, s.root, s.processes[i], e);
    forall j | 0 <= j < |s'.processes| ensures ProcessInv(c, s'.root, s'.processes[j]) {
      if j != i {
        OthersKeep(c, s.root, s'.root, s.processes[j]);
      }
    }
  }

  /** From a free or complete root, along every run of any number of processes, whatever other
      operation fails: a complete root stays exactly as it is, and a free one is as it was or the
      whole tree. */
  lemma {:induction false} RunSafe(c: Shipment, s: State, moves: seq<Move>)
    requires Valid(c) && Inv(c, s) && IsRun(c, s, moves) && MarkerReadable(c, s, moves)
    ensures Inv(c, After(c, s, moves)) && IsNext(c, s.root, After(c, s, moves).root)
    decreases |moves|
  {
    WholeIsComplete(c);
    if moves != [] {
      StepKeeps(c, s, moves[0].process, moves[0].event);
      RunSafe(c, Step(c, s, moves[0].process, moves[0].event), moves[1..]);
    }
  }

  lemma StartInv(c: Shipment, root: Node, count: nat)
    requires Free(root) || Complete(c, root)
    ensures Inv(c, Start(root, count))
  {}

  /** In every such run no process is ever about to remove the root, a process that has returned
      leaves a complete root, the one it found or the whole tree, and one that met no failure
      returns. */
  lemma FinishedWell(c: Shipment, root: Node, count: nat, moves: seq<Move>, i: nat)
    requires Valid(c) && (Free(root) || Complete(c, root)) && i < count
    requires IsRun(c, Start(root, count), moves) && MarkerReadable(c, Start(root, count), moves)
    ensures var s := After(c, Start(root, count), moves);
            i < |s.processes| &&
            var p := s.processes[i];
            && !p.pc.RemoveRoot? && !p.pc.RenameAgain?
            && (p.pc == Finished(Returned) ==> s.root == if Free(root) then Directory(Whole(c)) else root)
            && (p.pc.Finished? && !p.faulted ==> p.pc == Finished(Returned) && p.temporary == Absent)
  {
    var s := Start(root, count);
    WholeIsComplete(c);
    StartInv(c, root, count);
    RunSafe(c, s, moves);
    SameProcesses(c, s, moves);
    assert ProcessInv(c, After(c, s, moves).root, After(c, s, moves).processes[i]);
  }

  ghost predicate IsRemoving(s: State) {
    exists i :: 0 <= i < |s.processes| && s.processes[i].pc.RemoveRoot?
  }

  /** At some point of the run a process is about to remove the root. */
  ghost predicate ReachesRemoval(c: Shipment, s: State, moves: seq<Move>)
    requires IsRun(c, s, moves)
    decreases |moves|
  {
    IsRemoving(s) || (moves != [] && ReachesRemoval(c, Step(c, s, moves[0].process, moves[0].event), moves[1..]))
  }

  /** From a free or complete root a process comes to remove the root exactly when some process, its
      rename having lost to another's, then fails to read the marker. */
  lemma {:induction false} RemovalIffUnreadable(c: Shipment, s: State, moves: seq<Move>)
    requires Valid(c) && Inv(c, s) && IsRun(c, s, moves)
    ensures ReachesRemoval(c, s, moves) <==> !MarkerReadable(c, s, moves)
    decreases |moves|
  {
    forall i | 0 <= i < |s.processes| ensures !s.processes[i].pc.RemoveRoot? {
      assert ProcessInv(c, s.root, s.processes[i]);
    }
    if moves != [] {
      var m := moves[0];
      var s' := Step(c, s, m.process, m.event);
      if IsUnreadable(s.processes[m.process], m.event) {
        assert s'.processes[m.process].pc.RemoveRoot?;
        assert ReachesRemoval(c, s', moves[1..]);
      } else {
        StepKeeps(c, s, m.process, m.event);
        RemovalIffUnreadable(c, s', moves[1..]);
      }
    }
  }

  lemma {:induction false} SameProcesses(c: Shipment, s: State, moves: seq<Move>)
    requires IsRun(c, s, moves)
    ensures |After(c, s, moves).processes| == |s.processes|
    decreases |moves|
  {
    if moves != [] {
      SameProcesses(c, Step(c, s, moves[0].process, moves[0].event), moves[1..]);
    }
  }

  // ----- what is left behind

  /** Along the run a clean-up by the process fails while its temporary directory is there. */
  predicate CleanupFails(c: Shipment, s: State, moves: seq<Move>, i: nat)
    requires IsRun(c, s, moves)
    decreases |moves|
  {
    moves != [] &&
    ((moves[0] == Move(i, Fault) && s.processes[i].pc.Cleanup? && s.processes[i].temporary.Directory?)
     || CleanupFails(c, Step(c, s, moves[0].process, moves[0].event), moves[1..], i))
  }

  /** A process's last operation. */
  lemma AdvanceLeaves(c: Shipment, root: Node, p: Process, e: Event)
    requires Enabled(c, p, e) && (p.pc.Check? ==> p.temporary == Absent)
    ensures var p' := Advance(c, root, p, e).1;
            && !p'.pc.Check?
            && (p'.pc.Finished? && p'.temporary.Directory? <==> p.pc.Cleanup? && e.Fault? && p.temporary.Directory?)
  {
    hide Free, Complete;
  }

  /** Over any root, and whatever fails, a finished process has left its temporary directory exactly
      when its clean-up failed while the directory was there. */
  lemma {:induction false} LeftIffCleanupFails(c: Shipment, s: State, moves: seq<Move>, i: nat)
    requires IsRun(c, s, moves) && i < |s.processes| && !s.processes[i].pc.Finished?
    requires s.processes[i].pc.Check? ==> s.processes[i].temporary == Absent
    ensures i < |After(c, s, moves).processes|
    ensures After(c, s, moves).processes[i].pc.Finished? ==>
              (After(c, s, moves).processes[i].temporary.Directory? <==> CleanupFails(c, s, moves, i))
    decreases |moves|
  {
    if moves != [] {
      var m := moves[0];
      var s' := Step(c, s, m.process, m.event);
      if m.process == i {
        AdvanceLeaves(c, s.root, s.processes[i], m.event);
      }
      hide Advance;
      if s'.processes[i].pc.Finished? {
        StaysFinished(c, s', moves[1..], i);
      } else {
        LeftIffCleanupFails(c, s', moves[1..], i);
      }
    }
  }

  lemma {:induction false} StaysFinished(c: Shipment, s: State, moves: seq<Move>, i: nat)
    requires IsRun(c, s, moves) && i < |s.processes| && s.processes[i].pc.Finished?
    ensures i < |After(c, s, moves).processes| && After(c, s, moves).processes[i] == s.processes[i]
    ensures !CleanupFails(c, s, moves, i)
    decreases |moves|
  {
    if moves != [] {
      hide Advance;
      StaysFinished(c, Step(c, s, moves[0].process, moves[0].event), moves[1..], i);
    }
  }

  // ----- every process finishes

  /** The files still to be copied. */
  ghost function Uncopied(c: Shipment, t: Tree): nat {
    |c.source.Keys - t.Keys|
  }

  /** A bound on the operations a process has left. */
  ghost function Left(c: Shipment, p: Process): nat {
    match p.pc
    case Check => |c.source| + |c.executables| + 12
    case Clear => |c.source| + |c.executables| + 11
    case Copy => (if p.temporary.Directory? then Uncopied(c, p.temporary.tree) else |c.source|) + |c.executables| + 10
    case Chmod(left) => |left| + 9
    case WriteShim => 8
    case WriteMarker => 7
    case Rename => 6
    case Recheck(_) => 5
    case RemoveRoot => 4
    case RenameAgain => 3
    case Cleanup(_) => 1
    case Finished(_) => 0
  }

  lemma Shrinks<T>(a: set<T>, b: set<T>, x: T)
    requires x in a && b == a - {x}
    ensures |b| < |a|
  {}

  lemma CopyProgress(c: Shipment, t: Tree, path: string, file: File)
    requires path in c.source && path !in t
    ensures Uncopied(c, t[path := file]) < Uncopied(c, t)
  {
    var left := c.source.Keys - t.Keys;
    var left' := c.source.Keys - t[path := file].Keys;
    assert left' == left - {path};
    Shrinks(left, left', path);
  }

  lemma StartProgress(c: Shipment, empty: Tree)
    requires empty == map[]
    ensures Uncopied(c, empty) == |c.source|
  {
    assert c.source.Keys - empty.Keys == c.source.Keys;
  }

  lemma CopyAdvances(c: Shipment, root: Node, p: Process, path: string)
    requires p.pc.Copy? && Enabled(c, p, Go(path))
    ensures Left(c, AdvanceCopy(c, root, p, path).1) < Left(c, p)
  {
    var t := p.temporary.tree;
    if c.source.Keys - t.Keys != {} {
      CopyProgress(c, t, path, c.source[path]);
    }
    hide Uncopied;
  }

  lemma ChmodAdvances(c: Shipment, root: Node, p: Process, path: string)
    requires p.pc.Chmod? && Enabled(c, p, Go(path))
    ensures Left(c, AdvanceCopy(c, root, p, path).1) < Left(c, p)
  {
    if p.pc.left != {} {
      Shrinks(p.pc.left, p.pc.left - {path}, path);
    }
  }

  /** Every operation leaves its process with less to do. */
  lemma AdvanceProgress(c: Shipment, root: Node, p: Process, e: Event)
    requires Enabled(c, p, e)
    ensures Left(c, Advance(c, root, p, e).1) < Left(c, p)
  {
    hide Complete, Free, Uncopied;
    if e.Go? && p.pc.Copy? {
      CopyAdvances(c, root, p, e.path);
    } else if e.Go? && p.pc.Chmod? {
      ChmodAdvances(c, root, p, e.path);
    } else if p.pc.Clear? {
      StartProgress(c, map[]);
    }
  }

  ghost function TotalLeft(c: Shipment, processes: seq<Process>): nat {
    if processes == [] then 0 else Left(c, processes[0]) + TotalLeft(c, processes[1..])
  }

  lemma {:induction false} TotalLeftUpdate(c: Shipment, processes: seq<Process>, i: nat, p: Process)
    requires i < |processes|
    ensures TotalLeft(c, processes[i := p]) == TotalLeft(c, processes) - Left(c, processes[i]) + Left(c, p)
    decreases i
  {
    if i == 0 {
      assert processes[0 := p][1..] == processes[1..];
    } else {
      assert processes[i := p][1..] == processes[1..][i - 1 := p];
      TotalLeftUpdate(c, processes[1..], i - 1, p);
    }
  }

  /** No run is longer than the work there was at its start, whatever the interleaving. */
  lemma {:induction false} RunsAreBounded(c: Shipment, s: State, moves: seq<Move>)
    requires Valid(c) && IsRun(c, s, moves)
    ensures |moves| + TotalLeft(c, After(c, s, moves).processes) <= TotalLeft(c, s.processes)
    decreases |moves|
  {
    if moves != [] {
      var m := moves[0];
      AdvanceProgress(c, s.root, s.processes[m.process], m.event);
      TotalLeftUpdate(c, s.processes, m.process, Advance(c, s.root, s.processes[m.process], m.event).1);
      RunsAreBounded(c, Step(c, s, m.process, m.event), moves[1..]);
    }
  }

  /** A process that has not finished can always take its next step. */
  lemma NeverStuck(c: Shipment, root: Node, p: Process) returns (e: Event)
    requires ProcessInv(c, root, p) && !p.pc.Finished?
    ensures e.Go? && Enabled(c, p, e)
  {
    e := Go("");
    if p.pc.Copy? && c.source.Keys - p.temporary.tree.Keys != {} {
      var path :| path in c.source.Keys - p.temporary.tree.Keys;
      e := Go(path);
    } else if p.pc.Chmod? && p.pc.left != {} {
      var path :| path in p.pc.left;
      e := Go(path);
    }
  }

  // ----- where the guarantee ends

  lemma {:induction false} Extend(c: Shipment, s: State, moves: seq<Move>, i: nat, e: Event)
    requires IsRun(c, s, moves) && CanStep(c, After(c, s, moves), i, e)
    ensures IsRun(c, s, moves + [Move(i, e)])
    ensures After(c, s, moves + [Move(i, e)]) == Step(c, After(c, s, moves), i, e)
    decreases |moves|
  {
    var more := moves + [Move(i, e)];
    if moves == [] {
      assert more[1..] == [];
    } else {
      assert more[1..] == moves[1..] + [Move(i, e)];
      Extend(c, Step(c, s, moves[0].process, moves[0].event), moves[1..], i, e);
    }
  }

  /** A run of moves without a failure, and where it leads. */
  predicate Leads(c: Shipment, s: State, moves: seq<Move>, t: State) {
    IsRun(c, s, moves) && After(c, s, moves) == t && forall k :: 0 <= k < |moves| ==> moves[k].event.Go?
  }

  lemma LeadsOn(c: Shipment, s: State, moves: seq<Move>, t: State, i: nat, e: Event)
    requires Leads(c, s, moves, t) && CanStep(c, t, i, e) && e.Go?
    ensures Leads(c, s, moves + [Move(i, e)], Step(c, t, i, e))
  {
    Extend(c, s, moves, i, e);
  }

  /** A process before the rename, with no complete root before it. */
  ghost predicate Preparing(c: Shipment, p: Process) {
    && (p.pc.Check? || p.pc.Clear? || p.pc.Copy? || p.pc.Chmod? || p.pc.WriteShim? || p.pc.WriteMarker? || p.pc.Rename?)
    && ProcessInv(c, Absent, p) && !p.faulted
  }

  lemma PreparesNext(c: Shipment, root: Node, p: Process) returns (e: Event)
    requires Valid(c) && !Complete(c, root) && Preparing(c, p) && !p.pc.Rename?
    ensures e.Go? && Enabled(c, p, e)
    ensures var (root', p') := Advance(c, root, p, e);
            root' == root && Preparing(c, p') && Left(c, p') < Left(c, p)
  {
    WholeIsComplete(c);
    e := NeverStuck(c, Absent, p);
    AdvanceKeeps(c, Absent, p, e);
    AdvanceProgress(c, root, p, e);
    hide ProcessInv, Left, Modes, WithShim;
    assert Advance(c, root, p, e).1 == Advance(c, Absent, p, e).1;
  }

  /** It brings its copy to the point of the rename, on its own. */
  lemma {:induction false} Prepares(c: Shipment, s: State, moves: seq<Move>, t: State, i: nat) returns (more: seq<Move>)
    requires Valid(c) && Leads(c, s, moves, t) && i < |t.processes|
    requires !Complete(c, t.root) && Preparing(c, t.processes[i])
    ensures Leads(c, s, more, State(t.root, t.processes[i := Process(Rename, Directory(Whole(c)), false)]))
    decreases Left(c, t.processes[i])
  {
    if t.processes[i].pc.Rename? {
      more := moves;
      assert t.processes[i := t.processes[i]] == t.processes;
    } else {
      hide Preparing, Left, Advance, Complete, Leads;
      var e := PreparesNext(c, t.root, t.processes[i]);
      LeadsOn(c, s, moves, t, i, e);
      var t' := Step(c, t, i, e);
      more := Prepares(c, s, moves + [Move(i, e)], t', i);
      var ready := Process(Rename, Directory(Whole(c)), false);
      assert t'.processes[i := ready] == t.processes[i := ready];
    }
  }

  /** Two processes that both reach the rename before either has done it. */
  lemma BothReady(c: Shipment, root: Node, ready: Process) returns (moves: seq<Move>)
    requires Valid(c) && !Complete(c, root) && ready == Process(Rename, Directory(Whole(c)), false)
    ensures Leads(c, Start(root, 2), moves, State(root, [ready, ready]))
  {
    var s := Start(root, 2);
    moves := Prepares(c, s, [], s, 0);
    var t := State(root, s.processes[0 := ready]);
    moves := Prepares(c, s, moves, t, 1);
    assert t.processes[1 := ready] == [ready, ready];
  }

  /** One more operation of the first of two processes, with no failure. */
  lemma FirstGoes(c: Shipment, s: State, moves: seq<Move>, root: Node, p: Process, q: Process, root': Node, p': Process)
    returns (more: seq<Move>)
    requires Leads(c, s, moves, State(root, [p, q]))
    requires Enabled(c, p, Go("")) && Advance(c, root, p, Go("")) == (root', p')
    ensures Leads(c, s, more, State(root', [p', q]))
  {
    LeadsOn(c, s, moves, State(root, [p, q]), 0, Go(""));
    assert [p, q][0 := p'] == [p', q];
    more := moves + [Move(0, Go(""))];
  }

  /** One more operation of the second. */
  lemma SecondGoes(c: Shipment, s: State, moves: seq<Move>, root: Node, q: Process, p: Process, root': Node,
                   p': Process)
    returns (more: seq<Move>)
    requires Leads(c, s, moves, State(root, [q, p]))
    requires Enabled(c, p, Go("")) && Advance(c, root, p, Go("")) == (root', p')
    ensures Leads(c, s, more, State(root', [q, p']))
  {
    LeadsOn(c, s, moves, State(root, [q, p]), 1, Go(""));
    assert [q, p][1 := p'] == [q, p'];
    more := moves + [Move(1, Go(""))];
  }

  /** Over a stale root, one that is neither free nor complete, two processes without a single
      failure can end with one of them returned and the tree gone: the second still trusts its
      earlier look at the root when it removes it. */
  lemma StaleRootLosesTree(c: Shipment, root: Node) returns (moves: seq<Move>, t: State)
    requires Valid(c) && !Free(root) && !Complete(c, root)
    ensures Leads(c, Start(root, 2), moves, t)
    ensures t.root == Absent && |t.processes| == 2 && t.processes[0].pc == Finished(Returned)
  {
    var s := Start(root, 2);
    var whole := Directory(Whole(c));
    var renaming := Process(Rename, whole, false);
    var looking := renaming.(pc := Recheck(true));
    var removing := renaming.(pc := RemoveRoot);
    var again := renaming.(pc := RenameAgain);
    moves := BothReady(c, root, renaming);
    hide Whole, Leads;
    moves := FirstGoes(c, s, moves, root, renaming, renaming, root, looking);
    moves := SecondGoes(c, s, moves, root, looking, renaming, root, looking);
    moves := FirstGoes(c, s, moves, root, looking, looking, root, removing);
    moves := SecondGoes(c, s, moves, root, removing, looking, root, removing);
    moves := FirstGoes(c, s, moves, root, removing, removing, Absent, again);
    moves, t := ReplacedThenRemoved(c, s, moves, again, removing);
  }

  /** A process has returned, and the tree is gone. */
  ghost predicate IsLost(s: State) {
    s.root == Absent && exists i :: 0 <= i < |s.processes| && s.processes[i].pc == Finished(Returned)
  }

  /** The root's marker holds this shipment's hash. */
  ghost predicate HoldsHash(c: Shipment, root: Node) {
    root.Directory? && ".complete" in root.tree && root.tree[".complete"].bytes == c.hash
  }

  /** What the whole tree is: the source, with the executable bit also on everything the manifest lists,
      the shim as an executable, and the marker with the hash. */
  lemma WholeMeans(c: Shipment, f: string)
    ensures f in Whole(c) <==> f in c.source || f == "shim/git" || f == ".complete"
    ensures f in Whole(c) ==>
              Whole(c)[f] ==
              if f == ".complete" then File(c.hash, false)
              else if f == "shim/git" then File(c.shim, true)
              else File(c.source[f].bytes, c.source[f].executable || f in c.executables)
  {}

  lemma CompleteIsHash(c: Shipment, root: Node)
    ensures Complete(c, root) <==> HoldsHash(c, root)
  {}

  /** A marker that cannot be read counts as a missing one, both times the process looks. */
  lemma UnreadableIsMissing(c: Shipment, root: Node, p: Process, path: string)
    requires p.pc.Check? || p.pc.Recheck?
    ensures Advance(c, root, p, Fault) == (root, Advance(c, Absent, p, Go(path)).1)
  {}

  /** Two processes, of whose operations none fails, can come to this. */
  ghost predicate CanLose(c: Shipment, root: Node) {
    exists moves, t :: Leads(c, Start(root, 2), moves, t) && IsLost(t)
  }

  lemma {:induction false} NoFaultReadable(c: Shipment, s: State, moves: seq<Move>)
    requires IsRun(c, s, moves) && forall k :: 0 <= k < |moves| ==> moves[k].event.Go?
    ensures MarkerReadable(c, s, moves)
    decreases |moves|
  {
    if moves != [] {
      NoFaultReadable(c, Step(c, s, moves[0].process, moves[0].event), moves[1..]);
    }
  }

  /** Two processes without a single failure can end with one of them returned and the tree gone
      exactly over a stale root: one that is neither absent nor empty, and whose marker does not hold
      this shipment's hash. */
  lemma LosesIffStale(c: Shipment, root: Node)
    requires Valid(c)
    ensures CanLose(c, root) <==> root.Directory? && root.tree != map[] && !HoldsHash(c, root)
  {
    CompleteIsHash(c, root);
    if !Free(root) && !Complete(c, root) {
      var moves, t := StaleRootLosesTree(c, root);
      assert IsLost(t);
    } else if moves, t :| Leads(c, Start(root, 2), moves, t) && IsLost(t) {
      var i :| 0 <= i < |t.processes| && t.processes[i].pc == Finished(Returned);
      NoFaultReadable(c, Start(root, 2), moves);
      SameProcesses(c, Start(root, 2), moves);
      FinishedWell(c, root, 2, moves, i);
      assert false;
    }
  }

  // ----- one process alone

  /** How far a process has come over a root that is not complete, nobody else being there. */
  ghost predicate IsAlone(c: Shipment, root: Node, now: Node, p: Process) {
    && !p.faulted
    && match p.pc
       case Recheck(collision) => collision && now == root && !Free(root) && p.temporary == Directory(Whole(c))
       case RemoveRoot => now == root && p.temporary == Directory(Whole(c))
       case RenameAgain => now == Absent && p.temporary == Directory(Whole(c))
       case Cleanup(outcome) => outcome.Returned? && now == Directory(Whole(c)) && p.temporary == Absent
       case Finished(outcome) => outcome.Returned? && now == Directory(Whole(c)) && p.temporary == Absent
       case _ => now == root && Preparing(c, p)
  }

  lemma AloneStep(c: Shipment, root: Node, now: Node, p: Process, e: Event)
    requires Valid(c) && !Complete(c, root) && IsAlone(c, root, now, p) && Enabled(c, p, e) && e.Go?
    ensures var (now', p') := Advance(c, now, p, e); IsAlone(c, root, now', p')
  {
    WholeIsComplete(c);
    if InCopy(p.pc) || p.pc.Check? {
      AdvanceKeeps(c, Absent, p, e);
      assert Advance(c, root, p, e).1 == Advance(c, Absent, p, e).1 && Advance(c, root, p, e).0 == root by {
        hide ProcessInv, Modes, WithShim, Whole;
      }
    }
    hide Modes, WithShim, Whole;
  }

  lemma {:induction false} AloneRun(c: Shipment, root: Node, s: State, moves: seq<Move>)
    requires Valid(c) && !Complete(c, root) && IsRun(c, s, moves) && forall k :: 0 <= k < |moves| ==> moves[k].event.Go?
    requires |s.processes| == 1 && IsAlone(c, root, s.root, s.processes[0])
    ensures var t := After(c, s, moves); |t.processes| == 1 && IsAlone(c, root, t.root, t.processes[0])
    decreases |moves|
  {
    if moves != [] {
      hide Advance, IsAlone, Complete;
      AloneStep(c, root, s.root, s.processes[0], moves[0].event);
      AloneRun(c, root, Step(c, s, moves[0].process, moves[0].event), moves[1..]);
    }
  }

  /** A process that runs alone and without a failure, whatever it finds, returns over a root whose
      marker holds this shipment's hash: what it found, if that did, and the whole tree otherwise. */
  lemma AloneLeavesHash(c: Shipment, root: Node, moves: seq<Move>)
    requires Valid(c) && IsRun(c, Start(root, 1), moves) && forall k :: 0 <= k < |moves| ==> moves[k].event.Go?
    ensures var t := After(c, Start(root, 1), moves);
            |t.processes| == 1 &&
            (t.processes[0].pc.Finished? ==>
               && t.processes[0].pc == Finished(Returned) && t.processes[0].temporary == Absent
               && t.root == (if HoldsHash(c, root) then root else Directory(Whole(c)))
               && HoldsHash(c, t.root))
  {
    var s := Start(root, 1);
    CompleteIsHash(c, root);
    CompleteIsHash(c, Directory(Whole(c)));
    WholeIsComplete(c);
    SameProcesses(c, s, moves);
    if Complete(c, root) {
      NoFaultReadable(c, s, moves);
      StartInv(c, root, 1);
      RunSafe(c, s, moves);
      NoFaultUnfaulted(c, s, moves, 0);
      FinishedWell(c, root, 1, moves, 0);
    } else {
      AloneRun(c, root, s, moves);
    }
  }

  lemma {:induction false} NoFaultUnfaulted(c: Shipment, s: State, moves: seq<Move>, i: nat)
    requires IsRun(c, s, moves) && (forall k :: 0 <= k < |moves| ==> moves[k].event.Go?)
    requires i < |s.processes| && !s.processes[i].faulted
    ensures i < |After(c, s, moves).processes| && !After(c, s, moves).processes[i].faulted
    decreases |moves|
  {
    if moves != [] {
      NoFaultUnfaulted(c, Step(c, s, moves[0].process, moves[0].event), moves[1..], i);
    }
  }

  lemma ReplacedThenRemoved(c: Shipment, s: State, moves: seq<Move>, again: Process, removing: Process)
    returns (more: seq<Move>, t: State)
    requires Leads(c, s, moves, State(Absent, [again, removing])) && removing.pc.RemoveRoot?
    requires again == Process(RenameAgain, Directory(Whole(c)), false)
    ensures Leads(c, s, more, t)
    ensures t.root == Absent && |t.processes| == 2 && t.processes[0].pc == Finished(Returned)
  {
    var whole := Directory(Whole(c));
    var cleaning := Process(Cleanup(Returned), Absent, false);
    var finished := Process(Finished(Returned), Absent, false);
    hide Whole, Leads;
    more := FirstGoes(c, s, moves, Absent, again, removing, whole, cleaning);
    more := FirstGoes(c, s, more, whole, cleaning, removing, whole, finished);
    more := SecondGoes(c, s, more, whole, finished, removing, Absent, removing.(pc := RenameAgain));
    t := State(Absent, [finished, removing.(pc := RenameAgain)]);
  }

  /** One unreadable marker is enough: from an absent root, a process that fails to read the marker
      after losing the rename removes the winner's tree. */
  lemma UnreadableMarkerLosesTree(c: Shipment) returns (moves: seq<Move>, t: State)
    requires Valid(c)
    ensures IsRun(c, Start(Absent, 2), moves) && After(c, Start(Absent, 2), moves) == t
    ensures t.root == Absent && |t.processes| == 2 && t.processes[0].pc == Finished(Returned)
    ensures forall k :: 0 <= k < |moves| && moves[k].event.Fault? ==> k == |moves| - 2
  {
    var s := Start(Absent, 2);
    var whole := Directory(Whole(c));
    WholeIsComplete(c);
    var renaming := Process(Rename, whole, false);
    var removing := Process(RemoveRoot, whole, false);
    var cleaning := Process(Cleanup(Returned), Absent, false);
    var finished := Process(Finished(Returned), Absent, false);
    var looking := Process(Recheck(true), whole, false);
    moves := BothReady(c, Absent, renaming);
    assert Free(Absent);
    LosesFrom(c, s, whole, finished);
    hide Whole, Leads;
    moves := FirstGoes(c, s, moves, Absent, renaming, renaming, whole, cleaning);
    moves := FirstGoes(c, s, moves, whole, cleaning, renaming, whole, finished);
    moves := SecondGoes(c, s, moves, whole, finished, renaming, whole, looking);
    t := State(Absent, [finished, Process(RenameAgain, whole, false)]);
    moves := moves + [Move(1, Fault)] + [Move(1, Go(""))];
  }

  lemma LosesFrom(c: Shipment, s: State, whole: Node, finished: Process)
    ensures forall moves :: Leads(c, s, moves, State(whole, [finished, Process(Recheck(true), whole, false)])) ==>
              var all := moves + [Move(1, Fault)] + [Move(1, Go(""))];
              && IsRun(c, s, all)
              && After(c, s, all) == State(Absent, [finished, Process(RenameAgain, whole, false)])
              && forall k :: 0 <= k < |all| && all[k].event.Fault? ==> k == |all| - 2
  {
    forall moves | Leads(c, s, moves, State(whole, [finished, Process(Recheck(true), whole, false)]))
      ensures var all := moves + [Move(1, Fault)] + [Move(1, Go(""))];
              && IsRun(c, s, all)
              && After(c, s, all) == State(Absent, [finished, Process(RenameAgain, whole, false)])
              && forall k :: 0 <= k < |all| && all[k].event.Fault? ==> k == |all| - 2
    {
      Extend(c, s, moves, 1, Fault);
      Extend(c, s, moves + [Move(1, Fault)], 1, Go(""));
    }
  }
}
