/** The lock and socket that keep one daemon running, as interleaved steps of
    any number of processes that may be killed between any two. */
module Instance {
  import opened Collections

  type Pid = nat
  type Inode = nat

  /** Where a process is in `bind_socket`, in its serving life, or in dropping
      its guard. The inode is the socket it bound, or found at the path. */
  datatype Phase =
    | Starting                          // about to try the lock
    | Locked                            // holds it, about to bind
    | Occupied                          // bind found a file at the path
    | Refused(found: Inode)             // nothing answered there
    | Unlinked                          // removed it, about to bind again
    | Binding(bound: Inode)             // named in the file system, not yet listening
    | Listening(bound: Inode)           // guard made; serving
    | Closing(bound: Inode)             // listener closed first, guard still held
    | Matched(bound: Inode, open: bool) // the path was found to be ours, about to unlink
    | Released(bound: Inode, open: bool)// lock given up; perhaps not yet closed
    | Failed(bound: Inode)              // gave up after binding, before the guard
    | Gone                              // exited or killed

  /** What the file system and the processes hold. Sockets are numbered by
      inode, and a number may come back once nothing uses it. */
  datatype World = World(
    path: Option<Inode>,
    lock: Option<Pid>,
    procs: map<Pid, Phase>)

  predicate Has(w: World, p: Pid, phase: Phase) {
    p in w.procs && w.procs[p] == phase
  }

  /** The socket a process keeps open, if any. */
  function OpenSocket(phase: Phase): Option<Inode> {
    match phase
    case Binding(i) => Some(i)
    case Listening(i) => Some(i)
    case Failed(i) => Some(i)
    case Matched(i, open) => if open then Some(i) else None
    case Released(i, open) => if open then Some(i) else None
    case _ => None
  }

  /** A connection to the inode would be answered. */
  predicate Answers(w: World, i: Inode) {
    exists p <- w.procs :: OpenSocket(w.procs[p]) == Some(i) && !w.procs[p].Binding?
  }

  /** Someone has it open, listening or not. */
  ghost predicate InUse(w: World, i: Inode) {
    w.path == Some(i) || exists p <- w.procs :: OpenSocket(w.procs[p]) == Some(i)
  }

  /** The phases in which a process holds the lock. */
  predicate HoldsLock(phase: Phase) {
    match phase
    case Starting => false
    case Released(_, _) => false
    case Gone => false
    case _ => true
  }

  /** Between binding and its guard's unlink a process is the instance. */
  predicate IsBound(phase: Phase) {
    phase.Binding? || phase.Listening? || phase.Closing? || phase.Matched?
  }

  function Bound(phase: Phase): Inode
    requires IsBound(phase)
  {
    phase.bound
  }

  function Move(w: World, p: Pid, phase: Phase): World {
    w.(procs := w.procs[p := phase])
  }

  function Unlock(w: World, p: Pid): Option<Pid> {
    if w.lock == Some(p) then None else w.lock
  }

  datatype Step =
    | Launch              // a process starts
    | TakeLock            // flock succeeds
    | LoseLock            // flock would block: already running
    | BindFree(inode: Inode) // bind at an empty path
    | BindTaken           // bind finds a file there
    | ConnectAnswered     // something answers: left alone, already running
    | ConnectRefused      // nothing listens there
    | ConnectVanished     // the path is gone: an error
    | Unlink              // remove the stale socket
    | UnlinkFails
    | Listen              // the second half of bind; then the guard is made
    | FailAfterBind       // an error between bind and guard
    | CloseListener
    | DropMatches         // the guard finds its own inode at the path
    | DropDiffers         // or another one, or none: nothing to remove
    | DropUnlinks
    | DropUnlinkFails     // ignored
    | Kill                // by anything, at any point

  /** Whether `p` can take this step now. */
  ghost predicate CanStep(w: World, p: Pid, step: Step) {
    if step.Launch? then p !in w.procs || w.procs[p].Gone?
    else
      p in w.procs &&
      var phase := w.procs[p];
      match step
      case Launch => false
      case TakeLock => phase.Starting? && w.lock.None?
      case LoseLock => phase.Starting? && w.lock.Some?
      case BindFree(i) => (phase.Locked? || phase.Unlinked?) && w.path.None? && !InUse(w, i)
      case BindTaken => (phase.Locked? || phase.Unlinked?) && w.path.Some?
      case ConnectAnswered => phase.Occupied? && w.path.Some? && Answers(w, w.path.value)
      case ConnectRefused => phase.Occupied? && w.path.Some? && !Answers(w, w.path.value)
      case ConnectVanished => phase.Occupied? && w.path.None?
      case Unlink => phase.Refused? && w.path.Some?
      case UnlinkFails => phase.Refused?
      case Listen => phase.Binding?
      case FailAfterBind => phase.Binding?
      case CloseListener => phase.Listening? || phase.Failed? || (phase.Released? && phase.open)
      case DropMatches => (phase.Listening? || phase.Closing?) && w.path == Some(phase.bound)
      case DropDiffers => (phase.Listening? || phase.Closing?) && w.path != Some(phase.bound)
      case DropUnlinks => phase.Matched?
      case DropUnlinkFails => phase.Matched?
      case Kill => !phase.Gone?
  }

  function After(w: World, p: Pid, step: Step): World
    requires !step.Launch? ==> p in w.procs
  {
    var phase := if p in w.procs then w.procs[p] else Gone;
    match step
    case Launch => Move(w, p, Starting)
    case TakeLock => Move(w, p, Locked).(lock := Some(p))
    case LoseLock => Move(w, p, Gone)
    case BindFree(i) => Move(w, p, Binding(i)).(path := Some(i))
    case BindTaken =>
      // A second bind that finds a file again is an error.
      if phase.Locked? then Move(w, p, Occupied) else Move(w, p, Gone).(lock := Unlock(w, p))
    case ConnectAnswered => Move(w, p, Gone).(lock := Unlock(w, p))
    case ConnectRefused => Move(w, p, Refused(if w.path.Some? then w.path.value else 0))
    case ConnectVanished => Move(w, p, Gone).(lock := Unlock(w, p))
    case Unlink => Move(w, p, Unlinked).(path := None)
    case UnlinkFails => Move(w, p, Gone).(lock := Unlock(w, p))
    case Listen => Move(w, p, if phase.Binding? then Listening(phase.bound) else phase)
    case FailAfterBind => Move(w, p, if phase.Binding? then Failed(phase.bound) else phase)
    case CloseListener =>
      (match phase
       case Listening(i) => Move(w, p, Closing(i))
       case Failed(_) => Move(w, p, Gone).(lock := Unlock(w, p))
       case _ => Move(w, p, Gone))
    case DropMatches =>
      Move(w, p, if phase.Listening? || phase.Closing? then Matched(phase.bound, phase.Listening?) else phase)
    case DropDiffers =>
      Move(w, p, if phase.Listening? || phase.Closing? then Released(phase.bound, phase.Listening?) else phase)
        .(lock := Unlock(w, p))
    case DropUnlinks =>
      Move(w, p, if phase.Matched? then Released(phase.bound, phase.open) else phase)
        .(path := None, lock := Unlock(w, p))
    case DropUnlinkFails =>
      Move(w, p, if phase.Matched? then Released(phase.bound, phase.open) else phase).(lock := Unlock(w, p))
    case Kill => Move(w, p, Gone).(lock := Unlock(w, p))
  }

  // ----- what every step keeps

  ghost predicate NobodyHas(w: World, i: Inode) {
    forall p <- w.procs :: OpenSocket(w.procs[p]) != Some(i)
  }

  /** What a process's phase says about the rest of the world. */
  ghost predicate ProcessOk(w: World, p: Pid)
    requires p in w.procs
  {
    var phase := w.procs[p];
    && (HoldsLock(phase) ==> w.lock == Some(p))
    && (IsBound(phase) ==> w.path == Some(Bound(phase)))
    && (phase.Occupied? ==> w.path.Some?)
    && (phase.Refused? ==> w.path == Some(phase.found) && NobodyHas(w, phase.found))
    && (phase.Unlinked? ==> w.path.None?)
  }

  ghost predicate Safe(w: World) {
    && (forall p <- w.procs :: ProcessOk(w, p))
    && (w.lock.Some? ==> w.lock.value in w.procs && HoldsLock(w.procs[w.lock.value]))
  }

  /** Steps that change only the process itself, or let its lock go. */
  predicate IsQuiet(step: Step) {
    !step.TakeLock? && !step.BindFree? && !step.Unlink? && !step.DropUnlinks?
  }

  lemma QuietStepKeepsSafe(w: World, p: Pid, step: Step)
    requires Safe(w) && CanStep(w, p, step) && IsQuiet(step)
    ensures Safe(After(w, p, step))
  {
    var w' := After(w, p, step);
    if step.ConnectRefused? {
      RefusedMeansNobody(w, p);
    }
    forall q <- w'.procs ensures ProcessOk(w', q) {
      if q != p {
        assert ProcessOk(w, q);
        if w.procs[q].Refused? {
          StillNobody(w, p, step, w.procs[q].found);
        }
      } else if p in w.procs {
        assert ProcessOk(w, p);
      }
    }
  }

  lemma RefusedMeansNobody(w: World, p: Pid)
    requires Safe(w) && p in w.procs && HoldsLock(w.procs[p]) && w.procs[p].Occupied?
    requires w.path.Some? && !Answers(w, w.path.value)
    ensures NobodyHas(w, w.path.value)
    ensures NobodyHas(Move(w, p, Refused(w.path.value)), w.path.value)
  {
    forall q <- w.procs ensures OpenSocket(w.procs[q]) != Some(w.path.value) {
      assert ProcessOk(w, q) && ProcessOk(w, p);
    }
  }

  lemma StillNobody(w: World, p: Pid, step: Step, i: Inode)
    requires CanStep(w, p, step) && IsQuiet(step) && NobodyHas(w, i)
    ensures NobodyHas(After(w, p, step), i)
  {
  }

  lemma LoudStepKeepsSafe(w: World, p: Pid, step: Step)
    requires Safe(w) && CanStep(w, p, step) && !IsQuiet(step)
    ensures Safe(After(w, p, step))
  {
    var w' := After(w, p, step);
    assert ProcessOk(w, p);
    forall q <- w'.procs ensures ProcessOk(w', q) {
      assert ProcessOk(w, q);
    }
  }

  lemma StepKeepsSafe(w: World, p: Pid, step: Step)
    requires Safe(w) && CanStep(w, p, step)
    ensures Safe(After(w, p, step))
  {
    if IsQuiet(step) {
      QuietStepKeepsSafe(w, p, step);
    } else {
      LoudStepKeepsSafe(w, p, step);
    }
  }

  // ----- whole runs

  datatype Run = Run(worlds: seq<World>, moves: seq<(Pid, Step)>)

  /** A run from a world with no process in it, whatever socket may have been
      left behind, each move being one some process could make. */
  ghost predicate IsRun(run: Run) {
    && |run.worlds| == |run.moves| + 1
    && run.worlds[0].procs == map[] && run.worlds[0].lock.None?
    && forall i :: 0 <= i < |run.moves| ==> Moves(run.worlds[i], run.moves[i], run.worlds[i + 1])
  }

  ghost predicate Moves(w: World, move: (Pid, Step), w': World) {
    CanStep(w, move.0, move.1) && w' == After(w, move.0, move.1)
  }

  lemma {:induction false} RunsAreSafe(run: Run, i: nat)
    requires IsRun(run) && i < |run.worlds|
    ensures Safe(run.worlds[i])
  {
    if i > 0 {
      RunsAreSafe(run, i - 1);
      assert Moves(run.worlds[i - 1], run.moves[i - 1], run.worlds[i]);
      StepKeepsSafe(run.worlds[i - 1], run.moves[i - 1].0, run.moves[i - 1].1);
    }
  }

  /** At any point of any run at most one process is bound, and it is the one
      that holds the lock. */
  lemma AtMostOneBound(run: Run, i: nat, p: Pid, q: Pid)
    requires IsRun(run) && i < |run.worlds|
    requires var procs := run.worlds[i].procs;
      p in procs && q in procs && IsBound(procs[p]) && IsBound(procs[q])
    ensures p == q && run.worlds[i].lock == Some(p)
  {
    RunsAreSafe(run, i);
    assert ProcessOk(run.worlds[i], p) && ProcessOk(run.worlds[i], q);
  }

  ghost predicate BoundThroughout(run: Run, p: Pid, i: nat, j: nat)
    requires i <= j < |run.worlds|
  {
    forall k :: i <= k <= j ==> p in run.worlds[k].procs && IsBound(run.worlds[k].procs[p])
  }

  lemma BoundStaysPut(w: World, move: (Pid, Step), w': World, p: Pid)
    requires Moves(w, move, w')
    requires p in w.procs && p in w'.procs && IsBound(w.procs[p]) && IsBound(w'.procs[p])
    ensures Bound(w'.procs[p]) == Bound(w.procs[p])
  {
  }

  /** From its bind until its own guard drops, a daemon's path names the inode
      it bound, whatever the others do. */
  lemma {:induction false} PathKeepsNamingTheBound(run: Run, p: Pid, i: nat, j: nat)
    requires IsRun(run) && i <= j < |run.worlds| && BoundThroughout(run, p, i, j)
    ensures Bound(run.worlds[j].procs[p]) == Bound(run.worlds[i].procs[p])
    ensures run.worlds[j].path == Some(Bound(run.worlds[i].procs[p]))
  {
    RunsAreSafe(run, j);
    assert ProcessOk(run.worlds[j], p);
    if i < j {
      assert p in run.worlds[j - 1].procs && IsBound(run.worlds[j - 1].procs[p]);
      PathKeepsNamingTheBound(run, p, i, j - 1);
      assert Moves(run.worlds[j - 1], run.moves[j - 1], run.worlds[j]);
      BoundStaysPut(run.worlds[j - 1], run.moves[j - 1], run.worlds[j], p);
    }
  }

  /** Every removal of the socket is safe: a stale one has no process behind it,
      and a guard removes only what it bound. A process that leaves because the
      lock was taken leaves a live holder behind. */
  lemma RemovalsAreSafe(run: Run, i: nat)
    requires IsRun(run) && i < |run.moves|
    ensures var (w, (p, step)) := (run.worlds[i], run.moves[i]);
      && (step.Unlink? ==> w.path.Some? && NobodyHas(w, w.path.value) && w.lock == Some(p))
      && (step.DropUnlinks? ==>
            p in w.procs && IsBound(w.procs[p]) && w.path == Some(Bound(w.procs[p])) && w.lock == Some(p))
      && (step.LoseLock? ==>
            w.lock.Some? && w.lock.value in w.procs && HoldsLock(w.procs[w.lock.value]) && w.lock != Some(p))
  {
    RunsAreSafe(run, i);
    var w, p := run.worlds[i], run.moves[i].0;
    assert Moves(w, run.moves[i], run.worlds[i + 1]);
    if p in w.procs {
      assert ProcessOk(w, p);
    }
  }

  /** Two branches are there for other programs only: no process following this
      protocol ever finds the path gone under it, or another's at its drop. */
  lemma DefensiveBranchesAreIdle(run: Run, i: nat)
    requires IsRun(run) && i < |run.moves|
    ensures !run.moves[i].1.ConnectVanished? && !run.moves[i].1.DropDiffers?
  {
    RunsAreSafe(run, i);
    var w, p := run.worlds[i], run.moves[i].0;
    assert Moves(w, run.moves[i], run.worlds[i + 1]);
    if p in w.procs {
      assert ProcessOk(w, p);
    }
  }

  /** A stale socket never keeps the next daemon out: alone, a process that has
      the lock reaches listening whatever is at the path. */
  lemma StaleSocketIsReplaced(w: World, p: Pid, i: Inode)
    requires Safe(w) && Has(w, p, Locked) && w.path.Some? && NobodyHas(w, w.path.value)
    requires NobodyHas(w, i)
    ensures CanStep(w, p, BindTaken)
    ensures var w1 := After(w, p, BindTaken);
      && CanStep(w1, p, ConnectRefused)
      && var w2 := After(w1, p, ConnectRefused);
      && CanStep(w2, p, Unlink)
      && var w3 := After(w2, p, Unlink);
      && CanStep(w3, p, BindFree(i))
      && var w4 := After(w3, p, BindFree(i));
      && CanStep(w4, p, Listen)
      && Has(After(w4, p, Listen), p, Listening(i)) && After(w4, p, Listen).path == Some(i)
  {
  }

  /** A daemon that drops its guard undisturbed leaves no socket and no lock behind,
      whichever of listener and guard goes first. */
  lemma CleanExitLeavesNothing(w: World, p: Pid, i: Inode)
    requires Safe(w) && (Has(w, p, Listening(i)) || Has(w, p, Closing(i)))
    ensures CanStep(w, p, DropMatches)
    ensures var w1 := After(w, p, DropMatches);
      && CanStep(w1, p, DropUnlinks)
      && var w2 := After(w1, p, DropUnlinks);
      && w2.path.None? && w2.lock.None?
      && (forall q <- w2.procs :: !HoldsLock(w2.procs[q]))
      && (Has(w, p, Listening(i)) ==>
            CanStep(w2, p, CloseListener) && Has(After(w2, p, CloseListener), p, Gone))
  {
    assert ProcessOk(w, p);
    var w1 := After(w, p, DropMatches);
    StepKeepsSafe(w, p, DropMatches);
    StepKeepsSafe(w1, p, DropUnlinks);
    var w2 := After(w1, p, DropUnlinks);
    assert forall q <- w2.procs :: ProcessOk(w2, q);
  }

  /** `p` has the inode open and has come as far as listening on it. */
  predicate Listens(w: World, p: Pid, i: Inode) {
    Has(w, p, Listening(i)) || Has(w, p, Failed(i)) || Has(w, p, Matched(i, true)) || Has(w, p, Released(i, true))
  }

  /** A socket answers exactly while someone listens on it: bound is not enough, and a
      guard dropped or a start given up does not end it before the listener goes. */
  lemma AnswersExactly(w: World, i: Inode)
    ensures Answers(w, i) <==> exists p: Pid :: Listens(w, p, i)
  {
    if Answers(w, i) {
      var p :| p in w.procs && OpenSocket(w.procs[p]) == Some(i) && !w.procs[p].Binding?;
      assert Listens(w, p, i);
    }
    if p: Pid :| Listens(w, p, i) {
      assert p in w.procs && OpenSocket(w.procs[p]) == Some(i);
    }
  }

  // ----- one process, undisturbed

  /** A process that has nothing open, before or after, is not heard. */
  lemma QuietlyMoved(w: World, w': World, p: Pid, i: Inode)
    requires p in w'.procs && w'.procs == w.procs[p := w'.procs[p]]
    requires OpenSocket(w'.procs[p]).None? && (p in w.procs ==> OpenSocket(w.procs[p]).None?)
    ensures Answers(w', i) == Answers(w, i)
    ensures NobodyHas(w, i) ==> NobodyHas(w', i)
  {
    if Answers(w, i) {
      var q :| q in w.procs && OpenSocket(w.procs[q]) == Some(i) && !w.procs[q].Binding?;
      assert q in w'.procs && w'.procs[q] == w.procs[q];
    }
    if Answers(w', i) {
      var q :| q in w'.procs && OpenSocket(w'.procs[q]) == Some(i) && !w'.procs[q].Binding?;
      assert q in w.procs && w'.procs[q] == w.procs[q];
    }
  }

  datatype Outcome = BoundSocket | AlreadyRunning

  /** The shared state, changed one step at a time. */
  class Host {
    var world: World

    constructor (path: Option<Inode>)
      ensures world == World(path, None, map[]) && Safe(world)
    {
      world := World(path, None, map[]);
    }

    method Do(p: Pid, step: Step)
      requires Safe(world) && CanStep(world, p, step)
      modifies this
      ensures world == After(old(world), p, step) && Safe(world)
    {
      StepKeepsSafe(world, p, step);
      world := After(world, p, step);
    }

    /** `acquire_lock`, nobody else moving. */
    method AcquireLock(p: Pid) returns (held: bool)
      requires Safe(world) && CanStep(world, p, Launch)
      modifies this
      ensures Safe(world) && world.path == old(world.path)
      ensures held <==> old(world.lock).None?
      ensures held ==> Has(world, p, Locked) && world.lock == Some(p)
      ensures !held ==> Has(world, p, Gone) && world.lock == old(world.lock)
      ensures world.procs == old(world.procs)[p := world.procs[p]]
    {
      Do(p, Launch);
      held := world.lock.None?;
      if held {
        Do(p, TakeLock);
      } else {
        Do(p, LoseLock);
      }
    }

    /** `bind_socket` from start to guard, nothing failing and nobody else
        moving: bound exactly when the lock is free and nothing answers, with
        any stale socket replaced. */
    method BindSocket(p: Pid, inode: Inode) returns (outcome: Outcome)
      requires Safe(world) && CanStep(world, p, Launch)
      requires NobodyHas(world, inode) && world.path != Some(inode)
      modifies this
      ensures Safe(world)
      ensures outcome.BoundSocket? <==>
        old(world.lock).None? && (old(world.path).Some? ==> !Answers(old(world), old(world.path).value))
      ensures if outcome.BoundSocket? then Has(world, p, Listening(inode)) && world.path == Some(inode)
              else Has(world, p, Gone) && world.path == old(world.path) && world.lock == old(world.lock)
    {
      ghost var before := world;
      var held := AcquireLock(p);
      if !held {
        return AlreadyRunning;
      }
      if world.path.Some? {
        QuietlyMoved(before, world, p, world.path.value);
        Do(p, BindTaken);
        QuietlyMoved(before, world, p, world.path.value);
        if Answers(world, world.path.value) {
          Do(p, ConnectAnswered);
          return AlreadyRunning;
        }
        Do(p, ConnectRefused);
        Do(p, Unlink);
      }
      QuietlyMoved(before, world, p, inode);
      Do(p, BindFree(inode));
      Do(p, Listen);
      outcome := BoundSocket;
    }
  }
}
