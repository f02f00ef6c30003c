/**
 Crash recovery of the desktop's proxy settings: the settings in force are written to a state file
 before they are replaced, and every start puts back what the file holds. Each file or settings
 operation is a step after which the process may die.
 */
module SysProxy {
  datatype Settings = Settings(platform: string, data: map<string, string>)

  /** Absent, half written, or holding saved settings. */
  datatype StateFile = Absent | Garbled | Holds(saved: Settings)

  datatype Mode = System | Other

  /** How the operating system answers during one session. A failing operation leaves the settings as they were. */
  datatype Answers = Answers(
    load: bool,        // the state file can be read, if there is one
    manager: bool,     // a proxy manager can be created
    restore: bool,     // Restore succeeds
    remove: bool,      // the state file can be removed
    setup: bool,       // core and inbound can be set up
    get: bool,         // Get succeeds
    open: bool,        // the state file can be opened for writing, which empties it
    write: bool,       // the state file can be written
    set_: bool         // Set succeeds
  )

  const ALL_WELL := Answers(true, true, true, true, true, true, true, true, true)

  /** How far a start got; Running carries the settings to put back. */
  datatype Outcome = Running(prev: Settings) | Idle | Refused | Died

  class Desktop {
    /** The settings the user had. */
    ghost const original: Settings
    var os: Settings
    var file: StateFile
    /** Steps left before the process dies. */
    var budget: nat

    constructor (os: Settings)
      ensures original == os && this.os == os && file == Absent && Sound()
    {
      original, this.os, file, budget := os, os, Absent, 0;
    }

    /** The user's settings are in force, or the file still holds them. */
    ghost predicate Safe()
      reads this
    {
      os == original || file == Holds(original)
    }

    /** Safe, and the file never holds anything but the user's settings. */
    ghost predicate Sound()
      reads this
    {
      Safe() && (file.Holds? ==> file.saved == original)
    }

    method Step() returns (alive: bool)
      modifies `budget
      ensures alive <==> old(budget) > 0
      ensures budget == if alive then old(budget) - 1 else 0
    {
      alive := budget > 0;
      if alive {
        budget := budget - 1;
      }
    }

    /** The process dies at some step before its n-th. */
    ghost predicate DiesBefore(n: nat)
      reads this
    {
      budget < n
    }

    method Restore(saved: Settings, a: Answers) returns (alive: bool)
      modifies `os, `budget
      ensures alive <==> old(budget) > 0
      ensures budget == if alive then old(budget) - 1 else 0
      ensures os == if alive && a.restore then saved else old(os)
    {
      alive := Step();
      if alive && a.restore {
        os := saved;
      }
    }

    method ClearState(a: Answers) returns (alive: bool)
      modifies `file, `budget
      ensures alive <==> old(budget) > 0
      ensures budget == if alive then old(budget) - 1 else 0
      ensures file == if alive && a.remove then Absent else old(file)
    {
      alive := Step();
      if alive && a.remove {
        file := Absent;
      }
    }

    /** The file is truncated first and filled next; dying in between leaves it garbled. When it cannot be opened
        it stays as it is. */
    method SaveState(s: Settings, a: Answers) returns (alive: bool, ok: bool)
      modifies `file, `budget
      ensures alive <==> !a.open || old(budget) > 1
      ensures budget == if !a.open then old(budget) else if alive then old(budget) - 2 else 0
      ensures ok <==> alive && a.open && a.write
      ensures file == if !a.open || old(budget) == 0 then old(file) else if ok then Holds(s) else Garbled
    {
      ok := false;
      if !a.open {
        return true, ok;
      }
      alive := Step();
      if alive {
        file := Garbled;
        alive := Step();
        if alive && a.write {
          file := Holds(s);
          ok := true;
        }
      }
    }

    /** Recovery finds saved settings to put back. */
    predicate Stale(a: Answers)
      reads this
    {
      a.load && file.Holds?
    }

    /** What recovery forgets: the file is removed although the user's settings were not put back. */
    ghost predicate RecoveryForgets(a: Answers)
      reads this
    {
      && Stale(a) && os != original
      && !(a.manager && a.restore) && a.remove
      && !DiesBefore(RecoverySteps(a))
    }

    /** The recovery at the head of New. */
    method Recover(a: Answers) returns (alive: bool)
      requires Sound()
      modifies `os, `file, `budget
      ensures Sound() <==> !old(RecoveryForgets(a))
      ensures alive && Restores(a) ==> os == original
      ensures alive <==> !old(Stale(a) && DiesBefore(RecoverySteps(a)))
      ensures os == if Restores(a) && old(Stale(a) && !DiesBefore(1)) then original else old(os)
      ensures alive ==> budget + (if old(Stale(a)) then RecoverySteps(a) else 0) == old(budget)
      ensures file == if alive && a.remove && old(Stale(a)) then Absent else old(file)
    {
      alive := true;
      if a.load && file.Holds? {
        if a.manager {
          alive := Restore(file.saved, a);
          if !alive {
            return;
          }
        }
        alive := ClearState(a);
      }
    }

    /** The system-mode part of New: remember what is in force, then replace it. */
    method TakeOver(proxy: Settings, a: Answers) returns (r: Outcome)
      modifies `os, `file, `budget
      ensures old(Sound()) && old(os) == original ==> Sound()
      ensures r.Running? ==> r.prev == old(os) && os == proxy && file == Holds(old(os))
      ensures !(a.manager && a.get && a.open && old(budget) > 0) ==> !r.Running? && os == old(os) && file == old(file)
      ensures old(os) != original && a.manager && a.get && a.open && old(budget) > 0 && proxy != original ==> !Safe()
      ensures old(!Safe()) && proxy != original ==> !Safe()
      ensures !r.Running? ==> os == old(os) && !r.Idle?
      ensures r.Running? <==> a.manager && a.get && a.open && a.write && a.set_ && old(budget) >= 3
    {
      if !a.manager || !a.get {
        return Refused;
      }
      var prev := os;
      var alive, ok := SaveState(prev, a);
      if !alive {
        return Died;
      }
      if !ok {
        return Refused;
      }
      alive := Step();
      if !alive {
        return Died;
      }
      if !a.set_ {
        alive := ClearState(a);
        return if alive then Refused else Died;
      }
      os := proxy;
      return Running(prev);
    }

    /** A start loses the user's settings exactly when they are not in force, are not put back, and the process
        lives long enough to remove the file or to overwrite it with what is in force. */
    ghost predicate StartForgets(mode: Mode, a: Answers)
      reads this
    {
      && os != original && !Restores(a)
      && (if a.load && a.remove then !DiesBefore(RecoverySteps(a))
          else Overwrites(mode, a) && !DiesBefore(if a.load then 3 else 1))
    }

    /** New, in any mode. */
    method Start(mode: Mode, proxy: Settings, a: Answers) returns (r: Outcome)
      requires Sound()
      modifies `os, `file, `budget
      ensures !old(StartForgets(mode, a)) ==> Sound()
      ensures !old(StartForgets(mode, a)) && r.Running? ==> r.prev == original && os == proxy && file == Holds(original)
      ensures mode == System && a == ALL_WELL && old(budget) >= 5 ==> r.Running?
      ensures r.Running? ==> mode == System
      ensures !r.Running? ==> os == if Restores(a) && old(Stale(a) && !DiesBefore(1)) then original else old(os)
      ensures r.Idle? <==> mode == Other && a.setup && !old(Stale(a) && DiesBefore(RecoverySteps(a)))
      ensures mode == Other ==> file == old(file) || file == Absent
      ensures old(StartForgets(mode, a)) && proxy != original ==> !Safe()
    {
      var alive := Recover(a);
      if !alive {
        return Died;
      }
      if !a.setup {
        return Refused;
      }
      if mode == Other {
        return Idle;
      }
      r := TakeOver(proxy, a);
    }

    ghost predicate StopForgets(a: Answers)
      reads this
    {
      os != original && !a.restore && a.remove && !DiesBefore(2)
    }

    /** The settings part of Close: put back, then remove the file whether or not that worked. */
    method Stop(prev: Settings, a: Answers) returns (alive: bool)
      requires Sound() && prev == original
      modifies `os, `file, `budget
      ensures Sound() <==> !old(StopForgets(a))
      ensures os == if a.restore && !old(DiesBefore(1)) then original else old(os)
      ensures file == if a.remove && !old(DiesBefore(2)) then Absent else old(file)
      ensures alive <==> !old(DiesBefore(2))
    {
      alive := Restore(prev, a);
      if alive {
        alive := ClearState(a);
      }
    }

    /** Any sequence of starts in any mode, each ended by a stop, by dying at any step, or by dying later. */
    method Run(sessions: seq<Session>)
      requires Sound()
      requires forall i | 0 <= i < |sessions| :: !MayForget(sessions[i])
      modifies this
      ensures Sound()
    {
      for i := 0 to |sessions|
        invariant Sound()
      {
        var s := sessions[i];
        budget := s.steps;
        var r := Start(s.mode, s.proxy, s.answers);
        if r.Running? && s.stopped {
          var _ := Stop(r.prev, s.answers);
        }
      }
    }

    /** After any such history, a start whose recovery completes has put the user's settings back. */
    method RunThenRecover(sessions: seq<Session>, a: Answers, steps: nat) returns (alive: bool)
      requires Sound()
      requires forall i | 0 <= i < |sessions| :: !MayForget(sessions[i])
      requires Restores(a)
      modifies this
      ensures alive ==> os == original
      ensures steps >= 2 ==> alive
    {
      Run(sessions);
      budget := steps;
      alive := Recover(a);
    }
  }

  /** Recovery can do its work. */
  predicate Restores(a: Answers) { a.load && a.manager && a.restore }

  /** How many steps recovery takes when there is something to put back. */
  function RecoverySteps(a: Answers): nat { if a.manager then 2 else 1 }

  /** The start goes on to write the settings in force into the file. */
  predicate Overwrites(mode: Mode, a: Answers) { mode == System && a.manager && a.setup && a.get && a.open }

  /** One process: how it was started, how the system answered, after how many steps it died, whether it was stopped. */
  datatype Session = Session(mode: Mode, proxy: Settings, answers: Answers, steps: nat, stopped: bool)

  /** In some state this session loses the user's settings: without a working recovery it removes or overwrites the
      file, or it stops without a working Restore and removes the file. */
  predicate MayForget(s: Session) {
    var a := s.answers;
    || (!Restores(a) && ((a.load && a.remove) || Overwrites(s.mode, a)))
    || (s.mode == System && s.stopped && !a.restore && a.remove)
  }

  /** A crash while running followed by one start whose Restore fails loses the user's settings for good:
      the file is removed all the same. */
  method FailedRestoreForgets(os: Settings, proxy: Settings) returns (d: Desktop)
    requires os != proxy
    ensures d.original == os && !d.Safe()
  {
    d := new Desktop(os);
    d.budget := 5;
    var _ := d.Start(System, proxy, ALL_WELL);
    d.budget := 2;
    var _ := d.Start(Other, proxy, ALL_WELL.(restore := false));
  }
}
